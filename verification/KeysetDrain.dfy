/**
 The enrichment drains (crates/backfill-enrichment-runner/src/main.rs): keyset
 pagination over a candidate set that other writers, and the drain itself, keep
 changing. A key stands for its position in the table's sort order.
 */
module KeysetDrain {
  import opened Options
  import opened Sets

  const I64_LIMIT: nat := 0x8000_0000_0000_0000
  const U64_LIMIT: nat := 0x1_0000_0000_0000_0000

  /** `usize as i64`. */
  function AsI64(n: nat): int
    requires n < U64_LIMIT
  {
    if n < I64_LIMIT then n else n - U64_LIMIT
  }

  /** Cap a chunk so that the total never overshoots the limit. */
  function EffectiveChunk(chunkSize: int, limit: Option<nat>, processed: nat): (n: int)
    requires chunkSize >= 1 && (limit.Some? ==> limit.value < U64_LIMIT)
    ensures 0 <= n <= chunkSize
    ensures limit.Some? && processed <= limit.value ==> processed + n <= limit.value
  {
    match limit
    case None => chunkSize
    case Some(cap) =>
      var remaining := AsI64(if cap >= processed then cap - processed else 0);
      var capped := if remaining > 0 then remaining else 0;
      if chunkSize < capped then chunkSize else capped
  }

  predicate LimitReached(limit: Option<nat>, processed: nat)
  {
    limit.Some? && processed >= limit.value
  }

  /** A whole chunk, or what is left to the limit, whichever is less; nothing where the cast turns what is left negative. */
  lemma ChunkIs(chunkSize: int, limit: Option<nat>, processed: nat)
    requires chunkSize >= 1 && (limit.Some? ==> processed <= limit.value < 0x1_0000_0000_0000_0000)
    ensures limit == None ==> EffectiveChunk(chunkSize, limit, processed) == chunkSize
    ensures limit.Some? && limit.value - processed >= 0x8000_0000_0000_0000 ==> EffectiveChunk(chunkSize, limit, processed) == 0
    ensures limit.Some? && limit.value - processed < 0x8000_0000_0000_0000 ==>
              var n := EffectiveChunk(chunkSize, limit, processed);
              n <= chunkSize && n <= limit.value - processed && (n == chunkSize || n == limit.value - processed)
  {
  }

  /** Before the limit is reached the next chunk asks for something, except that a remainder of 2^63 or
      more turns negative in the cast and asks for nothing. */
  lemma ChunkPositiveIff(chunkSize: int, limit: Option<nat>, processed: nat)
    requires chunkSize >= 1 && (limit.Some? ==> limit.value < U64_LIMIT) && !LimitReached(limit, processed)
    ensures EffectiveChunk(chunkSize, limit, processed) >= 1 <==> (limit.Some? ==> limit.value - processed < I64_LIMIT)
  {
  }

  // ---------- The report ----------

  datatype Outcome = Real | Sentinel | Transient | DatabaseError | Panicked

  class Report {
    var processed: nat
    var enriched: nat
    var sentinel: nat
    var unreachable: nat
    var dbFailed: nat

    /** Every processed key is counted under one outcome. */
    ghost predicate Valid()
      reads this
    {
      processed == enriched + sentinel + unreachable + dbFailed
    }

    constructor ()
      ensures Valid() && processed == 0 && enriched == 0 && sentinel == 0 && unreachable == 0 && dbFailed == 0
    {
      processed, enriched, sentinel, unreachable, dbFailed := 0, 0, 0, 0, 0;
    }

    /** Fold one joined task; a panic counts as a database failure. */
    method CollectJoin(o: Outcome)
      requires Valid()
      modifies this
      ensures Valid() && processed == old(processed) + 1
      ensures enriched == old(enriched) + (if o == Real then 1 else 0)
      ensures sentinel == old(sentinel) + (if o == Sentinel then 1 else 0)
      ensures unreachable == old(unreachable) + (if o == Transient then 1 else 0)
      ensures dbFailed == old(dbFailed) + (if o in {DatabaseError, Panicked} then 1 else 0)
    {
      processed := processed + 1;
      match o
      case Real => enriched := enriched + 1;
      case Sentinel => sentinel := sentinel + 1;
      case Transient => unreachable := unreachable + 1;
      case DatabaseError => dbFailed := dbFailed + 1;
      case Panicked => dbFailed := dbFailed + 1;
    }
  }

  // ---------- The candidate query ----------

  ghost predicate Ascending(keys: seq<int>)
  {
    forall i, j :: 0 <= i < j < |keys| ==> keys[i] < keys[j]
  }

  predicate After(cursor: Option<int>, k: int)
  {
    cursor == None || cursor.value < k
  }

  /** `SELECT … WHERE key > cursor ORDER BY key LIMIT n` over the candidates of the moment. */
  ghost predicate IsPage(keys: seq<int>, candidates: set<int>, cursor: Option<int>, n: int)
  {
    && Ascending(keys) && |keys| <= n
    && (forall k :: k in keys ==> k in candidates && After(cursor, k))
    && forall k :: k in candidates && After(cursor, k) && k !in keys ==> |keys| == n && (keys != [] ==> keys[|keys| - 1] < k)
  }

  /** The database answers the `t`-th query from the candidates of that moment. */
  ghost predicate Answers(select: (nat, Option<int>, int) -> seq<int>, candidates: nat -> set<int>)
  {
    forall t, cursor, n: int :: n >= 0 ==> IsPage(select(t, cursor, n), candidates(t), cursor, n)
  }

  /** The `t`-th query's page passed the key: it was ahead of the cursor before and is not after. `cursors` are the
      cursors of the queries, in order, and the last one. */
  ghost predicate Reached(k: int, t: int, cursors: seq<Option<int>>)
  {
    0 <= t < |cursors| - 1 && After(cursors[t], k) && !After(cursors[t + 1], k)
  }

  ghost predicate Passed(k: int, cursors: seq<Option<int>>)
  {
    exists t :: Reached(k, t, cursors)
  }

  /** The key was a candidate at every query made while it was still ahead. */
  ghost predicate StayedUntilReached(k: int, cursors: seq<Option<int>>, candidates: nat -> set<int>)
  {
    forall t :: 0 <= t < |cursors| - 1 && After(cursors[t], k) ==> k in candidates(t)
  }

  /** A key passed by a page was visited exactly when it was a candidate at that query. */
  ghost predicate Exact(visited: seq<int>, cursors: seq<Option<int>>, candidates: nat -> set<int>)
  {
    forall k, t :: Reached(k, t, cursors) ==> (k in visited <==> k in candidates(t))
  }

  /** The cursor only moves on. */
  ghost predicate MovesOn(cursors: seq<Option<int>>)
  {
    forall i, j, k :: 0 <= i <= j < |cursors| && After(cursors[j], k) ==> After(cursors[i], k)
  }

  function LastOf(visited: seq<int>): Option<int>
  {
    if visited == [] then None else Some(visited[|visited| - 1])
  }

  /** Where the drain stands after the queries of `cursors`. */
  ghost predicate Drained(visited: seq<int>, cursors: seq<Option<int>>, candidates: nat -> set<int>)
  {
    && Ascending(visited)
    && cursors != [] && cursors[0] == None && cursors[|cursors| - 1] == LastOf(visited)
    && MovesOn(cursors) && Exact(visited, cursors, candidates)
  }

  /** Every key not ahead of the last cursor was passed by some page. */
  lemma {:induction false} ReachedOnce(k: int, cursors: seq<Option<int>>) returns (t: nat)
    requires cursors != [] && cursors[0] == None && !After(cursors[|cursors| - 1], k)
    ensures Reached(k, t, cursors)
    decreases |cursors|
  {
    var n := |cursors| - 1;
    if After(cursors[n - 1], k) {
      t := n - 1;
    } else {
      t := ReachedOnce(k, cursors[..n]);
    }
  }

  lemma PageDrained(visited: seq<int>, cursors: seq<Option<int>>, candidates: nat -> set<int>, keys: seq<int>, n: int)
    requires Drained(visited, cursors, candidates)
    requires IsPage(keys, candidates(|cursors| - 1), LastOf(visited), n) && keys != []
    ensures Drained(visited + keys, cursors + [Some(keys[|keys| - 1])], candidates)
  {
    var all, last, cursor := visited + keys, keys[|keys| - 1], LastOf(visited);
    var more := cursors + [Some(last)];
    assert last in keys;
    assert forall k :: k in visited ==> !After(cursor, k);
    PageAscends(visited, keys);
    forall i, j, k | 0 <= i <= j < |more| && After(more[j], k) ensures After(more[i], k) {
      if i < j == |cursors| { assert After(cursor, k); }
    }
    forall k, t | Reached(k, t, more) ensures k in all <==> k in candidates(t) {
      if t < |cursors| - 1 {
        assert Reached(k, t, cursors) && !After(cursors[|cursors| - 1], k);
      } else {
        assert After(cursor, k) && k <= last;
      }
    }
  }

  lemma PageAscends(visited: seq<int>, keys: seq<int>)
    requires Ascending(visited) && Ascending(keys) && forall k :: k in keys ==> After(LastOf(visited), k)
    ensures Ascending(visited + keys)
  {
    var all := visited + keys;
    forall i, j | 0 <= i < j < |all| ensures all[i] < all[j] {
      if i < |visited| <= j {
        assert visited[i] <= visited[|visited| - 1] < keys[j - |visited|] by { assert keys[j - |visited|] in keys; }
      }
    }
  }

  /** An empty page, when something was asked for, leaves no candidate ahead; it moves nothing. */
  lemma NothingAhead(visited: seq<int>, cursors: seq<Option<int>>, candidates: nat -> set<int>, n: int)
    requires Drained(visited, cursors, candidates) && IsPage([], candidates(|cursors| - 1), LastOf(visited), n)
    ensures Drained(visited, cursors + [LastOf(visited)], candidates)
    ensures n >= 1 ==> forall k :: StayedUntilReached(k, cursors + [LastOf(visited)], candidates) ==> k in visited
  {
    var more, q := cursors + [LastOf(visited)], |cursors| - 1;
    forall i, j, k | 0 <= i <= j < |more| && After(more[j], k) ensures After(more[i], k) {
      if j == |cursors| { assert After(cursors[q], k); }
    }
    forall k, t | Reached(k, t, more) ensures k in visited <==> k in candidates(t) {
      assert t < q && Reached(k, t, cursors);
    }
    forall k | n >= 1 && StayedUntilReached(k, more, candidates) ensures k in visited {
      assert more[q] == LastOf(visited);
      assert !After(more[q], k);
      var t := ReachedOnce(k, cursors);
      assert more[t] == cursors[t] && k in candidates(t);
    }
  }

  ghost function Ahead(universe: set<int>, cursor: Option<int>): set<int>
  {
    set k | k in universe && After(cursor, k)
  }

  /** The drain loop. `candidates(t)` is the candidate set at the `t`-th query, whatever changed it; only
      finitely many keys, those of `universe`, are ever candidates. `cursors` are the cursors of the queries made,
      and the last one. */
  method Drain(select: (nat, Option<int>, int) -> seq<int>, outcome: int -> Outcome, chunkSize: int, limit: Option<nat>,
               ghost candidates: nat -> set<int>, ghost universe: set<int>)
    returns (report: Report, visited: seq<int>, ghost cursors: seq<Option<int>>)
    requires chunkSize >= 1 && (limit.Some? ==> limit.value < U64_LIMIT)
    requires Answers(select, candidates) && forall t :: candidates(t) <= universe
    ensures fresh(report) && report.Valid() && report.processed == |visited|
    ensures Ascending(visited) && (limit.Some? ==> |visited| <= limit.value)
    // up to the last key visited, limit or not: each key was passed by a page, and visited exactly when it was a
    // candidate at that query
    ensures Exact(visited, cursors, candidates) && MovesOn(cursors)
    ensures forall k :: !After(LastOf(visited), k) ==> Passed(k, cursors)
    // nothing that stays a candidate until it is reached is missed
    ensures limit == None || (|visited| < limit.value && limit.value < I64_LIMIT) ==>
              forall k :: StayedUntilReached(k, cursors, candidates) ==> k in visited
    ensures limit.Some? && limit.value >= I64_LIMIT ==> visited == []
    // the report counts each visited key once, under its own outcome
    ensures report.enriched == |set k | k in visited && outcome(k) == Real|
    ensures report.sentinel == |set k | k in visited && outcome(k) == Sentinel|
    ensures report.unreachable == |set k | k in visited && outcome(k) == Transient|
    ensures report.dbFailed == |set k | k in visited && outcome(k) in {DatabaseError, Panicked}|
  {
    hide WithOutcome, IsPage, Drained, Exact, MovesOn, Reached, Passed, StayedUntilReached, Ascending, After, EffectiveChunk, AsI64;
    report := new Report();
    visited, cursors := [], [None];
    var rounds: nat := 0;
    var cursor: Option<int> := None;
    NothingDrained(candidates);
    NothingTallied(outcome);
    while true
      invariant fresh(report) && report.Valid() && report.processed == |visited|
      invariant Drained(visited, cursors, candidates) && |cursors| == rounds + 1 && cursor == LastOf(visited)
      invariant Tallied(report, visited, outcome)
      invariant limit.Some? ==> |visited| <= limit.value
      invariant limit.Some? && limit.value >= I64_LIMIT ==> visited == []
      decreases |Ahead(universe, cursor)|
    {
      if LimitReached(limit, report.processed) { break; }
      var chunk := EffectiveChunk(chunkSize, limit, report.processed);
      var keys := select(rounds, cursor, chunk);
      assert IsPage(keys, candidates(rounds), cursor, chunk);
      ChunkPositiveIff(chunkSize, limit, report.processed);
      PageSize(keys, candidates(rounds), cursor, chunk);
      rounds := rounds + 1;
      if keys == [] {
        NothingAhead(visited, cursors, candidates, chunk);
        cursors := cursors + [cursor];
        break;
      }
      PageDrained(visited, cursors, candidates, keys, chunk);
      DrainedSays(visited + keys, cursors + [Some(keys[|keys| - 1])], candidates);
      CursorAdvances(universe, cursor, candidates(rounds - 1), keys, chunk);
      ghost var before := visited;
      cursor := Some(keys[|keys| - 1]);
      cursors := cursors + [cursor];
      for i := 0 to |keys|
        invariant fresh(report) && report.Valid() && report.processed == |visited|
        invariant visited == before + keys[..i] && Tallied(report, visited, outcome)
      {
        assert keys[i] !in visited by { NotYetVisited(before, keys, i); }
        OneMore(visited, keys[i], outcome);
        report.CollectJoin(outcome(keys[i]));
        visited := visited + [keys[i]];
      }
      assert keys[..|keys|] == keys;
    }
    DrainedSays(visited, cursors, candidates);
    TalliedSays(visited, outcome);
  }

  /** The visited keys that came to one of these outcomes, and how many they are. */
  function CameTo(visited: seq<int>, outcome: int -> Outcome, which: set<Outcome>): set<int>
  {
    set k | k in visited && outcome(k) in which
  }

  function WithOutcome(visited: seq<int>, outcome: int -> Outcome, which: set<Outcome>): nat
  {
    |CameTo(visited, outcome, which)|
  }

  ghost predicate Tallied(report: Report, visited: seq<int>, outcome: int -> Outcome)
    reads report
  {
    && report.enriched == WithOutcome(visited, outcome, {Real})
    && report.sentinel == WithOutcome(visited, outcome, {Sentinel})
    && report.unreachable == WithOutcome(visited, outcome, {Transient})
    && report.dbFailed == WithOutcome(visited, outcome, {DatabaseError, Panicked})
  }

  lemma OneMore(visited: seq<int>, k: int, outcome: int -> Outcome)
    requires k !in visited
    ensures forall which :: WithOutcome(visited + [k], outcome, which)
                         == WithOutcome(visited, outcome, which) + (if outcome(k) in which then 1 else 0)
  {
    forall which ensures WithOutcome(visited + [k], outcome, which)
                      == WithOutcome(visited, outcome, which) + (if outcome(k) in which then 1 else 0)
    {
      assert CameTo(visited + [k], outcome, which) == CameTo(visited, outcome, which) + (if outcome(k) in which then {k} else {});
    }
  }

  lemma NotYetVisited(before: seq<int>, keys: seq<int>, i: nat)
    requires Ascending(before + keys) && i < |keys|
    ensures keys[i] !in before + keys[..i]
  {
    var all := before + keys;
    assert all[|before| + i] == keys[i];
    assert forall j :: 0 <= j < |before| + i ==> (before + keys[..i])[j] == all[j];
  }

  lemma NothingTallied(outcome: int -> Outcome)
    ensures forall which :: WithOutcome([], outcome, which) == 0
  {
    forall which ensures WithOutcome([], outcome, which) == 0 {
      assert CameTo([], outcome, which) == {};
    }
  }

  lemma TalliedSays(visited: seq<int>, outcome: int -> Outcome)
    ensures WithOutcome(visited, outcome, {Real}) == |set k | k in visited && outcome(k) == Real|
    ensures WithOutcome(visited, outcome, {Sentinel}) == |set k | k in visited && outcome(k) == Sentinel|
    ensures WithOutcome(visited, outcome, {Transient}) == |set k | k in visited && outcome(k) == Transient|
    ensures WithOutcome(visited, outcome, {DatabaseError, Panicked}) == |set k | k in visited && outcome(k) in {DatabaseError, Panicked}|
  {
    assert CameTo(visited, outcome, {Real}) == set k | k in visited && outcome(k) == Real;
    assert CameTo(visited, outcome, {Sentinel}) == set k | k in visited && outcome(k) == Sentinel;
    assert CameTo(visited, outcome, {Transient}) == set k | k in visited && outcome(k) == Transient;
    assert CameTo(visited, outcome, {DatabaseError, Panicked}) == set k | k in visited && outcome(k) in {DatabaseError, Panicked};
  }

  lemma NothingDrained(candidates: nat -> set<int>)
    ensures Drained([], [None], candidates)
  {
  }

  lemma DrainedSays(visited: seq<int>, cursors: seq<Option<int>>, candidates: nat -> set<int>)
    requires Drained(visited, cursors, candidates)
    ensures Ascending(visited) && Exact(visited, cursors, candidates) && MovesOn(cursors)
    ensures forall k :: !After(LastOf(visited), k) ==> Passed(k, cursors)
  {
    forall k | !After(LastOf(visited), k) ensures Passed(k, cursors) {
      var t := ReachedOnce(k, cursors);
    }
  }

  lemma PageSize(keys: seq<int>, candidates: set<int>, cursor: Option<int>, n: int)
    requires IsPage(keys, candidates, cursor, n)
    ensures |keys| <= n
  {
  }

  lemma CursorAdvances(universe: set<int>, cursor: Option<int>, candidates: set<int>, keys: seq<int>, n: int)
    requires IsPage(keys, candidates, cursor, n) && keys != [] && candidates <= universe
    ensures |Ahead(universe, Some(keys[|keys| - 1]))| < |Ahead(universe, cursor)|
  {
    var last := keys[|keys| - 1];
    var before, after := Ahead(universe, cursor), Ahead(universe, Some(last));
    assert last in keys && last in before && last !in after;
    assert after <= before - {last};
    SubsetSize(after, before - {last});
  }
}
