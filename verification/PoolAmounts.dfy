/** Streaming a pool's events through a ledger-aligned buffer (crates/backfill-runner/src/soroban_pool_amounts.rs). */
module PoolAmounts {
  import opened Options

  datatype Event = Event(ledger: nat, position: nat)

  const CHUNK_EVENTS: nat := 100_000

  ghost predicate LedgerSorted(events: seq<Event>)
  {
    forall i, j :: 0 <= i < j < |events| ==> events[i].ledger <= events[j].ledger
  }

  /** No ledger has events on both sides of the cut. */
  ghost predicate CutBetween(a: seq<Event>, b: seq<Event>)
  {
    forall i, j :: 0 <= i < |a| && 0 <= j < |b| ==> a[i].ledger < b[j].ledger
  }

  /** The decoder looks at one ledger at a time: it may be cut wherever no ledger is. */
  ghost predicate LedgerLocal<R(!new)>(decode: seq<Event> -> seq<R>)
  {
    forall a, b :: LedgerSorted(a + b) && CutBetween(a, b) ==> decode(a + b) == decode(a) + decode(b)
  }

  /** No ledger has more than `m` events. */
  ghost predicate LedgersWithin(events: seq<Event>, m: nat)
  {
    forall i, j :: 0 <= i <= j < |events| && events[i].ledger == events[j].ledger ==> j - i < m
  }

  lemma EmptyDecodesToNothing<R(!new)>(decode: seq<Event> -> seq<R>)
    requires LedgerLocal(decode)
    ensures decode([]) == []
  {
    var none: seq<Event> := [];
    assert CutBetween(none, none) && none + none == none;
    assert |decode(none)| == |decode(none)| + |decode(none)|;
  }

  /** `events[from..to]` is one buffer: from `group` on it holds a single ledger, and before that it is short. */
  ghost predicate Buffered(events: seq<Event>, from: nat, group: nat, to: nat)
  {
    && from <= group <= to <= |events| && (from < to ==> group < to)
    && group - from < CHUNK_EVENTS
    && forall k :: group <= k < to ==> events[k].ledger == events[to - 1].ledger
  }

  /** The next event starts a ledger, after fewer events than a chunk has. */
  lemma LedgerStarts(events: seq<Event>, from: nat, i: nat)
    requires from <= i < |events| && i - from < CHUNK_EVENTS
    ensures Buffered(events, from, i, i + 1)
  {
  }

  /** The next event is the buffer's first, or of its last ledger. */
  lemma LedgerGoesOn(events: seq<Event>, from: nat, group: nat, i: nat)
    requires Buffered(events, from, group, i) && i < |events| && (from < i ==> events[i].ledger == events[i - 1].ledger)
    ensures Buffered(events, from, group, i + 1)
  {
  }

  lemma SliceGrows(events: seq<Event>, from: nat, i: nat)
    requires from <= i < |events|
    ensures events[from..i] + [events[i]] == events[from..i + 1]
  {
  }

  lemma NothingBuffered(events: seq<Event>, i: nat)
    requires i <= |events|
    ensures Buffered(events, i, i, i)
  {
  }

  lemma BufferBound(events: seq<Event>, from: nat, group: nat, to: nat, m: nat)
    requires Buffered(events, from, group, to) && LedgersWithin(events, m)
    ensures to - from <= CHUNK_EVENTS - 1 + m
  {
    if group < to { assert events[group].ledger == events[to - 1].ledger; }
  }

  /** Where the ledger changes the stream can be cut. */
  lemma CutWhereLedgerChanges(events: seq<Event>, to: nat)
    requires 0 < to < |events| && LedgerSorted(events) && events[to].ledger != events[to - 1].ledger
    ensures CutBetween(events[..to], events[to..])
  {
    forall i, j | 0 <= i < to && 0 <= j < |events| - to ensures events[..to][i].ledger < events[to..][j].ledger {
      assert events[i].ledger <= events[to - 1].ledger < events[to].ledger <= events[to + j].ledger;
    }
  }

  /** A cut of the stream is one of any front of it. */
  lemma CutOfFront(events: seq<Event>, from: nat, to: nat)
    requires from <= to <= |events| && LedgerSorted(events) && CutBetween(events[..from], events[from..])
    ensures LedgerSorted(events[..to]) && CutBetween(events[..from], events[from..to])
  {
    forall i, j | 0 <= i < from && 0 <= j < to - from ensures events[..from][i].ledger < events[from..to][j].ledger {
      assert events[from..to][j] == events[from..][j];
    }
  }

  /** A buffer is cut off where its ledger ends. */
  lemma CutIsLocal<R(!new)>(events: seq<Event>, from: nat, to: nat, decode: seq<Event> -> seq<R>)
    requires from <= to <= |events| && LedgerSorted(events) && LedgerLocal(decode)
    requires CutBetween(events[..from], events[from..])
    requires from < to < |events| ==> events[to].ledger != events[to - 1].ledger
    ensures decode(events[..to]) == decode(events[..from]) + decode(events[from..to])
    ensures from < to || to == |events| ==> CutBetween(events[..to], events[to..])
  {
    CutOfFront(events, from, to);
    assert events[..from] + events[from..to] == events[..to];
    if from < to < |events| { CutWhereLedgerChanges(events, to); }
  }

  datatype Stats = Stats(eventsRead: nat, rows: nat)

  /** `cuts` are where the buffers end: strictly ascending, each at a ledger boundary. */
  ghost predicate CutsOk(events: seq<Event>, cuts: seq<nat>)
  {
    && (forall i :: 0 <= i < |cuts| ==> cuts[i] <= |events| && CutBetween(events[..cuts[i]], events[cuts[i]..]))
    && forall i, j :: 0 <= i < j < |cuts| ==> cuts[i] < cuts[j]
  }

  function BufferSize(cuts: seq<nat>, c: nat): int
    requires c < |cuts|
  {
    var start: int := if c == 0 then 0 else cuts[c - 1];
    cuts[c] - start
  }

  /** No decoded buffer is longer than a chunk less one event plus `m`. */
  ghost predicate ChunksWithin(cuts: seq<nat>, m: nat)
  {
    forall c :: 0 <= c < |cuts| ==> BufferSize(cuts, c) <= 99_999 + m
  }

  /** Every decoded buffer but the last is a chunk at least. */
  ghost predicate ChunksFull(cuts: seq<nat>, n: nat)
  {
    n <= |cuts| && forall c :: 0 <= c < n ==> BufferSize(cuts, c) >= 100_000
  }

  lemma ChunkFull(cuts: seq<nat>, i: nat)
    requires ChunksFull(cuts, |cuts|)
    ensures ChunksFull(cuts + [i], |cuts|)
    ensures i - LastCut(cuts) >= 100_000 ==> ChunksFull(cuts + [i], |cuts| + 1)
  {
    assert forall c :: 0 <= c < |cuts| ==> BufferSize(cuts + [i], c) == BufferSize(cuts, c);
  }

  /** No decoded buffer is longer than a chunk less one event plus the largest ledger. */
  ghost predicate Bounded(events: seq<Event>, cuts: seq<nat>)
  {
    forall m: nat :: LedgersWithin(events, m) ==> ChunksWithin(cuts, m)
  }

  function LastCut(cuts: seq<nat>): nat
  {
    if cuts == [] then 0 else cuts[|cuts| - 1]
  }

  lemma ChunkAdded(cuts: seq<nat>, i: nat, m: nat)
    requires ChunksWithin(cuts, m) && i - LastCut(cuts) <= 99_999 + m
    ensures ChunksWithin(cuts + [i], m)
  {
    var more := cuts + [i];
    forall c | 0 <= c < |more| ensures BufferSize(more, c) <= 99_999 + m {
      if c < |cuts| { assert BufferSize(more, c) == BufferSize(cuts, c); }
    }
  }

  lemma CutBounded(events: seq<Event>, cuts: seq<nat>, from: nat, group: nat, i: nat)
    requires Bounded(events, cuts) && Buffered(events, from, group, i) && from == LastCut(cuts)
    ensures Bounded(events, cuts + [i])
  {
    forall m: nat | LedgersWithin(events, m) ensures ChunksWithin(cuts + [i], m) {
      BufferBound(events, from, group, i, m);
      ChunkAdded(cuts, i, m);
    }
  }

  lemma NothingCut(events: seq<Event>)
    ensures ChunksFull([], 0) && CutsOk(events, []) && CutBetween(events[..0], events[0..]) && Bounded(events, [])
  {
  }

  lemma CutAdded(events: seq<Event>, cuts: seq<nat>, i: nat)
    requires CutsOk(events, cuts) && i <= |events| && (cuts != [] ==> LastCut(cuts) < i) && CutBetween(events[..i], events[i..])
    ensures CutsOk(events, cuts + [i])
  {
  }

  /** The first `n` events are decoded, and their last ledger is whole. */
  ghost predicate Decoded<R(!new)>(events: seq<Event>, decode: seq<Event> -> seq<R>, n: nat, rows: seq<R>)
  {
    n <= |events| && rows == decode(events[..n]) && CutBetween(events[..n], events[n..])
  }

  lemma NothingDecoded<R(!new)>(events: seq<Event>, decode: seq<Event> -> seq<R>)
    requires LedgerLocal(decode)
    ensures Decoded(events, decode, 0, [])
  {
    EmptyDecodesToNothing(decode);
  }

  /** A buffer cut off where its ledger ends adds its rows. */
  lemma BufferDecoded<R(!new)>(events: seq<Event>, decode: seq<Event> -> seq<R>, from: nat, to: nat, rows: seq<R>, cuts: seq<nat>)
    requires LedgerSorted(events) && LedgerLocal(decode) && Decoded(events, decode, from, rows)
    requires from <= to <= |events| && (from < to || to == |events|) && (from < to < |events| ==> events[to].ledger != events[to - 1].ledger)
    requires CutsOk(events, cuts) && (cuts != [] ==> LastCut(cuts) < to)
    ensures Decoded(events, decode, to, rows + decode(events[from..to]))
    ensures CutsOk(events, cuts + [to])
  {
    hide LedgerLocal, LedgerSorted, CutBetween, CutsOk;
    CutIsLocal(events, from, to, decode);
    CutAdded(events, cuts, to);
  }

  lemma AllDecoded<R(!new)>(events: seq<Event>, decode: seq<Event> -> seq<R>, rows: seq<R>)
    requires Decoded(events, decode, |events|, rows)
    ensures rows == decode(events)
  {
    assert events[..|events|] == events;
  }

  /** The buffering loop over one pool's events; `cuts` are the positions at which it decoded its buffer. */
  method StreamPool<R(!new)>(events: seq<Event>, decode: seq<Event> -> seq<R>, dryRun: bool)
    returns (stats: Stats, inserted: seq<R>, ghost cuts: seq<nat>)
    requires LedgerSorted(events) && LedgerLocal(decode)
    ensures inserted == if dryRun then [] else decode(events)
    ensures stats == Stats(|events|, |decode(events)|)
    ensures CutsOk(events, cuts) && cuts != [] && LastCut(cuts) == |events|
    ensures Bounded(events, cuts) && ChunksFull(cuts, |cuts| - 1)
  {
    hide ChunksFull, LedgersWithin, LedgerLocal, LedgerSorted, CutsOk, Bounded, Buffered, Decoded;
    var buf: seq<Event> := [];
    var i: nat := 0;
    var eventsRead: nat, rowCount: nat := 0, 0;
    ghost var group: nat, decoded: seq<R> := 0, [];
    inserted, cuts := [], [];
    var done := false;
    NothingDecoded(events, decode);
    NothingCut(events);
    NothingBuffered(events, 0);
    while !done
      invariant eventsRead + |buf| == i <= |events| && (done ==> i == |events| && buf == [])
      invariant buf == events[eventsRead..i] && Buffered(events, eventsRead, group, i)
      invariant Decoded(events, decode, eventsRead, decoded) && CutsOk(events, cuts) && Bounded(events, cuts)
      invariant eventsRead == LastCut(cuts)
      invariant if done then cuts != [] && ChunksFull(cuts, |cuts| - 1) else ChunksFull(cuts, |cuts|)
      invariant (done ==> cuts != []) && (cuts != [] && !done ==> buf != [])
      invariant rowCount == |decoded| && inserted == if dryRun then [] else decoded
      decreases !done, |events| - i
    {
      var next := if i < |events| then Some(events[i]) else None;
      var ledgerEnds := match next
        case None => true
        case Some(n) => buf != [] && n.ledger != buf[|buf| - 1].ledger;
      assert buf != [] ==> buf[|buf| - 1] == events[i - 1];
      if ledgerEnds && (next == None || |buf| >= CHUNK_EVENTS) {
        var rows := decode(buf);
        BufferDecoded(events, decode, eventsRead, i, decoded, cuts);
        CutBounded(events, cuts, eventsRead, group, i);
        ChunkFull(cuts, i);
        decoded := decoded + rows;
        eventsRead := eventsRead + |buf|;
        rowCount := rowCount + |rows|;
        if !dryRun { inserted := inserted + rows; }
        cuts := cuts + [i];
        buf := [];
        group := i;
        assert events[i..i] == [];
        NothingBuffered(events, i);
      } else if ledgerEnds {
        group := i;
      }
      match next
      case Some(e) =>
        if ledgerEnds { LedgerStarts(events, eventsRead, i); } else { LedgerGoesOn(events, eventsRead, group, i); }
        SliceGrows(events, eventsRead, i);
        buf := buf + [e];
        i := i + 1;
      case None => done := true;
    }
    stats := Stats(eventsRead, rowCount);
    AllDecoded(events, decode, decoded);
  }
}
