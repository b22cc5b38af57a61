/** The archive's 64,000-ledger partitions (crates/backfill-runner/src/partition.rs), with u32 overflow explicit. */
module Partitions {
  import opened Options
  import opened Sets

  const U32_MAX: nat := 0xFFFF_FFFF
  const PARTITION_SIZE: nat := 64_000
  const FIRST_CLOSED_LEDGER: nat := 2

  /** The first ledger whose partition would end past `u32::MAX`. */
  const OVERFLOW_LEDGER: nat := 4_294_912_000

  /** The ledgers `low` to `high`. */
  function Range(low: nat, high: nat): (r: set<nat>)
    ensures forall q: nat :: q in r <==> low <= q <= high
    ensures low <= high + 1 ==> |r| == high - low + 1
    decreases high + 1 - low
  {
    if low > high then {} else {low} + Range(low + 1, high)
  }

  datatype Partition = Partition(start: nat, end: nat)
  {
    function FirstLedger(): nat
    {
      if start < FIRST_CLOSED_LEDGER then FIRST_CLOSED_LEDGER else start
    }

    function LedgerCount(): int
    {
      end - FirstLedger() + 1
    }

    /** The part of `[runStart, runEnd]` this partition covers: inclusive bounds. */
    function Clamped(runStart: nat, runEnd: nat): (nat, nat)
    {
      (if runStart < FirstLedger() then FirstLedger() else runStart, if runEnd < end then runEnd else end)
    }

    /** Every ledger a complete copy of the partition holds. */
    function Files(): set<nat>
    {
      Range(FirstLedger(), end)
    }

    predicate Wf()
    {
      start % PARTITION_SIZE == 0 && end == start + (PARTITION_SIZE - 1)
    }
  }

  /** `None` where the u32 arithmetic overflows. */
  function FromLedger(q: nat): (p: Option<Partition>)
    ensures p.Some? ==> p.value.Wf() && p.value.start <= q <= p.value.end <= U32_MAX
  {
    var start := q - q % PARTITION_SIZE;
    if start + (PARTITION_SIZE - 1) > U32_MAX then None else Some(Partition(start, start + (PARTITION_SIZE - 1)))
  }

  /** The first two partitions, and the one ledger 62016086 lies in. */
  lemma SomePartitions()
    ensures FromLedger(0) == FromLedger(2) == FromLedger(63_999) == Some(Partition(0, 63_999))
    ensures FromLedger(64_000) == Some(Partition(64_000, 127_999)) && FromLedger(62_016_086) == Some(Partition(62_016_000, 62_079_999))
    ensures Partition(0, 63_999).FirstLedger() == 2 && Partition(0, 63_999).LedgerCount() == 63_998
    ensures Partition(64_000, 127_999).FirstLedger() == 64_000 && Partition(64_000, 127_999).LedgerCount() == 64_000
    ensures Partition(62_016_000, 62_079_999).Clamped(62_000_000, 62_016_086) == (62_016_000, 62_016_086)
  {
  }

  lemma FromLedgerIff(q: nat)
    ensures FromLedger(q).Some? <==> q < OVERFLOW_LEDGER
  {
    assert OVERFLOW_LEDGER == 67108 * PARTITION_SIZE;
  }

  /** The partitions covering `[cursor, end]`, ascending. */
  function Tiles(cursor: nat, end: nat): seq<Partition>
    decreases end + 1 - cursor
  {
    if cursor > end || FromLedger(cursor) == None then []
    else [FromLedger(cursor).value] + Tiles(FromLedger(cursor).value.end + 1, end)
  }

  /** `None` where the u32 arithmetic overflows: exactly when the range reaches the last, cut-off partition. */
  method PartitionsForRange(start: nat, end: nat) returns (result: Option<seq<Partition>>)
    requires start <= U32_MAX && end <= U32_MAX
    ensures result == None <==> start <= end && end >= OVERFLOW_LEDGER
    ensures result.Some? ==> result.value == Tiles(start, end)
  {
    var ps: seq<Partition> := [];
    if start > end { return Some(ps); }
    var cursor := start;
    while cursor <= end
      invariant ps + Tiles(cursor, end) == Tiles(start, end)
      invariant end >= OVERFLOW_LEDGER ==> cursor <= OVERFLOW_LEDGER || cursor == start
      decreases end + 1 - cursor
    {
      FromLedgerIff(cursor);
      var p := FromLedger(cursor);
      if p == None { return None; }
      ps := ps + [p.value];
      cursor := p.value.end + 1;
    }
    return Some(ps);
  }

  /** The ledgers of the run's range that lie in partition `p`. */
  ghost predicate InClamped(p: Partition, runStart: nat, runEnd: nat, q: nat)
  {
    p.Clamped(runStart, runEnd).0 <= q <= p.Clamped(runStart, runEnd).1
  }

  ghost predicate Ascending(ps: seq<Partition>)
  {
    && (forall i :: 0 <= i < |ps| ==> ps[i].Wf())
    && forall i, j :: 0 <= i < j < |ps| ==> ps[i].end < ps[j].start
  }

  lemma {:induction false} TilesAscend(cursor: nat, end: nat)
    ensures Ascending(Tiles(cursor, end))
    ensures forall i :: 0 <= i < |Tiles(cursor, end)| ==> Tiles(cursor, end)[i].end >= cursor && Tiles(cursor, end)[i].start <= end
    ensures forall i :: 1 <= i < |Tiles(cursor, end)| ==> Tiles(cursor, end)[i].start >= cursor
    decreases end + 1 - cursor
  {
    if cursor <= end && FromLedger(cursor).Some? {
      var p := FromLedger(cursor).value;
      TilesAscend(p.end + 1, end);
      var rest := Tiles(p.end + 1, end);
      assert rest != [] ==> rest[0].Wf() && rest[0].end > p.end && rest[0].start > p.end by {
        if rest != [] { NextStartsAfter(p, rest[0]); }
      }
      assert forall i :: 0 <= i < |rest| ==> rest[i].start > p.end;
    }
  }

  lemma NextStartsAfter(p: Partition, q: Partition)
    requires p.Wf() && q.Wf() && q.end > p.end
    ensures q.start > p.end
  {
    var a, b := p.start / PARTITION_SIZE, q.start / PARTITION_SIZE;
    assert p.start == a * PARTITION_SIZE && q.start == b * PARTITION_SIZE;
    assert b > a;
  }

  /** Every ledger of the range that can exist lies in the clamped part of one partition, and nothing else does. */
  lemma {:induction false} TilesCover(start: nat, end: nat, q: nat)
    requires end < OVERFLOW_LEDGER
    ensures (exists i :: 0 <= i < |Tiles(start, end)| && InClamped(Tiles(start, end)[i], start, end, q))
       <==> start <= q <= end && q >= FIRST_CLOSED_LEDGER
  {
    TilesAscend(start, end);
    if start <= q <= end && q >= FIRST_CLOSED_LEDGER {
      var i := TileOf(start, end, q);
      assert InClamped(Tiles(start, end)[i], start, end, q);
    }
  }

  lemma {:induction false} TileOf(start: nat, end: nat, q: nat) returns (i: nat)
    requires start <= q <= end < OVERFLOW_LEDGER
    ensures i < |Tiles(start, end)| && Tiles(start, end)[i].start <= q <= Tiles(start, end)[i].end
    decreases end - start
  {
    FromLedgerIff(start);
    var p := FromLedger(start).value;
    if q <= p.end { return 0; }
    var k := TileOf(p.end + 1, end, q);
    return k + 1;
  }

  /** No ledger lies in two partitions. */
  lemma TilesDisjoint(start: nat, end: nat, i: nat, j: nat, q: nat)
    requires i < |Tiles(start, end)| && j < |Tiles(start, end)|
    requires InClamped(Tiles(start, end)[i], start, end, q) && InClamped(Tiles(start, end)[j], start, end, q)
    ensures i == j
  {
    TilesAscend(start, end);
  }

  // ---------- A folder with the right number of files is the whole partition ----------

  lemma FilesCount(p: Partition)
    requires p.Wf()
    ensures |p.Files()| == p.LedgerCount() > 0
  {
  }

  /** By pigeonhole: a folder holding only this partition's ledgers is complete exactly when the count is right. */
  lemma CountMeansComplete(p: Partition, local: set<nat>)
    requires p.Wf() && local <= p.Files()
    ensures |local| == p.LedgerCount() <==> local == p.Files()
  {
    FilesCount(p);
    if |local| == p.LedgerCount() { SubsetSize(local, p.Files()); }
  }
}
