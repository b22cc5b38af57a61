/**
 The backfill driver (`execute` in crates/backfill-runner/src/run.rs) as the loop it is. The fetch of the
 next partition is carried out where its outcome is awaited: BackfillRun treats the interleavings, and
 the two partitions' folders have nothing in common.
 */
module BackfillExecute {
  import opened BackfillRun
  import opened Ingest
  import opened Options
  import opened Partitions
  import opened Sync

  /** Every ledger file on disk; a ledger names its partition's folder. */
  class Disk {
    var files: set<nat>
  }

  /** What syncing a partition meets: see `SyncPartition`. */
  datatype Fetch = Fetch(first: Pull, listed: Option<nat>, second: Pull)

  /** What a run meets: what each partition's syncs bring, which ledgers' files parse and can be deleted, which
      tables a ledger has rows for, and which inserts of a partition the server takes. */
  datatype World = World(fetch: Partition -> Fetch, parses: nat -> bool, unlinks: nat -> bool, touches: nat -> set<nat>,
                         acks: Partition -> (nat -> bool))

  /** Syncs bring only the partition's own files, and rows go to the tables there are. */
  ghost predicate WorldOk(w: World)
  {
    && WithinTables(w.touches)
    && forall p ::
         && (w.fetch(p).first.Pulled? ==> w.fetch(p).first.files <= p.Files())
         && (w.fetch(p).second.Pulled? ==> w.fetch(p).second.files <= p.Files())
  }

  /** The syncs bring the whole partition: the first one alone, or both where the listing shows it whole. */
  predicate Delivers(f: Fetch, p: Partition)
  {
    && f.first.Pulled?
    && (|| f.first.files == p.Files()
        || (&& f.listed.Some? && f.listed.value >= |p.Files()|
            && f.second.Pulled? && f.first.files + f.second.files == p.Files()))
  }

  /** The listing shows less than the whole partition. */
  predicate Lags(f: Fetch, p: Partition)
  {
    f.listed.Some? && f.listed.value < |p.Files()|
  }

  ghost predicate Indexable(w: World, p: Partition, start: nat, end: nat, completed: set<nat>)
  {
    AllParse(w.parses, DueIn(p, start, end, completed)) && AllTaken(w.touches, w.acks(p), DueIn(p, start, end, completed))
  }

  ghost predicate AllDelivered(w: World, todo: seq<Partition>)
  {
    forall i :: 0 <= i < |todo| ==> Delivers(w.fetch(todo[i]), todo[i])
  }

  ghost predicate AllIndexable(w: World, todo: seq<Partition>, start: nat, end: nat, completed: set<nat>)
  {
    forall i :: 0 <= i < |todo| ==> Indexable(w, todo[i], start, end, completed)
  }

  /** A run that stops stops at the partition after those of `indexed`: its syncs did not deliver, or it could not be indexed. */
  ghost predicate StoppedFor(r: RunResult, w: World, todo: seq<Partition>, start: nat, end: nat, completed: set<nat>, indexed: seq<bool>)
  {
    && (r.SyncFailed? ==> |indexed| < |todo| && !Delivers(w.fetch(todo[|indexed|]), todo[|indexed|]))
    && (r.IndexFailed? ==> |indexed| < |todo| && !Indexable(w, todo[|indexed|], start, end, completed))
    && (r.Done? ==> |indexed| == |todo|)
  }

  /** Only partitions the archive does not list whole were passed over. */
  ghost predicate OnlyLagSkipped(w: World, todo: seq<Partition>, indexed: seq<bool>)
  {
    |indexed| <= |todo| && forall i :: 0 <= i < |indexed| && !indexed[i] ==> Lags(w.fetch(todo[i]), todo[i])
  }

  datatype RunResult = Done(totals: PartitionStats, skippedPartitions: nat) | SyncFailed | IndexFailed | RangeOverflows

  /** The `ledgers` rows of the range; their sequences are i64, and one that fits no u32 is passed over. */
  method LoadCompleted(sequences: seq<int>, start: nat, end: nat) returns (completed: set<nat>)
    requires start <= end <= U32_MAX
    ensures forall q :: q in completed <==> q in sequences && start <= q <= end
  {
    completed := {};
    for i := 0 to |sequences|
      invariant forall q :: q in completed <==> q in sequences[..i] && start <= q <= end
    {
      assert sequences[..i + 1] == sequences[..i] + [sequences[i]];
      if start <= sequences[i] <= end && 0 <= sequences[i] <= U32_MAX { completed := completed + {sequences[i]}; }
    }
    assert sequences[..|sequences|] == sequences;
  }

  method PartitionFullyDone(p: Partition, start: nat, end: nat, completed: set<nat>) returns (done: bool)
    ensures done == FullyDone(p, start, end, completed)
  {
    var (first, last) := p.Clamped(start, end);
    var q := first;
    while q <= last
      invariant first <= q && forall k: nat :: first <= k < q && k <= last ==> k in completed
      decreases last + 1 - q
    {
      if q !in completed { return false; }
      q := q + 1;
    }
    return true;
  }

  /** Sync a partition into its folder. */
  method SyncFolder(p: Partition, disk: Disk, w: World) returns (r: SyncResult)
    requires p.Wf() && WorldOk(w)
    modifies disk
    ensures old(disk.files) <= disk.files <= old(disk.files) + p.Files()
    ensures disk.files <= old(disk.files) + Brought(w.fetch(p).first) + Brought(w.fetch(p).second)
    ensures r == Ok(Complete) ==> p.Files() <= disk.files
    ensures r.Ok? && r.outcome.S3Incomplete? ==> Lags(w.fetch(p), p)
    ensures Delivers(w.fetch(p), p) || p.Files() <= old(disk.files) ==> r == Ok(Complete)
  {
    var f := w.fetch(p);
    assert p.Files() <= disk.files ==> disk.files * p.Files() == p.Files();
    var local;
    r, local := SyncPartition(p, disk.files * p.Files(), f.first, f.listed, f.second);
    disk.files := disk.files + local;
  }

  /** `indexed[j]`: the `j`-th partition was indexed, not skipped. */
  function ClampedLengths(todo: seq<Partition>, start: nat, end: nat, indexed: seq<bool>): int
    requires |indexed| <= |todo|
  {
    if indexed == [] then 0
    else
      var j := |indexed| - 1;
      var (first, last) := todo[j].Clamped(start, end);
      ClampedLengths(todo, start, end, indexed[..j]) + (if indexed[j] then last - first + 1 else 0)
  }

  function Skipped(indexed: seq<bool>): nat
  {
    if indexed == [] then 0 else Skipped(indexed[..|indexed| - 1]) + (if indexed[|indexed| - 1] then 0 else 1)
  }

  ghost predicate DueIndexed(todo: seq<Partition>, start: nat, end: nat, completed: set<nat>, indexed: seq<bool>, q: nat)
    requires |indexed| <= |todo|
  {
    exists j :: 0 <= j < |indexed| && indexed[j] && q in DueIn(todo[j], start, end, completed)
  }

  /** The ledgers written are those due in the partitions indexed, in order. */
  ghost predicate WroteDue(todo: seq<Partition>, start: nat, end: nat, completed: set<nat>, indexed: seq<bool>, written: seq<nat>)
    requires |indexed| <= |todo|
  {
    && StrictlyAscending(written)
    && (forall q :: q in written <==> DueIndexed(todo, start, end, completed, indexed, q))
    && (forall q :: q in written ==> indexed != [] && q <= todo[|indexed| - 1].end)
  }

  lemma NothingWroteYet(todo: seq<Partition>, start: nat, end: nat, completed: set<nat>)
    ensures Accounts(todo, start, end, completed, [], [], PartitionStats(0, 0), 0)
  {
  }

  lemma WrotePartition(todo: seq<Partition>, start: nat, end: nat, completed: set<nat>, indexed: seq<bool>, written: seq<nat>, more: seq<nat>)
    requires |indexed| < |todo| && Ascending(todo) && WroteDue(todo, start, end, completed, indexed, written)
    requires StrictlyAscending(more) && Staged(more) == DueIn(todo[|indexed|], start, end, completed)
    ensures WroteDue(todo, start, end, completed, indexed + [true], written + more)
  {
    hide Range;
    var i := |indexed|;
    forall q ensures DueIndexed(todo, start, end, completed, indexed + [true], q)
                <==> DueIndexed(todo, start, end, completed, indexed, q) || q in DueIn(todo[i], start, end, completed)
    {
      if DueIndexed(todo, start, end, completed, indexed, q) {
        var j :| 0 <= j < i && indexed[j] && q in DueIn(todo[j], start, end, completed);
        assert (indexed + [true])[j];
      }
      if q in DueIn(todo[i], start, end, completed) { assert (indexed + [true])[i]; }
    }
    assert forall q :: q in more <==> q in Staged(more);
    forall q | q in more ensures todo[i].start <= q <= todo[i].end {
      InPartition(todo[i], start, end, completed, q);
    }
    AscendingConcat(written, more, todo[i].start);
  }

  lemma InPartition(p: Partition, start: nat, end: nat, completed: set<nat>, q: nat)
    requires q in DueIn(p, start, end, completed)
    ensures p.start <= q <= p.end
  {
  }

  lemma AscendingConcat(a: seq<nat>, b: seq<nat>, bound: nat)
    requires StrictlyAscending(a) && StrictlyAscending(b)
    requires (forall q :: q in a ==> q < bound) && forall q :: q in b ==> bound <= q
    ensures StrictlyAscending(a + b)
  {
    var c := a + b;
    forall i, j | 0 <= i < j < |c| ensures c[i] < c[j] {
      if i < |a| <= j { assert a[i] in a && b[j - |a|] in b; }
    }
  }

  lemma SkippedPartition(todo: seq<Partition>, start: nat, end: nat, completed: set<nat>, indexed: seq<bool>, written: seq<nat>)
    requires |indexed| < |todo| && Ascending(todo) && WroteDue(todo, start, end, completed, indexed, written)
    ensures WroteDue(todo, start, end, completed, indexed + [false], written)
  {
    hide Range;
    forall q ensures DueIndexed(todo, start, end, completed, indexed + [false], q)
                <==> DueIndexed(todo, start, end, completed, indexed, q)
    {
      if DueIndexed(todo, start, end, completed, indexed, q) {
        var j :| 0 <= j < |indexed| && indexed[j] && q in DueIn(todo[j], start, end, completed);
        assert (indexed + [false])[j];
      }
    }
  }

  /** With nothing skipped, what the run wrote and what was there before make up the whole range. */
  lemma WroteRange(start: nat, end: nat, completed: set<nat>, todo: seq<Partition>, indexed: seq<bool>, written: seq<nat>, q: nat)
    requires end < OVERFLOW_LEDGER && todo == Todo(Tiles(start, end), start, end, completed)
    requires |indexed| == |todo| && Skipped(indexed) == 0 && WroteDue(todo, start, end, completed, indexed, written)
    ensures q in written <==> start <= q <= end && q >= FIRST_CLOSED_LEDGER && q !in completed
  {
    hide Tiles, Todo, Range;
    NoneSkipped(indexed);
    TilesCover(start, end, q);
    if q in written {
      var j :| 0 <= j < |indexed| && indexed[j] && q in DueIn(todo[j], start, end, completed);
      TodoMembers(Tiles(start, end), start, end, completed, todo[j]);
      var i :| 0 <= i < |Tiles(start, end)| && Tiles(start, end)[i] == todo[j];
      assert InClamped(Tiles(start, end)[i], start, end, q);
    }
    if start <= q <= end && q >= FIRST_CLOSED_LEDGER && q !in completed {
      var p := TileWith(start, end, q);
      TodoMembers(Tiles(start, end), start, end, completed, p);
      assert !FullyDone(p, start, end, completed) by { assert q in Range(p.Clamped(start, end).0, p.Clamped(start, end).1); }
      var j :| 0 <= j < |todo| && todo[j] == p;
      assert indexed[j] && q in DueIn(todo[j], start, end, completed);
    }
  }

  lemma {:induction false} NoneSkipped(indexed: seq<bool>)
    requires Skipped(indexed) == 0
    ensures forall j :: 0 <= j < |indexed| ==> indexed[j]
    decreases |indexed|
  {
    if indexed != [] { NoneSkipped(indexed[..|indexed| - 1]); }
  }

  /** Every partition to do is well formed, after its predecessors, and has a ledger to write. */
  lemma TodoOk(start: nat, end: nat, completed: set<nat>)
    requires start <= end < OVERFLOW_LEDGER
    ensures var todo := Todo(Tiles(start, end), start, end, completed);
            && Ascending(todo)
            && forall i :: 0 <= i < |todo| ==> todo[i].Wf() && todo[i].Clamped(start, end).0 <= todo[i].Clamped(start, end).1
  {
    hide Range;
    var ps := Tiles(start, end);
    TilesAscend(start, end);
    TodoAscends(ps, start, end, completed);
    var todo := Todo(ps, start, end, completed);
    forall i | 0 <= i < |todo| ensures todo[i].Clamped(start, end).0 <= todo[i].Clamped(start, end).1 {
      TodoMembers(ps, start, end, completed, todo[i]);
    }
  }

  lemma TodoFirst(ps: seq<Partition>, i: nat, start: nat, end: nat, completed: set<nat>)
    requires i < |ps|
    ensures Todo(ps[i..], start, end, completed)
         == (if FullyDone(ps[i], start, end, completed) then [] else [ps[i]]) + Todo(ps[i + 1..], start, end, completed)
  {
    assert ps[i..][0] == ps[i] && ps[i..][1..] == ps[i + 1..];
  }

  lemma NothingToDo(start: nat, end: nat, completed: set<nat>)
    ensures Todo([], start, end, completed) == []
  {
  }

  method PartitionsToDo(ps: seq<Partition>, start: nat, end: nat, completed: set<nat>) returns (todo: seq<Partition>)
    ensures todo == Todo(ps, start, end, completed)
  {
    hide FullyDone, Todo;
    todo := [];
    assert ps[0..] == ps;
    for i := 0 to |ps|
      invariant todo + Todo(ps[i..], start, end, completed) == Todo(ps, start, end, completed)
    {
      TodoFirst(ps, i, start, end, completed);
      var done := PartitionFullyDone(ps[i], start, end, completed);
      if !done { todo := todo + [ps[i]]; }
    }
    assert ps[|ps|..] == [];
    NothingToDo(start, end, completed);
  }

  /** No file of the first `n` partitions is on disk. */
  ghost predicate Cleared(todo: seq<Partition>, n: nat, files: set<nat>)
  {
    n <= |todo| && forall j, q :: 0 <= j < n && q in todo[j].Files() ==> q !in files
  }

  /** A file of none of the partitions is on disk exactly when it was before. */
  ghost predicate OthersAsBefore(todo: seq<Partition>, before: set<nat>, files: set<nat>)
  {
    forall q :: (forall j :: 0 <= j < |todo| ==> q !in todo[j].Files()) ==> (q in files <==> q in before)
  }

  /** Changing only one partition's files leaves the others', earlier partitions' among them, as they were. */
  lemma OwnFilesOnly(todo: seq<Partition>, i: nat, before: set<nat>, files: set<nat>, files': set<nat>)
    requires Ascending(todo) && i < |todo| && OthersAsBefore(todo, before, files)
    requires files - todo[i].Files() == files' - todo[i].Files()
    ensures OthersAsBefore(todo, before, files')
    ensures Cleared(todo, i, files) ==> Cleared(todo, i, files')
    ensures Cleared(todo, i, files) && files' !! todo[i].Files() ==> Cleared(todo, i + 1, files')
  {
    hide Partition.Files;
    forall q | forall j :: 0 <= j < |todo| ==> q !in todo[j].Files() ensures q in files' <==> q in files {
      assert q in files - todo[i].Files() <==> q in files' - todo[i].Files();
    }
    if Cleared(todo, i, files) {
      forall j, q | 0 <= j < i && q in todo[j].Files() ensures q !in files' {
        Apart(todo[j], todo[i], q);
        assert q in files - todo[i].Files() <==> q in files' - todo[i].Files();
      }
    }
  }

  lemma Apart(p: Partition, later: Partition, q: nat)
    requires p.end < later.start && q in p.Files()
    ensures q !in later.Files()
  {
  }

  datatype Handled = Indexed(stats: PartitionStats) | PassedOver | Failed

  /** Index a synced partition, or pass over one the archive does not hold yet; its folder goes either way. It fails
      exactly on a synced partition with a due ledger that does not parse or an insert that is not taken. */
  method HandlePartition(p: Partition, outcome: SyncOutcome, db: Warehouse, disk: Disk, start: nat, end: nat, completed: set<nat>,
                         keep: bool, w: World)
    returns (r: Handled, ghost written: seq<nat>)
    requires p.Wf() && db.Valid() && WorldOk(w) && (outcome.Complete? ==> p.Files() <= disk.files)
    requires p.Clamped(start, end).0 <= p.Clamped(start, end).1
    modifies db, disk
    ensures db.Valid() && old(db.rows) <= db.rows
    ensures db.markers == if r.Indexed? then old(db.markers) + Staged(written) else old(db.markers)
    ensures r.PassedOver? <==> outcome.S3Incomplete?
    ensures r.Failed? <==> outcome.Complete? && !Indexable(w, p, start, end, completed)
    ensures r.Indexed? ==>
              && StrictlyAscending(written) && Staged(written) == DueIn(p, start, end, completed)
              && r.stats.indexed == |written|
              && r.stats.indexed + r.stats.skippedCompleted == p.Clamped(start, end).1 - p.Clamped(start, end).0 + 1
    ensures !r.Failed? ==> disk.files == if keep then old(disk.files) else old(disk.files) - p.Files()
    ensures r.Failed? ==> old(disk.files) - p.Files() <= disk.files <= old(disk.files) && (keep ==> disk.files == old(disk.files))
  {
    hide Staged, StrictlyAscending, Range, Warehouse.Valid, Released, Partition.Files, AllParse, AllTaken;
    written := [];
    var files := disk.files;
    match outcome {
    case Complete =>
      var result;
      result, files, written := IndexPartition(p, start, end, completed, disk.files, keep, db, w.parses, w.unlinks, w.touches, w.acks(p));
      if !result.Indexed? {
        disk.files := files;
        return Failed, written;
      }
      r := Handled.Indexed(result.stats);
    case S3Incomplete(_, _, _) =>
      r := PassedOver;
    }
    disk.files := if keep then files else files - p.Files();
  }

  /** The loop over the partitions to do, the first one's folder having been synced with `first`. */
  method IndexAll(todo: seq<Partition>, first: SyncOutcome, db: Warehouse, disk: Disk, start: nat, end: nat, completed: set<nat>, keep: bool, w: World)
    returns (r: RunResult, ghost written: seq<nat>, ghost indexed: seq<bool>)
    requires todo != [] && Ascending(todo) && db.Valid() && WorldOk(w)
    requires forall i :: 0 <= i < |todo| ==> todo[i].Wf() && todo[i].Clamped(start, end).0 <= todo[i].Clamped(start, end).1
    requires if first.Complete? then todo[0].Files() <= disk.files else Lags(w.fetch(todo[0]), todo[0])
    modifies db, disk
    ensures db.Valid() && old(db.rows) <= db.rows && r != RangeOverflows
    ensures StrictlyAscending(written) && db.markers == old(db.markers) + Staged(written)
    ensures forall q :: q in written ==> q !in completed && start <= q <= end
    ensures r.Done? ==> Accounts(todo, start, end, completed, indexed, written, r.totals, r.skippedPartitions)
    ensures |indexed| <= |todo| && WroteDue(todo, start, end, completed, indexed, written)
    ensures OnlyLagSkipped(w, todo, indexed) && StoppedFor(r, w, todo, start, end, completed, indexed)
    ensures AllDelivered(w, todo) && first.Complete? && r.Done? ==> r.skippedPartitions == 0
    ensures keep ==> old(disk.files) <= disk.files
    ensures !keep && r.Done? ==> Cleared(todo, |todo|, disk.files)
    ensures OthersAsBefore(todo, old(disk.files), disk.files)
  {
    hide Accounts, WroteDue, StrictlyAscending, Staged, Range, Warehouse.Valid, WorldOk, ClampedLengths, Skipped, DueIn, Ascending;
    hide Partition.Files, Partition.Wf, Delivers, Lags, Indexable, Cleared, OthersAsBefore;
    written, indexed := [], [];
    NothingStaged();
    AsBefore(todo, disk.files);
    NothingWroteYet(todo, start, end, completed);
    var totals, skipped, outcome := PartitionStats(0, 0), 0, first;
    for i := 0 to |todo|
      invariant |indexed| == i && Accounts(todo, start, end, completed, indexed, written, totals, skipped)
      invariant db.Valid() && old(db.rows) <= db.rows && db.markers == old(db.markers) + Staged(written)
      invariant i < |todo| && outcome.Complete? ==> todo[i].Files() <= disk.files
      invariant i < |todo| && outcome.S3Incomplete? ==> Lags(w.fetch(todo[i]), todo[i])
      invariant keep ==> old(disk.files) <= disk.files
      invariant (!keep ==> Cleared(todo, i, disk.files)) && OthersAsBefore(todo, old(disk.files), disk.files)
      invariant OnlyLagSkipped(w, todo, indexed)
      invariant AllDelivered(w, todo) && first.Complete? ==> skipped == 0 && (i < |todo| ==> outcome.Complete?)
    {
      var p := todo[i];
      ghost var before := disk.files;
      WrittenOf(todo, start, end, completed, indexed, written, totals, skipped);
      AccountsSay(todo, start, end, completed, indexed, written, totals, skipped);
      var handled, more := HandlePartition(p, outcome, db, disk, start, end, completed, keep, w);
      match handled {
      case Failed =>
        OwnFilesOnly(todo, i, old(disk.files), before, disk.files);
        return IndexFailed, written, indexed;
      case Indexed(stats) =>
        AccountsIndexed(todo, start, end, completed, indexed, written, totals, skipped, stats, more);
        written, indexed := written + more, indexed + [true];
        totals := PartitionStats(totals.indexed + stats.indexed, totals.skippedCompleted + stats.skippedCompleted);
      case PassedOver =>
        AccountsSkipped(todo, start, end, completed, indexed, written, totals, skipped);
        indexed := indexed + [false];
        skipped := skipped + 1;
      }
      WrittenOf(todo, start, end, completed, indexed, written, totals, skipped);
      AccountsSay(todo, start, end, completed, indexed, written, totals, skipped);
      OwnFilesOnly(todo, i, old(disk.files), before, disk.files);
      if i + 1 < |todo| {
        before := disk.files;
        var next := SyncFolder(todo[i + 1], disk, w);
        OwnFilesOnly(todo, i + 1, old(disk.files), before, disk.files);
        if next.Err? { return SyncFailed, written, indexed; }
        outcome := next.outcome;
      }
    }
    WrittenOf(todo, start, end, completed, indexed, written, totals, skipped);
    AccountsSay(todo, start, end, completed, indexed, written, totals, skipped);
    return Done(totals, skipped), written, indexed;
  }

  lemma SinceBefore(todo: seq<Partition>, before: set<nat>, files: set<nat>, files': set<nat>)
    requires OthersAsBefore(todo, before, files) && OthersAsBefore(todo, files, files')
    ensures OthersAsBefore(todo, before, files')
  {
  }

  lemma AsBefore(todo: seq<Partition>, files: set<nat>)
    ensures OthersAsBefore(todo, files, files) && Cleared(todo, 0, files)
  {
  }

  /** One run to its end or its first error. `written` is what it wrote, `indexed` which partitions it indexed. */
  method Execute(db: Warehouse, disk: Disk, start: nat, end: nat, keep: bool, reindex: bool, sequences: seq<int>, w: World)
    returns (r: RunResult, ghost written: seq<nat>, ghost indexed: seq<bool>)
    requires start <= end <= U32_MAX && db.Valid() && WorldOk(w)
    requires forall q :: q in sequences <==> q >= 0 && q in db.markers     // the `ledgers` table
    modifies db, disk
    ensures db.Valid() && old(db.rows) <= db.rows
    ensures StrictlyAscending(written) && db.markers == old(db.markers) + Staged(written)
    ensures !reindex ==> forall q :: q in written ==> q !in old(db.markers)
    ensures r == RangeOverflows <==> end >= OVERFLOW_LEDGER
    ensures end < OVERFLOW_LEDGER ==>
              var completed := (if reindex then {} else set q | q in old(db.markers) && start <= q <= end);
              var todo := Todo(Tiles(start, end), start, end, completed);
              && |indexed| <= |todo| && WroteDue(todo, start, end, completed, indexed, written)
              && OnlyLagSkipped(w, todo, indexed) && StoppedFor(r, w, todo, start, end, completed, indexed)
              && (r.Done? ==>
                    && r.totals.indexed == |written| && r.skippedPartitions == Skipped(indexed)
                    && r.totals.indexed + r.totals.skippedCompleted == ClampedLengths(todo, start, end, indexed))
              && (keep ==> old(disk.files) <= disk.files)
              && (!keep && r.Done? ==> Cleared(todo, |todo|, disk.files))
              && OthersAsBefore(todo, old(disk.files), disk.files)
              // syncs that deliver, ledgers that parse and inserts that are taken make the run succeed
              && (AllDelivered(w, todo) && AllIndexable(w, todo, start, end, completed) ==> r.Done? && r.skippedPartitions == 0)
    // nothing skipped: the range is marked, and exactly the range was added
    ensures r.Done? && r.skippedPartitions == 0 ==>
              forall q: nat :: q in db.markers <==> q in old(db.markers) || (start <= q <= end && q >= FIRST_CLOSED_LEDGER)
    // a reindexing run writes the whole range again
    ensures reindex && r.Done? && r.skippedPartitions == 0 ==>
              forall q: nat :: start <= q <= end && q >= FIRST_CLOSED_LEDGER ==> q in Staged(written)
    // a range already marked is left alone
    ensures !reindex && end < OVERFLOW_LEDGER && (forall q: nat :: start <= q <= end && q >= FIRST_CLOSED_LEDGER ==> q in old(db.markers)) ==>
              r == Done(PartitionStats(0, 0), 0) && written == [] && disk.files == old(disk.files)
  {
    hide Tiles, Todo, Accounts, WroteDue, StrictlyAscending, Staged, Range, Warehouse.Valid, WorldOk, FullyDone, Delivers, Lags, Indexable;
    hide ClampedLengths, Skipped, Ascending, Partition.Files, Partition.Wf, Cleared, OthersAsBefore;
    written, indexed := [], [];
    NothingStaged();
    var ps := PartitionsForRange(start, end);
    if ps == None { return RangeOverflows, written, indexed; }
    var completed: set<nat> := {};
    if !reindex { completed := LoadCompleted(sequences, start, end); }
    assert completed == (if reindex then {} else set q | q in old(db.markers) && start <= q <= end);
    var todo := PartitionsToDo(ps.value, start, end, completed);
    TodoOk(start, end, completed);
    MarkedRangeHasNothingToDo(start, end, completed);
    NothingWroteYet(todo, start, end, completed);
    AccountsSay(todo, start, end, completed, [], [], PartitionStats(0, 0), 0);
    AsBefore(todo, disk.files);
    if todo == [] {
      r := Done(PartitionStats(0, 0), 0);
    } else {
      var synced := SyncFolder(todo[0], disk, w);
      OwnFilesOnly(todo, 0, old(disk.files), old(disk.files), disk.files);
      ghost var fetched := disk.files;
      if synced.Err? { return SyncFailed, written, indexed; }
      r, written, indexed := IndexAll(todo, synced.outcome, db, disk, start, end, completed, keep, w);
      SinceBefore(todo, old(disk.files), fetched, disk.files);
      if !r.Done? { return; }
    }
    AccountsSay(todo, start, end, completed, indexed, written, r.totals, r.skippedPartitions);
    if r.skippedPartitions == 0 { RangeWritten(start, end, completed, todo, indexed, written, r.totals, r.skippedPartitions); }
  }

  /** The run's books after the partitions of `indexed`. */
  ghost predicate Accounts(todo: seq<Partition>, start: nat, end: nat, completed: set<nat>, indexed: seq<bool>, written: seq<nat>,
                           totals: PartitionStats, skipped: nat)
  {
    && |indexed| <= |todo|
    && WroteDue(todo, start, end, completed, indexed, written)
    && totals.indexed == |written| && skipped == Skipped(indexed)
    && totals.indexed + totals.skippedCompleted == ClampedLengths(todo, start, end, indexed)
  }

  lemma AccountsIndexed(todo: seq<Partition>, start: nat, end: nat, completed: set<nat>, indexed: seq<bool>, written: seq<nat>,
                        totals: PartitionStats, skipped: nat, stats: PartitionStats, more: seq<nat>)
    requires Accounts(todo, start, end, completed, indexed, written, totals, skipped) && |indexed| < |todo| && Ascending(todo)
    requires StrictlyAscending(more) && Staged(more) == DueIn(todo[|indexed|], start, end, completed) && stats.indexed == |more|
    requires stats.indexed + stats.skippedCompleted == todo[|indexed|].Clamped(start, end).1 - todo[|indexed|].Clamped(start, end).0 + 1
    ensures Accounts(todo, start, end, completed, indexed + [true], written + more,
                     PartitionStats(totals.indexed + stats.indexed, totals.skippedCompleted + stats.skippedCompleted), skipped)
    ensures Staged(written + more) == Staged(written) + Staged(more)
  {
    hide Staged, WroteDue, StrictlyAscending, Ascending, Range;
    assert (indexed + [true])[..|indexed|] == indexed;
    WrotePartition(todo, start, end, completed, indexed, written, more);
    StagedConcat(written, more);
  }

  lemma AccountsSkipped(todo: seq<Partition>, start: nat, end: nat, completed: set<nat>, indexed: seq<bool>, written: seq<nat>,
                        totals: PartitionStats, skipped: nat)
    requires Accounts(todo, start, end, completed, indexed, written, totals, skipped) && |indexed| < |todo| && Ascending(todo)
    ensures Accounts(todo, start, end, completed, indexed + [false], written, totals, skipped + 1)
  {
    hide WroteDue, Ascending;
    assert (indexed + [false])[..|indexed|] == indexed;
    SkippedPartition(todo, start, end, completed, indexed, written);
  }

  lemma NothingStaged()
    ensures Staged([]) == {} && StrictlyAscending([])
  {
  }

  lemma StagedConcat(a: seq<nat>, b: seq<nat>)
    ensures Staged(a + b) == Staged(a) + Staged(b)
  {
  }

  lemma WrittenOf(todo: seq<Partition>, start: nat, end: nat, completed: set<nat>, indexed: seq<bool>, written: seq<nat>,
                  totals: PartitionStats, skipped: nat)
    requires Accounts(todo, start, end, completed, indexed, written, totals, skipped)
    ensures StrictlyAscending(written) && forall q :: q in written ==> q !in completed && start <= q <= end
  {
    forall q | q in written ensures q !in completed && start <= q <= end {
      assert DueIndexed(todo, start, end, completed, indexed, q);
    }
  }

  lemma AccountsSay(todo: seq<Partition>, start: nat, end: nat, completed: set<nat>, indexed: seq<bool>, written: seq<nat>,
                    totals: PartitionStats, skipped: nat)
    requires Accounts(todo, start, end, completed, indexed, written, totals, skipped)
    ensures |indexed| <= |todo| && totals.indexed == |written| && skipped == Skipped(indexed)
    ensures totals.indexed + totals.skippedCompleted == ClampedLengths(todo, start, end, indexed)
    ensures WroteDue(todo, start, end, completed, indexed, written)
  {
  }

  lemma RangeWritten(start: nat, end: nat, completed: set<nat>, todo: seq<Partition>, indexed: seq<bool>, written: seq<nat>,
                     totals: PartitionStats, skipped: nat)
    requires end < OVERFLOW_LEDGER && todo == Todo(Tiles(start, end), start, end, completed)
    requires |indexed| == |todo| && skipped == 0 && Accounts(todo, start, end, completed, indexed, written, totals, skipped)
    ensures forall q :: q in Staged(written) <==> start <= q <= end && q >= FIRST_CLOSED_LEDGER && q !in completed
  {
    forall q: nat ensures q in written <==> start <= q <= end && q >= FIRST_CLOSED_LEDGER && q !in completed {
      WroteRange(start, end, completed, todo, indexed, written, q);
    }
  }

  /** A range that is all in the database leaves nothing to do. */
  lemma MarkedRangeHasNothingToDo(start: nat, end: nat, completed: set<nat>)
    requires start <= end < OVERFLOW_LEDGER
    ensures (forall q: nat :: start <= q <= end && q >= FIRST_CLOSED_LEDGER ==> q in completed)
        ==> Todo(Tiles(start, end), start, end, completed) == []
  {
    hide Tiles, Todo, Range;
    var todo := Todo(Tiles(start, end), start, end, completed);
    assert todo == [] || todo[0] in todo;
    if forall q: nat :: start <= q <= end && q >= FIRST_CLOSED_LEDGER ==> q in completed {
      forall p ensures p !in todo {
        TodoMembers(Tiles(start, end), start, end, completed, p);
      }
    }
  }
}
