/**
 Indexing one synced partition (crates/backfill-runner/src/ingest.rs) into the
 commit-marker writer (crates/backfill-runner/src/sink.rs, crates/db-clickhouse/src/persist/writer.rs).
 */
module Ingest {
  import opened Partitions

  /** The insert streams `commit` ends before the `ledgers` insert. */
  const TABLES: nat := 31

  /** The database: `(t, q)` in `rows` when table `t` holds all rows of ledger `q`; the `ledgers` table
      is the set of markers. */
  class Warehouse {
    var rows: set<(nat, nat)>
    var markers: set<nat>

    /** A marked ledger has all its rows. */
    ghost predicate Valid()
      reads this
    {
      forall t: nat, q :: t < TABLES && q in markers ==> (t, q) in rows
    }
  }

  function Staged(staged: seq<nat>): set<nat>
  {
    set q | q in staged
  }

  /** The rows of the first `n` tables for these ledgers. */
  ghost predicate HasRows(rows: set<(nat, nat)>, n: nat, ledgers: set<nat>)
  {
    forall t: nat, q :: t < n && q in ledgers ==> (t, q) in rows
  }

  class PartitionWriter {
    const db: Warehouse
    var staged: seq<nat>
    /** The tables whose inserts have been opened: those some staged ledger has rows for. */
    var inserts: set<nat>
    var open: bool

    constructor (db: Warehouse)
      ensures this.db == db && staged == [] && inserts == {} && open
    {
      this.db := db;
      staged, inserts := [], {};
      open := true;
    }

    method WriteLedger(q: nat, tables: set<nat>)
      requires open
      modifies this
      ensures open && staged == old(staged) + [q] && inserts == old(inserts) + tables
    {
      staged := staged + [q];
      inserts := inserts + tables;
    }

    /** End every open insert, then write the markers, if there are any; `acks` says which inserts the server takes. */
    method Commit(acks: nat -> bool) returns (ok: bool)
      requires open && db.Valid() && forall t :: t in inserts ==> t < TABLES
      modifies this, db
      ensures db.Valid() && !open
      ensures ok <==> (forall t :: t in old(inserts) ==> acks(t)) && (old(staged) != [] ==> acks(TABLES))
      ensures db.markers == if ok then old(db.markers) + Staged(old(staged)) else old(db.markers)
      ensures ok ==> HasRows(db.rows, 31, Staged(old(staged)))
      ensures old(db.rows) <= db.rows
      ensures forall t: nat, q :: (t, q) in db.rows - old(db.rows) ==> t < TABLES && q in old(staged)
    {
      open := false;
      ghost var ledgers := Staged(staged);
      for t := 0 to TABLES
        invariant !open && staged == old(staged) && inserts == old(inserts) && db.markers == old(db.markers)
        invariant db.Valid() && old(db.rows) <= db.rows && HasRows(db.rows, t, ledgers)
        invariant forall k: nat, q :: (k, q) in db.rows - old(db.rows) ==> k < t && q in old(staged)
        invariant forall k: nat :: k < t && k in inserts ==> acks(k)
      {
        if t in inserts && !acks(t) { return false; }
        db.rows := db.rows + set q | q in staged :: (t, q);
      }
      if staged != [] {
        if !acks(TABLES) { return false; }
        db.markers := db.markers + Staged(staged);
      }
      return true;
    }

    /** Drop every open insert. */
    method Abort()
      modifies this
      ensures !open && staged == [] && inserts == {}
    {
      staged, inserts := [], {};
      open := false;
    }
  }

  datatype PartitionStats = PartitionStats(indexed: nat, skippedCompleted: nat)

  datatype IndexResult = Indexed(stats: PartitionStats) | ParseFailed | CommitFailed

  ghost predicate StrictlyAscending(s: seq<nat>)
  {
    forall i, j :: 0 <= i < j < |s| ==> s[i] < s[j]
  }

  /** The file of an indexed or skipped ledger goes, unless files are kept or the unlink fails. */
  function DropIndexedFile(files: set<nat>, q: nat, keepFiles: bool, unlinks: bool): set<nat>
  {
    if keepFiles || !unlinks then files else files - {q}
  }

  /** The ledgers from `first` below `q` that were not yet in the database, in order. */
  ghost predicate Wrote(staged: seq<nat>, completed: set<nat>, first: nat, q: nat)
  {
    StrictlyAscending(staged) && forall k: nat :: k in staged <==> first <= k < q && k !in completed
  }

  lemma WroteNext(staged: seq<nat>, completed: set<nat>, first: nat, q: nat)
    requires Wrote(staged, completed, first, q) && first <= q
    ensures Wrote(if q in completed then staged else staged + [q], completed, first, q + 1)
  {
    forall i | 0 <= i < |staged| ensures staged[i] < q { assert staged[i] in staged; }
  }

  lemma WroteAll(staged: seq<nat>, completed: set<nat>, first: nat, last: nat, q: nat)
    requires Wrote(staged, completed, first, q) && if first <= last then q == last + 1 else q == first
    ensures Staged(staged) == Range(first, last) - completed
  {
  }

  /** Only files from `first` below `q` are gone; all of them, if nothing is kept and every unlink works. */
  ghost predicate Released(files: set<nat>, files': set<nat>, first: nat, q: nat, keepFiles: bool, unlinks: nat -> bool)
  {
    && files' <= files
    && (forall k: nat :: k in files && !(first <= k < q) ==> k in files')
    && (keepFiles ==> files' == files)
    && (!keepFiles && (forall k :: unlinks(k)) ==> forall k: nat :: first <= k < q ==> k !in files')
  }

  lemma ReleasedNext(files: set<nat>, files': set<nat>, first: nat, q: nat, keepFiles: bool, unlinks: nat -> bool)
    requires Released(files, files', first, q, keepFiles, unlinks) && first <= q
    ensures Released(files, DropIndexedFile(files', q, keepFiles, unlinks(q)), first, q + 1, keepFiles, unlinks)
  {
  }

  /** The tables the ledgers have rows for. */
  function Touched(touches: nat -> set<nat>, ledgers: seq<nat>): set<nat>
  {
    set q, t | q in ledgers && t in touches(q) :: t
  }

  ghost predicate WithinTables(touches: nat -> set<nat>)
  {
    forall q, t :: t in touches(q) ==> t < TABLES
  }

  lemma TouchedNext(touches: nat -> set<nat>, ledgers: seq<nat>, q: nat)
    ensures Touched(touches, ledgers + [q]) == Touched(touches, ledgers) + touches(q)
  {
    assert forall k :: k in ledgers + [q] <==> k in ledgers || k == q;
  }

  ghost predicate AllParse(parses: nat -> bool, due: set<nat>)
  {
    forall q :: q in due ==> parses(q)
  }

  /** Every insert a commit of these ledgers makes is taken, the markers' included. */
  ghost predicate AllTaken(touches: nat -> set<nat>, acks: nat -> bool, due: set<nat>)
  {
    && (forall q, t :: q in due && t in touches(q) ==> acks(t))
    && (due != {} ==> acks(TABLES))
  }

  /** `parses` and `unlinks` say which ledgers' files parse and can be deleted, `touches` which tables a
      ledger has rows for, `acks` which tables' inserts are taken. The partition is indexed exactly when every due
      ledger parses and every insert is taken. */
  method IndexPartition(p: Partition, rangeStart: nat, rangeEnd: nat, completed: set<nat>, files: set<nat>, keepFiles: bool,
                        db: Warehouse, parses: nat -> bool, unlinks: nat -> bool, touches: nat -> set<nat>, acks: nat -> bool)
    returns (r: IndexResult, files': set<nat>, written: seq<nat>)
    requires p.Wf() && db.Valid() && WithinTables(touches)
    requires p.Files() <= files
    modifies db
    ensures db.Valid() && old(db.rows) <= db.rows
    ensures db.markers == if r.Indexed? then old(db.markers) + Staged(written) else old(db.markers)
    ensures r.ParseFailed? ==> db.rows == old(db.rows)
    ensures var due := Range(p.Clamped(rangeStart, rangeEnd).0, p.Clamped(rangeStart, rangeEnd).1) - completed;
            && (r.ParseFailed? <==> !AllParse(parses, due))
            && (r.Indexed? <==> AllParse(parses, due) && AllTaken(touches, acks, due))
    ensures StrictlyAscending(written)
    ensures r.Indexed? ==>
              var (first, last) := p.Clamped(rangeStart, rangeEnd);
              && Staged(written) == Range(first, last) - completed
              && r.stats.indexed == |written|
              && (first <= last ==> r.stats.indexed + r.stats.skippedCompleted == last - first + 1)
              && Released(files, files', first, if first <= last then last + 1 else first, keepFiles, unlinks)
    ensures files' <= files && forall k: nat :: k in files && k !in p.Files() ==> k in files'
    ensures keepFiles ==> files' == files
    // a file goes only once its ledger is written or known to be in the database
    ensures forall k :: k in files && k !in files' ==> k in completed || k in written
  {
    hide Wrote, Released, DropIndexedFile, Staged, StrictlyAscending, Range, Warehouse.Valid, Touched, AllParse, AllTaken;
    ghost var due := Range(p.Clamped(rangeStart, rangeEnd).0, p.Clamped(rangeStart, rangeEnd).1) - completed;
    var (first, last) := p.Clamped(rangeStart, rangeEnd);
    var indexed, skipped := 0, 0;
    var writer := new PartitionWriter(db);
    files' := files;
    var q := first;
    NothingOpened(parses, touches);
    assert Wrote([], completed, first, first) by { NothingWritten(completed, first); }
    assert Released(files, files, first, first, keepFiles, unlinks) by { NothingReleased(files, first, keepFiles, unlinks); }
    while q <= last
      invariant first <= q && if first <= last then q <= last + 1 else q == first
      invariant fresh(writer) && writer.open && writer.db == db && db.Valid()
      invariant db.rows == old(db.rows) && db.markers == old(db.markers)
      invariant Wrote(writer.staged, completed, first, q)
      invariant AllParse(parses, Staged(writer.staged)) && writer.inserts == Touched(touches, writer.staged)
      invariant indexed == |writer.staged| && (first <= last ==> indexed + skipped == q - first)
      invariant Released(files, files', first, q, keepFiles, unlinks)
      decreases last + 1 - q
    {
      WroteNext(writer.staged, completed, first, q);
      ReleasedNext(files, files', first, q, keepFiles, unlinks);
      if q in completed {
        files' := DropIndexedFile(files', q, keepFiles, unlinks(q));
        skipped := skipped + 1;
        q := q + 1;
        continue;
      }
      assert q in files' by { StillThere(p, files, files', first, last, q, keepFiles, unlinks); }  // the file is there
      if !parses(q) {
        written := writer.staged;
        OthersUntouched(p, files, files', first, last, q, keepFiles, unlinks);
        GoneIsDone(files, files', written, completed, first, q, keepFiles, unlinks);
        AscendingIfWrote(written, completed, first, q);
        DoesNotParse(parses, due, q);
        writer.Abort();
        return ParseFailed, files', written;
      }
      TouchedNext(touches, writer.staged, q);
      ParsesNext(parses, writer.staged, q);
      writer.WriteLedger(q, touches(q));
      files' := DropIndexedFile(files', q, keepFiles, unlinks(q));
      indexed := indexed + 1;
      q := q + 1;
    }
    written := writer.staged;
    WroteAll(written, completed, first, last, q);
    GoneIsDone(files, files', written, completed, first, q, keepFiles, unlinks);
    AscendingIfWrote(written, completed, first, q);
    OthersUntouched(p, files, files', first, last, q, keepFiles, unlinks);
    TakenIff(touches, acks, written);
    var ok := writer.Commit(acks);
    if !ok { return CommitFailed, files', written; }
    return Indexed(PartitionStats(indexed, skipped)), files', written;
  }

  lemma DoesNotParse(parses: nat -> bool, due: set<nat>, q: nat)
    requires q in due && !parses(q)
    ensures !AllParse(parses, due)
  {
  }

  lemma ParsesNext(parses: nat -> bool, staged: seq<nat>, q: nat)
    requires AllParse(parses, Staged(staged)) && parses(q)
    ensures AllParse(parses, Staged(staged + [q]))
  {
  }

  lemma NothingOpened(parses: nat -> bool, touches: nat -> set<nat>)
    ensures AllParse(parses, Staged([])) && Touched(touches, []) == {}
  {
  }

  /** What a commit of these ledgers hangs on. */
  lemma TakenIff(touches: nat -> set<nat>, acks: nat -> bool, ledgers: seq<nat>)
    requires WithinTables(touches)
    ensures forall t :: t in Touched(touches, ledgers) ==> t < TABLES
    ensures AllTaken(touches, acks, Staged(ledgers))
       <==> (forall t :: t in Touched(touches, ledgers) ==> acks(t)) && (ledgers != [] ==> acks(TABLES))
  {
    assert ledgers != [] ==> ledgers[0] in Staged(ledgers);
    if forall t :: t in Touched(touches, ledgers) ==> acks(t) {
      assert forall q, t :: q in Staged(ledgers) && t in touches(q) ==> t in Touched(touches, ledgers);
    }
  }

  lemma NothingWritten(completed: set<nat>, first: nat)
    ensures Wrote([], completed, first, first)
  {
  }

  lemma NothingReleased(files: set<nat>, first: nat, keepFiles: bool, unlinks: nat -> bool)
    ensures Released(files, files, first, first, keepFiles, unlinks)
  {
  }

  lemma AscendingIfWrote(staged: seq<nat>, completed: set<nat>, first: nat, q: nat)
    requires Wrote(staged, completed, first, q)
    ensures StrictlyAscending(staged)
  {
  }

  lemma StillThere(p: Partition, files: set<nat>, files': set<nat>, first: nat, last: nat, q: nat, keepFiles: bool, unlinks: nat -> bool)
    requires p.Wf() && p.Files() <= files && Released(files, files', first, q, keepFiles, unlinks)
    requires p.FirstLedger() <= first <= q <= last <= p.end
    ensures q in files'
  {
    assert q in p.Files();
  }

  lemma GoneIsDone(files: set<nat>, files': set<nat>, written: seq<nat>, completed: set<nat>, first: nat, q: nat,
                   keepFiles: bool, unlinks: nat -> bool)
    requires Released(files, files', first, q, keepFiles, unlinks) && Wrote(written, completed, first, q)
    ensures forall k :: k in files && k !in files' ==> k in completed || k in written
  {
  }

  lemma OthersUntouched(p: Partition, files: set<nat>, files': set<nat>, first: nat, last: nat, q: nat, keepFiles: bool, unlinks: nat -> bool)
    requires Released(files, files', first, q, keepFiles, unlinks)
    requires p.FirstLedger() <= first && last <= p.end && if first <= last then q <= last + 1 else q == first
    ensures files' <= files && forall k: nat :: k in files && k !in p.Files() ==> k in files'
    ensures keepFiles ==> files' == files
  {
  }
}
