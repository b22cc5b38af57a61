/**
 The backfill run as a protocol of steps (crates/backfill-runner/src/run.rs, with
 sync.rs, ingest.rs and the commit-marker writer): partitions in order, one indexed
 while the next is fetched, files deleted as they are indexed, markers written last,
 a crash possible anywhere and any number of restarts.
 */
module BackfillRun {
  import opened Ingest
  import opened Options
  import opened Partitions

  /** The one-slot prefetch. */
  datatype Ahead = Nothing | Fetching | Fetched(complete: bool)

  datatype Stage =
    | Priming                                       // the foreground sync of the first partition
    | Indexing(cursor: nat, staged: set<nat>)       // the next ledger, and those streamed so far
    | Committing(ended: nat, staged: set<nat>)      // how many tables' inserts have been ended
    | Cleaning
    | Awaiting
    | Finished

  /** A run. `archived` is what the archive held when it started, `written` the ledgers it wrote, in order,
      `skipped` the positions in `todo` passed over because the archive lagged. */
  datatype Run = Run(start: nat, end: nat, keep: bool, completed: set<nat>, todo: seq<Partition>, archived: set<nat>,
                     i: nat, stage: Stage, ahead: Ahead, written: seq<nat>, skipped: set<nat>)

  datatype Proc = Down | Up(run: Run)

  /** A file on disk or in the archive is named by its ledger, and a ledger names its partition's folder. */
  datatype State = State(s3: set<nat>, files: set<nat>, rows: set<(nat, nat)>, markers: set<nat>, proc: Proc)

  datatype Step =
    | Upload(uploaded: set<nat>)
    | Start(start: nat, end: nat, keep: bool, reindex: bool)
    | Pull(pulled: set<nat>)
    | Primed(primedComplete: bool)
    | PullAhead(pulled: set<nat>)
    | AheadDone(aheadComplete: bool)
    | Ledger(unlinks: bool)
    | MissingFile
    | BeginCommit
    | EndTable
    | Mark
    | RemoveSome(removed: set<nat>)
    | Clean
    | Advance
    | Finish
    | Exit
    | Crash(leaked: set<(nat, nat)>, marked: set<nat>)

  function First(r: Run, p: Partition): nat
  {
    p.Clamped(r.start, r.end).0
  }

  function Last(r: Run, p: Partition): nat
  {
    p.Clamped(r.start, r.end).1
  }

  /** The ledgers of the range a partition has still to write. */
  function DueIn(p: Partition, start: nat, end: nat, completed: set<nat>): set<nat>
  {
    Range(p.Clamped(start, end).0, p.Clamped(start, end).1) - completed
  }

  /** The partition's ledgers this run has to write. */
  function Due(r: Run, p: Partition): set<nat>
  {
    DueIn(p, r.start, r.end, r.completed)
  }

  predicate FullyDone(p: Partition, start: nat, end: nat, completed: set<nat>)
  {
    Range(p.Clamped(start, end).0, p.Clamped(start, end).1) <= completed
  }

  function Todo(ps: seq<Partition>, start: nat, end: nat, completed: set<nat>): seq<Partition>
  {
    if ps == [] then []
    else (if FullyDone(ps[0], start, end, completed) then [] else [ps[0]]) + Todo(ps[1..], start, end, completed)
  }

  /** What a sync of `p` may conclude: the folder's file count is right, or both folder and archive fall short. */
  predicate SyncConcludes(s: State, p: Partition, complete: bool)
  {
    if complete then |s.files * p.Files()| == p.LedgerCount()
    else |s.files * p.Files()| < p.LedgerCount() && |s.s3 * p.Files()| < p.LedgerCount()
  }

  /** Take up partition `i` with its sync outcome, and start fetching the next. */
  function Enter(r: Run, i: nat, complete: bool): Run
    requires i < |r.todo|
  {
    r.(i := i,
       stage := if complete then Indexing(First(r, r.todo[i]), {}) else Cleaning,
       ahead := if i + 1 < |r.todo| then Fetching else Nothing,
       skipped := if complete then r.skipped else r.skipped + {i})
  }

  function StagedIn(stage: Stage): set<nat>
  {
    if stage.Indexing? || stage.Committing? then stage.staged else {}
  }

  function Started(s: State, step: Step): State
    requires step.Start?
  {
    var completed := if step.reindex then {} else set q | q in s.markers && step.start <= q <= step.end;
    var todo := Todo(Tiles(step.start, step.end), step.start, step.end, completed);
    if todo == [] then s
    else s.(proc := Up(Run(step.start, step.end, step.keep, completed, todo, s.s3, 0, Priming, Nothing, [], {})))
  }

  /** One step, where it can be taken. */
  function Apply(s: State, step: Step): Option<State>
  {
    match step
    case Upload(fs) => Some(s.(s3 := s.s3 + fs))
    case Start(start, end, _, _) =>
      if s.proc.Down? && start <= end < OVERFLOW_LEDGER then Some(Started(s, step)) else None
    case _ =>
      if s.proc.Down? || s.proc.run.i >= |s.proc.run.todo| then None else ApplyRun(s, s.proc.run, s.proc.run.todo[s.proc.run.i], step)
  }

  /** A step of the run `r`, whose current partition is `p`. */
  function ApplyRun(s: State, r: Run, p: Partition, step: Step): Option<State>
    requires r.i < |r.todo|
  {
    match step
    case Pull(fs) =>
      if r.stage.Priming? && fs <= s.s3 * p.Files() then Some(s.(files := s.files + fs)) else None
    case Primed(complete) =>
      if r.stage.Priming? && SyncConcludes(s, p, complete) then Some(s.(proc := Up(Enter(r, r.i, complete)))) else None
    case PullAhead(fs) =>
      if r.ahead.Fetching? && r.i + 1 < |r.todo| && fs <= s.s3 * r.todo[r.i + 1].Files() then Some(s.(files := s.files + fs)) else None
    case AheadDone(complete) =>
      if r.ahead.Fetching? && r.i + 1 < |r.todo| && SyncConcludes(s, r.todo[r.i + 1], complete)
      then Some(s.(proc := Up(r.(ahead := Fetched(complete))))) else None
    case Ledger(unlinks) =>
      if r.stage.Indexing? && r.stage.cursor <= Last(r, p) && (r.stage.cursor in r.completed || r.stage.cursor in s.files)
      then
        var q := r.stage.cursor;
        var isNew := q !in r.completed;
        Some(s.(files := DropIndexedFile(s.files, q, r.keep, unlinks),
                proc := Up(r.(stage := Indexing(q + 1, if isNew then r.stage.staged + {q} else r.stage.staged),
                              written := if isNew then r.written + [q] else r.written))))
      else None
    case MissingFile =>
      if r.stage.Indexing? && r.stage.cursor <= Last(r, p) && r.stage.cursor !in r.completed && r.stage.cursor !in s.files
      then Some(s.(proc := Down)) else None
    case BeginCommit =>
      if r.stage.Indexing? && r.stage.cursor > Last(r, p)
      then Some(s.(proc := Up(r.(stage := Committing(0, r.stage.staged))))) else None
    case EndTable =>
      if r.stage.Committing? && r.stage.ended < TABLES
      then Some(s.(rows := s.rows + (set q | q in r.stage.staged :: (r.stage.ended, q)),
                   proc := Up(r.(stage := Committing(r.stage.ended + 1, r.stage.staged))))) else None
    case Mark =>
      if r.stage.Committing? && r.stage.ended == TABLES
      then Some(s.(markers := s.markers + r.stage.staged, proc := Up(r.(stage := Cleaning)))) else None
    case RemoveSome(fs) =>
      if r.stage.Cleaning? && !r.keep && fs <= p.Files() then Some(s.(files := s.files - fs)) else None
    case Clean =>
      if r.stage.Cleaning?
      then Some(s.(files := if r.keep then s.files else s.files - p.Files(), proc := Up(r.(stage := Awaiting)))) else None
    case Advance =>
      if r.stage.Awaiting? && r.i + 1 < |r.todo| && r.ahead.Fetched?
      then Some(s.(proc := Up(Enter(r, r.i + 1, r.ahead.complete)))) else None
    case Finish =>
      if r.stage.Awaiting? && r.i + 1 == |r.todo| then Some(s.(proc := Up(r.(stage := Finished)))) else None
    case Exit =>
      if r.stage.Finished? then Some(s.(proc := Down)) else None
    case Crash(leaked, marked) =>
      if (forall x :: x in leaked ==> x.0 < TABLES && x.1 in StagedIn(r.stage))
         && (if r.stage.Committing? && r.stage.ended == TABLES then marked <= r.stage.staged else marked == {})
      then Some(s.(rows := s.rows + leaked, markers := s.markers + marked, proc := Down)) else None
    case _ => None
  }

  // ---------- What every step keeps ----------

  ghost predicate Marked(s: State)
  {
    HasRows(s.rows, TABLES, s.markers)
  }

  /** What the run was started with. */
  ghost predicate WellStarted(s: State, r: Run)
  {
    && r.start <= r.end < OVERFLOW_LEDGER
    && r.todo == Todo(Tiles(r.start, r.end), r.start, r.end, r.completed)
    && r.i < |r.todo|
    && r.completed <= s.markers && r.archived <= s.s3
  }

  ghost predicate StageOk(s: State, r: Run, p: Partition)
  {
    match r.stage
    case Priming => r.i == 0 && r.written == [] && r.skipped == {}
    case Indexing(cursor, staged) =>
      && First(r, p) <= cursor <= Last(r, p) + 1
      && (forall q: nat :: q in staged <==> First(r, p) <= q < cursor && q !in r.completed)
      && (forall q: nat :: cursor <= q <= p.end ==> q in s.files)
    case Committing(ended, staged) => ended <= TABLES && staged == Due(r, p) && HasRows(s.rows, ended, staged)
    case Finished => r.i + 1 == |r.todo|
    case _ => true
  }

  ghost predicate AheadOk(s: State, r: Run)
  {
    && (r.ahead.Nothing? <==> r.stage.Priming? || r.i + 1 == |r.todo|)
    && (r.ahead == Fetched(true) && r.i + 1 < |r.todo| ==> r.todo[r.i + 1].Files() <= s.files)
    && (r.ahead == Fetched(false) && r.i + 1 < |r.todo| ==> !(r.todo[r.i + 1].Files() <= r.archived))
  }

  /** The number of partitions over and done with. */
  function DoneCount(r: Run): nat
  {
    if r.stage.Cleaning? || r.stage.Awaiting? || r.stage.Finished? then r.i + 1 else r.i
  }

  ghost predicate DoneOk(s: State, r: Run)
  {
    && DoneCount(r) <= |r.todo|
    && (forall j :: 0 <= j < DoneCount(r) ==> j in r.skipped || Due(r, r.todo[j]) <= s.markers)
    && (forall j :: j in r.skipped ==> j < |r.todo| && !(r.todo[j].Files() <= r.archived))
  }

  /** Below this every written ledger lies. */
  function Bound(r: Run): nat
    requires r.i < |r.todo|
  {
    if r.stage.Indexing? then r.stage.cursor else r.todo[r.i].end + 1
  }

  ghost predicate WrittenOk(r: Run)
  {
    && r.i < |r.todo|
    && StrictlyAscending(r.written)
    && forall q :: q in r.written ==> q < Bound(r) && q !in r.completed && r.start <= q <= r.end && q >= FIRST_CLOSED_LEDGER
  }

  ghost predicate RunInv(s: State, r: Run)
  {
    && WellStarted(s, r) && StageOk(s, r, r.todo[r.i]) && AheadOk(s, r) && DoneOk(s, r) && WrittenOk(r)
  }

  ghost predicate Inv(s: State)
  {
    Marked(s) && (s.proc.Up? ==> RunInv(s, s.proc.run))
  }

  // ---------- The list of partitions to do ----------

  lemma {:induction false} TodoMembers(ps: seq<Partition>, start: nat, end: nat, completed: set<nat>, p: Partition)
    ensures p in Todo(ps, start, end, completed) <==> p in ps && !FullyDone(p, start, end, completed)
    decreases |ps|
  {
    hide FullyDone;
    if ps != [] {
      assert p in ps <==> p == ps[0] || p in ps[1..];
      TodoMembers(ps[1..], start, end, completed, p);
    }
  }

  lemma {:induction false} TodoAscends(ps: seq<Partition>, start: nat, end: nat, completed: set<nat>)
    requires Ascending(ps)
    ensures Ascending(Todo(ps, start, end, completed))
    decreases |ps|
  {
    hide FullyDone, Partition.Wf;
    if ps != [] {
      var rest := Todo(ps[1..], start, end, completed);
      TodoAscends(ps[1..], start, end, completed);
      forall i | 0 <= i < |rest| ensures ps[0].end < rest[i].start {
        TodoMembers(ps[1..], start, end, completed, rest[i]);
        var k :| 0 <= k < |ps[1..]| && ps[1..][k] == rest[i];
        assert ps[k + 1] == rest[i];
      }
    }
  }

  lemma RunTodo(r: Run)
    requires r.start <= r.end < OVERFLOW_LEDGER && r.todo == Todo(Tiles(r.start, r.end), r.start, r.end, r.completed)
    ensures Ascending(r.todo)
    ensures forall i :: 0 <= i < |r.todo| ==> First(r, r.todo[i]) <= Last(r, r.todo[i])
  {
    hide Ascending;
    var ps := Tiles(r.start, r.end);
    TilesAscend(r.start, r.end);
    TodoAscends(ps, r.start, r.end, r.completed);
    forall i | 0 <= i < |r.todo| ensures First(r, r.todo[i]) <= Last(r, r.todo[i]) {
      TodoMembers(ps, r.start, r.end, r.completed, r.todo[i]);
    }
  }

  // ---------- Step by step ----------

  lemma StartKeepsInv(s: State, step: Step)
    requires Inv(s) && step.Start? && Apply(s, step).Some?
    ensures Inv(Apply(s, step).value)
  {
    hide Tiles, HasRows;
    var s' := Apply(s, step).value;
    if s'.proc.Up? {
      var r := s'.proc.run;
      assert WellStarted(s', r);
    }
  }

  /** A reindexing run takes nothing for done; any other takes the marked ledgers of its range. */
  lemma StartCounts(s: State, step: Step)
    requires step.Start? && Apply(s, step).Some? && Apply(s, step).value.proc.Up?
    ensures s.proc.Down?
    ensures var r := Apply(s, step).value.proc.run;
            forall q :: q in r.completed <==> !step.reindex && q in s.markers && step.start <= q <= step.end
  {
    hide Tiles, Todo;
  }

  /** More in the archive or on disk upsets nothing. */
  lemma GrowKeepsInv(s: State, s': State)
    requires Inv(s) && s' == s.(s3 := s'.s3, files := s'.files) && s.s3 <= s'.s3 && s.files <= s'.files
    ensures Inv(s')
  {
    hide Tiles, HasRows, Due, WrittenOk;
    if s.proc.Up? {
      var r := s.proc.run;
      assert StageOk(s', r, r.todo[r.i]);
    }
  }

  /** A sync that concludes "complete" has every file; one that concludes otherwise saw an incomplete archive. */
  lemma ConcludedSync(s: State, p: Partition, complete: bool, archived: set<nat>)
    requires p.Wf() && SyncConcludes(s, p, complete) && archived <= s.s3
    ensures complete ==> p.Files() <= s.files
    ensures !complete ==> !(p.Files() <= archived)
  {
    CountMeansComplete(p, s.files * p.Files());
    CountMeansComplete(p, s.s3 * p.Files());
    FilesCount(p);
    if p.Files() <= archived { assert s.s3 * p.Files() == p.Files(); }
  }

  /** What was done stays done while the run's plan stays. */
  lemma DoneCarries(s: State, s': State, r: Run, r': Run)
    requires DoneOk(s, r) && s.markers <= s'.markers
    requires r' == r.(stage := r'.stage, ahead := r'.ahead, written := r'.written) && DoneCount(r') == DoneCount(r)
    ensures DoneOk(s', r')
  {
    hide Range, Partition.Files;
    assert forall j :: 0 <= j < |r.todo| ==> Due(r', r'.todo[j]) == Due(r, r.todo[j]);
  }

  lemma WrittenCarries(r: Run, r': Run)
    requires WrittenOk(r) && r' == r.(stage := r'.stage, ahead := r'.ahead) && Bound(r) <= Bound(r')
    ensures WrittenOk(r')
  {
  }

  /** Taking up a partition whose folder is complete, or that is to be skipped. */
  lemma EnterKeepsInv(s: State, r: Run, i: nat, complete: bool)
    requires Marked(s) && WellStarted(s, r) && DoneOk(s, r) && WrittenOk(r)
    requires i < |r.todo| && i == DoneCount(r) && ((r.i == i && r.written == []) || r.i < i)
    requires complete ==> r.todo[i].Files() <= s.files
    requires !complete ==> !(r.todo[i].Files() <= r.archived)
    ensures RunInv(s.(proc := Up(Enter(r, i, complete))), Enter(r, i, complete))
  {
    hide Tiles, Todo, HasRows, Partition.Files, Range;
    RunTodo(r);
    var r', p := Enter(r, i, complete), r.todo[i];
    var s' := s.(proc := Up(r'));
    assert WellStarted(s', r');
    assert DoneOk(s', r');
    assert AheadOk(s', r');
    assert WrittenOk(r') by {
      assert forall q :: q in r.written ==> q < Bound(r');
    }
    assert StageOk(s', r', p) by {
      if complete { FilesHold(p, s.files, First(r, p)); }
    }
  }

  lemma FilesHold(p: Partition, files: set<nat>, first: nat)
    requires p.Files() <= files && p.FirstLedger() <= first
    ensures forall q: nat :: first <= q <= p.end ==> q in files
  {
    assert forall q: nat :: first <= q <= p.end ==> q in p.Files();
  }

  lemma StageCarries(s: State, r: Run, r': Run)
    requires r.i < |r.todo| && StageOk(s, r, r.todo[r.i]) && r' == r.(ahead := r'.ahead)
    ensures StageOk(s, r', r'.todo[r'.i])
  {
    assert Due(r', r.todo[r.i]) == Due(r, r.todo[r.i]);
  }

  lemma SyncKeepsInv(s: State, r: Run, step: Step)
    requires Inv(s) && s.proc == Up(r) && (step.Primed? || step.AheadDone? || step.Advance?)
    requires ApplyRun(s, r, r.todo[r.i], step).Some?
    ensures Inv(ApplyRun(s, r, r.todo[r.i], step).value)
  {
    hide Tiles, Todo, HasRows, Partition.Files, Range, Partition.LedgerCount, SyncConcludes, Due, DoneOk, WrittenOk;
    RunTodo(r);
    if step.Primed? {
      ConcludedSync(s, r.todo[r.i], step.primedComplete, r.archived);
      EnterKeepsInv(s, r, r.i, step.primedComplete);
    } else if step.AheadDone? {
      ConcludedSync(s, r.todo[r.i + 1], step.aheadComplete, r.archived);
      var r' := r.(ahead := Fetched(step.aheadComplete));
      var s' := s.(proc := Up(r'));
      StageCarries(s, r, r');
      assert WellStarted(s', r') && AheadOk(s', r');
      DoneCarries(s, s', r, r');
      WrittenCarries(r, r');
    } else {
      EnterKeepsInv(s, r, r.i + 1, r.ahead.complete);
    }
  }

  /** Indexing or passing over one ledger; the file it deletes is not needed again, nor is it the next partition's. */
  lemma LedgerKeepsInv(s: State, r: Run, unlinks: bool)
    requires Inv(s) && s.proc == Up(r)
    requires ApplyRun(s, r, r.todo[r.i], Ledger(unlinks)).Some?
    ensures Inv(ApplyRun(s, r, r.todo[r.i], Ledger(unlinks)).value)
  {
    hide Tiles, Todo, HasRows, Partition.Files, Range, Due, StageOk, AheadOk, DoneOk, WrittenOk;
    RunTodo(r);
    var p := r.todo[r.i];
    assert r.stage.Indexing? && r.stage.cursor <= Last(r, p);
    var s' := ApplyRun(s, r, p, Ledger(unlinks)).value;
    var r' := s'.proc.run;
    assert WellStarted(s', r');
    LedgerStage(s, r, p, unlinks);
    LedgerAhead(s, s', r, r');
    DoneCarries(s, s', r, r');
    LedgerWritten(r, r');
  }

  lemma LedgerStage(s: State, r: Run, p: Partition, unlinks: bool)
    requires r.i < |r.todo| && ApplyRun(s, r, p, Ledger(unlinks)).Some? && StageOk(s, r, p)
    ensures var s' := ApplyRun(s, r, p, Ledger(unlinks)).value; s'.proc.Up? && StageOk(s', s'.proc.run, p)
    ensures First(r, p) <= r.stage.cursor
  {
  }

  lemma LedgerAhead(s: State, s': State, r: Run, r': Run)
    requires r.i < |r.todo| && AheadOk(s, r) && r.stage.Indexing? && r.stage.cursor <= r.todo[r.i].end
    requires Ascending(r.todo) && s.files - {r.stage.cursor} <= s'.files
    requires r' == r.(stage := r'.stage, written := r'.written) && r'.stage.Indexing?
    ensures AheadOk(s', r')
  {
    hide Partition.Files;
    if r.i + 1 < |r.todo| { DropsOnlyOwn(r.todo[r.i + 1], s.files, s'.files, r.stage.cursor); }
  }

  lemma LedgerWritten(r: Run, r': Run)
    requires WrittenOk(r) && r.stage.Indexing? && r.start <= r.stage.cursor <= r.end && r.stage.cursor >= FIRST_CLOSED_LEDGER
    requires r' == r.(stage := r'.stage, written := r'.written)
    requires r'.stage.Indexing? && r'.stage.cursor == r.stage.cursor + 1
    requires r'.written == if r.stage.cursor in r.completed then r.written else r.written + [r.stage.cursor]
    ensures WrittenOk(r')
  {
    Appended(r.written, r.stage.cursor);
  }

  lemma Appended(written: seq<nat>, q: nat)
    requires StrictlyAscending(written) && forall k :: k in written ==> k < q
    ensures StrictlyAscending(written + [q])
    ensures forall k :: k in written + [q] <==> k in written || k == q
  {
    forall i | 0 <= i < |written| ensures written[i] < q { assert written[i] in written; }
  }

  lemma DropsOnlyOwn(p: Partition, files: set<nat>, files': set<nat>, q: nat)
    requires files - {q} <= files' && q < p.start
    ensures p.Files() <= files ==> p.Files() <= files'
  {
    assert q !in p.Files();
  }

  /** Past its last ledger a partition's staged rows are those of all its due ledgers. */
  lemma AllStaged(s: State, r: Run, p: Partition)
    requires StageOk(s, r, p) && r.stage.Indexing? && r.stage.cursor > Last(r, p)
    ensures r.stage.staged == Due(r, p) && HasRows(s.rows, 0, r.stage.staged)
    ensures Due(r.(stage := Committing(0, r.stage.staged)), p) == Due(r, p)
  {
  }

  lemma BeginCommitKeepsInv(s: State, r: Run)
    requires Inv(s) && s.proc == Up(r) && ApplyRun(s, r, r.todo[r.i], BeginCommit).Some?
    ensures Inv(ApplyRun(s, r, r.todo[r.i], BeginCommit).value)
  {
    hide Tiles, Todo, Partition.Files, DoneOk, WrittenOk, Due, HasRows, Partition.Wf;
    RunTodo(r);
    var s' := ApplyRun(s, r, r.todo[r.i], BeginCommit).value;
    var r' := s'.proc.run;
    AllStaged(s, r, r.todo[r.i]);
    DoneCarries(s, s', r, r');
    WrittenCarries(r, r');
  }

  lemma EndTableKeepsInv(s: State, r: Run)
    requires Inv(s) && s.proc == Up(r) && ApplyRun(s, r, r.todo[r.i], EndTable).Some?
    ensures Inv(ApplyRun(s, r, r.todo[r.i], EndTable).value)
  {
    hide Tiles, Todo, Partition.Files, Range;
    var s' := ApplyRun(s, r, r.todo[r.i], EndTable).value;
    var r' := s'.proc.run;
    var n, staged := r.stage.ended, r.stage.staged;
    assert HasRows(s'.rows, TABLES, s'.markers) && HasRows(s'.rows, n + 1, staged) by {
      MoreRows(s.rows, s'.rows, s.markers, n, staged);
    }
    hide HasRows;
    assert WellStarted(s', r') && AheadOk(s', r') && DoneOk(s', r') && WrittenOk(r');
  }

  lemma MoreRows(rows: set<(nat, nat)>, rows': set<(nat, nat)>, markers: set<nat>, n: nat, staged: set<nat>)
    requires HasRows(rows, TABLES, markers) && HasRows(rows, n, staged)
    requires rows' == rows + set q | q in staged :: (n, q)
    ensures HasRows(rows', TABLES, markers) && HasRows(rows', n + 1, staged)
  {
  }

  lemma MarkKeepsInv(s: State, r: Run)
    requires Inv(s) && s.proc == Up(r) && ApplyRun(s, r, r.todo[r.i], Mark).Some?
    ensures Inv(ApplyRun(s, r, r.todo[r.i], Mark).value)
  {
    hide Tiles, Todo, Partition.Files, Range;
    var s' := ApplyRun(s, r, r.todo[r.i], Mark).value;
    var r' := s'.proc.run;
    assert Marked(s');
    hide HasRows;
    assert WellStarted(s', r') && AheadOk(s', r') && DoneOk(s', r') && WrittenOk(r');
  }

  lemma CleanKeepsInv(s: State, r: Run, step: Step)
    requires Inv(s) && s.proc == Up(r) && (step.Clean? || step.Finish?)
    requires ApplyRun(s, r, r.todo[r.i], step).Some?
    ensures Inv(ApplyRun(s, r, r.todo[r.i], step).value)
  {
    hide Tiles, Todo, HasRows, Range, Due, Partition.Files, DoneOk, WrittenOk;
    RunTodo(r);
    var p := r.todo[r.i];
    var s' := ApplyRun(s, r, p, step).value;
    var r' := s'.proc.run;
    DoneCarries(s, s', r, r');
    WrittenCarries(r, r');
    assert AheadOk(s', r') by {
      if r.i + 1 < |r.todo| { FoldersApart(p, r.todo[r.i + 1], s.files, p.Files()); }
    }
  }

  lemma FoldersApart(p: Partition, next: Partition, files: set<nat>, removed: set<nat>)
    requires p.end < next.start && removed <= p.Files()
    ensures next.Files() <= files ==> next.Files() <= files - removed
  {
    assert forall q :: q in next.Files() ==> q !in p.Files();
  }

  /** Part of the folder gone: a crash may come before the rest. */
  lemma RemoveKeepsInv(s: State, r: Run, removed: set<nat>)
    requires Inv(s) && s.proc == Up(r) && ApplyRun(s, r, r.todo[r.i], RemoveSome(removed)).Some?
    ensures Inv(ApplyRun(s, r, r.todo[r.i], RemoveSome(removed)).value)
  {
    hide Tiles, Todo, HasRows, Range, Due, Partition.Files, DoneOk, WrittenOk;
    RunTodo(r);
    var p := r.todo[r.i];
    var s' := ApplyRun(s, r, p, RemoveSome(removed)).value;
    DoneCarries(s, s', r, r);
    assert AheadOk(s', r) by {
      if r.i + 1 < |r.todo| { FoldersApart(p, r.todo[r.i + 1], s.files, removed); }
    }
  }

  /** A crash loses the open inserts; what had leaked into tables or markers is covered by rows. */
  lemma CrashKeepsInv(s: State, r: Run, leaked: set<(nat, nat)>, marked: set<nat>)
    requires Inv(s) && s.proc == Up(r)
    requires ApplyRun(s, r, r.todo[r.i], Crash(leaked, marked)).Some?
    ensures Inv(ApplyRun(s, r, r.todo[r.i], Crash(leaked, marked)).value)
  {
    hide Tiles, Todo, Due, Partition.Files;
  }

  /** Every step keeps the invariant. */
  lemma StepKeepsInv(s: State, step: Step)
    requires Inv(s) && Apply(s, step).Some?
    ensures Inv(Apply(s, step).value)
  {
    hide Tiles, Todo, HasRows, Due, Partition.Files, Range, SyncConcludes, StageOk, AheadOk, DoneOk, WrittenOk;
    var s' := Apply(s, step).value;
    match step
    case Upload(_) => GrowKeepsInv(s, s');
    case Start(_, _, _, _) => StartKeepsInv(s, step);
    case Pull(_) => GrowKeepsInv(s, s');
    case PullAhead(_) => GrowKeepsInv(s, s');
    case Primed(_) => SyncKeepsInv(s, s.proc.run, step);
    case AheadDone(_) => SyncKeepsInv(s, s.proc.run, step);
    case Advance => SyncKeepsInv(s, s.proc.run, step);
    case Ledger(unlinks) => LedgerKeepsInv(s, s.proc.run, unlinks);
    case BeginCommit => BeginCommitKeepsInv(s, s.proc.run);
    case EndTable => EndTableKeepsInv(s, s.proc.run);
    case Mark => MarkKeepsInv(s, s.proc.run);
    case RemoveSome(removed) => RemoveKeepsInv(s, s.proc.run, removed);
    case Clean => CleanKeepsInv(s, s.proc.run, step);
    case Finish => CleanKeepsInv(s, s.proc.run, step);
    case Crash(leaked, marked) => CrashKeepsInv(s, s.proc.run, leaked, marked);
    case MissingFile =>
    case Exit =>
  }

  // ---------- Over whole runs, crashes and restarts included ----------

  /** A history that starts with the process down and a database in which marked ledgers have their rows. */
  ghost predicate Behavior(trace: seq<State>, steps: seq<Step>)
  {
    && |trace| == |steps| + 1
    && trace[0].proc.Down? && Marked(trace[0])
    && forall k :: 0 <= k < |steps| ==> Apply(trace[k], steps[k]) == Some(trace[k + 1])
  }

  lemma {:induction false} AlwaysInv(trace: seq<State>, steps: seq<Step>, k: nat)
    requires Behavior(trace, steps) && k < |trace|
    ensures Inv(trace[k])
    decreases k
  {
    hide Apply;
    if k == 0 {
    } else {
      AlwaysInv(trace, steps, k - 1);
      assert Apply(trace[k - 1], steps[k - 1]) == Some(trace[k]);
      StepKeepsInv(trace[k - 1], steps[k - 1]);
    }
  }

  /** In every reachable state a marked ledger has all its rows. */
  lemma MarkedLedgersHaveRows(trace: seq<State>, steps: seq<Step>, k: nat, q: nat, t: nat)
    requires Behavior(trace, steps) && k < |trace| && q in trace[k].markers && t < TABLES
    ensures (t, q) in trace[k].rows
  {
    AlwaysInv(trace, steps, k);
  }

  lemma NoFileMissing(s: State)
    requires Inv(s)
    ensures Apply(s, MissingFile) == None
  {
    hide Tiles, Todo, HasRows, Due, Partition.Files, Range, AheadOk, DoneOk, WrittenOk;
    if s.proc.Up? && s.proc.run.i < |s.proc.run.todo| {
      assert StageOk(s, s.proc.run, s.proc.run.todo[s.proc.run.i]);
      RunTodo(s.proc.run);
    }
  }

  /** The assertion that an indexed ledger's file exists never fails, in any interleaving with the prefetch. */
  lemma FileNeverMissing(trace: seq<State>, steps: seq<Step>, k: nat)
    requires Behavior(trace, steps) && k < |trace|
    ensures Apply(trace[k], MissingFile) == None
    ensures k < |steps| ==> steps[k] != MissingFile
  {
    hide Apply, Inv;
    AlwaysInv(trace, steps, k);
    NoFileMissing(trace[k]);
    if k < |steps| { assert Apply(trace[k], steps[k]) == Some(trace[k + 1]); }
  }

  lemma StepKeepsMarkers(s: State, step: Step)
    requires Apply(s, step).Some?
    ensures s.markers <= Apply(s, step).value.markers
  {
    hide Tiles, Todo, SyncConcludes;
  }

  /** The marker set never shrinks. */
  lemma {:induction false} MarkersNeverShrink(trace: seq<State>, steps: seq<Step>, j: nat, k: nat)
    requires Behavior(trace, steps) && j <= k < |trace|
    ensures trace[j].markers <= trace[k].markers
    decreases k
  {
    hide Apply;
    if j < k {
      MarkersNeverShrink(trace, steps, j, k - 1);
      assert Apply(trace[k - 1], steps[k - 1]) == Some(trace[k]);
      StepKeepsMarkers(trace[k - 1], steps[k - 1]);
    }
  }

  /** No run writes a ledger twice, nor one that was already marked when it started. */
  lemma WrittenOnce(trace: seq<State>, steps: seq<Step>, k: nat)
    requires Behavior(trace, steps) && k < |trace| && trace[k].proc.Up?
    ensures StrictlyAscending(trace[k].proc.run.written)
    ensures forall q :: q in trace[k].proc.run.written ==> q !in trace[k].proc.run.completed
  {
    AlwaysInv(trace, steps, k);
  }

  // ---------- What is written ----------

  /** The run has written what is staged, and all that was due in the partitions done and not passed over. */
  ghost predicate Recorded(s: State)
  {
    s.proc.Up? ==> RecordedIn(s.proc.run)
  }

  ghost predicate RecordedIn(r: Run)
  {
    && DoneCount(r) <= |r.todo|
    && (forall q :: q in StagedIn(r.stage) ==> q in r.written)
    && forall j, q :: 0 <= j < DoneCount(r) && j !in r.skipped && q in Due(r, r.todo[j]) ==> q in r.written
  }

  lemma StepKeepsRecorded(s: State, step: Step)
    requires Inv(s) && Recorded(s) && Apply(s, step).Some?
    ensures Recorded(Apply(s, step).value)
  {
    hide Tiles, Todo, HasRows, Range, Partition.Files, Partition.Wf, SyncConcludes, AheadOk, WrittenOk, DueIn, RecordedIn;
    var s' := Apply(s, step).value;
    if step.Start? {
      if s'.proc.Up? { NothingDue(s'.proc.run); }
    } else if s.proc.Up? && s'.proc.Up? {
      var r, r' := s.proc.run, s'.proc.run;
      if step.Mark? { assert r.stage.staged == Due(r, r.todo[r.i]); }
      StagedWritten(r);
      hide Due;
      RecordedCarries(r, r');
    }
  }

  lemma NothingDue(r: Run)
    requires r.i == 0 && r.stage.Priming?
    ensures RecordedIn(r)
  {
  }

  lemma StagedWritten(r: Run)
    requires RecordedIn(r)
    ensures DoneCount(r) <= |r.todo| && forall q :: q in StagedIn(r.stage) ==> q in r.written
  {
  }

  /** Further on in the same plan, with no more than one partition done since, which was passed over or whose due ledgers are written. */
  lemma RecordedCarries(r: Run, r': Run)
    requires RecordedIn(r)
    requires r' == r.(i := r'.i, stage := r'.stage, ahead := r'.ahead, written := r'.written, skipped := r'.skipped)
    requires r.written <= r'.written && r.skipped <= r'.skipped && forall q :: q in StagedIn(r'.stage) ==> q in r'.written
    requires || DoneCount(r') == DoneCount(r)
             || (&& DoneCount(r') == DoneCount(r) + 1 <= |r.todo|
                 && (DoneCount(r) in r'.skipped || forall q :: q in Due(r, r.todo[DoneCount(r)]) ==> q in r'.written))
    ensures RecordedIn(r')
  {
    hide DueIn;
    forall j, q | 0 <= j < DoneCount(r') && j !in r'.skipped && q in Due(r', r'.todo[j]) ensures q in r'.written {
      assert Due(r', r'.todo[j]) == Due(r, r.todo[j]);
      if j < DoneCount(r) { assert q in r.written; }
    }
  }

  lemma {:induction false} AlwaysRecorded(trace: seq<State>, steps: seq<Step>, k: nat)
    requires Behavior(trace, steps) && k < |trace|
    ensures Recorded(trace[k])
    decreases k
  {
    hide Apply, Inv, Recorded;
    if k > 0 {
      AlwaysRecorded(trace, steps, k - 1);
      AlwaysInv(trace, steps, k - 1);
      assert Apply(trace[k - 1], steps[k - 1]) == Some(trace[k]);
      StepKeepsRecorded(trace[k - 1], steps[k - 1]);
    } else {
      NothingRecorded(trace[0]);
    }
  }

  lemma NothingRecorded(s: State)
    requires s.proc.Down?
    ensures Recorded(s)
  {
  }

  /** A finished run that passed over nothing wrote each ledger of its range that was not done before, and those once each. */
  lemma FinishedRunWroteRange(trace: seq<State>, steps: seq<Step>, k: nat)
    requires Behavior(trace, steps) && k < |trace| && trace[k].proc.Up?
    requires trace[k].proc.run.stage.Finished? && trace[k].proc.run.skipped == {}
    ensures var r := trace[k].proc.run;
            && StrictlyAscending(r.written)
            && forall q: nat :: q in r.written <==> r.start <= q <= r.end && q >= FIRST_CLOSED_LEDGER && q !in r.completed
  {
    hide Tiles, Todo, HasRows, Range, Partition.Files, AheadOk;
    var r := trace[k].proc.run;
    AlwaysInv(trace, steps, k);
    AlwaysRecorded(trace, steps, k);
    forall q: nat ensures q in r.written <==> r.start <= q <= r.end && q >= FIRST_CLOSED_LEDGER && q !in r.completed {
      if r.start <= q <= r.end && q >= FIRST_CLOSED_LEDGER && q !in r.completed {
        var p := TileWith(r.start, r.end, q);
        TodoMembers(Tiles(r.start, r.end), r.start, r.end, r.completed, p);
        assert q in Range(First(r, p), Last(r, p));
        var j :| 0 <= j < |r.todo| && r.todo[j] == p;
        assert j < DoneCount(r) && q in Due(r, r.todo[j]);
      }
    }
  }

  // ---------- What is left on disk ----------

  /** A ledger's file goes as soon as it is indexed or passed over, unless files are kept or the unlink fails. */
  lemma IndexedFileGoes(s: State, unlinks: bool)
    requires s.proc.Up? && s.proc.run.i < |s.proc.run.todo| && Apply(s, Ledger(unlinks)).Some?
    ensures Apply(s, Ledger(unlinks)).value.files
         == if unlinks && !s.proc.run.keep then s.files - {s.proc.run.stage.cursor} else s.files
  {
  }

  /** How many partitions' folders are over and done with. */
  function Swept(r: Run): nat
  {
    if r.stage.Awaiting? || r.stage.Finished? then r.i + 1 else r.i
  }

  ghost predicate NoFiles(todo: seq<Partition>, n: nat, files: set<nat>)
  {
    n <= |todo| && forall j, q :: 0 <= j < n && q in todo[j].Files() ==> q !in files
  }

  /** Unless files are kept, no file of a partition done with is on disk. */
  ghost predicate Tidy(s: State)
  {
    s.proc.Up? && !s.proc.run.keep ==> NoFiles(s.proc.run.todo, Swept(s.proc.run), s.files)
  }

  lemma StepKeepsTidy(s: State, step: Step)
    requires Inv(s) && Tidy(s) && Apply(s, step).Some?
    ensures Tidy(Apply(s, step).value)
  {
    hide Tiles, Todo, HasRows, Due, Range, Partition.Files, Partition.Wf, SyncConcludes, DoneOk, WrittenOk, AheadOk, StageOk, NoFiles, Enter;
    var s' := Apply(s, step).value;
    if step.Start? {
      if s'.proc.Up? { FirstOfNone(s'.proc.run.todo, s'.files); }
    } else if s.proc.Up? {
      var r, n := s.proc.run, Swept(s.proc.run);
      RunTodo(r);
      match step
      case Pull(fs) => if !r.keep { FilesFetched(r.todo, n, s.files, fs, r.i); }
      case PullAhead(fs) => if !r.keep { FilesFetched(r.todo, n, s.files, fs, r.i + 1); }
      case Clean => if !r.keep { FilesCleared(r.todo, n, s.files); }
      case _ => OtherStepsFetchNothing(s, step);
    }
  }

  lemma OtherStepsFetchNothing(s: State, step: Step)
    requires s.proc.Up? && Tidy(s) && Apply(s, step).Some? && !step.Pull? && !step.PullAhead? && !step.Clean?
    ensures Tidy(Apply(s, step).value)
  {
    hide Tiles, Todo, SyncConcludes, Partition.Files, NoFiles;
    var s', r := Apply(s, step).value, s.proc.run;
    if s'.proc.Up? {
      assert s'.files <= s.files && Swept(s'.proc.run) == Swept(r);
      if !r.keep { FewerFiles(r.todo, Swept(r), s.files, s'.files); }
    }
  }

  lemma FirstOfNone(todo: seq<Partition>, files: set<nat>)
    ensures NoFiles(todo, 0, files)
  {
  }

  lemma FewerFiles(todo: seq<Partition>, n: nat, files: set<nat>, files': set<nat>)
    requires NoFiles(todo, n, files) && files' <= files
    ensures NoFiles(todo, n, files')
  {
  }

  /** What is fetched for a partition is no earlier partition's. */
  lemma FilesFetched(todo: seq<Partition>, n: nat, files: set<nat>, fetched: set<nat>, i: nat)
    requires NoFiles(todo, n, files) && Ascending(todo) && n <= i < |todo| && fetched <= todo[i].Files()
    ensures NoFiles(todo, n, files + fetched)
  {
    forall j, q | 0 <= j < n && q in todo[j].Files() ensures q !in files + fetched {
      assert q !in todo[i].Files();
    }
  }

  lemma FilesCleared(todo: seq<Partition>, n: nat, files: set<nat>)
    requires NoFiles(todo, n, files) && n < |todo|
    ensures NoFiles(todo, n + 1, files - todo[n].Files())
  {
  }

  lemma {:induction false} AlwaysTidy(trace: seq<State>, steps: seq<Step>, k: nat)
    requires Behavior(trace, steps) && k < |trace|
    ensures Tidy(trace[k])
    decreases k
  {
    hide Apply, Inv;
    if k > 0 {
      AlwaysTidy(trace, steps, k - 1);
      AlwaysInv(trace, steps, k - 1);
      assert Apply(trace[k - 1], steps[k - 1]) == Some(trace[k]);
      StepKeepsTidy(trace[k - 1], steps[k - 1]);
    }
  }

  /** A run that does not keep its files ends with none of its partitions' on disk, whatever crashed before it. */
  lemma FinishedRunLeavesNoFiles(trace: seq<State>, steps: seq<Step>, k: nat, j: nat)
    requires Behavior(trace, steps) && k < |trace| && trace[k].proc.Up?
    requires trace[k].proc.run.stage.Finished? && !trace[k].proc.run.keep && j < |trace[k].proc.run.todo|
    ensures trace[k].proc.run.todo[j].Files() * trace[k].files == {}
  {
    hide Partition.Files;
    AlwaysTidy(trace, steps, k);
    AlwaysInv(trace, steps, k);
  }

  /** A run that keeps its files deletes none. */
  lemma KeptFilesStay(s: State, step: Step)
    requires s.proc.Up? && s.proc.run.keep && Apply(s, step).Some?
    ensures s.files <= Apply(s, step).value.files
  {
    hide Tiles, Todo, SyncConcludes, Partition.Files;
  }

  lemma TileWith(start: nat, end: nat, q: nat) returns (p: Partition)
    requires start <= q <= end < OVERFLOW_LEDGER && q >= FIRST_CLOSED_LEDGER
    ensures p in Tiles(start, end) && InClamped(p, start, end, q)
  {
    TilesCover(start, end, q);
    var i :| 0 <= i < |Tiles(start, end)| && InClamped(Tiles(start, end)[i], start, end, q);
    p := Tiles(start, end)[i];
  }

  /** When a run is over, every ledger of its range is marked or lies in a partition it passed over
      because the archive did not hold that partition whole. */
  lemma FinishedMarksOrSkips(s: State, r: Run, q: nat)
    requires Inv(s) && s.proc == Up(r) && r.stage.Finished?
    requires r.start <= q <= r.end && q >= FIRST_CLOSED_LEDGER
    ensures q in s.markers
         || exists j :: j in r.skipped && j < |r.todo| && InClamped(r.todo[j], r.start, r.end, q) && !(r.todo[j].Files() <= r.archived)
  {
    hide Tiles, Todo, HasRows, WrittenOk, AheadOk, Range, Partition.Files;
    var p := TileWith(r.start, r.end, q);
    TodoMembers(Tiles(r.start, r.end), r.start, r.end, r.completed, p);
    assert q in Range(First(r, p), Last(r, p));
    assert r.completed <= s.markers;
    if FullyDone(p, r.start, r.end, r.completed) {
    } else {
      var j :| 0 <= j < |r.todo| && r.todo[j] == p;
      assert j < DoneCount(r);
      assert j in r.skipped || Due(r, r.todo[j]) <= s.markers;
    }
  }

  /** With a whole archive, a finished run leaves every ledger from max(start, first closed ledger) to end marked. */
  lemma FinishedRunMarksRange(s: State, r: Run)
    requires Inv(s) && s.proc == Up(r) && r.stage.Finished?
    requires forall j :: 0 <= j < |r.todo| ==> r.todo[j].Files() <= r.archived
    ensures forall q: nat :: r.start <= q <= r.end && q >= FIRST_CLOSED_LEDGER ==> q in s.markers
  {
    hide Inv;
    forall q: nat | r.start <= q <= r.end && q >= FIRST_CLOSED_LEDGER ensures q in s.markers {
      FinishedMarksOrSkips(s, r, q);
    }
  }

  // ---------- A run without crashes ends ----------

  predicate IsWork(step: Step)
  {
    step.Primed? || step.AheadDone? || step.Ledger? || step.BeginCommit? || step.EndTable? || step.Mark?
    || step.Clean? || step.Advance? || step.Finish?
  }

  /** What is left to do: partitions, stages, ledgers or tables, a fetch. */
  datatype Left = Left(partitions: nat, stages: nat, inner: nat, fetch: nat)

  function LeftOf(r: Run): Left
    requires r.i < |r.todo|
  {
    var p := r.todo[r.i];
    match r.stage
    case Priming => Left(|r.todo| - r.i, 6, 0, 0)
    case Indexing(cursor, _) => Left(|r.todo| - r.i, 5, if cursor <= Last(r, p) then Last(r, p) + 1 - cursor else 0, FetchLeft(r))
    case Committing(ended, _) => Left(|r.todo| - r.i, 4, if ended <= TABLES then TABLES - ended else 0, FetchLeft(r))
    case Cleaning => Left(|r.todo| - r.i, 3, 0, FetchLeft(r))
    case Awaiting => Left(|r.todo| - r.i, 2, 0, FetchLeft(r))
    case Finished => Left(|r.todo| - r.i, 1, 0, FetchLeft(r))
  }

  function FetchLeft(r: Run): nat
  {
    if r.ahead.Fetching? then 1 else 0
  }

  predicate Less(a: Left, b: Left)
  {
    a.partitions < b.partitions
    || (a.partitions == b.partitions
        && (a.stages < b.stages
            || (a.stages == b.stages && (a.inner < b.inner || (a.inner == b.inner && a.fetch < b.fetch)))))
  }

  /** Every step of work leaves less to do. */
  lemma WorkShrinks(s: State, step: Step)
    requires Inv(s) && s.proc.Up? && IsWork(step) && Apply(s, step).Some?
    ensures var s' := Apply(s, step).value;
            && s'.proc.Up? && s'.proc.run.i < |s'.proc.run.todo|
            && Less(LeftOf(s'.proc.run), LeftOf(s.proc.run))
            && s'.proc.run.start == s.proc.run.start && s'.proc.run.end == s.proc.run.end
            && s'.proc.run.todo == s.proc.run.todo && s'.proc.run.archived == s.proc.run.archived && s'.s3 == s.s3
  {
    hide Tiles, Todo, HasRows, Range, Partition.Files, SyncConcludes, WellStarted, DoneOk, WrittenOk;
    assert s.proc.run.i < |s.proc.run.todo| by { TodoIndex(s); }
  }

  lemma TodoIndex(s: State)
    requires Inv(s) && s.proc.Up?
    ensures s.proc.run.i < |s.proc.run.todo|
  {
  }

  /** With a whole archive an unfinished run can always work on, after fetching what it waits for. */
  lemma NeverStuck(s: State, r: Run) returns (fetch: Step, work: Step)
    requires Inv(s) && s.proc == Up(r) && !r.stage.Finished?
    requires forall j :: 0 <= j < |r.todo| ==> r.todo[j].Files() <= s.s3
    ensures (fetch.Upload? || fetch.Pull? || fetch.PullAhead?) && IsWork(work)
    ensures Apply(s, fetch).Some? && Apply(s, fetch).value == s.(files := Apply(s, fetch).value.files)
    ensures Apply(Apply(s, fetch).value, work).Some?
  {
    hide Tiles, Todo, HasRows, Range, Partition.Files, Partition.LedgerCount, Due, SyncConcludes, DoneOk, WrittenOk;
    RunTodo(r);
    var p := r.todo[r.i];
    fetch := Upload({});
    assert s.(s3 := s.s3 + {}) == s;
    if r.stage.Awaiting? {
      fetch, work := GoesOn(s, r);
      return;
    }
    hide AheadOk;
    match r.stage
    case Priming =>
      fetch, work := Pull(p.Files()), Primed(true);
      FetchCompletes(s, p);
    case Indexing(cursor, _) =>
      work := if cursor <= Last(r, p) then Ledger(true) else BeginCommit;
    case Committing(ended, _) =>
      work := if ended < TABLES then EndTable else Mark;
    case Cleaning =>
      work := Clean;
  }

  lemma GoesOn(s: State, r: Run) returns (fetch: Step, work: Step)
    requires Inv(s) && s.proc == Up(r) && r.stage.Awaiting?
    requires forall j :: 0 <= j < |r.todo| ==> r.todo[j].Files() <= s.s3
    ensures (fetch.Upload? || fetch.Pull? || fetch.PullAhead?) && IsWork(work)
    ensures Apply(s, fetch).Some? && Apply(s, fetch).value == s.(files := Apply(s, fetch).value.files)
    ensures Apply(Apply(s, fetch).value, work).Some?
  {
    hide Tiles, Todo, HasRows, Range, Partition.Files, Partition.LedgerCount, Due, SyncConcludes, DoneOk, WrittenOk, StageOk;
    RunTodo(r);
    fetch := Upload({});
    assert s.(s3 := s.s3 + {}) == s;
    if r.i + 1 == |r.todo| {
      work := Finish;
    } else if r.ahead.Fetching? {
      fetch, work := PullAhead(r.todo[r.i + 1].Files()), AheadDone(true);
      FetchCompletes(s, r.todo[r.i + 1]);
    } else {
      work := Advance;
    }
  }

  lemma FetchCompletes(s: State, p: Partition)
    requires p.Wf() && p.Files() <= s.s3
    ensures p.Files() <= s.s3 * p.Files()
    ensures SyncConcludes(s.(files := s.files + p.Files()), p, true)
  {
    FilesCount(p);
    assert (s.files + p.Files()) * p.Files() == p.Files();
  }

  /** From every reachable state of a run, a continuation without crashes finishes it and marks its whole range. */
  lemma {:induction false} RunsToItsEnd(s: State, r: Run) returns (s': State, steps: seq<Step>)
    requires Inv(s) && s.proc == Up(r)
    requires forall j :: 0 <= j < |r.todo| ==> r.todo[j].Files() <= r.archived
    ensures Inv(s') && s'.proc.Up? && s'.proc.run.stage.Finished?
    ensures forall k :: 0 <= k < |steps| ==> !steps[k].Crash? && !steps[k].MissingFile?
    ensures Leads(s, steps, s')
    ensures forall q: nat :: r.start <= q <= r.end && q >= FIRST_CLOSED_LEDGER ==> q in s'.markers
    decreases |r.todo| - r.i, LeftOf(r).stages, LeftOf(r).inner, LeftOf(r).fetch
  {
    hide Apply, ApplyRun, StageOk, AheadOk, DoneOk, WrittenOk, Partition.Files, Tiles, Todo, HasRows;
    if r.stage.Finished? {
      FinishedRunMarksRange(s, r);
      return s, [];
    }
    var fetch, work := NeverStuck(s, r);
    var s1 := Apply(s, fetch).value;
    StepKeepsInv(s, fetch);
    var s2 := Apply(s1, work).value;
    StepKeepsInv(s1, work);
    WorkShrinks(s1, work);
    var rest;
    s', rest := RunsToItsEnd(s2, s2.proc.run);
    steps := [fetch, work] + rest;
    assert steps[1..] == [work] + rest && steps[1..][1..] == rest;
  }

  /** `steps` take `s` to `s'`. */
  ghost predicate Leads(s: State, steps: seq<Step>, s': State)
    decreases |steps|
  {
    if steps == [] then s == s'
    else Apply(s, steps[0]).Some? && Leads(Apply(s, steps[0]).value, steps[1..], s')
  }
}
