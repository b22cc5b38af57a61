/** Bringing one partition to disk (crates/backfill-runner/src/sync.rs). */
module Sync {
  import opened Bits
  import opened Options
  import opened Partitions

  /** A directory entry: a `.xdr.zst` ledger file or anything else. */
  datatype DirEntry = LedgerFile(ledger: nat, bytes: nat) | OtherFile(name: string)

  function LedgersOf(entries: seq<DirEntry>): set<nat>
  {
    set e | e in entries && e.LedgerFile? :: e.ledger
  }

  function BytesOf(entries: seq<DirEntry>): nat
  {
    if entries == [] then 0
    else BytesOf(entries[..|entries| - 1]) + (if entries[|entries| - 1].LedgerFile? then entries[|entries| - 1].bytes else 0)
  }

  /** A directory names each ledger once. */
  ghost predicate NamesDistinct(entries: seq<DirEntry>)
  {
    forall i, j :: 0 <= i < j < |entries| && entries[i].LedgerFile? && entries[j].LedgerFile? ==> entries[i].ledger != entries[j].ledger
  }

  /** One entry further: a ledger file not counted before, or nothing. */
  lemma EntryCounted(entries: seq<DirEntry>, i: nat)
    requires i < |entries| && NamesDistinct(entries)
    ensures BytesOf(entries[..i + 1]) == BytesOf(entries[..i]) + (if entries[i].LedgerFile? then entries[i].bytes else 0)
    ensures |LedgersOf(entries[..i + 1])| == |LedgersOf(entries[..i])| + (if entries[i].LedgerFile? then 1 else 0)
  {
    var before, e := entries[..i], entries[i];
    assert entries[..i + 1] == before + [e] && (before + [e])[..|before|] == before;
    assert forall x :: x in before + [e] <==> x in before || x == e;
    assert LedgersOf(before + [e]) == LedgersOf(before) + (if e.LedgerFile? then {e.ledger} else {});
    assert e.LedgerFile? ==> e.ledger !in LedgersOf(before);
  }

  method DirStats(entries: seq<DirEntry>) returns (count: nat, bytes: nat)
    requires NamesDistinct(entries)
    ensures count == |LedgersOf(entries)| && bytes == BytesOf(entries)
  {
    assert LedgersOf(entries[..0]) == {};
    hide LedgersOf, BytesOf, NamesDistinct;
    count, bytes := 0, 0;
    for i := 0 to |entries|
      invariant count == |LedgersOf(entries[..i])| && bytes == BytesOf(entries[..i])
    {
      EntryCounted(entries, i);
      if entries[i].OtherFile? { continue; }
      count := count + 1;
      bytes := bytes + entries[i].bytes;
    }
    assert entries[..|entries|] == entries;
  }

  /** The pre-check: a folder that exists and has exactly `expected` ledger files, and what they weigh. */
  method CountCompletePartition(listing: Option<seq<DirEntry>>, expected: nat) returns (r: Option<(nat, nat)>)
    requires listing.Some? ==> NamesDistinct(listing.value)
    ensures r.Some? <==> listing.Some? && |LedgersOf(listing.value)| == expected
    ensures r.Some? ==> r.value == (expected, BytesOf(listing.value))
  {
    if listing == None { return None; }
    var count, bytes := DirStats(listing.value);
    if count != expected { return None; }
    return Some((count, bytes));
  }

  const RETRY_ATTEMPTS: nat := 3
  const RETRY_BASE_DELAY: nat := 2       // seconds
  const RETRY_MAX_DELAY: nat := 30
  const RETRY_MULTIPLIER: nat := 2

  function Min(a: nat, b: nat): (m: nat)
    ensures m <= a && m <= b && m in {a, b}
  {
    if a < b then a else b
  }

  /** The subprocess with retries: the first attempt to succeed ends them, and each wait is the capped double
      of the one before. `waits` are the pauses, in order. */
  method RunSyncWithRetry(succeeds: nat -> bool) returns (ok: bool, attempts: nat, waits: seq<nat>)
    ensures 1 <= attempts <= 3 && forall a :: 1 <= a < attempts ==> !succeeds(a)
    ensures ok == succeeds(attempts) && (!ok ==> attempts == 3)
    ensures |waits| == attempts - 1
    ensures waits == [2, 4][..attempts - 1]
    ensures forall k :: 0 <= k < |waits| ==> waits[k] == Min(RETRY_BASE_DELAY * Pow2(k), RETRY_MAX_DELAY)
  {
    var delay := RETRY_BASE_DELAY;
    waits := [];
    assert Pow2(0) == 1 && Pow2(1) == 2;
    for attempt := 1 to RETRY_ATTEMPTS + 1
      invariant forall a :: 1 <= a < attempt ==> !succeeds(a)
      invariant attempt <= RETRY_ATTEMPTS && |waits| == attempt - 1
      invariant delay == Min(RETRY_BASE_DELAY * Pow2(attempt - 1), RETRY_MAX_DELAY)
      invariant forall k :: 0 <= k < |waits| ==> waits[k] == Min(RETRY_BASE_DELAY * Pow2(k), RETRY_MAX_DELAY)
    {
      if succeeds(attempt) { return true, attempt, waits; }
      if attempt == RETRY_ATTEMPTS { return false, attempt, waits; }
      waits := waits + [delay];
      delay := Min(delay * RETRY_MULTIPLIER, RETRY_MAX_DELAY);
    }
  }

  datatype SyncOutcome = Complete | S3Incomplete(local: nat, s3: nat, need: nat)
  datatype SyncError = SyncCommandFailed | S3LsFailed | PartitionSyncFailed(local: nat, s3: nat, need: nat)
  datatype SyncResult = Ok(outcome: SyncOutcome) | Err(error: SyncError)

  /** What one `aws s3 sync` does: fails, or exits 0 having brought some files. */
  datatype Pull = PullFailed | Pulled(files: set<nat>)

  function Brought(pull: Pull): set<nat>
  {
    if pull.Pulled? then pull.files else {}
  }

  /** `first` and `second` are what the sync commands do if they are run, `listed` what the listing says.
      The folder and the archive prefix hold only this partition's names. */
  method SyncPartition(p: Partition, local: set<nat>, first: Pull, listed: Option<nat>, second: Pull)
    returns (r: SyncResult, local': set<nat>)
    requires p.Wf() && local <= p.Files()
    requires (first.Pulled? ==> first.files <= p.Files()) && (second.Pulled? ==> second.files <= p.Files())
    ensures local <= local' <= p.Files()
    ensures local' <= local + Brought(first) + Brought(second)
    ensures r == Ok(Complete) <==> r.Ok? && local' == p.Files()
    ensures r.Ok? && r.outcome.S3Incomplete? ==>
              && listed == Some(r.outcome.s3) && r.outcome.s3 < r.outcome.need == |p.Files()|
              && r.outcome.local == |local'|
    ensures local == p.Files() ==> r == Ok(Complete) && local' == local
    ensures first.Pulled? && local + first.files == p.Files() ==> r == Ok(Complete)
    ensures (&& first.Pulled? && listed.Some? && listed.value >= |p.Files()| && second.Pulled?
             && local + first.files + second.files == p.Files()) ==> r == Ok(Complete)
    // each other result exactly when
    ensures r.Ok? && r.outcome.S3Incomplete? <==>
              local != p.Files() && first.Pulled? && local + first.files != p.Files() && listed.Some? && listed.value < |p.Files()|
    ensures r == Err(S3LsFailed) <==>
              local != p.Files() && first.Pulled? && local + first.files != p.Files() && listed == None
    ensures r == Err(SyncCommandFailed) <==>
              local != p.Files() && (first.PullFailed?
                || (local + first.files != p.Files() && listed.Some? && listed.value >= |p.Files()| && second.PullFailed?))
    ensures r.Err? && r.error.PartitionSyncFailed? <==>
              && local != p.Files() && first.Pulled? && local + first.files != p.Files() && listed.Some? && listed.value >= |p.Files()|
              && second.Pulled? && local + first.files + second.files != p.Files()
  {
    FilesCount(p);
    var need := p.LedgerCount();
    CountMeansComplete(p, local);
    if |local| == need { return Ok(Complete), local; }
    if first.PullFailed? { return Err(SyncCommandFailed), local; }
    local' := local + first.files;
    CountMeansComplete(p, local');
    if |local'| == need { return Ok(Complete), local'; }
    if listed == None { return Err(S3LsFailed), local'; }
    if listed.value < need { return Ok(S3Incomplete(|local'|, listed.value, need)), local'; }
    if second.PullFailed? { return Err(SyncCommandFailed), local'; }
    local' := local' + second.files;
    CountMeansComplete(p, local');
    if |local'| == need { return Ok(Complete), local'; }
    return Err(PartitionSyncFailed(|local'|, listed.value, need)), local';
  }
}
