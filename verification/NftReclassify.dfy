/** Moving NFT rows out of quarantine once their contracts are classified (crates/backfill-runner/src/nft_reclassify.rs). */
module NftReclassify {
  import opened ContractTypes
  import opened Options

  datatype Row = Row(contract: int, rest: string)

  /** What `soroban_contracts` says; `None` for no verdict. */
  type Verdicts = int -> Option<ContractType>

  const DROP_PENDING: set<ContractType> := {Token, Nft, Fungible}
  const DROP_LEGACY: set<ContractType> := {Token, Fungible}

  /** The rows of a table whose contract resolves to one of `types`. */
  function Resolving(rows: set<Row>, v: Verdicts, types: set<ContractType>): set<Row>
  {
    set r | r in rows && v(r.contract).Some? && v(r.contract).value in types
  }

  // ---------- The pass over the tables ----------

  /** A table as its merged rows. */
  class Table {
    var rows: set<Row>

    constructor (rows: set<Row>)
      ensures this.rows == rows
    {
      this.rows := rows;
    }
  }

  method PromoteOrCount(pending: Table, hot: Table, v: Verdicts, dryRun: bool) returns (n: nat)
    requires pending != hot
    modifies hot
    ensures n == |Resolving(pending.rows, v, {Nft})|
    ensures hot.rows == if dryRun then old(hot.rows) else old(hot.rows) + Resolving(pending.rows, v, {Nft})
  {
    var moving := Resolving(pending.rows, v, {Nft});
    n := |moving|;
    if dryRun { return; }
    if n == 0 { return; }
    hot.rows := hot.rows + moving;
  }

  method DropOrCount(table: Table, v: Verdicts, types: set<ContractType>, dryRun: bool) returns (n: nat)
    modifies table
    ensures n == |Resolving(old(table.rows), v, types)|
    ensures table.rows == if dryRun then old(table.rows) else old(table.rows) - Resolving(old(table.rows), v, types)
  {
    var dropping := Resolving(table.rows, v, types);
    n := |dropping|;
    if dryRun { return; }
    if n == 0 { return; }
    table.rows := table.rows - dropping;
  }

  datatype Stats = Stats(promotedNfts: nat, promotedOwnership: nat, droppedPendingNfts: nat, droppedPendingOwnership: nat,
                         droppedLegacyNfts: nat, droppedLegacyOwnership: nat)

  method Execute(nfts: Table, nftsPending: Table, ownership: Table, ownershipPending: Table, v: Verdicts, dryRun: bool)
    returns (stats: Stats)
    requires nfts != nftsPending && nfts != ownership && nfts != ownershipPending
    requires nftsPending != ownership && nftsPending != ownershipPending && ownership != ownershipPending
    modifies nfts, nftsPending, ownership, ownershipPending
    ensures dryRun ==> nfts.rows == old(nfts.rows) && nftsPending.rows == old(nftsPending.rows)
    ensures dryRun ==> ownership.rows == old(ownership.rows) && ownershipPending.rows == old(ownershipPending.rows)
    // row by row: what stays in quarantine, and what the hot table holds
    ensures !dryRun ==> forall r :: (r in nftsPending.rows <==> StaysPending(old(nftsPending.rows), v, r))
                                 && (r in nfts.rows <==> IsHot(old(nftsPending.rows), old(nfts.rows), v, r))
    ensures !dryRun ==> forall r :: (r in ownershipPending.rows <==> StaysPending(old(ownershipPending.rows), v, r))
                                 && (r in ownership.rows <==> IsHot(old(ownershipPending.rows), old(ownership.rows), v, r))
    ensures !dryRun ==>
              && Pair(nftsPending.rows, nfts.rows) == Final(Pair(old(nftsPending.rows), old(nfts.rows)), v)
              && Pair(ownershipPending.rows, ownership.rows) == Final(Pair(old(ownershipPending.rows), old(ownership.rows)), v)
    ensures stats.promotedNfts == |set r | r in old(nftsPending.rows) && v(r.contract) == Some(Nft)|
    ensures stats.promotedOwnership == |set r | r in old(ownershipPending.rows) && v(r.contract) == Some(Nft)|
    ensures stats.droppedPendingNfts == |set r | r in old(nftsPending.rows) && v(r.contract) in {Some(Token), Some(Nft), Some(Fungible)}|
    ensures stats.droppedPendingOwnership == |set r | r in old(ownershipPending.rows) && v(r.contract) in {Some(Token), Some(Nft), Some(Fungible)}|
    ensures stats.droppedLegacyNfts == |set r | r in old(nfts.rows) && v(r.contract) in {Some(Token), Some(Fungible)}|
    ensures stats.droppedLegacyOwnership == |set r | r in old(ownership.rows) && v(r.contract) in {Some(Token), Some(Fungible)}|
  {
    Counted(nftsPending.rows, v);
    Counted(ownershipPending.rows, v);
    Counted(nfts.rows, v);
    Counted(ownership.rows, v);
    FinalRows(Pair(nftsPending.rows, nfts.rows), v);
    FinalRows(Pair(ownershipPending.rows, ownership.rows), v);
    var a := PromoteOrCount(nftsPending, nfts, v, dryRun);
    var b := PromoteOrCount(ownershipPending, ownership, v, dryRun);
    var c := DropOrCount(nftsPending, v, DROP_PENDING, dryRun);
    var d := DropOrCount(ownershipPending, v, DROP_PENDING, dryRun);
    PromotedAreNotLegacy(old(nfts.rows), old(nftsPending.rows), v);
    PromotedAreNotLegacy(old(ownership.rows), old(ownershipPending.rows), v);
    var e := DropOrCount(nfts, v, DROP_LEGACY, dryRun);
    var f := DropOrCount(ownership, v, DROP_LEGACY, dryRun);
    stats := Stats(a, b, c, d, e, f);
  }

  /** Only rows without a decisive verdict stay in quarantine. */
  ghost predicate StaysPending(pending: set<Row>, v: Verdicts, r: Row)
  {
    r in pending && v(r.contract) in {None, Some(Other)}
  }

  /** Quarantined NFT rows join the hot table's own, which keeps all but those of tokens and fungibles. */
  ghost predicate IsHot(pending: set<Row>, hot: set<Row>, v: Verdicts, r: Row)
  {
    (r in pending && v(r.contract) == Some(Nft)) || (r in hot && v(r.contract) in {None, Some(Other), Some(Nft)})
  }

  lemma FinalRows(p: Pair, v: Verdicts)
    ensures forall r :: r in Final(p, v).pending <==> StaysPending(p.pending, v, r)
    ensures forall r :: r in Final(p, v).hot <==> IsHot(p.pending, p.hot, v, r)
  {
    Counted(p.pending, v);
    Counted(p.hot, v);
    forall r
      ensures r in Final(p, v).pending <==> StaysPending(p.pending, v, r)
      ensures r in Final(p, v).hot <==> IsHot(p.pending, p.hot, v, r)
    {
      match v(r.contract)
      case None =>
      case Some(Token) =>
      case Some(Other) =>
      case Some(Nft) =>
      case Some(Fungible) =>
    }
  }

  /** The rows of these classes, written out. */
  lemma Counted(rows: set<Row>, v: Verdicts)
    ensures Resolving(rows, v, {Nft}) == set r | r in rows && v(r.contract) == Some(Nft)
    ensures Resolving(rows, v, DROP_PENDING) == set r | r in rows && v(r.contract) in {Some(Token), Some(Nft), Some(Fungible)}
    ensures Resolving(rows, v, DROP_LEGACY) == set r | r in rows && v(r.contract) in {Some(Token), Some(Fungible)}
  {
  }

  lemma PromotedAreNotLegacy(hot: set<Row>, pending: set<Row>, v: Verdicts)
    ensures Resolving(hot + Resolving(pending, v, {Nft}), v, DROP_LEGACY) == Resolving(hot, v, DROP_LEGACY)
  {
  }

  // ---------- A quarantine table with its hot table, step by step ----------

  datatype Pair = Pair(pending: set<Row>, hot: set<Row>)

  /** Where an uninterrupted pass ends. */
  function Final(p: Pair, v: Verdicts): Pair
  {
    Pair(p.pending - Resolving(p.pending, v, DROP_PENDING),
         p.hot + Resolving(p.pending, v, {Nft}) - Resolving(p.hot, v, DROP_LEGACY))
  }

  datatype Op = Promote | DropPending | DropLegacy

  /** The rows an operation is about to move or delete. */
  function Affected(p: Pair, op: Op, v: Verdicts): set<Row>
  {
    match op
    case Promote => Resolving(p.pending, v, {Nft})
    case DropPending => Resolving(p.pending, v, DROP_PENDING)
    case DropLegacy => Resolving(p.hot, v, DROP_LEGACY)
  }

  /** The operation carried out on some of those rows. */
  function Partly(p: Pair, op: Op, part: set<Row>): Pair
  {
    match op
    case Promote => p.(hot := p.hot + part)
    case DropPending => p.(pending := p.pending - part)
    case DropLegacy => p.(hot := p.hot - part)
  }

  /** A pass under way: `done` of the operations are complete; the tables may be anywhere inside the next. */
  datatype Progress = Progress(pair: Pair, done: nat)

  datatype Step = Part(rows: set<Row>) | Complete | CrashAndRestart

  const OPS: seq<Op> := [Promote, DropPending, DropLegacy]

  function Apply(s: Progress, step: Step, v: Verdicts): Option<Progress>
  {
    match step
    case Part(rows) =>
      if s.done < |OPS| && rows <= Affected(s.pair, OPS[s.done], v)
      then Some(s.(pair := Partly(s.pair, OPS[s.done], rows))) else None
    case Complete =>
      if s.done < |OPS|
      then Some(Progress(Partly(s.pair, OPS[s.done], Affected(s.pair, OPS[s.done], v)), s.done + 1)) else None
    case CrashAndRestart => Some(s.(done := 0))
  }

  /** What every step keeps of the tables `p0` the first pass found. */
  ghost predicate Keeps(p0: Pair, p: Pair, v: Verdicts)
  {
    && p0.pending - Resolving(p0.pending, v, DROP_PENDING) <= p.pending <= p0.pending
    && p0.hot - Resolving(p0.hot, v, DROP_LEGACY) <= p.hot <= p0.hot + Resolving(p0.pending, v, {Nft})
    && Resolving(p0.pending, v, {Nft}) <= p.pending + p.hot
  }

  ghost predicate Inv(p0: Pair, s: Progress, v: Verdicts)
  {
    && Keeps(p0, s.pair, v)
    && (s.done >= 1 ==> Resolving(s.pair.pending, v, {Nft}) <= s.pair.hot)
    && (s.done >= 2 ==> Resolving(s.pair.pending, v, DROP_PENDING) == {})
    && (s.done >= 3 ==> Resolving(s.pair.hot, v, DROP_LEGACY) == {})
  }

  lemma StepKeepsInv(p0: Pair, s: Progress, step: Step, v: Verdicts)
    requires Inv(p0, s, v) && Apply(s, step, v).Some?
    ensures Inv(p0, Apply(s, step, v).value, v)
  {
  }

  ghost predicate Behavior(p0: Pair, trace: seq<Progress>, steps: seq<Step>, v: Verdicts)
  {
    && |trace| == |steps| + 1 && trace[0] == Progress(p0, 0)
    && forall k :: 0 <= k < |steps| ==> Apply(trace[k], steps[k], v) == Some(trace[k + 1])
  }

  lemma {:induction false} AlwaysInv(p0: Pair, trace: seq<Progress>, steps: seq<Step>, v: Verdicts, k: nat)
    requires Behavior(p0, trace, steps, v) && k < |trace|
    ensures Inv(p0, trace[k], v)
    decreases k
  {
    hide Apply, Inv;
    if k == 0 {
      AtStart(p0, v);
    } else {
      AlwaysInv(p0, trace, steps, v, k - 1);
      assert Apply(trace[k - 1], steps[k - 1], v) == Some(trace[k]);
      StepKeepsInv(p0, trace[k - 1], steps[k - 1], v);
    }
  }

  lemma AtStart(p0: Pair, v: Verdicts)
    ensures Inv(p0, Progress(p0, 0), v)
  {
  }

  /** After any steps, partial ones and crashes included: an NFT contract's row is still in one of the two
      tables, and rows of contracts without a decisive verdict are where they were. */
  lemma NothingLost(p0: Pair, trace: seq<Progress>, steps: seq<Step>, v: Verdicts, k: nat, r: Row)
    requires Behavior(p0, trace, steps, v) && k < |trace|
    ensures v(r.contract) == Some(Nft) && (r in p0.pending || r in p0.hot) ==> r in trace[k].pair.pending || r in trace[k].pair.hot
    ensures v(r.contract) in {None, Some(Other)} ==>
              (r in trace[k].pair.pending <==> r in p0.pending) && (r in trace[k].pair.hot <==> r in p0.hot)
  {
    AlwaysInv(p0, trace, steps, v, k);
    KeptRow(p0, trace[k].pair, v, r);
  }

  lemma KeptRow(p0: Pair, p: Pair, v: Verdicts, r: Row)
    requires Keeps(p0, p, v)
    ensures v(r.contract) == Some(Nft) && (r in p0.pending || r in p0.hot) ==> r in p.pending || r in p.hot
    ensures v(r.contract) in {None, Some(Other)} ==> (r in p.pending <==> r in p0.pending) && (r in p.hot <==> r in p0.hot)
  {
    assert r in p0.hot && v(r.contract) == Some(Nft) ==> r in p0.hot - Resolving(p0.hot, v, DROP_LEGACY);
    assert r in p0.pending && v(r.contract) == Some(Nft) ==> r in Resolving(p0.pending, v, {Nft});
    if v(r.contract) in {None, Some(Other)} {
      assert r in p0.pending ==> r in p0.pending - Resolving(p0.pending, v, DROP_PENDING);
      assert r in p0.hot ==> r in p0.hot - Resolving(p0.hot, v, DROP_LEGACY);
      assert r !in Resolving(p0.pending, v, {Nft});
    }
  }

  lemma KeepsFinal(p0: Pair, p: Pair, v: Verdicts)
    requires Keeps(p0, p, v)
    ensures Final(p, v) == Final(p0, v)
  {
    var f, f0 := Final(p, v), Final(p0, v);
    assert forall r :: r in f.pending <==> r in f0.pending;
    assert forall r :: r in f.hot <==> r in f0.hot;
  }

  /** A pass after any number of interrupted ones ends where an uninterrupted first pass would have. */
  lemma RerunReachesSameTables(p0: Pair, trace: seq<Progress>, steps: seq<Step>, v: Verdicts, k: nat)
    requires Behavior(p0, trace, steps, v) && k < |trace|
    ensures Final(trace[k].pair, v) == Final(p0, v)
    ensures trace[k].done >= |OPS| ==> trace[k].pair == Final(p0, v)
  {
    AlwaysInv(p0, trace, steps, v, k);
    KeepsFinal(p0, trace[k].pair, v);
    if trace[k].done >= |OPS| {
      var p := trace[k].pair;
      assert Resolving(p.pending, v, {Nft}) <= Resolving(p.pending, v, DROP_PENDING);
      assert Final(p, v) == p;
    }
  }

  /** What a finished pass leaves gives the next one nothing to do: every count of `Execute` is zero on it. */
  lemma SecondRunFindsNothing(p: Pair, v: Verdicts)
    ensures Affected(Final(p, v), Promote, v) == Affected(Final(p, v), DropPending, v) == Affected(Final(p, v), DropLegacy, v) == {}
    ensures Final(Final(p, v), v) == Final(p, v)
  {
    var f := Final(p, v);
    assert Affected(f, Promote, v) == {} && Affected(f, DropPending, v) == {} && Affected(f, DropLegacy, v) == {};
    assert f.hot + {} - {} == f.hot && f.pending - {} == f.pending;
  }

  // ---------- Verdicts that change while the pass is under way ----------

  /** Each statement reads `soroban_contracts` for itself, so each may see other verdicts. */
  function Raced(p: Pair, v0: Verdicts, v1: Verdicts, v2: Verdicts): Pair
  {
    var p1 := Partly(p, Promote, Affected(p, Promote, v0));
    var p2 := Partly(p1, DropPending, Affected(p1, DropPending, v1));
    Partly(p2, DropLegacy, Affected(p2, DropLegacy, v2))
  }

  lemma RacedIsFinal(p: Pair, v: Verdicts)
    ensures Raced(p, v, v, v) == Final(p, v)
  {
    assert Raced(p, v, v, v).hot == Final(p, v).hot;
  }

  /** The rows of a contract that is an NFT when the last statement runs are all still there. */
  ghost predicate KeepsNftRows(p: Pair, v0: Verdicts, v1: Verdicts, v2: Verdicts)
  {
    forall r: Row :: v2(r.contract) == Some(Nft) && (r in p.pending || r in p.hot) ==>
      r in Raced(p, v0, v1, v2).pending || r in Raced(p, v0, v1, v2).hot
  }

  /** A contract that ends as an NFT and that the drop already knows to be decisive was an NFT for the promotion. */
  ghost predicate NoLateVerdict(v0: Verdicts, v1: Verdicts, v2: Verdicts)
  {
    forall c :: v2(c) == Some(Nft) && v1(c).Some? && v1(c).value in DROP_PENDING ==> v0(c) == Some(Nft)
  }

  /** The pass is safe on all tables exactly when no such verdict arrives between promotion and drop. */
  lemma SafeIffNoLateVerdict(v0: Verdicts, v1: Verdicts, v2: Verdicts)
    ensures (forall p :: KeepsNftRows(p, v0, v1, v2)) <==> NoLateVerdict(v0, v1, v2)
  {
    if NoLateVerdict(v0, v1, v2) {
      forall p ensures KeepsNftRows(p, v0, v1, v2) {
      }
    } else {
      var c :| v2(c) == Some(Nft) && v1(c).Some? && v1(c).value in DROP_PENDING && v0(c) != Some(Nft);
      LateVerdictLosesRow(c, "", v0, v1, v2);
      assert !KeepsNftRows(Pair({Row(c, "")}, {}), v0, v1, v2);
    }
  }

  /** Such a contract's quarantined row is deleted without ever having been copied. */
  lemma LateVerdictLosesRow(c: int, rest: string, v0: Verdicts, v1: Verdicts, v2: Verdicts)
    requires v0(c) != Some(Nft) && v1(c).Some? && v1(c).value in DROP_PENDING && v2(c) == Some(Nft)
    ensures Raced(Pair({Row(c, rest)}, {}), v0, v1, v2) == Pair({}, {})
  {
    var p := Pair({Row(c, rest)}, {});
    assert Affected(p, Promote, v0) == {};
    assert p.hot + {} == {};
    assert Affected(p, DropPending, v1) == p.pending;
    assert p.pending - p.pending == {};
  }

  /** One contract, unknown at the promotion and an NFT from then on. */
  lemma LateVerdictExample()
    ensures var unknown: Verdicts := _ => None; var nft: Verdicts := _ => Some(Nft);
            Raced(Pair({Row(7, "token 1")}, {}), unknown, nft, nft) == Pair({}, {})
  {
    LateVerdictLosesRow(7, "token 1", _ => None, _ => Some(Nft), _ => Some(Nft));
  }
}
