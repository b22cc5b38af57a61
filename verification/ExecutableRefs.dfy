/** External contract executables (crates/xdr-parser/src/executable_ref.rs): which hash a tag resolves to. */
module ExecutableRefs {
  import opened Bytes
  import opened Folds
  import opened Options

  datatype EntryKey = ExecutableTag(tag: Option<string>) | OtherKey
  datatype EntryVal = BytesVal(bytes: Option<seq<Byte>>) | OtherVal
  datatype EntryData = EntryData(contract: Option<string>, key: EntryKey, val: EntryVal)

  /** An `ExtractedLedgerEntryChange`. */
  datatype Change = Change(entryType: string, changeType: string, data: Option<EntryData>, ledger: nat)

  datatype Target = Target(owner: string, tag: string, wasmHash: seq<Byte>, ledger: nat)

  /** The mapping a change writes, if it writes one. */
  function TargetOf(c: Change): Option<Target>
  {
    if c.entryType != "contract_data" || c.changeType !in ["created", "updated", "restored"] || c.data == None then None
    else
      var d := c.data.value;
      if d.key.ExecutableTag? && d.key.tag.Some? && d.contract.Some? && d.val.BytesVal? && d.val.bytes.Some? && |d.val.bytes.value| == 32
      then Some(Target(d.contract.value, d.key.tag.value, d.val.bytes.value, c.ledger)) else None
  }

  /** A mapping is written by a created, updated or restored entry with a tag for its key and 32 bytes for its value, and by no other. */
  lemma MappingWritten(c: Change, owner: string, tag: string, hash: seq<Byte>)
    requires c.data == Some(EntryData(Some(owner), ExecutableTag(Some(tag)), BytesVal(Some(hash))))
    ensures TargetOf(c) == if c.entryType == "contract_data" && c.changeType in ["created", "updated", "restored"] && |hash| == 32
                           then Some(Target(owner, tag, hash, c.ledger)) else None
    ensures TargetOf(c.(changeType := "state")) == TargetOf(c.(changeType := "removed")) == None
  {
    assert "state" !in ["created", "updated", "restored"] && "removed" !in ["created", "updated", "restored"] by {
      assert "state" != "created" && "state" != "updated" && "state" != "restored";
      assert "removed"[2] == 'm' && "created"[2] == 'e' && "updated"[2] == 'd' && "restored"[2] == 's';
    }
  }

  /** Every mapping a list of changes writes, in order. */
  function Targets(changes: seq<Change>): seq<Target>
  {
    if changes == [] then []
    else Targets(changes[..|changes| - 1]) + (match TargetOf(changes[|changes| - 1]) case Some(t) => [t] case None => [])
  }

  datatype TagKey = TagKey(owner: string, tag: string, ledger: nat)

  function KeyOf(): Target -> TagKey
  {
    (t: Target) => TagKey(t.owner, t.tag, t.ledger)
  }

  method ExtractExecutableRefTargets(changes: seq<Change>) returns (out: seq<Target>)
    ensures out == Keep(Targets(changes), KeyOf())
  {
    var all: seq<Target> := [];
    for i := 0 to |changes|
      invariant all == Targets(changes[..i])
    {
      var change := changes[i];
      assert changes[..i + 1][..i] == changes[..i] && changes[..i + 1][i] == change;
      if change.entryType != "contract_data" { continue; }
      if change.changeType !in ["created", "updated", "restored"] { continue; }
      if change.data == None { continue; }
      var d := change.data.value;
      if !d.key.ExecutableTag? || d.key.tag == None { continue; }
      if d.contract == None { continue; }
      if !d.val.BytesVal? || d.val.bytes == None || |d.val.bytes.value| != 32 { continue; }
      all := all + [Target(d.contract.value, d.key.tag.value, d.val.bytes.value, change.ledger)];
    }
    assert changes[..|changes|] == changes;
    out := KeepLastByKey(all, KeyOf());
  }

  /** The mappings of each transaction. */
  function TargetsEach(txs: seq<seq<Change>>): (r: seq<seq<Target>>)
    ensures |r| == |txs|
  {
    if txs == [] then [] else TargetsEach(txs[..|txs| - 1]) + [Targets(txs[|txs| - 1])]
  }

  lemma {:induction false} TargetsConcat(a: seq<Change>, b: seq<Change>)
    ensures Targets(a + b) == Targets(a) + Targets(b)
    decreases |b|
  {
    if b == [] {
      assert a + b == a;
    } else {
      assert (a + b)[..|a + b| - 1] == a + b[..|b| - 1];
      TargetsConcat(a, b[..|b| - 1]);
    }
  }

  lemma {:induction false} TargetsOfConcat(txs: seq<seq<Change>>)
    ensures Concat(TargetsEach(txs)) == Targets(Concat(txs))
    decreases |txs|
  {
    if txs != [] {
      var n := |txs| - 1;
      assert TargetsEach(txs)[..n] == TargetsEach(txs[..n]);
      TargetsOfConcat(txs[..n]);
      TargetsConcat(Concat(txs[..n]), txs[n]);
    }
  }

  predicate SameMapping(a: Target, b: Target)
  {
    a.owner == b.owner && a.tag == b.tag && a.ledger == b.ledger
  }

  /** The mapping is written, and none of the same owner, tag and ledger after it. */
  ghost predicate LastWritten(all: seq<Target>, t: Target)
  {
    exists i :: 0 <= i < |all| && all[i] == t && forall j :: i < j < |all| ==> !SameMapping(all[j], t)
  }

  lemma OneMoreWritten(all: seq<Target>, x: Target, t: Target)
    ensures LastWritten(all + [x], t) <==> x == t || (LastWritten(all, t) && !SameMapping(x, t))
  {
    var more := all + [x];
    assert more[|all|] == x;
    if LastWritten(all, t) && !SameMapping(x, t) {
      var i :| 0 <= i < |all| && all[i] == t && forall j :: i < j < |all| ==> !SameMapping(all[j], t);
      assert more[i] == t && forall j :: i < j < |all| ==> more[j] == all[j];
    }
    if LastWritten(more, t) && x != t {
      var i :| 0 <= i < |more| && more[i] == t && forall j :: i < j < |more| ==> !SameMapping(more[j], t);
      assert all[i] == t && forall j :: i < j < |all| ==> more[j] == all[j];
    }
  }

  lemma {:induction false} LastOfIs(all: seq<Target>, t: Target)
    ensures LastOf(all, KeyOf(), KeyOf()(t)) == Some(t) <==> LastWritten(all, t)
    decreases |all|
  {
    if all != [] {
      hide LastWritten;
      var n := |all| - 1;
      LastOfIs(all[..n], t);
      OneMoreWritten(all[..n], all[n], t);
      assert all == all[..n] + [all[n]];
    }
  }

  /** Folding per transaction and again over the ledger leaves, for each owner, tag and ledger, exactly
      the last mapping the ledger's changes wrote, whichever transactions wrote it. */
  lemma LedgerKeepsLastWrite(txs: seq<seq<Change>>, k: TagKey)
    ensures var rows := Keep(Concat(KeepEach(TargetsEach(txs), KeyOf())), KeyOf());
            && rows == Keep(Targets(Concat(txs)), KeyOf())
            && LastOf(rows, KeyOf(), k) == LastOf(Targets(Concat(txs)), KeyOf(), k)
            && (forall i, j :: 0 <= i < j < |rows| ==> !SameMapping(rows[i], rows[j]))
            && (forall t :: t in rows <==> LastWritten(Targets(Concat(txs)), t))
  {
    FoldPerPart(TargetsEach(txs), KeyOf());
    TargetsOfConcat(txs);
    var all := Targets(Concat(txs));
    KeepKeeps(all, KeyOf());
    var rows, ks := Keep(all, KeyOf()), FirstKeys(all, KeyOf());
    forall i, j | 0 <= i < j < |rows| ensures !SameMapping(rows[i], rows[j]) {
      assert Some(rows[i]) == LastOf(all, KeyOf(), ks[i]) && Some(rows[j]) == LastOf(all, KeyOf(), ks[j]);
    }
    forall t ensures t in rows <==> LastWritten(all, t) {
      LastOfIs(all, t);
      if t in rows {
        var i :| 0 <= i < |rows| && rows[i] == t;
        assert Some(rows[i]) == LastOf(all, KeyOf(), ks[i]);
      }
      if LastOf(all, KeyOf(), KeyOf()(t)) == Some(t) {
        assert LastOf(rows, KeyOf(), KeyOf()(t)) == Some(t);
      }
    }
  }
}
