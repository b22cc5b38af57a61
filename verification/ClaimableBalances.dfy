/**
 Claimable balances as holdings: crates/xdr-parser/src/claimable_balance.rs and
 crates/db-clickhouse/src/persist/claimable_balances.rs. The extracted rows, merged
 by the table, are proved to be the state a replay of the raw changes gives.
 */
module ClaimableBalances {
  import opened Bytes
  import opened Folds
  import opened Options

  datatype Asset = Native | Credit(code: string, issuer: string)

  /** A balance id as rendered: hex of 32 bytes, which the StrKey stands for one to one, or some other text. */
  datatype IdText = Hex32(bytes: seq<Byte>) | NotHex(text: string)

  datatype Kind = State | Created | Updated | Restored | Removed | OtherKind

  /** The change carries the entry's new value. */
  predicate IsWrite(k: Kind)
  {
    k.Created? || k.Updated? || k.Restored?
  }

  datatype EntryData = EntryData(asset: Option<Asset>, amount: Option<int>)

  /** An `ExtractedLedgerEntryChange`. */
  datatype Change = Change(claimable: bool, id: Option<IdText>, kind: Kind, data: Option<EntryData>, ledger: nat)

  datatype Holding = Holding(balance: seq<Byte>, asset: Asset, amount: int, ledger: nat, closed: bool)

  type Known = map<IdText, Asset>

  function AssetIn(data: Option<EntryData>): Option<Asset>
  {
    if data.Some? then data.value.asset else None
  }

  /** What one change adds to the assets known by id. */
  function Learn(known: Known, c: Change): Known
  {
    if !c.claimable || c.id == None || AssetIn(c.data) == None then known
    else if c.kind.State? || (IsWrite(c.kind) && c.data.value.amount.Some?)
    then known[c.id.value := AssetIn(c.data).value]
    else known
  }

  /** The holding one change leaves, if any. */
  function RowOf(known: Known, c: Change): Option<Holding>
  {
    if !c.claimable || c.id == None || !c.id.value.Hex32? then None
    else
      var b := c.id.value.bytes;
      if IsWrite(c.kind) then
        if AssetIn(c.data).Some? && c.data.value.amount.Some?
        then Some(Holding(b, AssetIn(c.data).value, c.data.value.amount.value, c.ledger, false)) else None
      else if c.kind.Removed? && c.id.value in known then Some(Holding(b, known[c.id.value], 0, c.ledger, true))
      else None
  }

  function KnownAfter(changes: seq<Change>): Known
  {
    if changes == [] then map[] else Learn(KnownAfter(changes[..|changes| - 1]), changes[|changes| - 1])
  }

  /** The holdings of one transaction's changes, before the fold. */
  function Rows(changes: seq<Change>): seq<Holding>
  {
    if changes == [] then []
    else
      var init := changes[..|changes| - 1];
      Rows(init) + (match RowOf(KnownAfter(init), changes[|changes| - 1]) case Some(h) => [h] case None => [])
  }

  datatype TxKey = TxKey(balance: seq<Byte>, ledger: nat)
  datatype RowKey = RowKey(balance: seq<Byte>, asset: Asset, ledger: nat)

  function ByBalance(): Holding -> TxKey
  {
    (h: Holding) => TxKey(h.balance, h.ledger)
  }

  function ByRow(): Holding -> RowKey
  {
    (h: Holding) => RowKey(h.balance, h.asset, h.ledger)
  }

  /** A whole entry of this balance: created, updated or restored. */
  predicate WritesWhole(c: Change, b: seq<Byte>, asset: Asset, amount: int)
  {
    && c.claimable && c.id == Some(Hex32(b)) && c.data == Some(EntryData(Some(asset), Some(amount)))
    && c.kind in {Created, Updated, Restored}
  }

  /** No later change of the ledger writes or removes this balance. */
  ghost predicate LastWord(changes: seq<Change>, i: nat, b: seq<Byte>)
    requires i < |changes|
  {
    forall j :: i < j < |changes| && changes[j].claimable && changes[j].id == Some(Hex32(b)) && changes[j].ledger == changes[i].ledger ==>
      changes[j].kind in {State, OtherKind}
  }

  /** A whole write that has the last word is among the holdings. */
  ghost predicate WritesKept(changes: seq<Change>, out: seq<Holding>)
  {
    forall i, b, asset, amount :: 0 <= i < |changes| && WritesWhole(changes[i], b, asset, amount) && LastWord(changes, i, b) ==>
      Holding(b, asset, amount, changes[i].ledger, false) in out
  }

  /** A removal that has the last word is there as a tombstone, under the asset last named before it. */
  ghost predicate RemovalsKept(changes: seq<Change>, out: seq<Holding>)
  {
    forall k, i, b, asset, amount ::
      0 <= k < i < |changes| && changes[i].claimable && changes[i].id == Some(Hex32(b)) && changes[i].kind.Removed? && LastWord(changes, i, b)
      && NamesWhole(changes[k], b, asset, amount)
      && (forall j :: k < j < i && changes[j].claimable && changes[j].id == Some(Hex32(b)) ==> changes[j].kind in {Removed, OtherKind})
      ==> Holding(b, asset, 0, changes[i].ledger, true) in out
  }

  predicate NamesWhole(c: Change, b: seq<Byte>, asset: Asset, amount: int)
  {
    && c.claimable && c.id == Some(Hex32(b)) && c.data == Some(EntryData(Some(asset), Some(amount)))
    && c.kind in {State, Created, Updated, Restored}
  }

  lemma {:induction false} LastRow(changes: seq<Change>, i: nat, b: seq<Byte>)
    requires i < |changes| && LastWord(changes, i, b)
    requires RowOf(KnownAfter(changes[..i]), changes[i]).Some? && RowOf(KnownAfter(changes[..i]), changes[i]).value.balance == b
    ensures LastOf(Rows(changes), ByBalance(), TxKey(b, changes[i].ledger)) == RowOf(KnownAfter(changes[..i]), changes[i])
    decreases |changes|
  {
    hide KnownAfter;
    var n := |changes| - 1;
    var init := changes[..n];
    var row := RowOf(KnownAfter(init), changes[n]);
    if i < n {
      assert init[..i] == changes[..i] && init[i] == changes[i];
      assert forall j :: i < j < n ==> init[j] == changes[j];
      LastRow(init, i, b);
      if row.Some? {
        hide LastWord;
        LaterRowIsAnother(KnownAfter(init), changes, i, b);
        LastOfConcat(Rows(init), [row.value], ByBalance(), TxKey(b, changes[i].ledger));
        OneRow(row.value, TxKey(b, changes[i].ledger));
        assert Rows(changes) == Rows(init) + [row.value];
      } else {
        assert Rows(changes) == Rows(init);
      }
    } else {
      LastOfConcat(Rows(init), [row.value], ByBalance(), TxKey(b, changes[i].ledger));
      OneRow(row.value, TxKey(b, changes[i].ledger));
      assert Rows(changes) == Rows(init) + [row.value];
    }
  }

  lemma OneRow(h: Holding, k: TxKey)
    ensures LastOf([h], ByBalance(), k) == if TxKey(h.balance, h.ledger) == k then Some(h) else None
  {
    assert [h][..0] == [];
  }

  lemma LaterRowIsAnother(known: Known, changes: seq<Change>, i: nat, b: seq<Byte>)
    requires i < |changes| - 1 && LastWord(changes, i, b) && RowOf(known, changes[|changes| - 1]).Some?
    ensures var h := RowOf(known, changes[|changes| - 1]).value; TxKey(h.balance, h.ledger) != TxKey(b, changes[i].ledger)
  {
  }

  lemma {:induction false} KnownSince(changes: seq<Change>, k: nat, i: nat, b: seq<Byte>, asset: Asset, amount: int)
    requires k < i <= |changes| && NamesWhole(changes[k], b, asset, amount)
    requires forall j :: k < j < i && changes[j].claimable && changes[j].id == Some(Hex32(b)) ==> changes[j].kind in {Removed, OtherKind}
    ensures Hex32(b) in KnownAfter(changes[..i]) && KnownAfter(changes[..i])[Hex32(b)] == asset
    decreases i
  {
    assert changes[..i][..i - 1] == changes[..i - 1] && changes[..i][i - 1] == changes[i - 1];
    if k < i - 1 { KnownSince(changes, k, i - 1, b, asset, amount); }
  }

  lemma LastRowsKept(changes: seq<Change>, b: seq<Byte>, ledger: nat, h: Holding)
    requires LastOf(Rows(changes), ByBalance(), TxKey(b, ledger)) == Some(h)
    ensures h in Keep(Rows(changes), ByBalance())
  {
    var rows, ks := Rows(changes), FirstKeys(Rows(changes), ByBalance());
    assert TxKey(b, ledger) in ks;
    var m :| 0 <= m < |ks| && ks[m] == TxKey(b, ledger);
    assert Some(Keep(rows, ByBalance())[m]) == LastOf(rows, ByBalance(), ks[m]);
  }

  lemma ChangesKept(changes: seq<Change>)
    ensures WritesKept(changes, Keep(Rows(changes), ByBalance())) && RemovalsKept(changes, Keep(Rows(changes), ByBalance()))
  {
    hide Keep, LastWord;
    var out := Keep(Rows(changes), ByBalance());
    forall i, b, asset, amount | 0 <= i < |changes| && WritesWhole(changes[i], b, asset, amount) && LastWord(changes, i, b)
      ensures Holding(b, asset, amount, changes[i].ledger, false) in out
    {
      LastRow(changes, i, b);
      LastRowsKept(changes, b, changes[i].ledger, Holding(b, asset, amount, changes[i].ledger, false));
    }
    forall k, i, b, asset, amount |
      0 <= k < i < |changes| && changes[i].claimable && changes[i].id == Some(Hex32(b)) && changes[i].kind.Removed? && LastWord(changes, i, b)
      && NamesWhole(changes[k], b, asset, amount)
      && (forall j :: k < j < i && changes[j].claimable && changes[j].id == Some(Hex32(b)) ==> changes[j].kind in {Removed, OtherKind})
      ensures Holding(b, asset, 0, changes[i].ledger, true) in out
    {
      KnownSince(changes, k, i, b, asset, amount);
      LastRow(changes, i, b);
      LastRowsKept(changes, b, changes[i].ledger, Holding(b, asset, 0, changes[i].ledger, true));
    }
  }

  /** The change names this asset for the balance. */
  predicate NamesAsset(c: Change, id: IdText, asset: Asset)
  {
    && c.claimable && c.id == Some(id) && c.data.Some? && c.data.value.asset == Some(asset)
    && c.kind in {State, Created, Updated, Restored}
  }

  /** The holding comes from a change: a whole write, or a removal after the balance's asset was named. */
  ghost predicate Founded(changes: seq<Change>, h: Holding)
  {
    exists i :: 0 <= i < |changes| && changes[i].ledger == h.ledger
             && if h.closed then RemovesNamed(changes, i, h) else WritesWhole(changes[i], h.balance, h.asset, h.amount)
  }

  ghost predicate RemovesNamed(changes: seq<Change>, i: nat, h: Holding)
    requires i < |changes|
  {
    && changes[i].claimable && changes[i].id == Some(Hex32(h.balance)) && changes[i].kind.Removed? && h.amount == 0
    && exists k :: 0 <= k < i && NamesAsset(changes[k], Hex32(h.balance), h.asset)
  }

  lemma {:induction false} KnownFrom(changes: seq<Change>, id: IdText)
    requires id in KnownAfter(changes)
    ensures exists k :: 0 <= k < |changes| && NamesAsset(changes[k], id, KnownAfter(changes)[id])
    decreases |changes|
  {
    var n := |changes| - 1;
    if NamesAsset(changes[n], id, KnownAfter(changes)[id]) {
    } else {
      KnownFrom(changes[..n], id);
      var k :| 0 <= k < n && NamesAsset(changes[..n][k], id, KnownAfter(changes[..n])[id]);
      assert changes[..n][k] == changes[k];
    }
  }

  lemma {:induction false} RowsFounded(changes: seq<Change>, h: Holding)
    requires h in Rows(changes)
    ensures Founded(changes, h)
    decreases |changes|
  {
    hide KnownAfter;
    var n := |changes| - 1;
    var init := changes[..n];
    if h in Rows(init) {
      RowsFounded(init, h);
      var i :| 0 <= i < n && init[i].ledger == h.ledger
               && if h.closed then RemovesNamed(init, i, h) else WritesWhole(init[i], h.balance, h.asset, h.amount);
      assert init[i] == changes[i];
      if h.closed {
        var k :| 0 <= k < i && NamesAsset(init[k], Hex32(h.balance), h.asset);
        assert init[k] == changes[k];
      }
    } else {
      assert Some(h) == RowOf(KnownAfter(init), changes[n]);
      if h.closed {
        KnownFrom(init, Hex32(h.balance));
        var k :| 0 <= k < n && NamesAsset(init[k], Hex32(h.balance), h.asset);
        assert init[k] == changes[k];
        assert RemovesNamed(changes, n, h);
      } else {
        assert WritesWhole(changes[n], h.balance, h.asset, h.amount);
      }
    }
  }

  lemma OnlyFounded(changes: seq<Change>)
    ensures forall h :: h in Keep(Rows(changes), ByBalance()) ==> Founded(changes, h)
  {
    hide Keep, Founded;
    KeptAmong(Rows(changes));
    forall h | h in Keep(Rows(changes), ByBalance()) ensures Founded(changes, h) {
      RowsFounded(changes, h);
    }
  }

  lemma NothingYet()
    ensures KnownAfter([]) == map[] && Rows([]) == []
  {
  }

  lemma OneMoreChange(changes: seq<Change>, i: nat)
    requires i < |changes|
    ensures KnownAfter(changes[..i + 1]) == Learn(KnownAfter(changes[..i]), changes[i])
    ensures var row := RowOf(KnownAfter(changes[..i]), changes[i]);
            Rows(changes[..i + 1]) == if row.Some? then Rows(changes[..i]) + [row.value] else Rows(changes[..i])
  {
    assert changes[..i + 1][..i] == changes[..i] && changes[..i + 1][i] == changes[i];
  }

  method ExtractClaimableBalances(changes: seq<Change>) returns (out: seq<Holding>)
    ensures out == Keep(Rows(changes), ByBalance())
    ensures WritesKept(changes, out) && RemovalsKept(changes, out)
    ensures forall h :: h in out ==> Founded(changes, h)
  {
    hide WritesKept, RemovalsKept, Founded, Keep, KnownAfter, Rows;
    NothingYet();
    ChangesKept(changes);
    OnlyFounded(changes);
    var assetById: Known := map[];
    var rows: seq<Holding> := [];
    for i := 0 to |changes|
      invariant assetById == KnownAfter(changes[..i])
      invariant rows == Rows(changes[..i])
    {
      var change := changes[i];
      OneMoreChange(changes, i);
      if change.claimable && change.id.Some? {
        var id := change.id.value;
        if change.kind.State? {
          if AssetIn(change.data).Some? { assetById := assetById[id := AssetIn(change.data).value]; }
        } else if IsWrite(change.kind) {
          if AssetIn(change.data).Some? && change.data.value.amount.Some? {
            var asset := AssetIn(change.data).value;
            assetById := assetById[id := asset];
            if id.Hex32? { rows := rows + [Holding(id.bytes, asset, change.data.value.amount.value, change.ledger, false)]; }
          }
        } else if change.kind.Removed? && id in assetById {
          if id.Hex32? { rows := rows + [Holding(id.bytes, assetById[id], 0, change.ledger, true)]; }
        }
      }
    }
    assert changes[..|changes|] == changes;
    out := KeepLastByKey(rows, ByBalance());
  }

  /** The writer's second fold, over the ledger's transactions. */
  method BuildClaimableBalanceRows(balances: seq<Holding>) returns (rows: seq<Holding>)
    ensures rows == Keep(balances, ByRow())
  {
    rows := KeepLastByKey(balances, ByRow());
  }

  // ---------- Replaying the raw changes ----------

  /** The live balances: what each holds. */
  type Live = map<seq<Byte>, (Asset, int)>

  /** The balance holds what the entry says, if it says it whole. */
  function WithValue(live: Live, b: seq<Byte>, data: Option<EntryData>): Live
  {
    match data
    case Some(EntryData(Some(asset), Some(amount))) => live[b := (asset, amount)]
    case _ => live
  }

  function ReplayOne(live: Live, c: Change): Live
  {
    if !c.claimable || c.id == None || !c.id.value.Hex32? then live
    else
      match c.kind
      case Created => WithValue(live, c.id.value.bytes, c.data)
      case Updated => WithValue(live, c.id.value.bytes, c.data)
      case Restored => WithValue(live, c.id.value.bytes, c.data)
      case Removed => live - {c.id.value.bytes}
      case State => live
      case OtherKind => live
  }

  function Replay(live: Live, changes: seq<Change>): Live
  {
    if changes == [] then live else ReplayOne(Replay(live, changes[..|changes| - 1]), changes[|changes| - 1])
  }

  /** A transaction as the protocol emits it: entries are whole and keep their asset for life, a removal
      comes after a pre-image or a write of the same balance. */
  ghost predicate WellFormed(changes: seq<Change>, assetOf: seq<Byte> -> Asset, ledger: nat)
  {
    forall i :: 0 <= i < |changes| && changes[i].claimable ==> WellFormedAt(changes, i, assetOf, ledger)
  }

  ghost predicate WellFormedAt(changes: seq<Change>, i: nat, assetOf: seq<Byte> -> Asset, ledger: nat)
    requires i < |changes|
  {
    var c := changes[i];
    && c.ledger == ledger && c.id.Some? && c.id.value.Hex32?
    && (c.kind in {State, Created, Updated, Restored} ==>
          c.data.Some? && c.data.value.asset == Some(assetOf(c.id.value.bytes)) && c.data.value.amount.Some?)
    && (c.kind.Removed? ==> exists j :: 0 <= j < i && Names(changes[j], c.id.value))
  }

  /** The change names the asset of this balance. */
  predicate Names(c: Change, id: IdText)
  {
    c.claimable && c.id == Some(id) && c.kind in {State, Created, Updated, Restored}
  }

  function OpenHolding(c: Change, assetOf: seq<Byte> -> Asset): Option<Holding>
    requires c.id.Some? && c.id.value.Hex32?
  {
    match c.data
    case Some(EntryData(_, Some(amount))) => Some(Holding(c.id.value.bytes, assetOf(c.id.value.bytes), amount, c.ledger, false))
    case _ => None
  }

  /** What a well-formed change does, whatever came before it. */
  function EffectOf(c: Change, assetOf: seq<Byte> -> Asset): Option<Holding>
  {
    if !c.claimable || c.id == None || !c.id.value.Hex32? then None
    else
      match c.kind
      case Created => OpenHolding(c, assetOf)
      case Updated => OpenHolding(c, assetOf)
      case Restored => OpenHolding(c, assetOf)
      case Removed => Some(Holding(c.id.value.bytes, assetOf(c.id.value.bytes), 0, c.ledger, true))
      case State => None
      case OtherKind => None
  }

  function Effects(changes: seq<Change>, assetOf: seq<Byte> -> Asset): seq<Holding>
  {
    if changes == [] then []
    else
      Effects(changes[..|changes| - 1], assetOf)
      + (match EffectOf(changes[|changes| - 1], assetOf) case Some(h) => [h] case None => [])
  }

  lemma WellFormedInit(changes: seq<Change>, assetOf: seq<Byte> -> Asset, ledger: nat)
    requires WellFormed(changes, assetOf, ledger) && changes != []
    ensures WellFormed(changes[..|changes| - 1], assetOf, ledger)
  {
    var init := changes[..|changes| - 1];
    forall i | 0 <= i < |init| && init[i].claimable ensures WellFormedAt(init, i, assetOf, ledger) {
      assert WellFormedAt(changes, i, assetOf, ledger);
      if init[i].kind.Removed? {
        var j :| 0 <= j < i && Names(changes[j], changes[i].id.value);
        assert Names(init[j], init[i].id.value);
      }
    }
  }

  /** What is known after a well-formed transaction: every balance it named, under its own asset. */
  lemma {:induction false} KnownIsRight(changes: seq<Change>, assetOf: seq<Byte> -> Asset, ledger: nat)
    requires WellFormed(changes, assetOf, ledger)
    ensures forall id :: id in KnownAfter(changes) ==> id.Hex32? && KnownAfter(changes)[id] == assetOf(id.bytes)
    ensures forall j, id :: 0 <= j < |changes| && Names(changes[j], id) ==> id in KnownAfter(changes)
    decreases |changes|
  {
    if changes != [] {
      var n := |changes| - 1;
      WellFormedInit(changes, assetOf, ledger);
      KnownIsRight(changes[..n], assetOf, ledger);
      assert changes[n].claimable ==> WellFormedAt(changes, n, assetOf, ledger);
      assert forall j :: 0 <= j < n ==> changes[..n][j] == changes[j];
    }
  }

  /** A well-formed transaction's rows are its effects: each tombstone carries the balance's own asset. */
  lemma {:induction false} RowsAreEffects(changes: seq<Change>, assetOf: seq<Byte> -> Asset, ledger: nat)
    requires WellFormed(changes, assetOf, ledger)
    ensures Rows(changes) == Effects(changes, assetOf)
    decreases |changes|
  {
    if changes != [] {
      var n := |changes| - 1;
      WellFormedInit(changes, assetOf, ledger);
      RowsAreEffects(changes[..n], assetOf, ledger);
      KnownIsRight(changes[..n], assetOf, ledger);
      if changes[n].claimable {
        assert WellFormedAt(changes, n, assetOf, ledger);
        if changes[n].kind.Removed? {
          var j :| 0 <= j < n && Names(changes[j], changes[n].id.value);
          assert changes[..n][j] == changes[j];
        }
      }
      assert RowOf(KnownAfter(changes[..n]), changes[n]) == EffectOf(changes[n], assetOf);
    }
  }

  lemma {:induction false} EffectsAt(changes: seq<Change>, assetOf: seq<Byte> -> Asset, ledger: nat)
    requires WellFormed(changes, assetOf, ledger)
    ensures Uniform(Effects(changes, assetOf), assetOf, ledger)
    decreases |changes|
  {
    if changes != [] {
      WellFormedInit(changes, assetOf, ledger);
      EffectsAt(changes[..|changes| - 1], assetOf, ledger);
      assert changes[|changes| - 1].claimable ==> WellFormedAt(changes, |changes| - 1, assetOf, ledger);
    }
  }

  // ---------- A ledger: many transactions, folded twice ----------

  ghost predicate AllWellFormed(txs: seq<seq<Change>>, assetOf: seq<Byte> -> Asset, ledger: nat)
  {
    forall i :: 0 <= i < |txs| ==> WellFormed(txs[i], assetOf, ledger)
  }

  /** Each transaction's holdings, as extracted. */
  function ExtractEach(txs: seq<seq<Change>>): (r: seq<seq<Holding>>)
    ensures |r| == |txs|
  {
    if txs == [] then [] else ExtractEach(txs[..|txs| - 1]) + [Keep(Rows(txs[|txs| - 1]), ByBalance())]
  }

  /** The rows written for a ledger. */
  function LedgerRows(txs: seq<seq<Change>>): seq<Holding>
  {
    Keep(Concat(ExtractEach(txs)), ByRow())
  }

  /** The ledger's effects, in application order. */
  function LedgerEffects(txs: seq<seq<Change>>, assetOf: seq<Byte> -> Asset): seq<Holding>
  {
    if txs == [] then [] else LedgerEffects(txs[..|txs| - 1], assetOf) + Effects(txs[|txs| - 1], assetOf)
  }

  function ReplayLedger(live: Live, txs: seq<seq<Change>>): Live
  {
    if txs == [] then live else Replay(ReplayLedger(live, txs[..|txs| - 1]), txs[|txs| - 1])
  }

  ghost predicate Uniform(rows: seq<Holding>, assetOf: seq<Byte> -> Asset, ledger: nat)
  {
    forall h :: h in rows ==> h.ledger == ledger && h.asset == assetOf(h.balance) && (h.closed ==> h.amount == 0)
  }

  /** On rows of one ledger, with fixed assets, the two fold keys name the same last row. */
  lemma {:induction false} SameLast(rows: seq<Holding>, assetOf: seq<Byte> -> Asset, ledger: nat, b: seq<Byte>)
    requires Uniform(rows, assetOf, ledger)
    ensures LastOf(rows, ByRow(), RowKey(b, assetOf(b), ledger)) == LastOf(rows, ByBalance(), TxKey(b, ledger))
    decreases |rows|
  {
    if rows != [] {
      assert rows[|rows| - 1] in rows;
      assert forall h :: h in rows[..|rows| - 1] ==> h in rows;
      SameLast(rows[..|rows| - 1], assetOf, ledger, b);
    }
  }

  /** Folding each transaction loses no last row of the ledger. */
  lemma {:induction false} LastOfExtracted(txs: seq<seq<Change>>, assetOf: seq<Byte> -> Asset, ledger: nat, b: seq<Byte>)
    requires AllWellFormed(txs, assetOf, ledger)
    ensures LastOf(Concat(ExtractEach(txs)), ByBalance(), TxKey(b, ledger)) == LastOf(LedgerEffects(txs, assetOf), ByBalance(), TxKey(b, ledger))
    ensures Uniform(Concat(ExtractEach(txs)), assetOf, ledger)
    decreases |txs|
  {
    if txs != [] {
      var n, k := |txs| - 1, TxKey(b, ledger);
      var each := ExtractEach(txs);
      assert each[..n] == ExtractEach(txs[..n]) && each[n] == Keep(Rows(txs[n]), ByBalance());
      LastOfExtracted(txs[..n], assetOf, ledger, b);
      RowsAreEffects(txs[n], assetOf, ledger);
      EffectsAt(txs[n], assetOf, ledger);
      KeptAmong(Rows(txs[n]));
      KeepKeeps(Rows(txs[n]), ByBalance());
      LastOfConcat(Concat(each[..n]), each[n], ByBalance(), k);
      LastOfConcat(LedgerEffects(txs[..n], assetOf), Effects(txs[n], assetOf), ByBalance(), k);
    }
  }

  lemma KeptAmong(rows: seq<Holding>)
    ensures forall h :: h in Keep(rows, ByBalance()) ==> h in rows
  {
    var kept := Keep(rows, ByBalance());
    forall h | h in kept ensures h in rows {
      var i :| 0 <= i < |kept| && kept[i] == h;
      assert Some(kept[i]) == LastOf(rows, ByBalance(), FirstKeys(rows, ByBalance())[i]);
    }
  }

  /** The ledger's row for a balance, if any, is its last effect. */
  lemma LedgerRowIsLastEffect(txs: seq<seq<Change>>, assetOf: seq<Byte> -> Asset, ledger: nat, b: seq<Byte>)
    requires AllWellFormed(txs, assetOf, ledger)
    ensures LastOf(LedgerRows(txs), ByRow(), RowKey(b, assetOf(b), ledger)) == LastOf(LedgerEffects(txs, assetOf), ByBalance(), TxKey(b, ledger))
  {
    LastOfExtracted(txs, assetOf, ledger, b);
    SameLast(Concat(ExtractEach(txs)), assetOf, ledger, b);
    KeepKeeps(Concat(ExtractEach(txs)), ByRow());
  }

  /** The rows of a ledger: of this ledger, under the balances' own assets, one per balance. */
  lemma LedgerRowsShape(txs: seq<seq<Change>>, assetOf: seq<Byte> -> Asset, ledger: nat)
    requires AllWellFormed(txs, assetOf, ledger)
    ensures Uniform(LedgerRows(txs), assetOf, ledger)
    ensures forall h :: h in LedgerRows(txs) ==> LastOf(LedgerRows(txs), ByRow(), RowKey(h.balance, assetOf(h.balance), ledger)) == Some(h)
  {
    var all := Concat(ExtractEach(txs));
    LastOfExtracted(txs, assetOf, ledger, []);
    var rows, ks := LedgerRows(txs), FirstKeys(all, ByRow());
    KeepKeeps(all, ByRow());
    forall h | h in rows
      ensures h in all && LastOf(rows, ByRow(), RowKey(h.balance, assetOf(h.balance), ledger)) == Some(h)
    {
      var i :| 0 <= i < |rows| && rows[i] == h;
      assert Some(rows[i]) == LastOf(all, ByRow(), ks[i]);
    }
  }

  /** What the last effect on a balance leaves. */
  ghost predicate LeftBy(live: Live, live': Live, last: Option<Holding>, b: seq<Byte>)
  {
    match last
    case None => (b in live' <==> b in live) && (b in live ==> live'[b] == live[b])
    case Some(h) => (b in live' <==> !h.closed) && (!h.closed ==> live'[b] == (h.asset, h.amount))
  }

  /** The live balances after a holding. */
  function After(live: Live, h: Holding): Live
  {
    if h.closed then live - {h.balance} else live[h.balance := (h.asset, h.amount)]
  }

  /** A well-formed change does to the live balances what its effect says. */
  lemma ReplayIsEffect(live: Live, changes: seq<Change>, i: nat, assetOf: seq<Byte> -> Asset, ledger: nat)
    requires i < |changes| && (changes[i].claimable ==> WellFormedAt(changes, i, assetOf, ledger))
    ensures match EffectOf(changes[i], assetOf)
            case None => ReplayOne(live, changes[i]) == live
            case Some(h) => h.ledger == ledger && ReplayOne(live, changes[i]) == After(live, h)
  {
  }

  lemma NothingLeft(live: Live, b: seq<Byte>)
    ensures LeftBy(live, live, None, b)
  {
  }

  lemma LeftAfter(live: Live, live': Live, before: seq<Holding>, h: Holding, ledger: nat, b: seq<Byte>)
    requires LeftBy(live, live', LastOf(before, ByBalance(), TxKey(b, ledger)), b) && h.ledger == ledger
    ensures LeftBy(live, After(live', h), LastOf(before + [h], ByBalance(), TxKey(b, ledger)), b)
  {
    assert (before + [h])[..|before|] == before;
  }

  lemma {:induction false} ReplayLeavesLast(live: Live, changes: seq<Change>, assetOf: seq<Byte> -> Asset, ledger: nat, b: seq<Byte>)
    requires WellFormed(changes, assetOf, ledger)
    ensures LeftBy(live, Replay(live, changes), LastOf(Effects(changes, assetOf), ByBalance(), TxKey(b, ledger)), b)
    decreases |changes|
  {
    hide WellFormedAt, ReplayOne, EffectOf, LeftBy, After;
    if changes == [] {
      NothingLeft(live, b);
    } else {
      var n := |changes| - 1;
      var before := Effects(changes[..n], assetOf);
      WellFormedInit(changes, assetOf, ledger);
      ReplayLeavesLast(live, changes[..n], assetOf, ledger, b);
      ReplayIsEffect(Replay(live, changes[..n]), changes, n, assetOf, ledger);
      var e := EffectOf(changes[n], assetOf);
      if e.Some? {
        assert Effects(changes, assetOf) == before + [e.value];
        LeftAfter(live, Replay(live, changes[..n]), before, e.value, ledger, b);
      } else {
        assert Effects(changes, assetOf) == before;
      }
    }
  }

  lemma {:induction false} ReplayLedgerLeavesLast(live: Live, txs: seq<seq<Change>>, assetOf: seq<Byte> -> Asset, ledger: nat, b: seq<Byte>)
    requires AllWellFormed(txs, assetOf, ledger)
    ensures LeftBy(live, ReplayLedger(live, txs), LastOf(LedgerEffects(txs, assetOf), ByBalance(), TxKey(b, ledger)), b)
    decreases |txs|
  {
    if txs != [] {
      var n := |txs| - 1;
      ReplayLedgerLeavesLast(live, txs[..n], assetOf, ledger, b);
      ReplayLeavesLast(ReplayLedger(live, txs[..n]), txs[n], assetOf, ledger, b);
      LastOfConcat(LedgerEffects(txs[..n], assetOf), Effects(txs[n], assetOf), ByBalance(), TxKey(b, ledger));
    }
  }

  // ---------- The table over many ledgers ----------

  datatype LedgerChanges = LedgerChanges(sequence: nat, txs: seq<seq<Change>>)

  ghost predicate WellFormedLedgers(ledgers: seq<LedgerChanges>, assetOf: seq<Byte> -> Asset)
  {
    && (forall i :: 0 <= i < |ledgers| ==> AllWellFormed(ledgers[i].txs, assetOf, ledgers[i].sequence))
    && forall i, j :: 0 <= i < j < |ledgers| ==> ledgers[i].sequence < ledgers[j].sequence
  }

  function RowSet(rows: seq<Holding>): set<Holding>
  {
    set h | h in rows
  }

  /** Every row ever inserted. */
  function Inserted(ledgers: seq<LedgerChanges>): set<Holding>
  {
    if ledgers == [] then {} else Inserted(ledgers[..|ledgers| - 1]) + RowSet(LedgerRows(ledgers[|ledgers| - 1].txs))
  }

  function ReplayAll(ledgers: seq<LedgerChanges>): Live
  {
    if ledgers == [] then map[] else ReplayLedger(ReplayAll(ledgers[..|ledgers| - 1]), ledgers[|ledgers| - 1].txs)
  }

  /** `h` is the row a replacing merge keeps for its balance: no other row of the balance is as new. */
  ghost predicate IsTop(db: set<Holding>, h: Holding)
  {
    h in db && forall g :: g in db && g.balance == h.balance && g != h ==> g.ledger < h.ledger
  }

  /** The table says of balance `b` what the replay says. */
  ghost predicate TellsLive(db: set<Holding>, live: Live, b: seq<Byte>)
  {
    if (exists h :: h in db && h.balance == b)
    then exists h :: IsTop(db, h) && h.balance == b && (b in live <==> !h.closed) && (!h.closed ==> live[b] == (h.asset, h.amount))
    else b !in live
  }

  lemma {:induction false} InsertedShape(ledgers: seq<LedgerChanges>, assetOf: seq<Byte> -> Asset)
    requires WellFormedLedgers(ledgers, assetOf)
    ensures forall h :: h in Inserted(ledgers) ==>
              && h.asset == assetOf(h.balance) && (h.closed ==> h.amount == 0)
              && ledgers != [] && h.ledger <= ledgers[|ledgers| - 1].sequence
    decreases |ledgers|
  {
    if ledgers != [] {
      var n := |ledgers| - 1;
      InsertedShape(ledgers[..n], assetOf);
      LedgerRowsShape(ledgers[n].txs, assetOf, ledgers[n].sequence);
    }
  }

  /** Over any run of ledgers the merged table and the replay of the raw changes agree on every balance. */
  lemma {:induction false} TableTellsLive(ledgers: seq<LedgerChanges>, assetOf: seq<Byte> -> Asset, b: seq<Byte>)
    requires WellFormedLedgers(ledgers, assetOf)
    ensures TellsLive(Inserted(ledgers), ReplayAll(ledgers), b)
    decreases |ledgers|
  {
    if ledgers != [] {
      var n := |ledgers| - 1;
      var early, last := ledgers[..n], ledgers[n];
      TableTellsLive(early, assetOf, b);
      InsertedShape(early, assetOf);
      LedgerRowsShape(last.txs, assetOf, last.sequence);
      LedgerRowIsLastEffect(last.txs, assetOf, last.sequence, b);
      ReplayLedgerLeavesLast(ReplayAll(early), last.txs, assetOf, last.sequence, b);
      InsertTells(Inserted(early), LedgerRows(last.txs), ReplayAll(early), ReplayAll(ledgers), assetOf, last.sequence, b);
    }
  }

  lemma InsertTells(db: set<Holding>, rows: seq<Holding>, live: Live, live': Live, assetOf: seq<Byte> -> Asset, ledger: nat, b: seq<Byte>)
    requires TellsLive(db, live, b) && forall h :: h in db ==> h.ledger < ledger
    requires Uniform(rows, assetOf, ledger)
    requires forall h :: h in rows ==> LastOf(rows, ByRow(), RowKey(h.balance, assetOf(h.balance), ledger)) == Some(h)
    requires LeftBy(live, live', LastOf(rows, ByRow(), RowKey(b, assetOf(b), ledger)), b)
    ensures TellsLive(db + RowSet(rows), live', b)
  {
    var db' := db + RowSet(rows);
    match LastOf(rows, ByRow(), RowKey(b, assetOf(b), ledger))
    case Some(h) =>
      assert h in rows && h in db' && IsTop(db', h);
    case None =>
      assert forall h :: h in rows ==> h.balance != b;
      if h :| h in db && h.balance == b {
        var top :| IsTop(db, top) && top.balance == b && (b in live <==> !top.closed) && (!top.closed ==> live[b] == (top.asset, top.amount));
        assert h in db' && IsTop(db', top);
      }
  }

  /** The rows a replacing merge leaves. */
  ghost function Merged(db: set<Holding>): set<Holding>
  {
    set h | h in db && IsTop(db, h)
  }

  /** What a reader of merged rows takes for the open balances. */
  ghost predicate IsView(rows: set<Holding>, view: Live)
  {
    && (forall b :: b in view <==> exists h :: h in rows && h.balance == b && !h.closed)
    && forall h :: h in rows && !h.closed ==> h.balance in view && view[h.balance] == (h.asset, h.amount)
  }

  /** What a reader of the merged table sees as open balances is the replayed state, and nothing else is. */
  lemma MergedViewIsReplay(ledgers: seq<LedgerChanges>, assetOf: seq<Byte> -> Asset, view: Live)
    requires WellFormedLedgers(ledgers, assetOf)
    ensures IsView(Merged(Inserted(ledgers)), view) <==> view == ReplayAll(ledgers)
  {
    var db, live := Inserted(ledgers), ReplayAll(ledgers);
    ReplayIsView(ledgers, assetOf);
    if IsView(Merged(db), view) { OneView(Merged(db), view, live); }
  }

  lemma OneView(rows: set<Holding>, a: Live, b: Live)
    requires IsView(rows, a) && IsView(rows, b)
    ensures a == b
  {
    forall x ensures (x in a <==> x in b) && (x in a ==> a[x] == b[x]) {
      if x in a { var h :| h in rows && h.balance == x && !h.closed; }
    }
  }

  lemma ReplayIsView(ledgers: seq<LedgerChanges>, assetOf: seq<Byte> -> Asset)
    requires WellFormedLedgers(ledgers, assetOf)
    ensures IsView(Merged(Inserted(ledgers)), ReplayAll(ledgers))
  {
    var db, live := Inserted(ledgers), ReplayAll(ledgers);
    forall b ensures b in live <==> exists h :: h in Merged(db) && h.balance == b && !h.closed {
      TableTellsLive(ledgers, assetOf, b);
      if h :| h in db && h.balance == b { TopOnly(db, live, b); }
    }
    forall h | h in Merged(db) && !h.closed ensures h.balance in live && live[h.balance] == (h.asset, h.amount) {
      TableTellsLive(ledgers, assetOf, h.balance);
      TopOnly(db, live, h.balance);
    }
  }

  /** A balance has one newest row, and it tells whether and how the balance is live. */
  lemma TopOnly(db: set<Holding>, live: Live, b: seq<Byte>)
    requires TellsLive(db, live, b) && exists h :: h in db && h.balance == b
    ensures exists h :: h in Merged(db) && h.balance == b
    ensures forall h :: h in Merged(db) && h.balance == b ==> (b in live <==> !h.closed) && (!h.closed ==> live[b] == (h.asset, h.amount))
  {
    var top :| IsTop(db, top) && top.balance == b && (b in live <==> !top.closed) && (!top.closed ==> live[b] == (top.asset, top.amount));
    assert top in Merged(db);
    assert forall h :: h in Merged(db) && h.balance == b ==> h == top;
  }

  // ---------- Supply ----------

  /** The sum of the amounts of some rows. */
  ghost function Sum(rows: set<Holding>): int
  {
    if rows == {} then 0 else var h :| h in rows; h.amount + Sum(rows - {h})
  }

  lemma {:induction false} SumWith(rows: set<Holding>, x: Holding)
    requires x !in rows
    ensures Sum(rows + {x}) == Sum(rows) + x.amount
    decreases |rows|
  {
    var all := rows + {x};
    var h :| h in all && Sum(all) == h.amount + Sum(all - {h});
    if h == x {
      assert all - {h} == rows;
    } else {
      var less := rows - {h};
      assert all - {h} == less + {x} && rows == less + {h};
      SumWith(less, x);
      SumWith(less, h);
    }
  }

  ghost function OfAsset(rows: set<Holding>, asset: Asset): set<Holding>
  {
    set h | h in rows && h.asset == asset
  }

  ghost function OpenOf(rows: set<Holding>): set<Holding>
  {
    set h | h in rows && !h.closed
  }

  lemma {:induction false} ClosedSumToZero(rows: set<Holding>)
    requires forall h :: h in rows && h.closed ==> h.amount == 0
    ensures Sum(rows) == Sum(OpenOf(rows))
    decreases |rows|
  {
    if rows == {} {
      assert OpenOf(rows) == {};
    } else {
      var x :| x in rows;
      var less := rows - {x};
      ClosedSumToZero(less);
      SumWith(less, x);
      assert less + {x} == rows;
      if x.closed {
        assert OpenOf(rows) == OpenOf(less);
      } else {
        assert OpenOf(rows) == OpenOf(less) + {x};
        SumWith(OpenOf(less), x);
      }
    }
  }

  /** A supply summed over the merged rows of an asset, tombstones included, is that of the open balances. */
  lemma TombstonesAddNothing(ledgers: seq<LedgerChanges>, assetOf: seq<Byte> -> Asset, merged: set<Holding>, asset: Asset)
    requires WellFormedLedgers(ledgers, assetOf) && merged <= Inserted(ledgers)
    ensures Sum(OfAsset(merged, asset)) == Sum(OpenOf(OfAsset(merged, asset)))
  {
    InsertedShape(ledgers, assetOf);
    ClosedSumToZero(OfAsset(merged, asset));
  }

  // ---------- Live totals ----------

  /** What the live balances hold of an asset. */
  ghost function Total(live: Live, asset: Asset): int
  {
    if live == map[] then 0
    else
      var b :| b in live;
      (if live[b].0 == asset then live[b].1 else 0) + Total(live - {b}, asset)
  }

  lemma {:induction false} TotalWithout(live: Live, b: seq<Byte>, asset: Asset)
    requires b in live
    ensures Total(live, asset) == (if live[b].0 == asset then live[b].1 else 0) + Total(live - {b}, asset)
    decreases |live|
  {
    var x :| x in live && Total(live, asset) == (if live[x].0 == asset then live[x].1 else 0) + Total(live - {x}, asset);
    if x != b {
      TotalWithout(live - {x}, b, asset);
      TotalWithout(live - {b}, x, asset);
      assert (live - {x}) - {b} == (live - {b}) - {x};
    }
  }

  ghost predicate OneRowEach(rows: set<Holding>)
  {
    forall g, h :: g in rows && h in rows && g.balance == h.balance ==> g == h
  }

  lemma {:induction false} SumIsTotal(rows: set<Holding>, view: Live, asset: Asset)
    requires OneRowEach(rows) && IsView(rows, view) && forall h :: h in rows && h.closed ==> h.amount == 0
    ensures Sum(OfAsset(rows, asset)) == Total(view, asset)
    decreases |rows|
  {
    hide Sum, Total, OfAsset, IsView, OneRowEach;
    if rows == {} {
      NothingHeld(view, asset);
    } else {
      var x :| x in rows;
      ViewWithout(rows, view, x);
      SumIsTotal(rows - {x}, view - {x.balance}, asset);
      SumWithout(rows, x, asset);
      if x.closed { assert view - {x.balance} == view; } else { TotalWithout(view, x.balance, asset); }
    }
  }

  lemma NothingHeld(view: Live, asset: Asset)
    requires IsView({}, view)
    ensures Sum(OfAsset({}, asset)) == 0 == Total(view, asset)
  {
    assert view == map[];
    assert OfAsset({}, asset) == {};
  }

  lemma SumWithout(rows: set<Holding>, x: Holding, asset: Asset)
    requires x in rows
    ensures Sum(OfAsset(rows, asset)) == Sum(OfAsset(rows - {x}, asset)) + (if x.asset == asset then x.amount else 0)
  {
    hide Sum;
    if x.asset == asset {
      SumWith(OfAsset(rows - {x}, asset), x);
      assert OfAsset(rows, asset) == OfAsset(rows - {x}, asset) + {x};
    } else {
      assert OfAsset(rows, asset) == OfAsset(rows - {x}, asset);
    }
  }

  lemma ViewWithout(rows: set<Holding>, view: Live, x: Holding)
    requires OneRowEach(rows) && IsView(rows, view) && x in rows
    ensures OneRowEach(rows - {x}) && IsView(rows - {x}, view - {x.balance})
    ensures if x.closed then x.balance !in view else x.balance in view && view[x.balance] == (x.asset, x.amount)
  {
    forall b ensures b in view - {x.balance} <==> exists h :: h in rows - {x} && h.balance == b && !h.closed {
      if b in view - {x.balance} {
        var h :| h in rows && h.balance == b && !h.closed;
        assert h in rows - {x};
      }
    }
  }

  /** The supply of an asset summed over the merged rows is what the live balances of the replay hold of it. */
  lemma SupplyIsLiveTotal(ledgers: seq<LedgerChanges>, assetOf: seq<Byte> -> Asset, asset: Asset)
    requires WellFormedLedgers(ledgers, assetOf)
    ensures Sum(OfAsset(Merged(Inserted(ledgers)), asset)) == Total(ReplayAll(ledgers), asset)
  {
    ReplayIsView(ledgers, assetOf);
    InsertedShape(ledgers, assetOf);
    var db := Inserted(ledgers);
    assert OneRowEach(Merged(db));
    SumIsTotal(Merged(db), ReplayAll(ledgers), asset);
  }
}
