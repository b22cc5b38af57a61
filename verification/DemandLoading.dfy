/**
 Reading a contract's metadata by running its own functions over a partial copy of
 the ledger: crates/contract-executor/src/lib.rs, crates/indexer/src/contract_state.rs
 and crates/indexer/src/contract_metadata.rs.

 A run reports the keys it missed, they are loaded, and it runs again. The answer is
 proved to be the one a single run over the whole store would give.
 */
module DemandLoading {
  import opened Bytes
  import opened Options
  import opened Sets

  type Hash = string
  type Contract = string

  datatype Durability = Temporary | Persistent

  /** A `LedgerKey`. */
  datatype Key =
    | Code(hash: Hash)
    | Instance(contract: Contract, durability: Durability)
    | Data(contract: Contract, name: string)

  datatype Executable = Wasm(hash: Hash) | StellarAsset | ExternalRef

  /** A `LedgerEntry`, as far as this code looks into it. */
  datatype Entry =
    | InstanceEntry(executable: Executable, storage: string)
    | CodeEntry(hash: Hash, code: string)
    | OtherEntry(data: string)

  /** Keys known: the entry, or `None` for one known not to exist. */
  type Entries = map<Key, Option<Entry>>

  datatype ScVal = U32(n: nat) | Text(bytes: seq<Byte>) | OtherVal

  // ---------- The host: a deterministic reader ----------

  datatype Action = Ask(key: Key) | Return(value: ScVal) | Fail

  /** A function under the host: what it does next depends on the answers so far, and the
      host's budget bounds how much it can ask. */
  datatype View = View(next: seq<Option<Entry>> -> Action, budget: nat)

  /** A run: its value, if it has one, and the keys it asked for and did not get. */
  datatype Run = Run(value: Option<ScVal>, missing: set<Key>)

  /** Run over a partial copy: an unknown key reads as absent and is recorded. */
  function RunFrom(v: View, entries: Entries, answers: seq<Option<Entry>>): Run
    decreases v.budget - |answers|
  {
    if |answers| >= v.budget then Run(None, {})
    else
      match v.next(answers)
      case Return(value) => Run(Some(value), {})
      case Fail => Run(None, {})
      case Ask(key) =>
        if key in entries then RunFrom(v, entries, answers + [entries[key]])
        else
          var rest := RunFrom(v, entries, answers + [None]);
          Run(rest.value, {key} + rest.missing)
  }

  /** Run over a store that answers every key. */
  ghost function EvalFrom(v: View, store: Key -> Option<Entry>, answers: seq<Option<Entry>>): Option<ScVal>
    decreases v.budget - |answers|
  {
    if |answers| >= v.budget then None
    else
      match v.next(answers)
      case Return(value) => Some(value)
      case Fail => None
      case Ask(key) => EvalFrom(v, store, answers + [store(key)])
  }

  /** The keys a run over the store asks for. */
  ghost function Asked(v: View, store: Key -> Option<Entry>, answers: seq<Option<Entry>>): set<Key>
    decreases v.budget - |answers|
  {
    if |answers| >= v.budget || !v.next(answers).Ask? then {}
    else {v.next(answers).key} + Asked(v, store, answers + [store(v.next(answers).key)])
  }

  ghost predicate Agrees(entries: Entries, store: Key -> Option<Entry>)
  {
    forall k :: k in entries ==> entries[k] == store(k)
  }

  /** A run that misses nothing over a copy that agrees with the store is the run over the store. */
  lemma {:induction false} NothingMissingMeansExact(v: View, entries: Entries, store: Key -> Option<Entry>, answers: seq<Option<Entry>>)
    requires Agrees(entries, store) && RunFrom(v, entries, answers).missing == {}
    ensures RunFrom(v, entries, answers).value == EvalFrom(v, store, answers)
    decreases v.budget - |answers|
  {
    if |answers| < v.budget && v.next(answers).Ask? {
      var key := v.next(answers).key;
      assert key !in entries ==> key in RunFrom(v, entries, answers).missing;
      NothingMissingMeansExact(v, entries, store, answers + [entries[key]]);
    }
  }

  /** A run misses something exactly when the run over the store asks for a key not yet known,
      and then one such key is among those it reports. */
  lemma {:induction false} MissingIsAsked(v: View, entries: Entries, store: Key -> Option<Entry>, answers: seq<Option<Entry>>)
    requires Agrees(entries, store)
    ensures RunFrom(v, entries, answers).missing == {} <==> Asked(v, store, answers) <= entries.Keys
    ensures RunFrom(v, entries, answers).missing != {} ==>
              exists k :: k in RunFrom(v, entries, answers).missing && k in Asked(v, store, answers) && k !in entries
    decreases v.budget - |answers|
  {
    if |answers| < v.budget && v.next(answers).Ask? {
      var key := v.next(answers).key;
      if key in entries {
        MissingIsAsked(v, entries, store, answers + [entries[key]]);
      } else {
        assert key in RunFrom(v, entries, answers).missing && key in Asked(v, store, answers);
      }
    }
  }

  lemma {:induction false} MissingIsUnknown(v: View, entries: Entries, answers: seq<Option<Entry>>)
    ensures RunFrom(v, entries, answers).missing !! entries.Keys
    ensures forall k :: k in RunFrom(v, entries, answers).missing ==> exists a :: v.next(a) == Ask(k)
    decreases v.budget - |answers|
  {
    if |answers| < v.budget && v.next(answers).Ask? {
      var key := v.next(answers).key;
      MissingIsUnknown(v, entries, answers + [if key in entries then entries[key] else None]);
    }
  }

  // ---------- call_view ----------

  datatype ViewOutcome = Value(value: ScVal) | Missing(keys: seq<Key>) | Failed

  /** The caller's entries as the host sees them. */
  class Snapshot {
    const entries: Entries
    var missing: seq<Key>

    constructor (entries: Entries)
      ensures this.entries == entries && missing == []
    {
      this.entries := entries;
      missing := [];
    }

    method Get(key: Key) returns (entry: Option<Entry>)
      modifies this
      ensures entry == if key in entries then entries[key] else None
      ensures missing == if key in entries then old(missing) else old(missing) + [key]
    {
      if key in entries { return entries[key]; }
      missing := missing + [key];
      return None;
    }
  }

  ghost function Elements(keys: seq<Key>): set<Key>
  {
    set k | k in keys
  }

  predicate Distinct(keys: seq<Key>)
  {
    forall i, j :: 0 <= i < j < |keys| ==> keys[i] != keys[j]
  }

  method Deduplicated(keys: seq<Key>) returns (out: seq<Key>)
    ensures Elements(out) == Elements(keys)
    ensures Distinct(out)
  {
    out := [];
    for i := 0 to |keys|
      invariant Elements(out) == Elements(keys[..i])
      invariant Distinct(out)
    {
      assert keys[..i + 1] == keys[..i] + [keys[i]];
      ghost var before := out;
      if keys[i] !in out { out := out + [keys[i]]; }
      assert keys[i] in out && Elements(out) == Elements(before) + {keys[i]};
    }
    assert keys[..|keys|] == keys;
  }

  method CallView(entries: Entries, view: View) returns (o: ViewOutcome)
    ensures var run := RunFrom(view, entries, []);
            if run.missing != {} then o.Missing? && Elements(o.keys) == run.missing && Distinct(o.keys)
            else o == match run.value case Some(x) => Value(x) case None => Failed
  {
    var snapshot := new Snapshot(entries);
    var answers: seq<Option<Entry>> := [];
    var value: Option<ScVal> := None;
    ghost var whole := RunFrom(view, entries, []);
    while |answers| < view.budget
      invariant |answers| <= view.budget
      invariant snapshot.entries == entries && fresh(snapshot)
      invariant value == None
      invariant whole.value == RunFrom(view, entries, answers).value
      invariant whole.missing == Elements(snapshot.missing) + RunFrom(view, entries, answers).missing
      decreases view.budget - |answers|
    {
      match view.next(answers)
      case Return(x) =>
        value := Some(x);
        break;
      case Fail =>
        break;
      case Ask(key) =>
        var answer := snapshot.Get(key);
        answers := answers + [answer];
    }
    assert value == whole.value && Elements(snapshot.missing) == whole.missing;
    var missing := Deduplicated(snapshot.missing);
    if missing != [] {
      assert missing[0] in Elements(missing);
      return Missing(missing);
    }
    match value
    case Some(x) => return Value(x);
    case None => return Failed;
  }

  // ---------- load_entry ----------

  /** The stored programs and instances; an instance row holds its decoded entry, or `None` when
      its XDR does not decode. `interfaces` lists the metadata functions a stored program declares. */
  datatype Database = Database(code: map<Hash, string>, instances: map<Contract, Option<Entry>>,
                               interfaces: map<Hash, set<string>>)

  const MAX_BYTES: nat := 0xFFFF_FFFF

  function MakeCodeEntry(hash: Hash, code: string): Option<Entry>
  {
    if |code| <= MAX_BYTES then Some(CodeEntry(hash, code)) else None
  }

  /** What the database holds under a key it is asked for; an empty program counts as none. */
  function Stored(db: Database, key: Key): Option<Entry>
  {
    match key
    case Code(hash) => if hash in db.code && db.code[hash] != "" then MakeCodeEntry(hash, db.code[hash]) else None
    case Instance(contract, _) => if contract in db.instances then db.instances[contract] else None
    case Data(_, _) => None
  }

  /** A stored program becomes its entry, unless it is empty or too long for XDR; nothing stored, no entry. */
  lemma StoredProgram(db: Database, h: Hash)
    ensures h !in db.code ==> Stored(db, Code(h)) == None
    ensures h in db.code && db.code[h] != "" && |db.code[h]| <= 4_294_967_295 ==> Stored(db, Code(h)) == Some(CodeEntry(h, db.code[h]))
    ensures h in db.code && (db.code[h] == "" || |db.code[h]| > 4_294_967_295) ==> Stored(db, Code(h)) == None
  {
  }

  method LoadEntry(db: Database, key: Key, entries: Entries) returns (found: bool, entries': Entries)
    ensures found == !key.Data?
    ensures entries' == Loaded(db, key, entries)
  {
    match key
    case Code(hash) =>
      var entry := if hash in db.code && db.code[hash] != "" then MakeCodeEntry(hash, db.code[hash]) else None;
      return true, entries[key := entry];
    case Instance(contract, _) =>
      entries' := LoadInstances(db, [contract], entries);
      return true, entries';
    case Data(_, _) =>
      return false, entries;
  }

  /** `load_entry` as a function: an instance lands under its persistent key, whatever was asked. */
  function Loaded(db: Database, key: Key, entries: Entries): Entries
  {
    match key
    case Code(_) => entries[key := Stored(db, key)]
    case Instance(contract, _) => entries[Instance(contract, Persistent) := Stored(db, key)]
    case Data(_, _) => entries
  }

  /** `k` is the instance key of one of `contracts`. */
  predicate IsInstanceOf(k: Key, contracts: seq<Contract>)
  {
    k.Instance? && k.durability == Persistent && k.contract in contracts
  }

  method LoadInstances(db: Database, contracts: seq<Contract>, entries: Entries) returns (entries': Entries)
    ensures forall k :: k in entries' <==> k in entries || IsInstanceOf(k, contracts)
    ensures forall k :: k in entries' ==> entries'[k] == if IsInstanceOf(k, contracts) then Stored(db, k) else entries[k]
  {
    entries' := entries;
    for i := 0 to |contracts|
      invariant forall k :: k in entries' <==> k in entries || IsInstanceOf(k, contracts[..i])
      invariant forall k :: k in entries' ==> entries'[k] == if IsInstanceOf(k, contracts[..i]) then None else entries[k]
    {
      assert contracts[..i + 1] == contracts[..i] + [contracts[i]];
      entries' := entries'[Instance(contracts[i], Persistent) := None];
    }
    assert contracts[..|contracts|] == contracts;
    ghost var none := entries';
    for i := 0 to |contracts|
      invariant entries'.Keys == none.Keys
      invariant forall k :: k in entries' ==> entries'[k] == if IsInstanceOf(k, contracts[..i]) then Stored(db, k) else none[k]
    {
      ghost var slot := Instance(contracts[i], Persistent);
      assert contracts[..i + 1] == contracts[..i] + [contracts[i]];
      assert IsInstanceOf(slot, contracts) && slot in none && none[slot] == None;
      if contracts[i] in db.instances {
        entries' := entries'[Instance(contracts[i], Persistent) := db.instances[contracts[i]]];
      }
    }
    assert contracts[..|contracts|] == contracts;
  }

  // ---------- The store the answers are judged by ----------

  /** This ledger's entries first, then the database. */
  function Overlay(ledger: Entries, db: Database): Key -> Option<Entry>
  {
    (k: Key) => if k in ledger then ledger[k] else Stored(db, k)
  }

  /** Everything known agrees with the overlay, and this ledger's entries are all known. */
  ghost predicate Sound(entries: Entries, ledger: Entries, db: Database)
  {
    ledger.Keys <= entries.Keys && Agrees(entries, Overlay(ledger, db))
  }

  /** Loading a key a run missed keeps agreement exactly when the key is not a temporary instance
      key whose contract this ledger holds otherwise than the database. */
  lemma LoadKeepsAgreementIff(db: Database, key: Key, entries: Entries, ledger: Entries)
    requires Sound(entries, ledger, db) && key !in entries
    ensures Sound(Loaded(db, key, entries), ledger, db)
       <==> !(key.Instance? && key.durability == Temporary && Instance(key.contract, Persistent) in ledger
              && ledger[Instance(key.contract, Persistent)] != Stored(db, key))
  {
    var after := Loaded(db, key, entries);
    if key.Instance? && key.durability == Temporary {
      var slot := Instance(key.contract, Persistent);
      assert after[slot] == Stored(db, key) && Stored(db, key) == Stored(db, slot);
      assert forall k :: k in after && k != slot ==> after[k] == entries[k];
      if Sound(after, ledger, db) && slot in ledger {
        assert after[slot] == Overlay(ledger, db)(slot);
      }
    }
  }

  /** One such key: the stored instance takes the place of the one this ledger wrote. */
  lemma TemporaryKeyExample(c: Contract)
    ensures var ledger: Entries := map[Instance(c, Persistent) := Some(InstanceEntry(Wasm("new"), ""))];
            var db := Database(map[], map[c := Some(InstanceEntry(Wasm("old"), ""))], map[]);
            && Sound(ledger, ledger, db) && Instance(c, Temporary) !in ledger
            && Loaded(db, Instance(c, Temporary), ledger)[Instance(c, Persistent)] == Some(InstanceEntry(Wasm("old"), ""))
            && !Sound(Loaded(db, Instance(c, Temporary), ledger), ledger, db)
  {
    var ledger: Entries := map[Instance(c, Persistent) := Some(InstanceEntry(Wasm("new"), ""))];
    var db := Database(map[], map[c := Some(InstanceEntry(Wasm("old"), ""))], map[]);
    LoadKeepsAgreementIff(db, Instance(c, Temporary), ledger, ledger);
  }

  /** The host reads instances only under their persistent key. */
  ghost predicate ReadsPersistentInstances(v: View)
  {
    forall answers :: v.next(answers).Ask? ==>
      !(v.next(answers).key.Instance? && v.next(answers).key.durability == Temporary)
  }

  ghost predicate ReadsNoContractData(v: View)
  {
    forall answers :: v.next(answers).Ask? ==> !v.next(answers).key.Data?
  }

  ghost predicate Extends(before: Entries, after: Entries)
  {
    before.Keys <= after.Keys && forall k :: k in before ==> after[k] == before[k]
  }

  /** Loading a missed key keeps every known entry and agreement, and makes just that key known. */
  lemma LoadedGrows(db: Database, key: Key, entries: Entries, ledger: Entries)
    requires Sound(entries, ledger, db) && key !in entries
    requires !key.Data? && !(key.Instance? && key.durability == Temporary)
    ensures Sound(Loaded(db, key, entries), ledger, db) && Extends(entries, Loaded(db, key, entries))
    ensures Loaded(db, key, entries).Keys == entries.Keys + {key}
  {
    LoadKeepsAgreementIff(db, key, entries, ledger);
  }

  // ---------- read_metadata ----------

  datatype TokenMetadata = TokenMetadata(name: Option<seq<Byte>>, symbol: Option<seq<Byte>>, decimals: Option<nat>)

  datatype Answer = Metadata(metadata: TokenMetadata) | NeedsContractData | ReadFailed

  const MAX_ROUNDS: nat := 5
  const FUNCTIONS: seq<string> := ["decimals", "name", "symbol"]

  /** Put a function's value where it belongs; `None` when it has the wrong type. */
  function WithValue(m: TokenMetadata, fname: string, value: ScVal): Option<TokenMetadata>
  {
    if fname == "decimals" && value.U32? then Some(m.(decimals := Some(value.n)))
    else if fname == "name" && value.Text? && ValidUtf8(value.bytes) then Some(m.(name := Some(value.bytes)))
    else if fname == "symbol" && value.Text? && ValidUtf8(value.bytes) then Some(m.(symbol := Some(value.bytes)))
    else None
  }

  /** What the functions from the `i`-th on give when each runs once over the whole store. */
  ghost function WholeFrom(views: string -> View, declares: set<string>, store: Key -> Option<Entry>, i: nat, m: TokenMetadata): Option<TokenMetadata>
    requires i <= |FUNCTIONS|
    decreases |FUNCTIONS| - i
  {
    if i == |FUNCTIONS| then Some(m)
    else if FUNCTIONS[i] !in declares then WholeFrom(views, declares, store, i + 1, m)
    else
      match EvalFrom(views(FUNCTIONS[i]), store, [])
      case None => None
      case Some(x) =>
        match WithValue(m, FUNCTIONS[i], x)
        case None => None
        case Some(m') => WholeFrom(views, declares, store, i + 1, m')
  }

  ghost function WholeStoreMetadata(views: string -> View, declares: set<string>, store: Key -> Option<Entry>): Option<TokenMetadata>
  {
    WholeFrom(views, declares, store, 0, TokenMetadata(None, None, None))
  }

  /** What a metadata field holds: the text its function returns over the whole store, when that function is declared. */
  ghost predicate TextRead(declared: bool, v: View, store: Key -> Option<Entry>, field: Option<seq<Byte>>)
  {
    if declared then field.Some? && ValidUtf8(field.value) && EvalFrom(v, store, []) == Some(Text(field.value)) else field == None
  }

  ghost predicate NumberRead(declared: bool, v: View, store: Key -> Option<Entry>, field: Option<nat>)
  {
    if declared then field.Some? && EvalFrom(v, store, []) == Some(U32(field.value)) else field == None
  }

  /** Each field holds what the function of its own name returns. */
  ghost predicate FieldsRead(decimals: View, name: View, symbol: View, declares: set<string>, store: Key -> Option<Entry>, m: TokenMetadata)
  {
    && NumberRead("decimals" in declares, decimals, store, m.decimals)
    && TextRead("name" in declares, name, store, m.name)
    && TextRead("symbol" in declares, symbol, store, m.symbol)
  }

  /** Each declared function of the three returns a value of its type. */
  ghost predicate Readable(decimals: View, name: View, symbol: View, declares: set<string>, store: Key -> Option<Entry>)
  {
    exists m :: FieldsRead(decimals, name, symbol, declares, store, m)
  }

  /** Running the functions in turn fills each field from the function of its name, and succeeds exactly when all can be filled. */
  lemma WholeFillsFields(views: string -> View, declares: set<string>, store: Key -> Option<Entry>)
    ensures var whole := WholeStoreMetadata(views, declares, store);
            && (whole.Some? <==> Readable(views("decimals"), views("name"), views("symbol"), declares, store))
            && (whole.Some? ==> FieldsRead(views("decimals"), views("name"), views("symbol"), declares, store, whole.value))
  {
    var m0 := TokenMetadata(None, None, None);
    StepFills(views, declares, store, 0, m0);
    var whole := WholeStoreMetadata(views, declares, store);
    assert whole.Some? ==> FieldsRead(views("decimals"), views("name"), views("symbol"), declares, store, whole.value);
    if m :| FieldsRead(views("decimals"), views("name"), views("symbol"), declares, store, m) {
      FieldsSuffice(views, declares, store, m);
    }
  }

  lemma FieldsSuffice(views: string -> View, declares: set<string>, store: Key -> Option<Entry>, m: TokenMetadata)
    requires FieldsRead(views("decimals"), views("name"), views("symbol"), declares, store, m)
    ensures WholeStoreMetadata(views, declares, store).Some?
  {
    hide EvalFrom, ValidUtf8;
    var m0 := TokenMetadata(None, None, None);
    var m1 := m0.(decimals := m.decimals);
    var m2 := m1.(name := m.name);
    assert WholeFrom(views, declares, store, 3, m) == Some(m);
    assert FUNCTIONS[2] == "symbol" && FUNCTIONS[1] == "name" && FUNCTIONS[0] == "decimals";
    assert WholeFrom(views, declares, store, 2, m2) == WholeFrom(views, declares, store, 3, m);
    assert WholeFrom(views, declares, store, 1, m1) == WholeFrom(views, declares, store, 2, m2);
    assert WholeFrom(views, declares, store, 0, m0) == WholeFrom(views, declares, store, 1, m1);
  }

  /** What the functions from the `i`-th on fill in, field by field. */
  lemma StepFills(views: string -> View, declares: set<string>, store: Key -> Option<Entry>, i: nat, m: TokenMetadata)
    requires i <= 3
    ensures var whole := WholeFrom(views, declares, store, i, m);
            whole.Some? ==>
              && (if i <= 0 && "decimals" in declares then NumberRead(true, views("decimals"), store, whole.value.decimals)
                  else whole.value.decimals == m.decimals)
              && (if i <= 1 && "name" in declares then TextRead(true, views("name"), store, whole.value.name)
                  else whole.value.name == m.name)
              && (if i <= 2 && "symbol" in declares then TextRead(true, views("symbol"), store, whole.value.symbol)
                  else whole.value.symbol == m.symbol)
    decreases 3 - i
  {
    if i < 3 && WholeFrom(views, declares, store, i, m).Some? {
      if FUNCTIONS[i] !in declares {
        StepFills(views, declares, store, i + 1, m);
      } else {
        StepFills(views, declares, store, i + 1, WithValue(m, FUNCTIONS[i], EvalFrom(views(FUNCTIONS[i]), store, []).value).value);
      }
    }
  }

  /** Few enough unknown keys that the rounds cannot run out, and none the database does not hold. */
  ghost predicate WithinReach(v: View, entries: Entries, store: Key -> Option<Entry>)
  {
    ReadsNoContractData(v) && |Asked(v, store, []) - entries.Keys| < 5
  }

  /** How many keys became known. */
  ghost function Learned(before: Entries, after: Entries): nat
  {
    |after.Keys - before.Keys|
  }

  /** How many of the keys a run over the store asks for are not known yet. */
  ghost function Unknown(v: View, store: Key -> Option<Entry>, entries: Entries): nat
  {
    |Asked(v, store, []) - entries.Keys|
  }

  lemma Reach(v: View, entries: Entries, store: Key -> Option<Entry>)
    ensures WithinReach(v, entries, store) <==> ReadsNoContractData(v) && Unknown(v, store, entries) < 5
  {
  }

  lemma NothingLearned(entries: Entries)
    ensures Learned(entries, entries) == 0
  {
    assert entries.Keys - entries.Keys == {};
  }

  /** A round that makes an asked key known. */
  lemma OneLearned(first: Entries, before: Entries, after: Entries, v: View, store: Key -> Option<Entry>, k: Key)
    requires first.Keys <= before.Keys <= after.Keys && k in after && k !in before && k in Asked(v, store, [])
    ensures Learned(first, after) >= Learned(first, before) + 1
    ensures Unknown(v, store, after) + 1 <= Unknown(v, store, before)
  {
    hide Asked;
    OneMore(first.Keys, before.Keys, after.Keys, k);
    OneLess(Asked(v, store, []), before.Keys, after.Keys, k);
  }

  /** A round that loads everything missed makes an asked key known. */
  lemma RoundLearns(first: Entries, before: Entries, after: Entries, v: View, store: Key -> Option<Entry>, missing: set<Key>, keys: seq<Key>)
    requires first.Keys <= before.Keys <= after.Keys && Elements(keys) == missing && forall k :: k in keys ==> k in after
    requires exists k :: k in missing && k in Asked(v, store, []) && k !in before
    ensures Learned(first, after) >= Learned(first, before) + 1
    ensures Unknown(v, store, after) + 1 <= Unknown(v, store, before)
  {
    hide Asked, Learned, Unknown;
    var k :| k in missing && k in Asked(v, store, []) && k !in before;
    assert k in Elements(keys);
    OneLearned(first, before, after, v, store, k);
  }

  lemma LearnedWithin(first: Entries, before: Entries, after: Entries)
    requires first.Keys <= before.Keys <= after.Keys
    ensures Learned(before, after) <= Learned(first, after)
  {
    SubsetSize(after.Keys - before.Keys, after.Keys - first.Keys);
  }

  lemma ReachKept(v: View, before: Entries, after: Entries, store: Key -> Option<Entry>)
    requires before.Keys <= after.Keys
    ensures |Asked(v, store, []) - after.Keys| <= |Asked(v, store, []) - before.Keys|
    ensures WithinReach(v, before, store) ==> WithinReach(v, after, store)
  {
    SubsetSize(Asked(v, store, []) - after.Keys, Asked(v, store, []) - before.Keys);
  }

  /** Load the missed keys one by one. */
  method LoadAll(db: Database, keys: seq<Key>, entries: Entries, ghost ledger: Entries, ghost v: View)
    returns (found: bool, entries': Entries)
    requires Sound(entries, ledger, db) && ReadsPersistentInstances(v)
    requires forall k :: k in keys ==> k !in entries && exists a :: v.next(a) == Ask(k)
    requires Distinct(keys)
    ensures Sound(entries', ledger, db) && Extends(entries, entries')
    ensures found ==> forall k :: k in keys ==> k in entries'
    ensures ReadsNoContractData(v) ==> found
  {
    entries' := entries;
    for i := 0 to |keys|
      invariant Sound(entries', ledger, db) && Extends(entries, entries')
      invariant entries'.Keys == entries.Keys + Elements(keys[..i])
    {
      var key := keys[i];
      assert keys[..i + 1] == keys[..i] + [key];
      assert key !in entries && key !in keys[..i];
      ghost var a :| v.next(a) == Ask(key);
      var ok, loaded := LoadEntry(db, key, entries');
      if !ok { return false, entries'; }
      LoadedGrows(db, key, entries', ledger);
      assert Elements(keys[..i + 1]) == Elements(keys[..i]) + {key};
      entries' := loaded;
    }
    assert keys[..|keys|] == keys;
    return true, entries';
  }

  datatype Outcome = Got(value: ScVal) | NeedsData | GaveUp

  /** The rounds of one function. */
  method RunRounds(db: Database, view: View, entries: Entries, ghost ledger: Entries)
    returns (o: Outcome, entries': Entries)
    requires Sound(entries, ledger, db) && ReadsPersistentInstances(view)
    ensures Sound(entries', ledger, db) && Extends(entries, entries')
    ensures o.Got? ==> EvalFrom(view, Overlay(ledger, db), []) == Some(o.value)
    ensures WithinReach(view, entries, Overlay(ledger, db)) ==>
              o == match EvalFrom(view, Overlay(ledger, db), []) case Some(x) => Got(x) case None => GaveUp
    ensures o.NeedsData? ==> !ReadsNoContractData(view)
    ensures o.GaveUp? ==> EvalFrom(view, Overlay(ledger, db), []) == None || Learned(entries, entries') >= 5
  {
    hide ReadsPersistentInstances, ReadsNoContractData, Overlay, RunFrom, EvalFrom, Asked, Learned, Unknown, Agrees;
    ghost var store := Overlay(ledger, db);
    ghost var unknown := Unknown(view, store, entries);
    assert WithinReach(view, entries, store) ==> ReadsNoContractData(view) && unknown < 5 by { Reach(view, entries, store); }
    hide WithinReach;
    NothingLearned(entries);
    entries' := entries;
    for round := 0 to MAX_ROUNDS
      invariant Sound(entries', ledger, db) && Extends(entries, entries')
      invariant Unknown(view, store, entries') <= unknown - round && Learned(entries, entries') >= round
    {
      var outcome := CallView(entries', view);
      ghost var run := RunFrom(view, entries', []);
      MissingIsAsked(view, entries', store, []);
      MissingIsUnknown(view, entries', []);
      match outcome
      case Value(x) =>
        NothingMissingMeansExact(view, entries', store, []);
        return Got(x), entries';
      case Failed =>
        NothingMissingMeansExact(view, entries', store, []);
        return GaveUp, entries';
      case Missing(keys) =>
        assert forall k :: k in keys ==> k in Elements(keys);
        ghost var before := entries';
        var found;
        found, entries' := LoadAll(db, keys, entries', ledger, view);
        if !found { return NeedsData, entries'; }
        RoundLearns(entries, before, entries', view, store, run.missing, keys);
    }
    return GaveUp, entries';
  }

  ghost predicate AllWithinReach(views: string -> View, declares: set<string>, entries: Entries, store: Key -> Option<Entry>)
  {
    forall f :: f in declares ==> WithinReach(views(f), entries, store)
  }

  /** A `Metadata` answer is what the functions give over the whole store, however little was known at first;
      and when the rounds cannot run out, the answer is exactly that. */
  method ReadMetadata(db: Database, views: string -> View, declares: set<string>, entries: Entries, ghost ledger: Entries)
    returns (answer: Answer, entries': Entries)
    requires Sound(entries, ledger, db) && forall f :: ReadsPersistentInstances(views(f))
    ensures Sound(entries', ledger, db) && Extends(entries, entries')
    ensures answer.Metadata? ==> WholeStoreMetadata(views, declares, Overlay(ledger, db)) == Some(answer.metadata)
    ensures answer.Metadata? ==>
              FieldsRead(views("decimals"), views("name"), views("symbol"), declares, Overlay(ledger, db), answer.metadata)
    ensures answer.NeedsContractData? ==> exists f :: f in declares && !ReadsNoContractData(views(f))
    ensures answer.ReadFailed? ==>
              || !Readable(views("decimals"), views("name"), views("symbol"), declares, Overlay(ledger, db))
              || Learned(entries, entries') >= 5
    ensures AllWithinReach(views, declares, entries, Overlay(ledger, db)) ==>
              (answer.Metadata? <==> Readable(views("decimals"), views("name"), views("symbol"), declares, Overlay(ledger, db)))
    ensures AllWithinReach(views, declares, entries, Overlay(ledger, db)) ==>
              answer == match WholeStoreMetadata(views, declares, Overlay(ledger, db))
                        case Some(m) => Metadata(m)
                        case None => ReadFailed
  {
    hide FieldsRead, Readable, EvalFrom, ValidUtf8, Sound, WithinReach, Asked, ReadsPersistentInstances, ReadsNoContractData, Overlay, Learned;
    ghost var store := Overlay(ledger, db);
    WholeFillsFields(views, declares, store);
    var metadata := TokenMetadata(None, None, None);
    entries' := entries;
    for i := 0 to |FUNCTIONS|
      invariant Sound(entries', ledger, db) && Extends(entries, entries')
      invariant WholeFrom(views, declares, store, i, metadata) == WholeStoreMetadata(views, declares, store)
    {
      var fname := FUNCTIONS[i];
      if fname !in declares { continue; }
      ReachKept(views(fname), entries, entries', store);
      ghost var before := entries';
      var o;
      o, entries' := RunRounds(db, views(fname), entries', ledger);
      LearnedWithin(entries, before, entries');
      match o
      case NeedsData => return NeedsContractData, entries';
      case GaveUp => return ReadFailed, entries';
      case Got(x) =>
        var m := WithValue(metadata, fname, x);
        if m == None { return ReadFailed, entries'; }
        metadata := m.value;
    }
    return Metadata(metadata), entries';
  }

  /** Two reads of one store from different starting entries: where both give metadata it is the same, and within
      reach they give the same answer. */
  method ReadTwice(db: Database, views: string -> View, declares: set<string>, entries1: Entries, entries2: Entries, ghost ledger: Entries)
    returns (a: Answer, b: Answer)
    requires Sound(entries1, ledger, db) && Sound(entries2, ledger, db) && forall f :: ReadsPersistentInstances(views(f))
    ensures a.Metadata? && b.Metadata? ==> a == b
    ensures AllWithinReach(views, declares, entries1, Overlay(ledger, db)) && AllWithinReach(views, declares, entries2, Overlay(ledger, db)) ==> a == b
  {
    hide Sound, WholeStoreMetadata, AllWithinReach;
    var after1, after2;
    a, after1 := ReadMetadata(db, views, declares, entries1, ledger);
    b, after2 := ReadMetadata(db, views, declares, entries2, ledger);
  }

  // ---------- ledger_metadata_writes ----------

  /** One changed instance, `None` when its XDR does not decode. */
  datatype InstanceChange = InstanceChange(contract: Contract, entry: Option<Entry>)

  /** A program uploaded in this ledger; its hash may not be 32 hex bytes. */
  datatype NewProgram = NewProgram(hash: Option<Hash>, code: string, functions: set<string>)

  function OwnHash(e: Entry): Option<Hash>
  {
    if e.InstanceEntry? && e.executable.Wasm? then Some(e.executable.hash) else None
  }

  /** Only an instance with a Wasm program of its own has a hash. */
  lemma OwnHashes(h: Hash, text: string)
    ensures OwnHash(InstanceEntry(Wasm(h), text)) == Some(h)
    ensures OwnHash(InstanceEntry(StellarAsset, text)) == OwnHash(InstanceEntry(ExternalRef, text)) == None
    ensures OwnHash(CodeEntry(h, text)) == OwnHash(OtherEntry(text)) == None
  {
  }

  /** The contract's last decodable instance. */
  function LastEntry(changes: seq<InstanceChange>, c: Contract): Option<Entry>
  {
    if changes == [] then None
    else
      var last := changes[|changes| - 1];
      if last.contract == c && last.entry.Some? then last.entry else LastEntry(changes[..|changes| - 1], c)
  }

  /** The hash of the contract's last decodable instance that runs a program of its own. */
  function LastHash(changes: seq<InstanceChange>, c: Contract): Option<Hash>
  {
    if changes == [] then None
    else
      var last := changes[|changes| - 1];
      if last.contract == c && last.entry.Some? && OwnHash(last.entry.value).Some? then OwnHash(last.entry.value)
      else LastHash(changes[..|changes| - 1], c)
  }

  /** What a program declares, among the functions read: this ledger's upload first, then the store. */
  function Declared(programs: seq<NewProgram>, db: Database, h: Hash): Option<set<string>>
  {
    if programs == [] then if h in db.interfaces then Some(db.interfaces[h]) else None
    else
      var last := programs[|programs| - 1];
      if last.hash == Some(h) then Some(set f | f in last.functions && f in FUNCTIONS)
      else Declared(programs[..|programs| - 1], db, h)
  }

  /** This ledger's instances, the last decodable one of each contract, then its programs. */
  function LedgerEntries(changes: seq<InstanceChange>, programs: seq<NewProgram>): Entries
  {
    if programs != [] then
      var p := programs[|programs| - 1];
      var before := LedgerEntries(changes, programs[..|programs| - 1]);
      if p.hash == None then before else before[Code(p.hash.value) := MakeCodeEntry(p.hash.value, p.code)]
    else if changes != [] then
      var change := changes[|changes| - 1];
      var before := LedgerEntries(changes[..|changes| - 1], []);
      if change.entry == None then before else before[Instance(change.contract, Persistent) := change.entry]
    else map[]
  }

  /** The last upload of a program. */
  function LastUpload(programs: seq<NewProgram>, h: Hash): Option<string>
  {
    if programs == [] then None
    else
      var last := programs[|programs| - 1];
      if last.hash == Some(h) then Some(last.code) else LastUpload(programs[..|programs| - 1], h)
  }

  /** The entry this ledger leaves under a key, where it leaves one. */
  function LeftUnder(changes: seq<InstanceChange>, programs: seq<NewProgram>, k: Key): Option<Option<Entry>>
  {
    match k
    case Code(h) => (match LastUpload(programs, h) case Some(code) => Some(MakeCodeEntry(h, code)) case None => None)
    case Instance(c, Persistent) => (match LastEntry(changes, c) case Some(e) => Some(Some(e)) case None => None)
    case _ => None
  }

  /** What this ledger's entries hold: each contract's last decodable instance, each program's last upload, nothing else. */
  lemma {:induction false} LedgerEntriesAre(changes: seq<InstanceChange>, programs: seq<NewProgram>, k: Key)
    ensures LeftUnder(changes, programs, k)
         == if k in LedgerEntries(changes, programs) then Some(LedgerEntries(changes, programs)[k]) else None
    decreases |changes| + |programs|
  {
    if programs != [] {
      LedgerEntriesAre(changes, programs[..|programs| - 1], k);
    } else if changes != [] {
      LedgerEntriesAre(changes[..|changes| - 1], [], k);
    }
  }

  lemma {:induction false} LastHashIff(changes: seq<InstanceChange>, c: Contract)
    requires LastHash(changes, c).Some?
    ensures LastEntry(changes, c).Some?
    ensures LastHash(changes, c) == OwnHash(LastEntry(changes, c).value) <==> OwnHash(LastEntry(changes, c).value).Some?
    decreases |changes|
  {
    var last := changes[|changes| - 1];
    if !(last.contract == c && last.entry.Some?) {
      LastHashIff(changes[..|changes| - 1], c);
    }
  }

  /** The host runs the instance the contract ends the ledger with. The functions tried are those of the last program of
      its own the contract had in the ledger: the program the host runs, exactly when the last instance has one of its own. */
  lemma FunctionsTriedAreThoseRunIff(changes: seq<InstanceChange>, programs: seq<NewProgram>, db: Database, c: Contract)
    requires LastHash(changes, c).Some?
    ensures LastEntry(changes, c).Some?
    ensures Overlay(LedgerEntries(changes, programs), db)(Instance(c, Persistent)) == LastEntry(changes, c)
    ensures LastHash(changes, c) == OwnHash(LastEntry(changes, c).value) <==> OwnHash(LastEntry(changes, c).value).Some?
  {
    LastHashIff(changes, c);
    LedgerEntriesAre(changes, programs, Instance(c, Persistent));
  }

  /** A contract moved from its own program to an external reference: the reference is run, with the old program's
      list of functions. */
  lemma MoveToReferenceExample(c: Contract, h: Hash, db: Database)
    ensures var changes := [InstanceChange(c, Some(InstanceEntry(Wasm(h), ""))), InstanceChange(c, Some(InstanceEntry(ExternalRef, "")))];
            && LastHash(changes, c) == Some(h)
            && Overlay(LedgerEntries(changes, []), db)(Instance(c, Persistent)) == Some(InstanceEntry(ExternalRef, ""))
  {
    var first := InstanceChange(c, Some(InstanceEntry(Wasm(h), "")));
    var changes := [first, InstanceChange(c, Some(InstanceEntry(ExternalRef, "")))];
    assert changes[..1] == [first];
    assert LastHash([first], c) == Some(h);
    FunctionsTriedAreThoseRunIff(changes, [], db, c);
  }

  predicate HasMetadata(declares: set<string>)
  {
    "decimals" in declares || ("name" in declares && "symbol" in declares)
  }

  method BuildOverlay(changes: seq<InstanceChange>, programs: seq<NewProgram>)
    returns (entries: Entries, changed: map<Contract, Hash>, declares: map<Hash, set<string>>)
    ensures entries == LedgerEntries(changes, programs)
    ensures forall c :: (c in changed <==> LastHash(changes, c).Some?)
                     && (c in changed ==> Some(changed[c]) == LastHash(changes, c))
    ensures forall h, db: Database ::
              Declared(programs, db, h) == if h in declares then Some(declares[h])
                                           else if h in db.interfaces then Some(db.interfaces[h]) else None
  {
    entries, changed, declares := map[], map[], map[];
    for i := 0 to |changes|
      invariant entries == LedgerEntries(changes[..i], [])
      invariant forall c :: (c in changed <==> LastHash(changes[..i], c).Some?)
                         && (c in changed ==> Some(changed[c]) == LastHash(changes[..i], c))
    {
      var change := changes[i];
      assert changes[..i + 1][..i] == changes[..i] && changes[..i + 1][i] == change;
      if change.entry == None { continue; }
      var hash := OwnHash(change.entry.value);
      if hash.Some? { changed := changed[change.contract := hash.value]; }
      entries := entries[Instance(change.contract, Persistent) := change.entry];
    }
    assert changes[..|changes|] == changes;
    for i := 0 to |programs|
      invariant entries == LedgerEntries(changes, programs[..i])
      invariant forall h, db: Database ::
                  Declared(programs[..i], db, h) == if h in declares then Some(declares[h])
                                                    else if h in db.interfaces then Some(db.interfaces[h]) else None
    {
      var p := programs[i];
      assert programs[..i + 1][..i] == programs[..i] && programs[..i + 1][i] == p;
      if p.hash == None { continue; }
      declares := declares[p.hash.value := set f | f in p.functions && f in FUNCTIONS];
      entries := entries[Code(p.hash.value) := MakeCodeEntry(p.hash.value, p.code)];
    }
    assert programs[..|programs|] == programs;
  }

  /** One contract's functions under the host. */
  function ViewsOf(host: (Contract, string) -> View, c: Contract): string -> View
  {
    (f: string) => host(c, f)
  }

  /** A contract this ledger gives metadata, and what its functions say over the whole store. */
  ghost predicate Writes(host: (Contract, string) -> View, changes: seq<InstanceChange>, programs: seq<NewProgram>,
                         db: Database, ledger: Entries, c: Contract, m: TokenMetadata)
  {
    && LastHash(changes, c).Some?
    && var declared := Declared(programs, db, LastHash(changes, c).value);
       && declared.Some? && ("decimals" in declared.value || ("name" in declared.value && "symbol" in declared.value))
       && FieldsRead(host(c, "decimals"), host(c, "name"), host(c, "symbol"), declared.value, Overlay(ledger, db), m)
  }

  /** The contract has metadata, and the rounds cannot run out on it. */
  ghost predicate Due(host: (Contract, string) -> View, changes: seq<InstanceChange>, programs: seq<NewProgram>,
                      db: Database, ledger: Entries, c: Contract)
  {
    && (exists m :: Writes(host, changes, programs, db, ledger, c, m))
    && forall f :: f in Declared(programs, db, LastHash(changes, c).value).value ==> WithinReach(host(c, f), ledger, Overlay(ledger, db))
  }

  method WriteOf(db: Database, host: (Contract, string) -> View, changes: seq<InstanceChange>, programs: seq<NewProgram>,
                 c: Contract, declared: Option<set<string>>, entries: Entries, ghost ledger: Entries)
    returns (m: Option<TokenMetadata>, entries': Entries)
    requires Sound(entries, ledger, db) && forall f :: ReadsPersistentInstances(host(c, f))
    requires LastHash(changes, c).Some? && declared == Declared(programs, db, LastHash(changes, c).value)
    ensures Sound(entries', ledger, db)
    ensures m.Some? ==> Writes(host, changes, programs, db, ledger, c, m.value)
    ensures Due(host, changes, programs, db, ledger, c) ==> m.Some?
  {
    if declared == None || !HasMetadata(declared.value) { return None, entries; }
    var views := ViewsOf(host, c);
    ghost var store := Overlay(ledger, db);
    if AllWithinReach(views, declared.value, ledger, store) {
      forall f | f in declared.value ensures WithinReach(views(f), entries, store) { ReachKept(views(f), ledger, entries, store); }
    }
    var answer;
    answer, entries' := ReadMetadata(db, views, declared.value, entries, ledger);
    m := if answer.Metadata? then Some(answer.metadata) else None;
  }

  /** Every write is sound, and every contract due one gets it. */
  method LedgerMetadataWrites(db: Database, host: (Contract, string) -> View, changes: seq<InstanceChange>, programs: seq<NewProgram>)
    returns (writes: map<Contract, TokenMetadata>)
    requires forall c, f :: ReadsPersistentInstances(host(c, f))
    ensures forall c :: c in writes ==> Writes(host, changes, programs, db, LedgerEntries(changes, programs), c, writes[c])
    ensures forall c :: Due(host, changes, programs, db, LedgerEntries(changes, programs), c) ==> c in writes
  {
    hide Sound, LastEntry, HasMetadata, LedgerEntries;
    var entries, changed, declares := BuildOverlay(changes, programs);
    ghost var ledger := entries;
    writes := map[];
    var todo := changed.Keys;
    assert Sound(entries, ledger, db) by { AlwaysSound(ledger, db); }
    while todo != {}
      invariant todo <= changed.Keys && Sound(entries, ledger, db)
      invariant forall c :: c in writes ==> Writes(host, changes, programs, db, ledger, c, writes[c])
      invariant forall c :: c in changed && c !in todo && Due(host, changes, programs, db, ledger, c) ==> c in writes
      decreases |todo|
    {
      hide Writes, Due, Declared;
      var c :| c in todo;
      todo := todo - {c};
      var h := changed[c];
      var declared := if h in declares then Some(declares[h]) else if h in db.interfaces then Some(db.interfaces[h]) else None;
      var m;
      m, entries := WriteOf(db, host, changes, programs, c, declared, entries, ledger);
      if m.Some? { writes := writes[c := m.value]; }
    }
  }

  lemma AlwaysSound(ledger: Entries, db: Database)
    ensures Sound(ledger, ledger, db)
  {
  }
}
