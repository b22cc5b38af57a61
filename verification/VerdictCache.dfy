/** The per-process memo of contract verdicts (crates/domain/src/classification_cache.rs) and its client
    (crates/db-clickhouse/src/persist.rs). */
module VerdictCache {
  import opened ContractTypes
  import opened Options

  type Verdicts = map<string, ContractType>

  /** What `soroban_contracts` answers: the decisive verdicts only. */
  function Definitive(store: Verdicts): Verdicts
  {
    map id | id in store && IsDefinitive(store[id]) :: store[id]
  }

  function Among(m: Verdicts, ids: set<string>): Verdicts
  {
    map id | id in m && id in ids :: m[id]
  }

  predicate SubMap(a: Verdicts, b: Verdicts)
  {
    forall id :: id in a ==> id in b && a[id] == b[id]
  }

  function Elems(s: seq<string>): set<string>
  {
    set x | x in s
  }

  // ---------- The cache ----------

  /** The map after the entries are inserted in order, `Other` skipped. */
  function Extended(m: Verdicts, entries: seq<(string, ContractType)>): Verdicts
  {
    if entries == [] then m
    else
      var last := entries[|entries| - 1];
      var before := Extended(m, entries[..|entries| - 1]);
      if IsDefinitive(last.1) then before[last.0 := last.1] else before
  }

  function Unseen(m: Verdicts, ids: seq<string>): seq<string>
  {
    if ids == [] then []
    else Unseen(m, ids[..|ids| - 1]) + (if ids[|ids| - 1] in m then [] else [ids[|ids| - 1]])
  }

  lemma {:induction false} UnseenAre(m: Verdicts, ids: seq<string>)
    ensures Elems(Unseen(m, ids)) == Elems(ids) - m.Keys
  {
    if ids != [] {
      UnseenAre(m, ids[..|ids| - 1]);
      var front, last := ids[..|ids| - 1], ids[|ids| - 1];
      assert ids == front + [last];
      assert forall x :: x in Unseen(m, front) <==> x in Elems(Unseen(m, front));
      assert forall x :: x in front <==> x in Elems(front);
    }
  }

  class ClassificationCache {
    var inner: Verdicts

    constructor ()
      ensures inner == map[]
    {
      inner := map[];
    }

    method Get(id: string) returns (v: Option<ContractType>)
      ensures v == if id in inner then Some(inner[id]) else None
    {
      if id in inner { v := Some(inner[id]); } else { v := None; }
    }

    method ExtendDefinitive(entries: seq<(string, ContractType)>)
      modifies this
      ensures inner == Extended(old(inner), entries)
    {
      for k := 0 to |entries|
        invariant inner == Extended(old(inner), entries[..k])
      {
        assert entries[..k + 1][..k] == entries[..k];
        var (id, ty) := entries[k];
        if IsDefinitive(ty) {
          inner := inner[id := ty];
        }
      }
      assert entries[..|entries|] == entries;
    }

    method Missing(ids: seq<string>) returns (unseen: seq<string>)
      ensures unseen == Unseen(inner, ids)
    {
      unseen := [];
      for k := 0 to |ids|
        invariant unseen == Unseen(inner, ids[..k])
      {
        assert ids[..k + 1][..k] == ids[..k];
        if ids[k] !in inner {
          unseen := unseen + [ids[k]];
        }
      }
      assert ids[..|ids|] == ids;
    }

    method SnapshotFor(ids: seq<string>) returns (known: Verdicts)
      ensures known == Among(inner, Elems(ids))
    {
      known := map[];
      for k := 0 to |ids|
        invariant known == Among(inner, Elems(ids[..k]))
      {
        assert ids[..k + 1] == ids[..k] + [ids[k]];
        if ids[k] in inner {
          known := known[ids[k] := inner[ids[k]]];
        }
      }
      assert ids[..|ids|] == ids;
    }
  }

  // ---------- Filling it from the store ----------

  /** The sequence lists the map, each key once. */
  ghost predicate Lists(entries: seq<(string, ContractType)>, m: Verdicts)
  {
    && (forall k :: 0 <= k < |entries| ==> entries[k].0 in m && m[entries[k].0] == entries[k].1)
    && (forall id :: id in m ==> (id, m[id]) in entries)
  }

  function Ids(entries: seq<(string, ContractType)>): set<string>
  {
    set e | e in entries :: e.0
  }

  /** Whatever order a fetched map is walked in, the cache becomes the union. */
  lemma ExtendedByMap(c: Verdicts, entries: seq<(string, ContractType)>, m: Verdicts)
    requires Lists(entries, m) && forall id :: id in m ==> IsDefinitive(m[id])
    ensures Extended(c, entries) == c + m
  {
    ExtendedByEntries(c, entries, m);
    hide Extended, IsDefinitive;
    assert Ids(entries) == m.Keys by {
      forall id | id in m ensures id in Ids(entries) { assert (id, m[id]).0 in Ids(entries); }
    }
    assert Among(m, m.Keys) == m;
  }

  lemma {:induction false} ExtendedByEntries(c: Verdicts, entries: seq<(string, ContractType)>, m: Verdicts)
    requires forall k :: 0 <= k < |entries| ==> entries[k].0 in m && m[entries[k].0] == entries[k].1
    requires forall id :: id in m ==> IsDefinitive(m[id])
    ensures Extended(c, entries) == c + Among(m, Ids(entries))
    decreases |entries|
  {
    if entries != [] {
      var init, last := entries[..|entries| - 1], entries[|entries| - 1];
      ExtendedByEntries(c, init, m);
      hide Ids, Among;
      IdsSnoc(init, last);
      assert entries == init + [last];
      AmongOneMore(c, m, Ids(init), last.0);
    } else {
      assert Among(m, Ids(entries)) == map[];
    }
  }

  lemma AmongOneMore(c: Verdicts, m: Verdicts, ids: set<string>, id: string)
    requires id in m
    ensures c + Among(m, ids + {id}) == (c + Among(m, ids))[id := m[id]]
  {
    assert Among(m, ids + {id}) == Among(m, ids)[id := m[id]];
  }

  lemma IdsSnoc(init: seq<(string, ContractType)>, last: (string, ContractType))
    ensures Ids(init + [last]) == Ids(init) + {last.0}
  {
    assert forall e :: e in init + [last] <==> e in init || e == last;
  }

  lemma NothingListed()
    ensures Lists([], map[])
  {
  }

  lemma ListsMore(entries: seq<(string, ContractType)>, m: Verdicts, rest: Verdicts, id: string)
    requires SubMap(rest, m) && Lists(entries, m - rest.Keys) && id in rest
    ensures Lists(entries + [(id, rest[id])], m - (rest - {id}).Keys)
  {
    assert (rest - {id}).Keys == rest.Keys - {id};
    var more := entries + [(id, rest[id])];
    forall x | x in m - (rest - {id}).Keys ensures (x, m[x]) in more {
      if x == id {
        assert more[|entries|] == (x, m[x]);
      } else {
        assert x in m - rest.Keys && (x, (m - rest.Keys)[x]) in entries;
      }
    }
  }

  /** A fetched map walked in some order. */
  method Entries(m: Verdicts) returns (entries: seq<(string, ContractType)>)
    ensures Lists(entries, m)
  {
    hide Lists;
    entries := [];
    var rest := m;
    assert Lists([], map[]) by { NothingListed(); }
    assert m - rest.Keys == map[];
    while rest != map[]
      invariant SubMap(rest, m) && Lists(entries, m - rest.Keys)
      decreases |rest|
    {
      var id :| id in rest;
      ListsMore(entries, m, rest, id);
      entries := entries + [(id, rest[id])];
      rest := rest - {id};
    }
    assert m - {} == m;
  }

  /** The contracts asked about: those of the ledger's NFT rows and events that were not deployed in it. */
  function Wanted(nfts: seq<string>, events: seq<string>, deployments: seq<string>): set<string>
  {
    (Elems(nfts) + Elems(events)) - Elems(deployments)
  }

  method WantedIds(nfts: seq<string>, events: seq<string>, deployments: seq<string>) returns (want: seq<string>)
    ensures Elems(want) == Wanted(nfts, events, deployments)
    ensures forall i, j :: 0 <= i < j < |want| ==> want[i] != want[j]
  {
    want := [];
    var all := nfts + events;
    for k := 0 to |all|
      invariant Elems(want) == Elems(all[..k]) - Elems(deployments)
      invariant forall i, j :: 0 <= i < j < |want| ==> want[i] != want[j]
    {
      assert all[..k + 1] == all[..k] + [all[k]];
      ghost var before := want;
      if all[k] !in deployments && all[k] !in want {
        want := want + [all[k]];
      }
      assert Elems(want) == Elems(before) + (if all[k] in deployments then {} else {all[k]});
    }
    assert all[..|all|] == all;
    assert Elems(all) == Elems(nfts) + Elems(events);
  }

  /** The batched query: the store's decisive verdicts for the ids, or a failure. */
  function QueryContractVerdicts(store: Verdicts, ids: seq<string>, reachable: bool): Option<Verdicts>
  {
    if reachable then Some(Among(Definitive(store), Elems(ids))) else None
  }

  method FetchPriorContractVerdicts(cache: ClassificationCache, store: Verdicts, reachable: bool,
                                    nfts: seq<string>, events: seq<string>, deployments: seq<string>)
    returns (verdicts: Verdicts)
    modifies cache
    ensures var want := Wanted(nfts, events, deployments);
            && cache.inner == AfterLookup(old(cache.inner), store, want, reachable)
            && verdicts == Among(cache.inner, want)
  {
    var want := WantedIds(nfts, events, deployments);
    if want == [] {
      assert Elems(want) == {};
      NothingWanted(cache.inner, store, Elems(want), reachable);
      return map[];
    }
    var missing := cache.Missing(want);
    UnseenAre(cache.inner, want);
    ghost var was := cache.inner;
    if missing != [] {
      var fetched := QueryContractVerdicts(store, missing, reachable);
      match fetched
      case Some(m) =>
        var entries := Entries(m);
        ExtendedByMap(cache.inner, entries, m);
        cache.ExtendDefinitive(entries);
      case None =>
    } else {
      assert Elems(missing) == {};
    }
    LookupIsUnion(was, store, Elems(want), Elems(missing), reachable);
    verdicts := cache.SnapshotFor(want);
  }

  // ---------- What a lookup does to the cache ----------

  /** The cache keeps what it has and learns the store's decisive verdicts for the other wanted ids. */
  function AfterLookup(cache: Verdicts, store: Verdicts, want: set<string>, reachable: bool): Verdicts
  {
    if reachable then cache + Among(Definitive(store), want - cache.Keys) else cache
  }

  lemma LookupIsUnion(cache: Verdicts, store: Verdicts, want: set<string>, missing: set<string>, reachable: bool)
    requires missing == want - cache.Keys
    ensures AfterLookup(cache, store, want, reachable)
            == if missing != {} && reachable then cache + Among(Definitive(store), missing) else cache
  {
    assert missing == {} ==> cache + Among(Definitive(store), missing) == cache;
  }

  lemma NothingWanted(cache: Verdicts, store: Verdicts, want: set<string>, reachable: bool)
    requires want == {}
    ensures AfterLookup(cache, store, want, reachable) == cache && Among(cache, want) == map[]
  {
    LookupIsUnion(cache, store, want, {}, reachable);
  }

  /** A lookup that reaches the store answers for it exactly when no wanted id is held with another verdict. */
  lemma AnswerIsStoreIff(cache: Verdicts, store: Verdicts, want: set<string>)
    ensures Among(AfterLookup(cache, store, want, true), want) == Among(Definitive(store), want)
       <==> SubMap(Among(cache, want), Definitive(store))
  {
    var after := AfterLookup(cache, store, want, true);
    var answer, truth := Among(after, want), Among(Definitive(store), want);
    if SubMap(Among(cache, want), Definitive(store)) {
      assert forall id :: id in want && id in cache ==> id in Among(cache, want);
      assert answer.Keys == truth.Keys;
      assert answer == truth;
    } else {
      var id :| id in Among(cache, want) && !(id in Definitive(store) && Definitive(store)[id] == cache[id]);
      assert id in answer && answer[id] == cache[id];
    }
  }

  // ---------- Histories ----------

  datatype State = State(store: Verdicts, cache: Verdicts)

  datatype Event =
    | Classify(id: string, ty: ContractType)              // another writer records a verdict
    | Lookup(want: set<string>, reachable: bool)          // one ledger's prefetch
    | Recycle                                             // the process restarts with an empty cache

  function Apply(s: State, e: Event): State
  {
    match e
    case Classify(id, ty) => s.(store := s.store[id := ty])
    case Lookup(want, reachable) => s.(cache := AfterLookup(s.cache, s.store, want, reachable))
    case Recycle => s.(cache := map[])
  }

  /** A verdict is only recorded where there is none yet, or `Other`. */
  predicate Promotes(s: State, e: Event)
  {
    e.Classify? && e.id in s.store ==> s.store[e.id] == Other || s.store[e.id] == e.ty
  }

  ghost predicate History(trace: seq<State>, events: seq<Event>)
  {
    && |trace| == |events| + 1 && trace[0].cache == map[]
    && forall k :: 0 <= k < |events| ==> Apply(trace[k], events[k]) == trace[k + 1]
  }

  ghost predicate OnlyPromotes(trace: seq<State>, events: seq<Event>)
    requires |trace| == |events| + 1
  {
    forall k :: 0 <= k < |events| ==> Promotes(trace[k], events[k])
  }

  /** While verdicts are only ever promoted, the cache holds nothing the store does not. */
  lemma {:induction false} CacheAgrees(trace: seq<State>, events: seq<Event>, k: nat)
    requires History(trace, events) && OnlyPromotes(trace, events) && k < |trace|
    ensures SubMap(trace[k].cache, Definitive(trace[k].store))
    decreases k
  {
    if k > 0 {
      CacheAgrees(trace, events, k - 1);
      assert Apply(trace[k - 1], events[k - 1]) == trace[k] && Promotes(trace[k - 1], events[k - 1]);
    }
  }

  /** Hence every prefetch of such a history answers for the store when it reaches it, and never against it. */
  lemma LookupsAgree(trace: seq<State>, events: seq<Event>, k: nat)
    requires History(trace, events) && OnlyPromotes(trace, events) && k < |events| && events[k].Lookup?
    ensures var answer := Among(trace[k + 1].cache, events[k].want);
            var truth := Among(Definitive(trace[k].store), events[k].want);
            if events[k].reachable then answer == truth else SubMap(answer, truth)
  {
    CacheAgrees(trace, events, k);
    assert Apply(trace[k], events[k]) == trace[k + 1];
    AnswerIsStoreIff(trace[k].cache, trace[k].store, events[k].want);
  }

  /** On any history, promotions or not, a cached verdict is what the store said at one lookup, and it has been held
      ever since: no restart came between, and every state from there on shows it. */
  lemma {:induction false} FirstVerdictHeld(trace: seq<State>, events: seq<Event>, k: nat, id: string) returns (j: nat)
    requires History(trace, events) && k < |trace| && id in trace[k].cache
    ensures j < k && events[j].Lookup? && events[j].reachable && id in events[j].want && id !in trace[j].cache
    ensures id in Definitive(trace[j].store) && Definitive(trace[j].store)[id] == trace[k].cache[id]
    ensures forall i :: j < i <= k ==> id in trace[i].cache && trace[i].cache[id] == trace[k].cache[id]
    decreases k
  {
    assert k > 0;
    assert Apply(trace[k - 1], events[k - 1]) == trace[k];
    if id in trace[k - 1].cache {
      j := FirstVerdictHeld(trace, events, k - 1, id);
    } else {
      j := k - 1;
    }
  }

  /** A restart forgets: the next lookup that reaches the store answers for it, upgrades included. */
  lemma RestartSeesStore(s: State, want: set<string>)
    ensures Among(Apply(Apply(s, Recycle), Lookup(want, true)).cache, want) == Among(Definitive(s.store), want)
  {
    AnswerIsStoreIff(map[], s.store, want);
  }

  /** An upgrade from one decisive interface to another is not seen: the lookup still answers with the first. */
  lemma UpgradeNotSeen(id: string)
    ensures var start := State(map[id := Fungible], map[]);
            var seen := Apply(start, Lookup({id}, true));
            var upgraded := Apply(seen, Classify(id, Nft));
            Among(Apply(upgraded, Lookup({id}, true)).cache, {id}) == map[id := Fungible]
            && Definitive(upgraded.store) == map[id := Nft]
  {
    var start := State(map[id := Fungible], map[]);
    assert Definitive(start.store) == map[id := Fungible];
    assert Among(Definitive(start.store), {id}) == map[id := Fungible];
    var seen := Apply(start, Lookup({id}, true));
    assert {id} - start.cache.Keys == {id};
    assert seen.cache == map[id := Fungible];
  }
}
