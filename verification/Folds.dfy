/** The last-wins fold shared by every per-ledger collapse (crates/xdr-parser/src/fold.rs). */
module Folds {
  import opened Options

  /** The last item under `k`. */
  function LastOf<T, K(==, !new)>(items: seq<T>, key: T -> K, k: K): (r: Option<T>)
    ensures r.Some? ==> key(r.value) == k && r.value in items
  {
    if items == [] then None
    else
      var last := items[|items| - 1];
      if key(last) == k then Some(last) else LastOf(items[..|items| - 1], key, k)
  }

  /** The keys in order of first appearance. */
  function FirstKeys<T, K(==, !new)>(items: seq<T>, key: T -> K): (ks: seq<K>)
    ensures forall k :: k in ks <==> LastOf(items, key, k).Some?
    ensures Distinct(ks)
  {
    if items == [] then []
    else
      var before, k := FirstKeys(items[..|items| - 1], key), key(items[|items| - 1]);
      if k in before then before else before + [k]
  }

  ghost predicate Distinct<K(!new)>(ks: seq<K>)
  {
    forall i, j :: 0 <= i < j < |ks| ==> ks[i] != ks[j]
  }

  /** One item per key: the last, at the position of the first. */
  function Keep<T, K(==, !new)>(items: seq<T>, key: T -> K): (kept: seq<T>)
    ensures |kept| == |FirstKeys(items, key)|
    ensures forall i :: 0 <= i < |kept| ==> Some(kept[i]) == LastOf(items, key, FirstKeys(items, key)[i])
  {
    var ks := FirstKeys(items, key);
    seq(|ks|, i requires 0 <= i < |ks| && ks[i] in ks => LastOf(items, key, ks[i]).value)
  }

  /** One more item: it takes its key's slot, or a new one at the end. */
  lemma KeepExtends<T, K(!new)>(init: seq<T>, item: T, key: T -> K, slot: nat)
    requires slot < |FirstKeys(init, key)| ==> FirstKeys(init, key)[slot] == key(item)
    requires slot >= |FirstKeys(init, key)| ==> key(item) !in FirstKeys(init, key)
    ensures slot < |FirstKeys(init, key)| ==>
              FirstKeys(init + [item], key) == FirstKeys(init, key) && Keep(init + [item], key) == Keep(init, key)[slot := item]
    ensures slot >= |FirstKeys(init, key)| ==>
              FirstKeys(init + [item], key) == FirstKeys(init, key) + [key(item)] && Keep(init + [item], key) == Keep(init, key) + [item]
  {
    FirstKeysSnoc(init, item, key);
    LastOfConcat(init, [item], key, key(item));
    forall k | k in FirstKeys(init, key) ensures LastOf(init + [item], key, k) == if k == key(item) then Some(item) else LastOf(init, key, k) {
      LastOfConcat(init, [item], key, k);
    }
    hide Keep, FirstKeys;
    var ks := FirstKeys(init, key);
    assert LastOf([item], key, key(item)) == Some(item);
    assert forall j :: 0 <= j < |ks| && j != slot ==> ks[j] != key(item);
  }

  method KeepLastByKey<T, K(==, !new)>(items: seq<T>, key: T -> K) returns (folded: seq<T>)
    ensures folded == Keep(items, key)
  {
    var position: map<K, nat> := map[];
    folded := [];
    for i := 0 to |items|
      invariant folded == Keep(items[..i], key)
      invariant forall k :: k in position <==> k in FirstKeys(items[..i], key)
      invariant forall k :: k in position ==> position[k] < |folded| && FirstKeys(items[..i], key)[position[k]] == k
    {
      hide Keep, FirstKeys, LastOf;
      var item := items[i];
      var k := key(item);
      assert items[..i + 1] == items[..i] + [item];
      if k in position {
        KeepExtends(items[..i], item, key, position[k]);
        folded := folded[position[k] := item];
      } else {
        KeepExtends(items[..i], item, key, |folded|);
        position := position[k := |folded|];
        folded := folded + [item];
      }
    }
    assert items[..|items|] == items;
  }

  /** Two lists with the same first keys and the same last items fold to the same list. */
  lemma KeepDetermined<T, K(!new)>(a: seq<T>, b: seq<T>, key: T -> K)
    requires FirstKeys(a, key) == FirstKeys(b, key)
    requires forall k :: k in FirstKeys(a, key) ==> LastOf(a, key, k) == LastOf(b, key, k)
    ensures Keep(a, key) == Keep(b, key)
  {
  }

  lemma {:induction false} LastOfConcat<T, K(!new)>(a: seq<T>, b: seq<T>, key: T -> K, k: K)
    ensures LastOf(a + b, key, k) == if LastOf(b, key, k).Some? then LastOf(b, key, k) else LastOf(a, key, k)
    decreases |b|
  {
    if b == [] {
      assert a + b == a;
    } else {
      assert (a + b)[..|a + b| - 1] == a + b[..|b| - 1];
      LastOfConcat(a, b[..|b| - 1], key, k);
    }
  }

  /** The keys of `ks` not among `seen`. */
  function Unseen<K(==, !new)>(ks: seq<K>, seen: seq<K>): seq<K>
  {
    if ks == [] then []
    else
      var k := ks[|ks| - 1];
      Unseen(ks[..|ks| - 1], seen) + (if k in seen then [] else [k])
  }

  lemma {:induction false} FirstKeysConcat<T, K(!new)>(a: seq<T>, b: seq<T>, key: T -> K)
    ensures FirstKeys(a + b, key) == FirstKeys(a, key) + Unseen(FirstKeys(b, key), FirstKeys(a, key))
    decreases |b|
  {
    hide FirstKeys, Unseen, LastOf;
    if b == [] {
      assert a + b == a && FirstKeys(b, key) == [] && Unseen(FirstKeys(b, key), FirstKeys(a, key)) == [] by { NoKeys(b, key, FirstKeys(a, key)); }
    } else {
      var init, last := b[..|b| - 1], b[|b| - 1];
      assert a + b == a + init + [last] && b == init + [last];
      FirstKeysConcat(a, init, key);
      FirstKeysSnoc(a + init, last, key);
      FirstKeysSnoc(init, last, key);
      UnseenExtends(FirstKeys(init, key), key(last), FirstKeys(a, key));
    }
  }

  lemma NoKeys<T, K(!new)>(b: seq<T>, key: T -> K, seen: seq<K>)
    requires b == []
    ensures FirstKeys(b, key) == [] && Unseen(FirstKeys(b, key), seen) == []
  {
  }

  /** A key appended to `kb` where it is new, and to `ka` with what `kb` adds where it is new there. */
  lemma UnseenExtends<K(!new)>(kb: seq<K>, k: K, ka: seq<K>)
    ensures var grown := if k in kb then kb else kb + [k];
            ka + Unseen(grown, ka) == ka + Unseen(kb, ka) + (if k in ka + Unseen(kb, ka) then [] else [k])
  {
    UnseenSnoc(kb, k, ka);
    UnseenMembers(kb, ka);
    hide Unseen;
    var u := Unseen(kb, ka);
    assert k in ka + u <==> k in ka || k in u;
    assert ka + (u + [k]) == ka + u + [k];
    assert ka + (u + []) == ka + u + [];
  }

  lemma FirstKeysSnoc<T, K(!new)>(init: seq<T>, item: T, key: T -> K)
    ensures FirstKeys(init + [item], key)
         == if key(item) in FirstKeys(init, key) then FirstKeys(init, key) else FirstKeys(init, key) + [key(item)]
  {
    assert (init + [item])[..|init|] == init;
  }

  lemma UnseenSnoc<K(!new)>(ks: seq<K>, k: K, seen: seq<K>)
    ensures Unseen(ks + [k], seen) == Unseen(ks, seen) + (if k in seen then [] else [k])
  {
    assert (ks + [k])[..|ks|] == ks;
  }

  lemma {:induction false} UnseenMembers<K(!new)>(ks: seq<K>, seen: seq<K>)
    ensures forall k :: k in Unseen(ks, seen) <==> k in ks && k !in seen
  {
    if ks != [] {
      UnseenMembers(ks[..|ks| - 1], seen);
    }
  }

  lemma {:induction false} KeysOfDistinct<T, K(!new)>(items: seq<T>, key: T -> K, ks: seq<K>)
    requires |items| == |ks| && Distinct(ks) && forall i :: 0 <= i < |items| ==> key(items[i]) == ks[i]
    ensures FirstKeys(items, key) == ks
    ensures forall i :: 0 <= i < |items| ==> LastOf(items, key, ks[i]) == Some(items[i])
    decreases |items|
  {
    if items != [] {
      var n := |items| - 1;
      KeysOfDistinct(items[..n], key, ks[..n]);
      assert items == items[..n] + [items[n]] && ks == ks[..n] + [ks[n]];
      FirstKeysSnoc(items[..n], items[n], key);
      hide FirstKeys;
      assert ks[n] !in ks[..n];
      forall i | 0 <= i < |items| ensures LastOf(items, key, ks[i]) == Some(items[i]) {
        LastOfConcat(items[..n], [items[n]], key, ks[i]);
        assert i < n ==> ks[..n][i] == ks[i] && items[..n][i] == items[i] && ks[i] != ks[n];
        assert LastOf([items[n]], key, ks[i]) == if ks[i] == ks[n] then Some(items[n]) else LastOf([], key, ks[i]);
      }
    }
  }

  /** Folding keeps the first keys and the last items. */
  lemma KeepKeeps<T, K(!new)>(items: seq<T>, key: T -> K)
    ensures FirstKeys(Keep(items, key), key) == FirstKeys(items, key)
    ensures forall k :: LastOf(Keep(items, key), key, k) == LastOf(items, key, k)
  {
    var kept, ks := Keep(items, key), FirstKeys(items, key);
    KeysOfDistinct(kept, key, ks);
    forall k ensures LastOf(kept, key, k) == LastOf(items, key, k) {
      if k in ks {
        var i :| 0 <= i < |ks| && ks[i] == k;
        assert LastOf(kept, key, ks[i]) == Some(kept[i]);
      } else {
        assert k !in FirstKeys(kept, key);
      }
    }
  }

  /** Folding twice is folding once. */
  lemma KeepIdempotent<T, K(!new)>(items: seq<T>, key: T -> K)
    ensures Keep(Keep(items, key), key) == Keep(items, key)
  {
    KeepKeeps(items, key);
    KeepDetermined(Keep(items, key), items, key);
  }

  /** Folding two parts and then their concatenation is one fold of the whole. */
  lemma KeepOfKeeps<T, K(!new)>(a: seq<T>, b: seq<T>, key: T -> K)
    ensures Keep(Keep(a, key) + Keep(b, key), key) == Keep(a + b, key)
  {
    var ka, kb := Keep(a, key), Keep(b, key);
    KeepKeeps(a, key);
    KeepKeeps(b, key);
    FirstKeysConcat(ka, kb, key);
    FirstKeysConcat(a, b, key);
    forall k | k in FirstKeys(ka + kb, key) ensures LastOf(ka + kb, key, k) == LastOf(a + b, key, k) {
      LastOfConcat(ka, kb, key, k);
      LastOfConcat(a, b, key, k);
    }
    KeepDetermined(ka + kb, a + b, key);
  }

  function Concat<T>(parts: seq<seq<T>>): seq<T>
  {
    if parts == [] then [] else Concat(parts[..|parts| - 1]) + parts[|parts| - 1]
  }

  function KeepEach<T, K(==, !new)>(parts: seq<seq<T>>, key: T -> K): (r: seq<seq<T>>)
    ensures |r| == |parts|
  {
    if parts == [] then [] else KeepEach(parts[..|parts| - 1], key) + [Keep(parts[|parts| - 1], key)]
  }

  /** Folding each transaction and then the ledger is one fold of the ledger. */
  lemma {:induction false} FoldPerPart<T, K(!new)>(parts: seq<seq<T>>, key: T -> K)
    ensures Keep(Concat(KeepEach(parts, key)), key) == Keep(Concat(parts), key)
    decreases |parts|
  {
    if parts != [] {
      var n := |parts| - 1;
      var each := KeepEach(parts, key);
      assert each[..n] == KeepEach(parts[..n], key) && each[n] == Keep(parts[n], key);
      var early, earlier := Concat(each[..n]), Concat(parts[..n]);
      FoldPerPart(parts[..n], key);
      KeepOfKeeps(early, each[n], key);
      KeepIdempotent(parts[n], key);
      KeepOfKeeps(earlier, parts[n], key);
    }
  }
}
