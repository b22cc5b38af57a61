/** Finite sets. */
module Sets {
  lemma SubsetSize<T>(a: set<T>, b: set<T>)
    requires a <= b
    ensures |a| <= |b| && (|a| == |b| <==> a == b)
  {
    assert b == a + (b - a);
    assert |b| == |a| + |b - a|;
  }

  lemma OneMore<T>(a: set<T>, b: set<T>, c: set<T>, k: T)
    requires a <= b <= c && k in c && k !in b
    ensures |c - a| >= |b - a| + 1
  {
    var more := (b - a) + {k};
    assert |more| == |b - a| + 1;
    SubsetSize(more, c - a);
  }

  lemma OneLess<T>(s: set<T>, b: set<T>, c: set<T>, k: T)
    requires b <= c && k in s && k in c && k !in b
    ensures |s - c| + 1 <= |s - b|
  {
    var more := (s - c) + {k};
    assert |more| == |s - c| + 1;
    SubsetSize(more, s - b);
  }
}
