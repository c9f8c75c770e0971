/** Walking keyed collections and counting what was kept. */
module Collections {

  predicate NoDup<T(==)>(s: seq<T>) {
    forall i, j :: 0 <= i < j < |s| ==> s[i] != s[j]
  }

  lemma {:induction false} DistinctCount<T>(s: seq<T>, elements: set<T>)
    requires NoDup(s) && forall x :: x in s <==> x in elements
    ensures |s| == |elements|
  {
    if s == [] {
      assert elements == {};
    } else {
      var front := s[..|s| - 1];
      var last := s[|s| - 1];
      assert s == front + [last];
      forall x ensures x in front <==> x in elements - {last} {
        assert x in s <==> x in front || x == last;
      }
      DistinctCount(front, elements - {last});
    }
  }

  /** Walk a collection, keeping the keys that satisfy `keep`. */
  method Select<K>(keys: set<K>, keep: K -> bool) returns (chosen: seq<K>)
    ensures forall k :: k in chosen <==> k in keys && keep(k)
    ensures NoDup(chosen)
  {
    chosen := [];
    var todo := keys;
    while todo != {}
      invariant todo <= keys
      invariant forall k :: k in chosen <==> k in keys && k !in todo && keep(k)
      invariant NoDup(chosen)
    {
      var key :| key in todo;
      if keep(key) { chosen := chosen + [key]; }
      todo := todo - {key};
    }
  }

  lemma SubsetCount<T>(a: set<T>, b: set<T>)
    requires a <= b
    ensures |b - a| == |b| - |a|
  {
    assert b == a + (b - a);
  }
}
