/** Facts about sets and sequences that several modules use. */
module Collections {

  lemma SubsetSize<T>(a: set<T>, b: set<T>)
    requires a <= b
    ensures |a| <= |b|
  {
    assert b == a + (b - a);
  }

  /** A sequence without repetitions is as long as the set of its elements. */
  lemma {:induction false} DistinctCount<T>(items: seq<T>, s: set<T>)
    requires forall i, j :: 0 <= i < j < |items| ==> items[i] != items[j]
    requires forall x :: x in s <==> x in items
    ensures |s| == |items|
  {
    if items == [] {
      assert s == {};
    } else {
      var last := items[|items| - 1];
      assert last in s;
      DistinctCount(items[..|items| - 1], s - {last});
    }
  }

  lemma ConcatAssoc<T>(a: seq<T>, b: seq<T>, c: seq<T>)
    ensures a + b + c == a + (b + c)
  {
  }
}
