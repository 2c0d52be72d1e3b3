/** Sizes of finite sets. */
module Sets {
  lemma {:induction false} SubsetSize<T>(s: set<T>, t: set<T>)
    requires s <= t
    ensures |s| <= |t|
    ensures s == t <==> |s| == |t|
  {
    assert t == s + (t - s);
    assert |t| == |s| + |t - s|;
  }
}
