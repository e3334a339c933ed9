/** Iterating over a map or a set, in whatever order its container gives. */
module Sets {
  lemma Inhabited(s: set<int>)
    ensures s == {} || exists t :: t in s
  {
    if !exists t :: t in s {
      assert s == {};
    }
  }
}
