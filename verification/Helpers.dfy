/** What several models share. */
module Helpers {
  datatype Option<+T> = None | Some(value: T)

  predicate Distinct<T(==)>(s: seq<T>) {
    forall i, j :: 0 <= i < j < |s| ==> s[i] != s[j]
  }

  lemma {:induction false} SetOfDistinct<T>(s: seq<T>)
    requires Distinct(s)
    ensures |set x | x in s| == |s|
  {
    if s != [] {
      var init, last := s[..|s| - 1], s[|s| - 1];
      SetOfDistinct(init);
      assert s == init + [last];
      assert last !in init by {
        assert forall i :: 0 <= i < |init| ==> init[i] == s[i];
      }
      assert (set x | x in s) == (set x | x in init) + {last};
    }
  }
}
