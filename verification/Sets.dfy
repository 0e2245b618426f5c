/** Finite sets: taking an element, comparing sizes. */
module Sets {

  lemma Take<T>(ts: set<T>) returns (t: T)
    requires ts != {}
    ensures t in ts
  {
    t :| t in ts;
  }

  lemma SubsetSize<T>(a: set<T>, b: set<T>)
    requires a <= b
    ensures |a| <= |b|
  {
    assert b == a + (b - a);
  }

  /** A number above all of a finite set. */
  lemma {:induction false} Above(used: set<int>) returns (n: int)
    ensures forall m :: m in used ==> m < n
    decreases |used|
  {
    n := 0;
    if used != {} {
      var m := Take(used);
      var rest := Above(used - {m});
      n := if m < rest then rest else m + 1;
      assert used == (used - {m}) + {m};
    }
  }
}
