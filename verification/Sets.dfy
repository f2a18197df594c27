/** Sizes of finite sets. */
module Sets {
  lemma {:induction false} SubsetSize<T>(A: set<T>, B: set<T>)
    requires A <= B
    ensures |A| <= |B|
    decreases |A|
  {
    if A != {} {
      var x :| x in A;
      SubsetSize(A - {x}, B - {x});
    }
  }

  lemma Pick<T>(S: set<T>) returns (x: T)
    requires |S| > 0
    ensures x in S
  {
    x :| x in S;
  }
}
