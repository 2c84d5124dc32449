/** Facts about finite sets that the proofs lean on. */
module Sets {

  lemma NoElements<T>(s: set<T>)
    requires forall y :: y !in s
    ensures s == {}
  {
  }

  /** A nonempty set has an element. */
  lemma Pick<T>(s: set<T>) returns (y: T)
    requires s != {}
    ensures y in s
  {
    if forall y :: y !in s {
      NoElements(s);
      assert false;
    }
    y :| y in s;
  }

  lemma {:induction false} SubsetSize<T>(a: set<T>, b: set<T>)
    requires a <= b
    ensures |a| <= |b|
    decreases |a|
  {
    if a != {} {
      var x := Pick(a);
      SubsetSize(a - {x}, b - {x});
    }
  }
}
