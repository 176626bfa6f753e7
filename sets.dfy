/** Two cardinality facts about finite sets, used by the resolver and the
    generator. */
module Sets {

  lemma {:induction false} UnionSize<T>(a: set<T>, b: set<T>)
    ensures |a + b| <= |a| + |b|
    decreases |a|
  {
    if a != {} {
      var x :| x in a;
      UnionSize(a - {x}, b);
      assert a + b == (a - {x} + b) + {x};
    }
  }

  lemma {:induction false} SubsetSize<T>(a: set<T>, b: set<T>)
    requires a <= b
    ensures |a| <= |b|
    decreases |b|
  {
    if a != {} {
      var x :| x in a;
      SubsetSize(a - {x}, b - {x});
    }
  }

}
