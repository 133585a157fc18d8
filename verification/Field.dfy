// A field of characteristic two, given by its operations.
module Fields {
  datatype Field<!E(!new)> = Field(zero: E, one: E, add: (E, E) -> E, mul: (E, E) -> E, inv: E -> E)
  {
    ghost predicate AddCommutes(a: E, b: E) { add(a, b) == add(b, a) }

    ghost predicate AddAssociates(a: E, b: E, c: E) { add(add(a, b), c) == add(a, add(b, c)) }

    ghost predicate AddNeutral(a: E) { add(a, zero) == a && add(a, a) == zero }

    ghost predicate MulCommutes(a: E, b: E) { mul(a, b) == mul(b, a) }

    ghost predicate MulAssociates(a: E, b: E, c: E) { mul(mul(a, b), c) == mul(a, mul(b, c)) }

    ghost predicate MulNeutral(a: E) { mul(one, a) == a && (a != zero ==> mul(a, inv(a)) == one) }

    ghost predicate Distributes(a: E, b: E, c: E) { mul(a, add(b, c)) == add(mul(a, b), mul(a, c)) }

    ghost predicate Laws() {
      && one != zero
      && (forall a, b :: AddCommutes(a, b))
      && (forall a, b, c :: AddAssociates(a, b, c))
      && (forall a :: AddNeutral(a))
      && (forall a, b :: MulCommutes(a, b))
      && (forall a, b, c :: MulAssociates(a, b, c))
      && (forall a :: MulNeutral(a))
      && (forall a, b, c :: Distributes(a, b, c))
    }

    lemma AddShuffle(a: E, b: E, c: E, d: E)
      requires Laws()
      ensures add(add(a, b), add(c, d)) == add(add(a, c), add(b, d))
    {
      assert AddAssociates(a, b, add(c, d)) && AddAssociates(b, c, d) && AddCommutes(b, c);
      assert AddAssociates(c, b, d) && AddAssociates(a, c, add(b, d));
    }

    lemma AddZero(a: E)
      requires Laws()
      ensures add(zero, a) == a && add(a, zero) == a && add(a, a) == zero
    {
      assert AddCommutes(zero, a) && AddNeutral(a);
    }

    lemma AddCancels(a: E, b: E)
      requires Laws()
      ensures add(a, b) == zero <==> a == b
      ensures add(add(a, b), b) == a
    {
      assert AddAssociates(a, b, b) && AddNeutral(b) && AddNeutral(a) && AddCommutes(zero, b) && AddCommutes(a, b);
    }

    lemma MulZero(a: E)
      requires Laws()
      ensures mul(a, zero) == zero && mul(zero, a) == zero
    {
      assert AddNeutral(zero) && Distributes(a, zero, zero) && AddNeutral(mul(a, zero)) && MulCommutes(a, zero);
    }

    lemma MulOne(a: E)
      requires Laws()
      ensures mul(one, a) == a && mul(a, one) == a
    {
      assert MulNeutral(a) && MulCommutes(a, one);
    }

    lemma MulInverse(a: E)
      requires Laws() && a != zero
      ensures mul(a, inv(a)) == one && mul(inv(a), a) == one && inv(a) != zero
    {
      assert MulNeutral(a) && MulCommutes(a, inv(a));
      MulZero(a);
    }

    lemma NoZeroDivisors(a: E, b: E)
      requires Laws()
      ensures mul(a, b) == zero <==> a == zero || b == zero
    {
      MulZero(a);
      MulZero(b);
      if a != zero && mul(a, b) == zero {
        MulInverse(a);
        assert MulAssociates(inv(a), a, b) && MulNeutral(b);
        MulZero(inv(a));
      }
    }

    lemma MulAddRight(a: E, b: E, c: E)
      requires Laws()
      ensures mul(add(a, b), c) == add(mul(a, c), mul(b, c))
    {
      assert Distributes(c, a, b) && MulCommutes(c, add(a, b)) && MulCommutes(c, a) && MulCommutes(c, b);
    }
  }
}
