/** Repeated multiplication where nothing but associativity and units is known. */
module Monoids {

  ghost predicate Closed<T(!new)>(s: set<T>, mul: (T, T) -> T, a: T, b: T) {
    mul(a, b) in s
  }

  ghost predicate Associates<T(!new)>(mul: (T, T) -> T, a: T, b: T, c: T) {
    mul(mul(a, b), c) == mul(a, mul(b, c))
  }

  ghost predicate Units<T(!new)>(mul: (T, T) -> T, one: T, zero: T, a: T) {
    mul(a, one) == a && mul(zero, a) == zero
  }

  ghost predicate IsMonoid<T(!new)>(s: set<T>, mul: (T, T) -> T, one: T, zero: T) {
    && one in s && zero in s && one != zero
    && (forall a, b {:trigger Closed(s, mul, a, b)} :: a in s && b in s ==> Closed(s, mul, a, b))
    && (forall a, b, c {:trigger Associates(mul, a, b, c)} :: a in s && b in s && c in s ==> Associates(mul, a, b, c))
    && (forall a {:trigger Units(mul, one, zero, a)} :: a in s ==> Units(mul, one, zero, a))
  }

  ghost function Iterate<T(!new)>(s: set<T>, mul: (T, T) -> T, one: T, zero: T, g: T, k: nat): (r: T)
    requires IsMonoid(s, mul, one, zero) && g in s
    ensures r in s
  {
    if k == 0 then one else
      assert Closed(s, mul, Iterate(s, mul, one, zero, g, k - 1), g);
      mul(Iterate(s, mul, one, zero, g, k - 1), g)
  }

  lemma {:induction false} IterateAdd<T(!new)>(s: set<T>, mul: (T, T) -> T, one: T, zero: T, g: T, j: nat, k: nat)
    requires IsMonoid(s, mul, one, zero) && g in s
    ensures Iterate(s, mul, one, zero, g, j + k)
      == mul(Iterate(s, mul, one, zero, g, j), Iterate(s, mul, one, zero, g, k))
  {
    var a := Iterate(s, mul, one, zero, g, j);
    if k == 0 {
      assert Units(mul, one, zero, a);
    } else {
      IterateAdd(s, mul, one, zero, g, j, k - 1);
      assert Associates(mul, a, Iterate(s, mul, one, zero, g, k - 1), g);
    }
  }

  /** Once a power is 1 there are powers equal to 1 as far out as one likes. */
  lemma {:induction false} OneAgain<T(!new)>(s: set<T>, mul: (T, T) -> T, one: T, zero: T, g: T, m: nat, t: nat)
    returns (k: nat)
    requires IsMonoid(s, mul, one, zero) && g in s && m >= 1 && Iterate(s, mul, one, zero, g, m) == one
    ensures k >= t && Iterate(s, mul, one, zero, g, k) == one
    decreases t
  {
    k := m;
    if t > m {
      var j := OneAgain(s, mul, one, zero, g, m, t - m);
      IterateAdd(s, mul, one, zero, g, j, m);
      assert Units(mul, one, zero, one);
      k := j + m;
    }
  }

  /** No power of a unit is zero. */
  lemma IterateNotZero<T(!new)>(s: set<T>, mul: (T, T) -> T, one: T, zero: T, g: T, m: nat, t: nat)
    requires IsMonoid(s, mul, one, zero) && g in s && m >= 1 && Iterate(s, mul, one, zero, g, m) == one
    ensures Iterate(s, mul, one, zero, g, t) != zero
  {
    var k := OneAgain(s, mul, one, zero, g, m, t);
    IterateAdd(s, mul, one, zero, g, t, k - t);
    assert Units(mul, one, zero, Iterate(s, mul, one, zero, g, k - t));
  }
}
