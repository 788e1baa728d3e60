/** Polynomials over GF(2), as sets of exponents: a word stands for the set of positions of its 1 bits. */
module Gf2Poly {

  type Poly = set<nat>

  const ZERO: Poly := {}
  const ONE: Poly := {0}

  function Xor(a: Poly, b: Poly): Poly {
    (a - b) + (b - a)
  }

  lemma XorLaws(a: Poly, b: Poly, c: Poly)
    ensures Xor(a, b) == Xor(b, a) && Xor(Xor(a, b), c) == Xor(a, Xor(b, c))
    ensures Xor(a, a) == ZERO && Xor(a, ZERO) == a && Xor(ZERO, a) == a
    ensures Xor(a, Xor(a, b)) == b && (Xor(a, b) == ZERO <==> a == b)
  {
    assert Xor(a, b) == ZERO ==> forall e :: e in a <==> e in b;
  }

  /** Rearranging a sum of four. */
  lemma XorSwap(a: Poly, b: Poly, c: Poly, d: Poly)
    ensures Xor(Xor(a, b), Xor(c, d)) == Xor(Xor(a, c), Xor(b, d))
  {
  }

  /** Multiplication by x^k. */
  function Shift(a: Poly, k: nat): Poly {
    set e | e in a :: e + k
  }

  lemma ShiftMember(a: Poly, k: nat, e: nat)
    ensures e in Shift(a, k) <==> e >= k && e - k in a
  {
    if e >= k && e - k in a { assert (e - k) + k in Shift(a, k); }
  }

  lemma ShiftZero(a: Poly)
    ensures Shift(a, 0) == a
  {
    forall e: nat ensures e in Shift(a, 0) <==> e in a { ShiftMember(a, 0, e); }
  }

  lemma ShiftXor(a: Poly, b: Poly, k: nat)
    ensures Shift(Xor(a, b), k) == Xor(Shift(a, k), Shift(b, k))
  {
    forall e: nat ensures e in Shift(Xor(a, b), k) <==> e in Xor(Shift(a, k), Shift(b, k)) {
      ShiftMember(a, k, e);
      ShiftMember(b, k, e);
      ShiftMember(Xor(a, b), k, e);
    }
  }

  lemma ShiftShift(a: Poly, j: nat, k: nat)
    ensures Shift(Shift(a, j), k) == Shift(a, j + k)
  {
    forall e: nat ensures e in Shift(Shift(a, j), k) <==> e in Shift(a, j + k) {
      ShiftMember(Shift(a, j), k, e);
      ShiftMember(a, j + k, e);
      if e >= k { ShiftMember(a, j, e - k); }
    }
  }

  // ----- size

  predicate Below(a: Poly, n: nat) {
    forall e :: e in a ==> e < n
  }

  /** size_in_bits of a word of n bits. */
  function Bits(a: Poly, n: nat): (s: nat)
    ensures s <= n && (Below(a, n) ==> Below(a, s)) && (s > 0 ==> s - 1 in a)
  {
    if n == 0 then 0 else if n - 1 in a then n else Bits(a, n - 1)
  }

  lemma {:induction false} BoundExists(a: Poly) returns (n: nat)
    ensures Below(a, n)
    decreases |a|
  {
    if a == {} {
      n := 0;
    } else {
      var e :| e in a;
      var m := BoundExists(a - {e});
      n := if m > e then m else e + 1;
      forall f | f in a ensures f < n { assert f == e || f in a - {e}; }
    }
  }

  lemma Bounded(a: Poly)
    ensures exists n :: Below(a, n)
  {
    var n := BoundExists(a);
  }

  /** The degree plus 1; 0 for the zero polynomial. */
  ghost function Size(a: Poly): (s: nat)
    ensures Below(a, s) && (s > 0 ==> s - 1 in a)
  {
    Bounded(a);
    var n :| Below(a, n);
    Bits(a, n)
  }

  lemma SizeIs(a: Poly, s: nat)
    requires Below(a, s) && (s > 0 ==> s - 1 in a)
    ensures Size(a) == s
  {
  }

  lemma SizeBelow(a: Poly, n: nat)
    ensures Below(a, n) <==> Size(a) <= n
    ensures Below(a, n) ==> Bits(a, n) == Size(a)
    ensures a == ZERO <==> Size(a) == 0
  {
  }

  lemma SizeShift(a: Poly, k: nat)
    ensures Size(Shift(a, k)) == if a == ZERO then 0 else Size(a) + k
  {
    if a != ZERO {
      var s := Size(a);
      ShiftMember(a, k, s - 1 + k);
      forall e | e in Shift(a, k) ensures e < s + k { ShiftMember(a, k, e); }
      SizeIs(Shift(a, k), s + k);
    }
  }

  /** Adding polynomials of the same size makes one that is smaller. */
  lemma SizeXor(a: Poly, b: Poly)
    ensures Size(Xor(a, b)) <= if Size(a) > Size(b) then Size(a) else Size(b)
    ensures Size(a) != Size(b) ==> Size(Xor(a, b)) == if Size(a) > Size(b) then Size(a) else Size(b)
    ensures Size(a) == Size(b) > 0 ==> Size(Xor(a, b)) < Size(a)
  {
  }

  // ----- multiplication

  /** The part of the product that the terms of a below x^n contribute. */
  function MulTo(a: Poly, b: Poly, n: nat): Poly {
    if n == 0 then ZERO else Xor(MulTo(a, b, n - 1), if n - 1 in a then Shift(b, n - 1) else ZERO)
  }

  ghost function Mul(a: Poly, b: Poly): Poly {
    MulTo(a, b, Size(a))
  }

  lemma {:induction false} MulToEnough(a: Poly, b: Poly, m: nat, n: nat)
    requires Below(a, m) && m <= n
    ensures MulTo(a, b, n) == MulTo(a, b, m)
  {
    if m < n { MulToEnough(a, b, m, n - 1); }
  }

  lemma MulIs(a: Poly, b: Poly, n: nat)
    requires Below(a, n)
    ensures Mul(a, b) == MulTo(a, b, n)
  {
    MulToEnough(a, b, Size(a), n);
  }

  lemma {:induction false} MulToLeft(a: Poly, b: Poly, c: Poly, n: nat)
    ensures MulTo(Xor(a, b), c, n) == Xor(MulTo(a, c, n), MulTo(b, c, n))
  {
    if n > 0 { MulToLeft(a, b, c, n - 1); }
  }

  lemma MulLeft(a: Poly, b: Poly, c: Poly)
    ensures Mul(Xor(a, b), c) == Xor(Mul(a, c), Mul(b, c))
  {
    var n := Size(a) + Size(b);
    MulIs(a, c, n);
    MulIs(b, c, n);
    MulIs(Xor(a, b), c, n);
    MulToLeft(a, b, c, n);
  }

  lemma {:induction false} MulToRight(a: Poly, b: Poly, c: Poly, n: nat)
    ensures MulTo(a, Xor(b, c), n) == Xor(MulTo(a, b, n), MulTo(a, c, n))
  {
    if n > 0 {
      MulToRight(a, b, c, n - 1);
      ShiftXor(b, c, n - 1);
    }
  }

  lemma MulRight(a: Poly, b: Poly, c: Poly)
    ensures Mul(a, Xor(b, c)) == Xor(Mul(a, b), Mul(a, c))
  {
    MulToRight(a, b, c, Size(a));
  }

  lemma {:induction false} MulToShift(a: Poly, b: Poly, k: nat, n: nat)
    ensures MulTo(a, Shift(b, k), n) == Shift(MulTo(a, b, n), k)
  {
    if n > 0 {
      MulToShift(a, b, k, n - 1);
      ShiftShift(b, k, n - 1);
      ShiftShift(b, n - 1, k);
      ShiftXor(MulTo(a, b, n - 1), if n - 1 in a then Shift(b, n - 1) else ZERO, k);
      assert Shift(ZERO, k) == ZERO;
    } else {
      assert Shift(ZERO, k) == ZERO;
    }
  }

  lemma {:induction false} MulToShifted(a: Poly, b: Poly, k: nat, n: nat)
    ensures MulTo(Shift(a, k), b, n + k) == Shift(MulTo(a, b, n), k)
  {
    if n > 0 {
      MulToShifted(a, b, k, n - 1);
      ShiftMember(a, k, n - 1 + k);
      ShiftShift(b, n - 1, k);
      ShiftXor(MulTo(a, b, n - 1), if n - 1 in a then Shift(b, n - 1) else ZERO, k);
      assert Shift(ZERO, k) == ZERO;
    } else {
      forall e: nat | e < k ensures e !in Shift(a, k) { ShiftMember(a, k, e); }
      MulToNothing(Shift(a, k), b, k);
      assert Shift(ZERO, k) == ZERO;
    }
  }

  lemma {:induction false} MulToNothing(a: Poly, b: Poly, n: nat)
    requires forall e :: 0 <= e < n ==> e !in a
    ensures MulTo(a, b, n) == ZERO
  {
    if n > 0 { MulToNothing(a, b, n - 1); }
  }

  lemma MulShift(a: Poly, b: Poly, k: nat)
    ensures Mul(a, Shift(b, k)) == Shift(Mul(a, b), k) == Mul(Shift(a, k), b)
  {
    MulToShift(a, b, k, Size(a));
    MulToShifted(a, b, k, Size(a));
    SizeShift(a, k);
    MulIs(Shift(a, k), b, Size(a) + k);
  }

  lemma MulUnits(a: Poly)
    ensures Mul(ONE, a) == a && Mul(ZERO, a) == ZERO
  {
    SizeIs(ONE, 1);
    SizeIs(ZERO, 0);
    ShiftZero(a);
    assert MulTo(ONE, a, 1) == Xor(MulTo(ONE, a, 0), Shift(a, 0));
  }

  lemma MulTerm(k: nat, a: Poly)
    ensures Mul({k}, a) == Shift(a, k)
  {
    assert Shift(ONE, k) == {k};
    MulShift(ONE, a, k);
    MulUnits(a);
  }

  lemma {:induction false} MulZero(a: Poly, n: nat)
    ensures MulTo(a, ZERO, n) == ZERO
  {
    if n > 0 {
      MulZero(a, n - 1);
      assert Shift(ZERO, n - 1) == ZERO;
    }
  }

  /** A polynomial is its top term and the rest. */
  lemma SplitTop(a: Poly)
    requires a != ZERO
    ensures Size(a) > 0 && a == Xor(a - {Size(a) - 1}, {Size(a) - 1}) && Size(a - {Size(a) - 1}) < Size(a)
  {
    SizeBelow(a - {Size(a) - 1}, Size(a) - 1);
  }

  lemma {:induction false} MulComm(a: Poly, b: Poly)
    ensures Mul(a, b) == Mul(b, a)
    decreases Size(a)
  {
    if a == ZERO {
      MulUnits(b);
      MulZero(b, Size(b));
    } else {
      SplitTop(a);
      var k := Size(a) - 1;
      var r := a - {k};
      MulComm(r, b);
      MulLeft(r, {k}, b);
      MulRight(b, r, {k});
      MulTerm(k, b);
      assert Shift(ONE, k) == {k};
      MulShift(b, ONE, k);
      MulOne(b);
    }
  }

  lemma {:induction false} MulOne(a: Poly)
    ensures Mul(a, ONE) == a
    decreases Size(a)
  {
    if a == ZERO {
      MulUnits(ONE);
    } else {
      SplitTop(a);
      var k := Size(a) - 1;
      MulOne(a - {k});
      MulLeft(a - {k}, {k}, ONE);
      MulTerm(k, ONE);
      assert Shift(ONE, k) == {k};
    }
  }

  lemma {:induction false} MulAssoc(a: Poly, b: Poly, c: Poly)
    ensures Mul(Mul(a, b), c) == Mul(a, Mul(b, c))
    decreases Size(a)
  {
    if a == ZERO {
      MulUnits(b);
      MulUnits(c);
      MulUnits(Mul(b, c));
    } else {
      SplitTop(a);
      var k := Size(a) - 1;
      var r := a - {k};
      MulAssoc(r, b, c);
      MulLeft(r, {k}, b);
      MulLeft(r, {k}, Mul(b, c));
      MulTerm(k, b);
      MulTerm(k, Mul(b, c));
      MulLeft(Mul(r, b), Shift(b, k), c);
      MulShift(b, c, k);
    }
  }

  /** Degrees add up, so products of nonzero polynomials are not zero. */
  lemma {:induction false} MulSize(a: Poly, b: Poly)
    ensures Size(Mul(a, b)) == if a == ZERO || b == ZERO then 0 else Size(a) + Size(b) - 1
    decreases Size(a)
  {
    if a == ZERO {
      MulUnits(b);
    } else if b == ZERO {
      MulZero(a, Size(a));
    } else {
      SplitTop(a);
      var k := Size(a) - 1;
      var r := a - {k};
      MulSize(r, b);
      SizeShift(b, k);
      SizeXor(Mul(r, b), Shift(b, k));
      assert Mul(a, b) == Xor(Mul(r, b), Shift(b, k)) by {
        MulLeft(r, {k}, b);
        MulTerm(k, b);
      }
    }
  }

  // ----- congruence modulo a polynomial

  ghost predicate Quotient(q: Poly, d: Poly, a: Poly) {
    Mul(q, d) == a
  }

  ghost predicate Divides(d: Poly, a: Poly) {
    exists q :: Quotient(q, d, a)
  }

  ghost predicate Cong(a: Poly, b: Poly, p: Poly) {
    Divides(p, Xor(a, b))
  }

  lemma DividesXor(d: Poly, a: Poly, b: Poly)
    requires Divides(d, a) && Divides(d, b)
    ensures Divides(d, Xor(a, b))
  {
    var q :| Quotient(q, d, a);
    var r :| Quotient(r, d, b);
    MulLeft(q, r, d);
    assert Quotient(Xor(q, r), d, Xor(a, b));
  }

  lemma DividesMul(d: Poly, a: Poly, c: Poly)
    requires Divides(d, a)
    ensures Divides(d, Mul(c, a)) && Divides(d, Mul(a, c))
  {
    var q :| Quotient(q, d, a);
    MulAssoc(c, q, d);
    assert Quotient(Mul(c, q), d, Mul(c, a));
    MulComm(a, c);
  }

  lemma DividesTrivial(d: Poly)
    ensures Divides(d, ZERO) && Divides(d, d)
  {
    MulUnits(d);
    assert Quotient(ZERO, d, ZERO) && Quotient(ONE, d, d);
  }

  lemma CongRefl(a: Poly, p: Poly)
    ensures Cong(a, a, p)
  {
    XorLaws(a, a, a);
    DividesTrivial(p);
  }

  lemma CongSym(a: Poly, b: Poly, p: Poly)
    requires Cong(a, b, p)
    ensures Cong(b, a, p)
  {
    XorLaws(a, b, a);
  }

  lemma CongTrans(a: Poly, b: Poly, c: Poly, p: Poly)
    requires Cong(a, b, p) && Cong(b, c, p)
    ensures Cong(a, c, p)
  {
    DividesXor(p, Xor(a, b), Xor(b, c));
    assert Xor(Xor(a, b), Xor(b, c)) == Xor(a, c);
  }

  lemma CongXor(a: Poly, b: Poly, c: Poly, d: Poly, p: Poly)
    requires Cong(a, b, p) && Cong(c, d, p)
    ensures Cong(Xor(a, c), Xor(b, d), p)
  {
    DividesXor(p, Xor(a, b), Xor(c, d));
    XorSwap(a, b, c, d);
  }

  lemma CongMul(a: Poly, b: Poly, c: Poly, p: Poly)
    requires Cong(a, b, p)
    ensures Cong(Mul(c, a), Mul(c, b), p) && Cong(Mul(a, c), Mul(b, c), p)
  {
    DividesMul(p, Xor(a, b), c);
    MulRight(c, a, b);
    MulLeft(a, b, c);
  }

  lemma CongShift(a: Poly, b: Poly, k: nat, p: Poly)
    requires Cong(a, b, p)
    ensures Cong(Shift(a, k), Shift(b, k), p)
  {
    CongMul(a, b, {k}, p);
    MulTerm(k, a);
    MulTerm(k, b);
  }

  /** Words that are congruent are equal. */
  lemma CongUnique(a: Poly, b: Poly, n: nat, p: Poly)
    requires Cong(a, b, p) && Below(a, n) && Below(b, n) && Size(p) == n + 1
    ensures a == b
  {
    var q :| Quotient(q, p, Xor(a, b));
    MulSize(q, p);
    SizeXor(a, b);
    SizeBelow(a, n);
    SizeBelow(b, n);
    SizeBelow(Xor(a, b), n);
    XorLaws(a, b, a);
  }

  /** Multiples of p can be added to anything. */
  lemma CongMultiple(a: Poly, k: nat, p: Poly)
    ensures Cong(Xor(a, Shift(p, k)), a, p)
  {
    MulTerm(k, p);
    assert Quotient({k}, p, Shift(p, k));
    XorLaws(a, Shift(p, k), a);
    assert Xor(Xor(a, Shift(p, k)), a) == Shift(p, k);
  }

  /** p can be added to anything. */
  lemma CongModulus(a: Poly, p: Poly)
    ensures Cong(Xor(a, p), a, p)
  {
    assert Xor(Xor(a, p), a) == p;
    DividesTrivial(p);
  }
}
