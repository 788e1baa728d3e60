/** Words of n bits modulo an irreducible polynomial of degree n are a field with 2^n elements. */
module Gf2Field {
  import opened Gf2Poly
  import opened Gf2Words
  import opened Fields

  ghost predicate OnlyTrivial(d: Poly, p: Poly) {
    Divides(d, p) ==> d == ONE || d == p
  }

  ghost predicate Irreducible(p: Poly) {
    Size(p) >= 2 && forall d :: OnlyTrivial(d, p)
  }

  lemma SmallerNotMultiple(p: Poly, x: Poly)
    requires Divides(p, x) && Size(x) < Size(p)
    ensures x == ZERO
  {
    var q :| Quotient(q, p, x);
    MulSize(q, p);
  }

  lemma IrreducibleCoprime(n: nat, poly: Poly, x: Poly)
    requires Below(poly, n) && Irreducible(Full(n, poly)) && Below(x, n) && x != ZERO
    ensures NoCommonFactor(Full(n, poly), x)
  {
    var p := Full(n, poly);
    FullSize(n, poly);
    SizeBelow(x, n);
    forall d ensures OnlyUnit(d, p, x) {
      assert OnlyTrivial(d, p);
      if Divides(d, x) && d == p { SmallerNotMultiple(p, x); }
    }
  }

  // ----- inverses exist

  lemma {:induction false} EuclidFinds(n: nat, p: Poly, x: Poly, u: Poly, v: Poly, z: Poly, g: Poly) returns (r: Poly)
    requires Euclid(n, p, x, u, v, z, g)
    ensures Below(r, n) && Cong(Mul(r, x), ONE, p)
    decreases Size(u) + Size(v)
  {
    if u == ONE {
      r := z;
    } else if Size(u) < Size(v) {
      SwapKeeps(n, p, x, u, v, z, g);
      var i: nat := Size(v) - Size(u);
      StepKeeps(n, p, x, v, u, g, z, i);
      r := EuclidFinds(n, p, x, Xor(v, ShiftWord(n, u, i)), u, Xor(g, ShiftWord(n, z, i)), z);
    } else {
      var i: nat := Size(u) - Size(v);
      StepKeeps(n, p, x, u, v, z, g, i);
      r := EuclidFinds(n, p, x, Xor(u, ShiftWord(n, v, i)), v, Xor(z, ShiftWord(n, g, i)), g);
    }
  }

  lemma InverseExists(n: nat, x: Poly, poly: Poly) returns (z: Poly)
    requires n >= 2 && Below(x, n) && x != ZERO && Below(poly, n) && Irreducible(Full(n, poly))
    ensures Below(z, n) && ModMul(n, z, x, poly) == ONE
  {
    if Bits(x, n) < 2 {
      SmallWord(n, x, poly);
      z := ONE;
    } else {
      LargeWord(n, x);
      IrreducibleCoprime(n, poly, x);
      FirstStep(n, x, poly);
      var i: nat := n + 1 - Size(x);
      z := EuclidFinds(n, Full(n, poly), x, Xor(poly, ShiftWord(n, x, i)), x, Xor(ZERO, ShiftWord(n, ONE, i)), ONE);
      CongSym(Mul(z, x), ONE, Full(n, poly));
      ModMulIs(n, z, x, poly, ONE);
    }
  }

  // ----- laws

  lemma ModMulComm(n: nat, a: Poly, b: Poly, poly: Poly)
    requires Below(poly, n)
    ensures ModMul(n, a, b, poly) == ModMul(n, b, a, poly)
  {
    MulComm(a, b);
  }

  lemma ModMulAssoc(n: nat, a: Poly, b: Poly, c: Poly, poly: Poly)
    requires Below(poly, n)
    ensures ModMul(n, ModMul(n, a, b, poly), c, poly) == ModMul(n, a, ModMul(n, b, c, poly), poly)
  {
    var p := Full(n, poly);
    var ab, bc := ModMul(n, a, b, poly), ModMul(n, b, c, poly);
    var r := ModMul(n, ab, c, poly);
    CongMul(ab, Mul(a, b), c, p);
    CongTrans(r, Mul(ab, c), Mul(Mul(a, b), c), p);
    MulAssoc(a, b, c);
    CongSym(bc, Mul(b, c), p);
    CongMul(Mul(b, c), bc, a, p);
    CongTrans(r, Mul(a, Mul(b, c)), Mul(a, bc), p);
    ModMulIs(n, a, bc, poly, r);
  }

  lemma ModMulUnits(n: nat, a: Poly, poly: Poly)
    requires Below(poly, n) && Below(a, n)
    ensures ModMul(n, a, ONE, poly) == a && ModMul(n, a, ZERO, poly) == ZERO
  {
    MulOne(a);
    MulUnits(a);
    MulComm(a, ZERO);
    CongRefl(a, Full(n, poly));
    CongRefl(ZERO, Full(n, poly));
    ModMulIs(n, a, ONE, poly, a);
    ModMulIs(n, a, ZERO, poly, ZERO);
  }

  lemma ModMulXor(n: nat, a: Poly, b: Poly, c: Poly, poly: Poly)
    requires Below(poly, n)
    ensures ModMul(n, a, Xor(b, c), poly) == Xor(ModMul(n, a, b, poly), ModMul(n, a, c, poly))
  {
    var p := Full(n, poly);
    var x, y := ModMul(n, a, b, poly), ModMul(n, a, c, poly);
    CongXor(x, Mul(a, b), y, Mul(a, c), p);
    MulRight(a, b, c);
    ModMulIs(n, a, Xor(b, c), poly, Xor(x, y));
  }

  // ----- all words

  function TwoTo(n: nat): (r: nat)
    ensures r > 0
  {
    if n == 0 then 1 else 2 * TwoTo(n - 1)
  }

  /** The words of s with one more bit. */
  function WithBit(s: set<Poly>, e: nat): set<Poly> {
    set a | a in s :: a + {e}
  }

  function Words(n: nat): set<Poly> {
    if n == 0 then {ZERO} else Words(n - 1) + WithBit(Words(n - 1), n - 1)
  }

  lemma WithBitMember(s: set<Poly>, e: nat, a: Poly)
    requires forall b {:trigger b in s} :: b in s ==> e !in b
    ensures a in WithBit(s, e) <==> e in a && a - {e} in s
  {
    if e in a && a - {e} in s {
      assert (a - {e}) + {e} == a;
    }
    if a in WithBit(s, e) {
      var b :| b in s && a == b + {e};
      assert b == a - {e};
    }
  }

  lemma BelowSplit(a: Poly, n: nat)
    requires n > 0
    ensures n - 1 in a ==> (Below(a, n) <==> Below(a - {n - 1}, n - 1))
    ensures n - 1 !in a ==> (Below(a, n) <==> Below(a, n - 1))
  {
    if n - 1 in a {
      assert forall e :: e in a <==> e in a - {n - 1} || e == n - 1;
    }
  }

  lemma {:induction false} WordsAre(n: nat)
    ensures forall a: Poly :: a in Words(n) <==> Below(a, n)
  {
    if n == 0 {
      forall a: Poly ensures a in Words(0) <==> Below(a, 0) {
        if a != ZERO { var e :| e in a; }
      }
    } else {
      WordsAre(n - 1);
      forall a: Poly ensures a in Words(n) <==> Below(a, n) {
        BelowSplit(a, n);
        WithBitMember(Words(n - 1), n - 1, a);
      }
    }
  }

  lemma {:induction false} WithBitCount(s: set<Poly>, e: nat)
    requires forall a {:trigger a in s} :: a in s ==> e !in a
    ensures |WithBit(s, e)| == |s|
    decreases |s|
  {
    if s == {} {
      assert WithBit(s, e) == {};
    } else {
      var b :| b in s;
      var r := s - {b};
      WithBitCount(r, e);
      WithBitMember(r, e, b + {e});
      assert (b + {e}) - {e} == b;
      assert WithBit(s, e) == WithBit(r, e) + {b + {e}};
    }
  }

  lemma WordsLack(n: nat)
    ensures forall a {:trigger a in Words(n)} :: a in Words(n) ==> n !in a
  {
    WordsAre(n);
  }

  lemma WithBitApart(s: set<Poly>, e: nat)
    requires forall b {:trigger b in s} :: b in s ==> e !in b
    ensures |s + WithBit(s, e)| == |s| + |WithBit(s, e)|
  {
    forall a | a in s ensures a !in WithBit(s, e) { WithBitMember(s, e, a); }
    assert s !! WithBit(s, e);
  }

  lemma WordsDouble(n: nat)
    ensures |Words(n + 1)| == 2 * |Words(n)|
  {
    assert Words(n + 1) == Words(n) + WithBit(Words(n), n);
    WordsLack(n);
    WithBitCount(Words(n), n);
    WithBitApart(Words(n), n);
  }

  lemma {:induction false} WordsCount(n: nat)
    ensures |Words(n)| == TwoTo(n)
  {
    if n == 0 {
      assert Words(0) == {ZERO};
    } else {
      WordsCount(n - 1);
      WordsDouble(n - 1);
      assert TwoTo(n) == 2 * |Words(n - 1)|;
    }
  }

  // ----- the field

  ghost predicate FieldWords(n: nat, poly: Poly) {
    n >= 2 && Below(poly, n) && Irreducible(Full(n, poly))
  }

  ghost function Times(n: nat, poly: Poly, a: Poly, b: Poly): Poly {
    if Below(poly, n) then ModMul(n, a, b, poly) else ZERO
  }

  ghost function WordOps(n: nat, poly: Poly): Ops<Poly> {
    Ops(Words(n), ZERO, ONE, (a: Poly, b: Poly) => Xor(a, b), (a: Poly, b: Poly) => Times(n, poly, a, b))
  }

  lemma XorBelow(a: Poly, b: Poly, n: nat)
    requires Below(a, n) && Below(b, n)
    ensures Below(Xor(a, b), n)
  {
  }

  lemma WordPair(n: nat, poly: Poly, a: Poly, b: Poly)
    requires Below(poly, n) && a in Words(n) && b in Words(n)
    ensures PairLaws(WordOps(n, poly), a, b)
  {
    WordsAre(n);
    XorBelow(a, b, n);
    XorLaws(a, b, a);
    ModMulComm(n, a, b, poly);
  }

  lemma WordTriple(n: nat, poly: Poly, a: Poly, b: Poly, c: Poly)
    requires Below(poly, n)
    ensures TripleLaws(WordOps(n, poly), a, b, c)
  {
    XorLaws(a, b, c);
    ModMulAssoc(n, a, b, c, poly);
    ModMulXor(n, a, b, c, poly);
  }

  lemma WordUnit(n: nat, poly: Poly, a: Poly)
    requires Below(poly, n) && a in Words(n)
    ensures UnitLaws(WordOps(n, poly), a)
  {
    WordsAre(n);
    XorLaws(a, a, a);
    ModMulUnits(n, a, poly);
  }

  lemma WordInverse(n: nat, poly: Poly, a: Poly)
    requires FieldWords(n, poly) && a in Words(n)
    ensures Invertible(WordOps(n, poly), a)
  {
    WordsAre(n);
    if a != ZERO {
      var z := InverseExists(n, a, poly);
      assert InverseOf(WordOps(n, poly), a, z);
    }
  }

  /** Words modulo an irreducible polynomial are a field with 2^n - 1 nonzero elements. */
  lemma WordsAreField(n: nat, poly: Poly)
    requires FieldWords(n, poly)
    ensures var o := WordOps(n, poly); IsField(o) && |o.carrier - {o.zero}| == TwoTo(n) - 1
  {
    var o := WordOps(n, poly);
    WordsAre(n);
    WordsCount(n);
    forall a, b | a in o.carrier && b in o.carrier ensures PairLaws(o, a, b) { WordPair(n, poly, a, b); }
    forall a, b, c | a in o.carrier && b in o.carrier && c in o.carrier ensures TripleLaws(o, a, b, c) {
      WordTriple(n, poly, a, b, c);
    }
    forall a | a in o.carrier ensures UnitLaws(o, a) && Invertible(o, a) {
      WordUnit(n, poly, a);
      WordInverse(n, poly, a);
    }
  }
}
