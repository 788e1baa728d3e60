/** fast_gf2.c: bit-serial arithmetic on words of n bits, modulo a polynomial of degree n whose top bit
    is left out of the word that stands for it. */
module Gf2Words {
  import opened Gf2Poly

  /** The polynomial meant by a word: x^n is implicit. */
  function Full(n: nat, poly: Poly): Poly {
    poly + {n}
  }

  lemma FullSize(n: nat, poly: Poly)
    requires Below(poly, n)
    ensures Size(Full(n, poly)) == n + 1 && Full(n, poly) == Xor(poly, {n})
  {
    SizeIs(Full(n, poly), n + 1);
  }

  /** A left shift of a word: bits that leave the word are lost. */
  function ShiftWord(n: nat, a: Poly, k: nat): Poly {
    set e | e in Shift(a, k) && e < n
  }

  lemma ShiftWordExact(n: nat, a: Poly, k: nat)
    requires Size(a) + k <= n
    ensures ShiftWord(n, a, k) == Shift(a, k)
  {
    SizeShift(a, k);
    SizeBelow(Shift(a, k), n);
  }

  // ----- the reduced product

  /** Cancel the top term with a multiple of the modulus. */
  ghost function Lowered(n: nat, a: Poly, poly: Poly): Poly
    requires Size(a) > n
  {
    Xor(a, Shift(Full(n, poly), Size(a) - 1 - n))
  }

  lemma LoweredSize(n: nat, a: Poly, poly: Poly)
    requires Below(poly, n) && Size(a) > n
    ensures Size(Lowered(n, a, poly)) < Size(a)
  {
    FullSize(n, poly);
    SizeShift(Full(n, poly), Size(a) - 1 - n);
    SizeXor(a, Shift(Full(n, poly), Size(a) - 1 - n));
  }

  ghost function Reduce(n: nat, a: Poly, poly: Poly): (r: Poly)
    requires Below(poly, n)
    decreases Size(a)
  {
    if Size(a) <= n then a else
      LoweredSize(n, a, poly);
      Reduce(n, Lowered(n, a, poly), poly)
  }

  lemma {:induction false} ReduceIsCong(n: nat, a: Poly, poly: Poly)
    requires Below(poly, n)
    ensures Below(Reduce(n, a, poly), n) && Cong(Reduce(n, a, poly), a, Full(n, poly))
    decreases Size(a)
  {
    if Size(a) <= n {
      SizeBelow(a, n);
      CongRefl(a, Full(n, poly));
    } else {
      LoweredSize(n, a, poly);
      ReduceIsCong(n, Lowered(n, a, poly), poly);
      CongMultiple(a, Size(a) - 1 - n, Full(n, poly));
      CongTrans(Reduce(n, a, poly), Lowered(n, a, poly), a, Full(n, poly));
    }
  }

  /** Multiplication in GF(2)[x] modulo x^n + poly: the word that is congruent to the product. */
  ghost function ModMul(n: nat, a: Poly, b: Poly, poly: Poly): (r: Poly)
    requires Below(poly, n)
    ensures Below(r, n) && Cong(r, Mul(a, b), Full(n, poly))
  {
    ReduceIsCong(n, Mul(a, b), poly);
    Reduce(n, Mul(a, b), poly)
  }

  /** Any word congruent to the product is the product. */
  lemma ModMulIs(n: nat, a: Poly, b: Poly, poly: Poly, r: Poly)
    requires Below(poly, n) && Below(r, n) && Cong(r, Mul(a, b), Full(n, poly))
    ensures r == ModMul(n, a, b, poly)
  {
    var p := Full(n, poly);
    FullSize(n, poly);
    CongSym(ModMul(n, a, b, poly), Mul(a, b), p);
    CongTrans(r, Mul(a, b), ModMul(n, a, b, poly), p);
    CongUnique(r, ModMul(n, a, b, poly), n, p);
  }

  // ----- gf2_long_mod_multiply

  /** a <<= 1 with reduction. */
  function Doubled(n: nat, a: Poly, poly: Poly): Poly
    requires n > 0
  {
    if n - 1 in a then Xor(ShiftWord(n, a, 1), poly) else ShiftWord(n, a, 1)
  }

  lemma DoubledCong(n: nat, a: Poly, poly: Poly)
    requires n > 0 && Below(a, n) && Below(poly, n)
    ensures Below(Doubled(n, a, poly), n) && Cong(Doubled(n, a, poly), Shift(a, 1), Full(n, poly))
  {
    var p := Full(n, poly);
    forall e: nat ensures e in Shift(a, 1) <==> e > 0 && e - 1 in a { ShiftMember(a, 1, e); }
    if n - 1 in a {
      assert Doubled(n, a, poly) == Xor(Shift(a, 1), p);
      CongModulus(Shift(a, 1), p);
    } else {
      assert Doubled(n, a, poly) == Shift(a, 1);
      CongRefl(Shift(a, 1), p);
    }
  }

  lemma LongStep(n: nat, a: Poly, b: Poly, poly: Poly, bit: nat, c: Poly, r: Poly)
    requires 1 <= bit < n && Below(poly, n) && Below(c, n) && Below(r, n)
    requires Cong(c, Shift(a, bit - 1), Full(n, poly)) && Cong(r, MulTo(b, a, bit), Full(n, poly))
    ensures var d := Doubled(n, c, poly); var s := if bit in b then Xor(r, d) else r;
      && Below(d, n) && Below(s, n)
      && Cong(d, Shift(a, bit), Full(n, poly)) && Cong(s, MulTo(b, a, bit + 1), Full(n, poly))
  {
    var p, d := Full(n, poly), Doubled(n, c, poly);
    DoubledCong(n, c, poly);
    CongShift(c, Shift(a, bit - 1), 1, p);
    ShiftShift(a, bit - 1, 1);
    CongTrans(d, Shift(c, 1), Shift(a, bit), p);
    if bit in b {
      CongXor(r, MulTo(b, a, bit), d, Shift(a, bit), p);
    } else {
      XorLaws(MulTo(b, a, bit), ZERO, ZERO);
    }
  }

  method LongModMultiply(n: nat, a: Poly, b: Poly, poly: Poly) returns (result: Poly)
    requires n >= 2 && Below(a, n) && Below(b, n) && Below(poly, n)
    ensures result == ModMul(n, a, b, poly)
  {
    ghost var p := Full(n, poly);
    result := if 0 in b then a else ZERO;
    var c, bit := a, 1;
    ShiftZero(a);
    assert MulTo(b, a, 1) == Xor(MulTo(b, a, 0), if 0 in b then Shift(a, 0) else ZERO);
    XorLaws(result, ZERO, ZERO);
    CongRefl(result, p);
    CongRefl(a, p);
    while bit < n
      invariant 1 <= bit <= n && Below(c, n) && Below(result, n)
      invariant Cong(c, Shift(a, bit - 1), p) && Cong(result, MulTo(b, a, bit), p)
    {
      LongStep(n, a, b, poly, bit, c, result);
      c := Doubled(n, c, poly);
      if bit in b {
        result := Xor(result, c);
      }
      bit := bit + 1;
    }
    MulIs(b, a, n);
    MulComm(a, b);
    ModMulIs(n, a, b, poly, result);
  }

  // ----- gf2_long_mod_inverse

  ghost predicate OnlyUnit(d: Poly, a: Poly, b: Poly) {
    Divides(d, a) && Divides(d, b) ==> d == ONE
  }

  ghost predicate NoCommonFactor(a: Poly, b: Poly) {
    forall d :: OnlyUnit(d, a, b)
  }

  /** z x = u and g x = v modulo p, and the degrees of z and g leave room for the shifts to come. */
  ghost predicate Euclid(n: nat, p: Poly, x: Poly, u: Poly, v: Poly, z: Poly, g: Poly) {
    && Below(u, n) && Below(v, n) && Below(z, n) && Below(g, n) && u != ZERO && Size(v) >= 2
    && Cong(Mul(z, x), u, p) && Cong(Mul(g, x), v, p)
    && Size(z) + Size(v) <= n + 2 && Size(g) + Size(u) <= n + 2
    && NoCommonFactor(u, v)
  }

  lemma FactorsStay(u: Poly, v: Poly, i: nat)
    requires NoCommonFactor(u, v)
    ensures NoCommonFactor(Xor(u, Shift(v, i)), v)
  {
    var w := Xor(u, Shift(v, i));
    forall d ensures OnlyUnit(d, w, v) {
      if Divides(d, w) && Divides(d, v) {
        DividesMul(d, v, {i});
        MulTerm(i, v);
        DividesXor(d, w, Shift(v, i));
        assert Xor(w, Shift(v, i)) == u;
        assert OnlyUnit(d, u, v);
      }
    }
  }

  lemma FactorsSwap(u: Poly, v: Poly)
    requires NoCommonFactor(u, v)
    ensures NoCommonFactor(v, u)
  {
    forall d ensures OnlyUnit(d, v, u) { assert OnlyUnit(d, u, v); }
  }

  /** Nothing but 1 has no factor in common with 0. */
  lemma NotZero(u: Poly, v: Poly)
    requires NoCommonFactor(u, v) && Size(v) >= 2
    ensures u != ZERO
  {
    if u == ZERO { ZeroShares(v); }
  }

  lemma ZeroShares(v: Poly)
    requires Size(v) >= 2
    ensures !NoCommonFactor(ZERO, v)
  {
    DividesTrivial(v);
    SizeIs(ONE, 1);
    assert !OnlyUnit(v, ZERO, v);
  }

  lemma SwapKeeps(n: nat, p: Poly, x: Poly, u: Poly, v: Poly, z: Poly, g: Poly)
    requires Euclid(n, p, x, u, v, z, g) && u != ONE
    ensures Euclid(n, p, x, v, u, g, z)
  {
    FactorsSwap(u, v);
    if Size(u) == 1 { assert forall e :: e in u <==> e == 0; }
  }

  /** Neither shift loses a bit. */
  lemma StepKeeps(n: nat, p: Poly, x: Poly, u: Poly, v: Poly, z: Poly, g: Poly, i: nat)
    requires Euclid(n, p, x, u, v, z, g) && i == Size(u) - Size(v)
    ensures ShiftWord(n, v, i) == Shift(v, i) && ShiftWord(n, g, i) == Shift(g, i)
    ensures Euclid(n, p, x, Xor(u, ShiftWord(n, v, i)), v, Xor(z, ShiftWord(n, g, i)), g)
    ensures Size(Xor(u, ShiftWord(n, v, i))) < Size(u)
  {
    SizeBelow(u, n);
    ShiftWordExact(n, v, i);
    ShiftWordExact(n, g, i);
    SizeShift(v, i);
    SizeShift(g, i);
    SizeXor(u, Shift(v, i));
    SizeXor(z, Shift(g, i));
    FactorsStay(u, v, i);
    NotZero(Xor(u, Shift(v, i)), v);
    CongShift(Mul(g, x), v, i, p);
    MulShift(g, x, i);
    CongXor(Mul(z, x), u, Shift(Mul(g, x), i), Shift(v, i), p);
    MulLeft(z, Shift(g, i), x);
    SizeBelow(Xor(z, Shift(g, i)), n);
  }

  /** The first step, which deals with the implicit top bit. */
  lemma FirstStep(n: nat, x: Poly, poly: Poly)
    requires Below(x, n) && Below(poly, n) && Size(x) >= 2 && NoCommonFactor(Full(n, poly), x)
    ensures var i := n + 1 - Size(x);
      && 0 <= i < n
      && Euclid(n, Full(n, poly), x, Xor(poly, ShiftWord(n, x, i)), x, Xor(ZERO, ShiftWord(n, ONE, i)), ONE)
  {
    SizeBelow(x, n);
    var p, i := Full(n, poly), n + 1 - Size(x);
    FirstShift(n, i);
    FirstWord(n, x, poly);
    var u := Xor(p, Shift(x, i));
    FactorsStay(p, x, i);
    NotZero(u, x);
    FirstCong(p, x, i);
    SizeBelow(u, n);
    SizeIs(ONE, 1);
  }

  lemma FirstShift(n: nat, i: nat)
    requires i < n
    ensures Xor(ZERO, ShiftWord(n, ONE, i)) == {i} && Size({i}) == i + 1
  {
    SizeIs(ONE, 1);
    ShiftWordExact(n, ONE, i);
    assert Shift(ONE, i) == {i};
    SizeIs({i}, i + 1);
  }

  /** The bit that the shift loses is the one that the word for the modulus does not have. */
  lemma FirstWord(n: nat, x: Poly, poly: Poly)
    requires Below(x, n) && Below(poly, n) && 2 <= Size(x) <= n
    ensures var i := n + 1 - Size(x); var u := Xor(poly, ShiftWord(n, x, i));
      u == Xor(Full(n, poly), Shift(x, i)) && Below(u, n)
  {
    var i := n + 1 - Size(x);
    SizeShift(x, i);
  }

  lemma FirstCong(p: Poly, x: Poly, i: nat)
    ensures Cong(Mul({i}, x), Xor(p, Shift(x, i)), p) && Cong(Mul(ONE, x), x, p)
  {
    MulTerm(i, x);
    MulUnits(x);
    CongRefl(x, p);
    CongModulus(Shift(x, i), p);
    XorLaws(Shift(x, i), p, p);
    CongSym(Xor(p, Shift(x, i)), Shift(x, i), p);
  }

  lemma SmallWord(n: nat, x: Poly, poly: Poly)
    requires n >= 2 && Below(x, n) && Below(poly, n) && Bits(x, n) < 2
    ensures x == ZERO || x == ONE
    ensures x == ONE ==> ModMul(n, x, x, poly) == ONE
  {
    SizeBelow(x, n);
    if x != ZERO { assert forall e :: e in x <==> e == 0; }
    MulUnits(ONE);
    CongRefl(ONE, Full(n, poly));
    if x == ONE { ModMulIs(n, ONE, ONE, poly, ONE); }
  }

  lemma LargeWord(n: nat, x: Poly)
    requires Below(x, n) && Bits(x, n) >= 2
    ensures Size(x) == Bits(x, n) && x != ZERO && x != ONE
  {
    SizeBelow(x, n);
    SizeIs(ONE, 1);
    SizeIs(ZERO, 0);
  }

  lemma BitsAre(n: nat, u: Poly, v: Poly)
    requires Below(u, n) && Below(v, n)
    ensures Bits(u, n) == Size(u) && Bits(v, n) == Size(v)
  {
    SizeBelow(u, n);
    SizeBelow(v, n);
  }

  lemma InverseFound(n: nat, x: Poly, poly: Poly, v: Poly, z: Poly, g: Poly)
    requires n > 0 && Below(poly, n) && Euclid(n, Full(n, poly), x, ONE, v, z, g)
    ensures ModMul(n, z, x, poly) == ONE
  {
    CongSym(Mul(z, x), ONE, Full(n, poly));
    ModMulIs(n, z, x, poly, ONE);
  }

  /** The four words of the loop. */
  datatype Words4 = Words4(u: Poly, v: Poly, z: Poly, g: Poly)

  /** The swap that puts the larger word first. */
  function Ordered(n: nat, s: Words4): (t: Words4)
    ensures Bits(t.u, n) >= Bits(t.v, n)
  {
    if Bits(s.u, n) < Bits(s.v, n) then Words4(s.v, s.u, s.g, s.z) else s
  }

  function Cancelled(n: nat, s: Words4, i: nat): Words4 {
    Words4(Xor(s.u, ShiftWord(n, s.v, i)), s.v, Xor(s.z, ShiftWord(n, s.g, i)), s.g)
  }

  /** What one turn of the loop does to them, whatever they are. */
  function EuclidStep(n: nat, s: Words4): Words4 {
    var t := Ordered(n, s);
    Cancelled(n, t, Bits(t.u, n) - Bits(t.v, n))
  }

  function EuclidStart(n: nat, x: Poly, poly: Poly): Words4 {
    var i: int := n + 1 - Bits(x, n);
    Words4(Xor(poly, ShiftWord(n, x, i)), x, Xor(ZERO, ShiftWord(n, ONE, i)), ONE)
  }

  function EuclidAfter(n: nat, s: Words4, k: nat): Words4
    decreases k
  {
    if k == 0 then s else EuclidAfter(n, EuclidStep(n, s), k - 1)
  }

  ghost predicate StopsAfter(n: nat, s: Words4, k: nat) {
    EuclidAfter(n, s, k).u == ONE
  }

  ghost predicate Stops(n: nat, s: Words4) {
    exists k: nat :: StopsAfter(n, s, k)
  }

  ghost predicate Euclid4(n: nat, p: Poly, x: Poly, s: Words4) {
    Euclid(n, p, x, s.u, s.v, s.z, s.g)
  }

  lemma OrderedKeeps(n: nat, p: Poly, x: Poly, s: Words4)
    requires Euclid4(n, p, x, s) && s.u != ONE
    ensures var t := Ordered(n, s);
      && Euclid4(n, p, x, t) && Bits(t.u, n) == Size(t.u) >= Size(t.v) == Bits(t.v, n)
      && Size(t.u) + Size(t.v) == Size(s.u) + Size(s.v)
  {
    BitsAre(n, s.u, s.v);
    if Size(s.u) < Size(s.v) { SwapKeeps(n, p, x, s.u, s.v, s.z, s.g); }
  }

  lemma CancelledKeeps(n: nat, p: Poly, x: Poly, s: Words4, i: nat)
    requires Euclid4(n, p, x, s) && i == Size(s.u) - Size(s.v)
    ensures Euclid4(n, p, x, Cancelled(n, s, i)) && Size(Cancelled(n, s, i).u) < Size(s.u)
  {
    StepKeeps(n, p, x, s.u, s.v, s.z, s.g, i);
  }

  lemma EuclidStepKeeps(n: nat, p: Poly, x: Poly, s: Words4)
    requires Euclid4(n, p, x, s) && s.u != ONE
    ensures var t := EuclidStep(n, s); Euclid4(n, p, x, t) && Size(t.u) + Size(t.v) < Size(s.u) + Size(s.v)
  {
    var t := Ordered(n, s);
    OrderedKeeps(n, p, x, s);
    CancelledKeeps(n, p, x, t, Bits(t.u, n) - Bits(t.v, n));
  }

  /** One turn of the loop: swap if need be, then cancel the top term of u. */
  method EuclidTurn(n: nat, u0: Poly, v0: Poly, z0: Poly, g0: Poly) returns (u: Poly, v: Poly, z: Poly, g: Poly)
    ensures Words4(u, v, z, g) == EuclidStep(n, Words4(u0, v0, z0, g0))
  {
    u, v, z, g := u0, v0, z0, g0;
    var i: int := Bits(u, n) - Bits(v, n);
    if i < 0 {
      u, v := v, u;
      z, g := g, z;
      i := -i;
    }
    u := Xor(u, ShiftWord(n, v, i));
    z := Xor(z, ShiftWord(n, g, i));
  }

  /** The inverse of x, for x without a factor in common with the modulus: StopsIff says that the loop does not
      end for any other x. */
  method LongModInverse(n: nat, x: Poly, poly: Poly) returns (z: Poly)
    requires n >= 2 && Below(x, n) && Below(poly, n)
    requires x != ZERO && x != ONE ==> NoCommonFactor(Full(n, poly), x)
    ensures x == ZERO || x == ONE ==> z == x
    ensures x != ZERO ==> ModMul(n, z, x, poly) == ONE
    ensures Below(z, n)
  {
    if Bits(x, n) < 2 {
      SmallWord(n, x, poly);
      return x;
    }
    LargeWord(n, x);
    var u, v, g: Poly := poly, x, ONE;
    z := ZERO;
    var i := n + 1 - Bits(v, n);
    FirstStep(n, x, poly);
    u := Xor(u, ShiftWord(n, v, i));
    z := Xor(z, ShiftWord(n, g, i));
    z := EuclidLoop(n, x, poly, u, v, z, g);
  }

  /** The loop: until u is 1, and z the inverse. */
  method EuclidLoop(n: nat, ghost x: Poly, ghost poly: Poly, u0: Poly, v0: Poly, z0: Poly, g0: Poly) returns (z: Poly)
    requires n > 0 && Below(poly, n) && Euclid4(n, Full(n, poly), x, Words4(u0, v0, z0, g0))
    ensures ModMul(n, z, x, poly) == ONE && Below(z, n)
  {
    ghost var p := Full(n, poly);
    var u, v, g := u0, v0, g0;
    z := z0;
    while u != ONE
      invariant Euclid4(n, p, x, Words4(u, v, z, g))
      decreases Size(u) + Size(v)
    {
      EuclidStepKeeps(n, p, x, Words4(u, v, z, g));
      u, v, z, g := EuclidTurn(n, u, v, z, g);
    }
    InverseFound(n, x, poly, v, z, g);
  }

  // ----- the loop stops exactly for x that are coprime to the modulus

  lemma StopsNext(n: nat, s: Words4)
    requires Stops(n, EuclidStep(n, s))
    ensures Stops(n, s)
  {
    var k: nat :| StopsAfter(n, EuclidStep(n, s), k);
    assert EuclidAfter(n, s, k + 1) == EuclidAfter(n, EuclidStep(n, s), k);
    assert StopsAfter(n, s, k + 1);
  }

  lemma {:induction false} CoprimeStops(n: nat, p: Poly, x: Poly, s: Words4)
    requires Euclid4(n, p, x, s)
    ensures Stops(n, s)
    decreases Size(s.u) + Size(s.v)
  {
    if s.u == ONE {
      assert StopsAfter(n, s, 0);
    } else {
      EuclidStepKeeps(n, p, x, s);
      CoprimeStops(n, p, x, EuclidStep(n, s));
      StopsNext(n, s);
    }
  }

  /** u and v are words with a factor in common. */
  ghost predicate Shares(n: nat, d: Poly, u: Poly, v: Poly) {
    Below(u, n) && Below(v, n) && Divides(d, u) && Divides(d, v)
  }

  lemma SharedStays(n: nat, d: Poly, u: Poly, v: Poly, i: nat)
    requires Shares(n, d, u, v) && i == Size(u) - Size(v)
    ensures Shares(n, d, Xor(u, ShiftWord(n, v, i)), v)
  {
    SizeBelow(u, n);
    ShiftWordExact(n, v, i);
    SizeShift(v, i);
    SizeBelow(Shift(v, i), n);
    DividesMul(d, v, {i});
    MulTerm(i, v);
    DividesXor(d, u, Shift(v, i));
  }

  lemma UnitDivisor(d: Poly)
    requires Divides(d, ONE)
    ensures d == ONE
  {
    var q :| Quotient(q, d, ONE);
    SizeIs(ONE, 1);
    MulSize(q, d);
    assert forall e :: e in d <==> e == 0;
  }

  lemma SharedOrdered(n: nat, d: Poly, s: Words4)
    requires Shares(n, d, s.u, s.v)
    ensures var t := Ordered(n, s);
      Shares(n, d, t.u, t.v) && Bits(t.u, n) == Size(t.u) && Bits(t.v, n) == Size(t.v)
  {
    BitsAre(n, s.u, s.v);
  }

  lemma CancelledShares(n: nat, d: Poly, s: Words4, i: nat)
    requires Shares(n, d, s.u, s.v) && i == Size(s.u) - Size(s.v)
    ensures Shares(n, d, Cancelled(n, s, i).u, Cancelled(n, s, i).v)
  {
    SharedStays(n, d, s.u, s.v, i);
  }

  lemma SharedStep(n: nat, d: Poly, s: Words4)
    requires Shares(n, d, s.u, s.v)
    ensures Shares(n, d, EuclidStep(n, s).u, EuclidStep(n, s).v)
  {
    var t := Ordered(n, s);
    SharedOrdered(n, d, s);
    CancelledShares(n, d, t, Bits(t.u, n) - Bits(t.v, n));
  }

  lemma {:induction false} SharedGoesOn(n: nat, d: Poly, s: Words4, k: nat)
    requires Shares(n, d, s.u, s.v) && d != ONE
    ensures !StopsAfter(n, s, k)
    decreases k
  {
    if k == 0 {
      if s.u == ONE { UnitDivisor(d); }
    } else {
      SharedStep(n, d, s);
      SharedGoesOn(n, d, EuclidStep(n, s), k - 1);
      assert EuclidAfter(n, s, k) == EuclidAfter(n, EuclidStep(n, s), k - 1);
    }
  }

  lemma SharedStart(n: nat, x: Poly, poly: Poly, d: Poly)
    requires Below(x, n) && Below(poly, n) && Size(x) >= 2 && Divides(d, Full(n, poly)) && Divides(d, x)
    ensures var s := EuclidStart(n, x, poly); Shares(n, d, s.u, s.v)
  {
    SizeBelow(x, n);
    FirstWord(n, x, poly);
    var i := n + 1 - Size(x);
    DividesMul(d, x, {i});
    MulTerm(i, x);
    DividesXor(d, Full(n, poly), Shift(x, i));
  }

  /** For x of at least two bits, the loop of the inverse reaches 1 exactly if x and the modulus have no
      factor in common. */
  lemma StopsIff(n: nat, x: Poly, poly: Poly)
    requires Below(x, n) && Below(poly, n) && Size(x) >= 2
    ensures Stops(n, EuclidStart(n, x, poly)) <==> NoCommonFactor(Full(n, poly), x)
  {
    var p := Full(n, poly);
    SizeBelow(x, n);
    if NoCommonFactor(p, x) {
      FirstStep(n, x, poly);
      CoprimeStops(n, p, x, EuclidStart(n, x, poly));
    } else {
      var d :| !OnlyUnit(d, p, x);
      SharedStart(n, x, poly, d);
      forall k: nat ensures !StopsAfter(n, EuclidStart(n, x, poly), k) {
        SharedGoesOn(n, d, EuclidStart(n, x, poly), k);
      }
    }
  }

  /** An input for every word size: the modulus x^n and the word x. */
  lemma SharedFactor(n: nat)
    requires n >= 2
    ensures !NoCommonFactor(Full(n, ZERO), {1}) && !Stops(n, EuclidStart(n, {1}, ZERO))
  {
    var x: Poly := {1};
    MulTerm(n - 1, x);
    ShiftMember(x, n - 1, n);
    assert Shift(x, n - 1) == Full(n, ZERO);
    assert Quotient({n - 1}, x, Full(n, ZERO));
    MulOne(x);
    MulComm(ONE, x);
    assert Quotient(ONE, x, x);
    assert !OnlyUnit(x, Full(n, ZERO), x);
    SizeIs(x, 2);
    StopsIff(n, x, ZERO);
  }
}
