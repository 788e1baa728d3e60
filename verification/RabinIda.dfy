/** rabin-ida.c: multiplication and inversion modulo x^(8 bytes) + poly, on vectors of bytes. */
module RabinIda {
  import opened Gf2Poly
  import opened Gf2Words
  import opened ByteVectors
  import opened CharLoops

  // ----- tests and sizes

  /** The table lookup_byte gives the size of a single byte. */
  method VectorSizeInBits(s: array<Poly>) returns (size: nat)
    requires Bytes(s[..])
    ensures size == Bits(Value(s[..]), 8 * s.Length)
  {
    if s.Length == 0 { return 0; }
    var i := 0;
    while i < s.Length - 1 && s[i] == ZERO
      invariant i < s.Length && forall k :: 0 <= k < i ==> s[k] == ZERO
    {
      i := i + 1;
    }
    TopByte(s[..], i);
    size := 8 * (s.Length - 1 - i) + Bits(s[i], 8);
  }

  lemma LastByte(s: seq<Poly>, b: Poly)
    requires Bytes(s) && s != [] && Below(b, 8)
    ensures Value(s) == b <==> s[|s| - 1] == b && forall k :: 0 <= k < |s| - 1 ==> s[k] == ZERO
  {
    var n := |s| - 1;
    if s[n] == b && forall k :: 0 <= k < n ==> s[k] == ZERO {
      ValueZeros(s[..n]);
      assert Shift(ZERO, 8) == ZERO;
    }
    if Value(s) == b {
      forall e: nat ensures e in s[n] <==> e in b { if e < 8 { BitOf(s, n, e); } }
      forall k: nat | k < n ensures s[k] == ZERO {
        forall c | c in s[k] ensures false { BitOf(s, k, c); }
      }
    }
  }

  /** vector_eq_byte; vector_ne_byte is its negation. */
  method VectorEqByte(s: array<Poly>, b: Poly) returns (equal: bool)
    requires 1 <= s.Length && Bytes(s[..]) && Below(b, 8)
    ensures equal <==> Value(s[..]) == b
  {
    LastByte(s[..], b);
    var i := 0;
    while i < s.Length - 1
      invariant i < s.Length && forall k :: 0 <= k < i ==> s[k] == ZERO
    {
      if s[i] != ZERO {
        return false;
      }
      i := i + 1;
    }
    equal := s[i] == b;
  }

  method CopyBytes(a: array<Poly>, b: array<Poly>)
    requires a != b && a.Length == b.Length
    modifies a
    ensures a[..] == b[..]
  {
    for i := 0 to a.Length
      invariant forall k :: 0 <= k < i ==> a[k] == b[k]
      modifies a
    {
      a[i] := b[i];
    }
  }

  // ----- gf2_multiply

  lemma TopBit(s: seq<Poly>)
    requires Bytes(s) && s != []
    ensures 7 in s[0] <==> 8 * |s| - 1 in Value(s)
  {
    BitOf(s, 0, 7);
  }

  /** b <<= 1 with reduction. */
  method DoubleBytes(b: array<Poly>, poly: array<Poly>, ghost n: nat)
    requires b != poly && 1 <= b.Length == poly.Length && Bytes(b[..]) && Bytes(poly[..]) && n == 8 * b.Length
    modifies b
    ensures Bytes(b[..]) && Value(b[..]) == Doubled(n, old(Value(b[..])), Value(poly[..]))
  {
    var carry := ShiftAll(b);
    if carry { VectorXor(b, poly); }
  }

  method ShiftAll(b: array<Poly>) returns (carry: bool)
    requires 1 <= b.Length && Bytes(b[..])
    modifies b
    ensures Bytes(b[..]) && Value(b[..]) == ShiftWord(8 * b.Length, old(Value(b[..])), 1)
    ensures carry <==> 8 * b.Length - 1 in old(Value(b[..]))
  {
    ghost var was := b[..];
    TopBit(was);
    ShiftedValue(was);
    assert b[..b.Length] == was;
    carry := VectorShiftLeft(b, b.Length, false);
    assert b[..] == b[..b.Length];
  }

  method Gf2Multiply(dest: array<Poly>, x: array<Poly>, y: array<Poly>, poly: array<Poly>, b: array<Poly>)
    requires dest != x && dest != y && dest != poly && dest != b && b != x && b != y && b != poly
    requires 1 <= dest.Length == x.Length == y.Length == poly.Length == b.Length
    requires Bytes(x[..]) && Bytes(y[..]) && Bytes(poly[..])
    modifies dest, b
    ensures Bytes(dest[..])
    ensures Value(dest[..]) == ModMul(8 * dest.Length, Value(x[..]), Value(y[..]), Value(poly[..]))
  {
    ghost var n, vx, vy, vp := 8 * dest.Length, Value(x[..]), Value(y[..]), Value(poly[..]);
    FirstLine(dest, x, y, b);
    MultiplyBegins(n, vx, vy, vp, Value(dest[..]));
    ghost var c := OtherLines(dest, y, poly, b, n, vx, vy, vp);
    MultiplyEnds(n, vx, vy, vp, c, Value(dest[..]));
  }

  /** From the second bit of y on. */
  method OtherLines(dest: array<Poly>, y: array<Poly>, poly: array<Poly>, b: array<Poly>,
                    ghost n: nat, ghost x: Poly, ghost vy: Poly, ghost vp: Poly) returns (ghost c: Poly)
    requires dest != y && dest != poly && dest != b && b != y && b != poly
    requires 1 <= dest.Length == y.Length == poly.Length == b.Length && n == 8 * dest.Length
    requires Bytes(y[..]) && Bytes(poly[..]) && Bytes(b[..]) && Bytes(dest[..])
    requires vy == Value(y[..]) && vp == Value(poly[..])
    requires Multiplying(n, x, vy, vp, 1, Value(b[..]), Value(dest[..]))
    modifies dest, b
    ensures Bytes(dest[..]) && Multiplying(n, x, vy, vp, n, c, Value(dest[..]))
  {
    ghost var r, bit: nat := Value(dest[..]), 1;
    c := Value(b[..]);
    var bits, currentByte, currentBit := 8 * dest.Length - 1, dest.Length - 1, 0;
    while bits > 0
      invariant 0 <= bits && bit + bits == n && Bytes(b[..]) && Bytes(dest[..])
      invariant 0 <= currentBit < 8 && 0 <= currentByte < dest.Length
      invariant 8 * (dest.Length - 1 - currentByte) + currentBit == bit - 1
      invariant c == Value(b[..]) && r == Value(dest[..])
      invariant Multiplying(n, x, vy, vp, bit, c, r)
      modifies dest, b
    {
      currentByte, currentBit := NextPlace(currentByte, currentBit);
      c, r := NextLine(dest, y, poly, b, currentByte, currentBit, n, x, vy, vp, bit, c, r);
      bits, bit := bits - 1, bit + 1;
    }
  }

  /** The bit mask moves left within a byte, and then to the byte before. */
  method NextPlace(currentByte: int, currentBit: int) returns (byte: int, bit: int)
    requires 0 <= currentBit < 8
    ensures 0 <= bit < 8 && bit - 8 * byte == currentBit - 8 * currentByte + 1
  {
    if currentBit == 7 {
      byte, bit := currentByte - 1, 0;
    } else {
      byte, bit := currentByte, currentBit + 1;
    }
  }

  /** b = x, and dest = x if the lowest bit of y is set. */
  method FirstLine(dest: array<Poly>, x: array<Poly>, y: array<Poly>, b: array<Poly>)
    requires dest != x && dest != y && dest != b && b != x && b != y
    requires 1 <= dest.Length == x.Length == y.Length == b.Length && Bytes(x[..]) && Bytes(y[..])
    modifies dest, b
    ensures Bytes(dest[..]) && b[..] == x[..]
    ensures Value(dest[..]) == if 0 in Value(y[..]) then Value(x[..]) else ZERO
  {
    CopyBytes(b, x);
    BitOf(y[..], y.Length - 1, 0);
    if 0 in y[y.Length - 1] {
      CopyBytes(dest, x);
    } else {
      ZeroBytes(dest, 0);
      ValueZeros(dest[..]);
    }
  }

  /** One more bit of y. */
  method NextLine(dest: array<Poly>, y: array<Poly>, poly: array<Poly>, b: array<Poly>, currentByte: nat,
                  currentBit: nat,
                  ghost n: nat, ghost x: Poly, ghost vy: Poly, ghost vp: Poly, ghost bit: nat, ghost c0: Poly,
                  ghost r0: Poly)
    returns (ghost c: Poly, ghost r: Poly)
    requires dest != y && dest != poly && dest != b && b != y && b != poly
    requires 1 <= dest.Length == y.Length == poly.Length == b.Length
    requires Bytes(y[..]) && Bytes(poly[..]) && Bytes(b[..]) && Bytes(dest[..])
    requires currentBit < 8 && currentByte < dest.Length && bit >= 1
    requires bit == 8 * (dest.Length - 1 - currentByte) + currentBit
    requires vy == Value(y[..]) && vp == Value(poly[..]) && c0 == Value(b[..]) && r0 == Value(dest[..])
    requires n == 8 * dest.Length && Multiplying(n, x, vy, vp, bit, c0, r0)
    modifies dest, b
    ensures Bytes(b[..]) && Bytes(dest[..]) && c == Value(b[..]) && r == Value(dest[..])
    ensures Multiplying(n, x, vy, vp, bit + 1, c, r)
  {
    var add := currentBit in y[currentByte];
    BitIs(y[..], currentByte, currentBit, bit);
    DoubleBytes(b, poly, n);
    c, r := Value(b[..]), r0;
    if add {
      VectorXor(dest, b);
      r := Xor(r0, c);
    }
    NextSum(n, x, vy, vp, bit, c0, r0, c, r);
  }

  lemma NextSum(n: nat, x: Poly, y: Poly, poly: Poly, bit: nat, c: Poly, r: Poly, c': Poly, r': Poly)
    requires Below(poly, n) && bit < n && Multiplying(n, x, y, poly, bit, c, r)
    requires c' == Doubled(n, c, poly) && r' == if bit in y then Xor(r, c') else r
    ensures Multiplying(n, x, y, poly, bit + 1, c', r')
  {
    LongStep(n, x, y, poly, bit, c, r);
  }

  ghost predicate Multiplying(n: nat, x: Poly, y: Poly, poly: Poly, bit: nat, c: Poly, r: Poly) {
    && 1 <= bit <= n && Below(c, n) && Below(r, n)
    && Cong(c, Shift(x, bit - 1), Full(n, poly)) && Cong(r, MulTo(y, x, bit), Full(n, poly))
  }

  lemma MultiplyBegins(n: nat, x: Poly, y: Poly, poly: Poly, r: Poly)
    requires n >= 8 && Below(x, n) && Below(y, n) && Below(poly, n) && r == if 0 in y then x else ZERO
    ensures Multiplying(n, x, y, poly, 1, x, r)
  {
    ShiftZero(x);
    assert MulTo(y, x, 1) == Xor(MulTo(y, x, 0), if 0 in y then Shift(x, 0) else ZERO);
    XorLaws(r, ZERO, ZERO);
    CongRefl(r, Full(n, poly));
    CongRefl(x, Full(n, poly));
  }

  lemma MultiplyEnds(n: nat, x: Poly, y: Poly, poly: Poly, c: Poly, r: Poly)
    requires Below(y, n) && Below(poly, n) && Multiplying(n, x, y, poly, n, c, r)
    ensures r == ModMul(n, x, y, poly)
  {
    MulIs(y, x, n);
    MulComm(x, y);
    ModMulIs(n, x, y, poly, r);
  }

  // ----- gf2_invert: the inverse of 1, which has no test of its own

  /** u is what is left of the modulus, z what has been taken from it. */
  ghost predicate TakingApart(n: nat, poly: Poly, s: Words4) {
    && Below(poly, n) && s.v == s.g == ONE && s.u <= poly && s.z == poly - s.u && (0 in poly ==> 0 in s.u)
  }

  /** What the loop makes of 1. */
  function OfOne(n: nat, poly: Poly): Poly {
    if 0 in poly then poly - {0} else Xor(ONE, ShiftWord(n, poly, 1))
  }

  lemma UnitBits(n: nat)
    requires n > 0
    ensures Bits(ONE, n) == 1 && Bits(ZERO, n) == 0
  {
    SizeIs(ONE, 1);
    SizeIs(ZERO, 0);
    SizeBelow(ONE, n);
    SizeBelow(ZERO, n);
  }

  lemma UnitShift(n: nat, i: nat)
    requires i < n
    ensures ShiftWord(n, ONE, i) == {i}
  {
    assert Shift(ONE, i) == {i};
  }

  /** A turn takes the top term off u and puts it into z. */
  lemma TopTaken(n: nat, s: Words4) returns (top: nat)
    requires n > 0 && Below(s.u, n) && s.u != ZERO && s.v == s.g == ONE
    ensures top in s.u && (forall e :: e in s.u ==> e <= top)
    ensures EuclidStep(n, s) == Words4(Xor(s.u, {top}), ONE, Xor(s.z, {top}), ONE)
  {
    UnitBits(n);
    SizeBelow(s.u, n);
    top := Bits(s.u, n) - 1;
    UnitShift(n, top);
  }

  lemma TakenStep(n: nat, poly: Poly, s: Words4)
    requires n > 0 && TakingApart(n, poly, s) && s.u != ONE && s.u != ZERO
    ensures TakingApart(n, poly, EuclidStep(n, s)) && |EuclidStep(n, s).u| < |s.u|
  {
    var top := TopTaken(n, s);
    StillApart(n, poly, s.u, s.z, top);
  }

  lemma StillApart(n: nat, poly: Poly, u: Poly, z: Poly, top: nat)
    requires Below(poly, n) && u <= poly && z == poly - u && (0 in poly ==> 0 in u) && u != ONE
    requires top in u && forall e :: e in u ==> e <= top
    ensures TakingApart(n, poly, Words4(Xor(u, {top}), ONE, Xor(z, {top}), ONE)) && |Xor(u, {top})| < |u|
  {
    assert Xor(u, {top}) == u - {top};
    assert Xor(z, {top}) == poly - (u - {top});
    if 0 in poly && top == 0 {
      assert forall e :: e in u <==> e == 0;
      assert false;
    }
  }

  lemma NothingLeft(n: nat, poly: Poly, s: Words4)
    requires n > 0 && TakingApart(n, poly, s) && s.u == ZERO
    ensures EuclidStep(n, s).u == ONE && EuclidStep(n, s).z == OfOne(n, poly)
  {
    UnitBits(n);
    assert Shift(ZERO, 1) == ZERO;
    assert s.z == poly;
  }

  lemma OneStart(n: nat, poly: Poly)
    requires n > 0 && Below(poly, n)
    ensures TakingApart(n, poly, EuclidStart(n, ONE, poly))
  {
    UnitBits(n);
    assert ShiftWord(n, ONE, n) == ZERO by {
      forall e: nat ensures e !in ShiftWord(n, ONE, n) { ShiftWordBit(n, ONE, n, e); }
    }
    XorLaws(poly, ZERO, ZERO);
  }

  /** What the loop makes of 1 is 1 for two moduli only, x^n and x^n + x^(n - 1), and both have factors. */
  lemma OneIsRight(n: nat, poly: Poly)
    requires n > 0 && Below(poly, n)
    ensures OfOne(n, poly) == ONE <==> poly <= {n - 1} && 0 !in poly
  {
    if 0 in poly {
      assert 0 !in OfOne(n, poly);
    } else {
      var w := ShiftWord(n, poly, 1);
      XorLaws(ONE, w, ZERO);
      assert Xor(ONE, w) == ONE <==> w == ZERO;
      forall e: nat ensures e in w <==> e < n && e >= 1 && e - 1 in poly { ShiftWordBit(n, poly, 1, e); }
      forall e | e in poly && e < n - 1 ensures e + 1 in w {}
    }
  }

  lemma OneCoprime(p: Poly)
    ensures NoCommonFactor(p, ONE)
  {
    forall d ensures OnlyUnit(d, p, ONE) { if Divides(d, ONE) { UnitDivisor(d); } }
  }

  /** For every modulus with a constant term, 1 is an input for which the result is wrong. */
  lemma OneFails(n: nat, poly: Poly)
    requires n > 0 && Below(poly, n) && 0 in poly
    ensures NoCommonFactor(Full(n, poly), ONE) && ModMul(n, OfOne(n, poly), ONE, poly) != ONE
  {
    OneCoprime(Full(n, poly));
    OneIsRight(n, poly);
    TimesOne(n, OfOne(n, poly), poly);
  }

  // ----- its buffers

  /** Add a multiple of v to u; h is scratch. */
  method CancelTop(u: array<Poly>, v: array<Poly>, h: array<Poly>, i: nat)
    requires u != v && u != h && v != h && 1 <= u.Length == v.Length == h.Length
    requires Bytes(u[..]) && Bytes(v[..]) && Ends(u.Length, i)
    modifies u, h
    ensures Bytes(u[..]) && Value(u[..]) == Xor(old(Value(u[..])), ShiftWord(8 * u.Length, Value(v[..]), i))
  {
    CopyBytes(h, v);
    VectorShiftLeftMany(h, i);
    VectorXor(u, h);
  }

  ghost predicate Apart(u: array<Poly>, v: array<Poly>, z: array<Poly>, g: array<Poly>, h: array<Poly>) {
    && u != v && u != z && u != g && u != h && v != z && v != g && v != h && z != g && z != h && g != h
    && 1 <= u.Length == v.Length == z.Length == g.Length == h.Length
  }

  /** The four words that the buffers hold. */
  ghost function Held4(u: array<Poly>, v: array<Poly>, z: array<Poly>, g: array<Poly>): Words4
    reads u, v, z, g
  {
    Words4(Value(u[..]), Value(v[..]), Value(z[..]), Value(g[..]))
  }

  ghost predicate AllBytes(u: array<Poly>, v: array<Poly>, z: array<Poly>, g: array<Poly>)
    reads u, v, z, g
  {
    Bytes(u[..]) && Bytes(v[..]) && Bytes(z[..]) && Bytes(g[..])
  }

  // ----- the loop, for any x but 0

  /** What holds of the four words until u is 1. */
  ghost predicate Going(n: nat, x: Poly, poly: Poly, s: Words4) {
    || (x == ONE && (TakingApart(n, poly, s) || (s.u == ONE && s.z == OfOne(n, poly))))
    || (x != ONE && Euclid4(n, Full(n, poly), x, s))
  }

  ghost function Measure(x: Poly, s: Words4): nat {
    if x != ONE then Size(s.u) + Size(s.v) else if s.u == ONE then 0 else 1 + |s.u|
  }

  ghost predicate Invertible(n: nat, x: Poly, poly: Poly) {
    n >= 8 && Below(x, n) && Below(poly, n) && x != ZERO && NoCommonFactor(Full(n, poly), x)
  }

  lemma GoingBegins(n: nat, x: Poly, poly: Poly)
    requires Invertible(n, x, poly)
    ensures Going(n, x, poly, EuclidStart(n, x, poly))
  {
    if x == ONE {
      OneStart(n, poly);
    } else {
      LargeEnough(n, x, poly);
      FirstStep(n, x, poly);
    }
  }

  lemma LargeEnough(n: nat, x: Poly, poly: Poly)
    requires n >= 8 && Below(x, n) && Below(poly, n) && x != ZERO && x != ONE
    ensures 2 <= Size(x) == Bits(x, n) <= n
  {
    SizeBelow(x, n);
    if Size(x) < 2 { SmallWord(n, x, poly); }
  }

  lemma GoingOn(n: nat, x: Poly, poly: Poly, s: Words4) returns (t: Words4)
    requires n > 0 && Going(n, x, poly, s) && s.u != ONE
    ensures t == EuclidStep(n, s) && Going(n, x, poly, t) && Measure(x, t) < Measure(x, s)
  {
    t := EuclidStep(n, s);
    if x != ONE {
      EuclidStepKeeps(n, Full(n, poly), x, s);
    } else if s.u == ZERO {
      NothingLeft(n, poly, s);
    } else {
      TakenStep(n, poly, s);
    }
  }

  lemma GoingEnds(n: nat, x: Poly, poly: Poly, s: Words4)
    requires Invertible(n, x, poly) && Going(n, x, poly, s) && s.u == ONE
    ensures ModMul(n, s.z, x, poly) == ONE <==> x != ONE || (poly <= {n - 1} && 0 !in poly)
    ensures x == ONE ==> s.z == OfOne(n, poly)
  {
    if x == ONE {
      if TakingApart(n, poly, s) { assert 0 in s.u; }
      OneIsRight(n, poly);
      TimesOne(n, OfOne(n, poly), poly);
    } else {
      InverseFound(n, x, poly, s.v, s.z, s.g);
    }
  }

  lemma TimesOne(n: nat, z: Poly, poly: Poly)
    requires Below(z, n) && Below(poly, n)
    ensures ModMul(n, z, ONE, poly) == z
  {
    MulOne(z);
    CongRefl(z, Full(n, poly));
    ModMulIs(n, z, ONE, poly, z);
  }

  // ----- when it ends

  /** By how many bits a turn shifts. */
  function TurnShift(n: nat, s: Words4): nat {
    var t := Ordered(n, s);
    Bits(t.u, n) - Bits(t.v, n)
  }

  /** The loop is over after at most k turns, and the shifts in all of them end. */
  ghost predicate LoopEndsIn(len: nat, s: Words4, k: nat)
    decreases k
  {
    s.u == ONE || (k > 0 && Ends(len, TurnShift(8 * len, s)) && LoopEndsIn(len, EuclidStep(8 * len, s), k - 1))
  }

  ghost predicate LoopEnds(len: nat, s: Words4) {
    exists k: nat :: LoopEndsIn(len, s, k)
  }

  /** The call ends, for vectors of len bytes that hold x and poly. */
  ghost predicate InvertEnds(len: nat, x: Poly, poly: Poly) {
    Ends(len, FirstShift(8 * len, x)) && LoopEnds(len, EuclidStart(8 * len, x, poly))
  }

  function FirstShift(n: nat, x: Poly): nat {
    SizeBelow(x, n);
    n + 1 - Bits(x, n)
  }

  ghost predicate StoppedBy(n: nat, s: Words4, k: nat) {
    exists j: nat :: j <= k && StopsAfter(n, s, j)
  }

  /** Turn number k, if there is one, shifts no whole byte. */
  ghost predicate ShortAt(n: nat, s: Words4, k: nat) {
    StoppedBy(n, s, k) || TurnShift(n, EuclidAfter(n, s, k)) < 8
  }

  ghost predicate AllShort(n: nat, s: Words4) {
    forall k: nat :: ShortAt(n, s, k)
  }

  lemma ShortNext(n: nat, s: Words4, k: nat)
    requires s.u != ONE
    ensures ShortAt(n, EuclidStep(n, s), k) <==> ShortAt(n, s, k + 1)
  {
    var t := EuclidStep(n, s);
    if StoppedBy(n, s, k + 1) {
      var j: nat :| j <= k + 1 && StopsAfter(n, s, j);
      assert StopsAfter(n, t, j - 1);
    }
    if StoppedBy(n, t, k) {
      var j: nat :| j <= k && StopsAfter(n, t, j);
      assert StopsAfter(n, s, j + 1);
    }
  }

  lemma ShortRest(n: nat, s: Words4)
    requires AllShort(n, s) && s.u != ONE
    ensures TurnShift(n, s) < 8 && AllShort(n, EuclidStep(n, s))
  {
    assert ShortAt(n, s, 0);
    forall i: nat ensures ShortAt(n, EuclidStep(n, s), i) {
      assert ShortAt(n, s, i + 1);
      ShortNext(n, s, i);
    }
  }

  lemma {:induction false} StopsLoop(len: nat, s: Words4, k: nat)
    requires StopsAfter(8 * len, s, k) && (len < CHAR_VALUES || AllShort(8 * len, s))
    ensures LoopEndsIn(len, s, k)
    decreases k
  {
    if s.u != ONE {
      if len >= CHAR_VALUES { ShortRest(8 * len, s); }
      EndsIff(len, TurnShift(8 * len, s));
      StopsLoop(len, EuclidStep(8 * len, s), k - 1);
    }
  }

  lemma {:induction false} LoopStops(len: nat, s: Words4, k: nat)
    requires LoopEndsIn(len, s, k)
    ensures Stops(8 * len, s)
    decreases k
  {
    if s.u == ONE {
      assert StopsAfter(8 * len, s, 0);
    } else {
      LoopStops(len, EuclidStep(8 * len, s), k - 1);
      StopsNext(8 * len, s);
    }
  }

  lemma {:induction false} LoopShort(len: nat, s: Words4, k: nat, i: nat)
    requires len >= CHAR_VALUES && LoopEndsIn(len, s, k)
    ensures ShortAt(8 * len, s, i)
    decreases i
  {
    if s.u == ONE {
      assert StopsAfter(8 * len, s, 0);
    } else {
      EndsIff(len, TurnShift(8 * len, s));
      if i > 0 {
        LoopShort(len, EuclidStep(8 * len, s), k - 1, i - 1);
        ShortNext(8 * len, s, i - 1);
      }
    }
  }

  lemma {:induction false} GoingStops(n: nat, x: Poly, poly: Poly, s: Words4)
    requires n > 0 && Going(n, x, poly, s)
    ensures Stops(n, s)
    decreases Measure(x, s)
  {
    if s.u == ONE {
      assert StopsAfter(n, s, 0);
    } else {
      var t := GoingOn(n, x, poly, s);
      GoingStops(n, x, poly, t);
      StopsNext(n, s);
    }
  }

  /** StopsIff, for 1 as well. */
  lemma InvertStops(n: nat, x: Poly, poly: Poly)
    requires n >= 8 && Below(x, n) && Below(poly, n) && x != ZERO
    ensures Stops(n, EuclidStart(n, x, poly)) <==> NoCommonFactor(Full(n, poly), x)
  {
    if x == ONE {
      OneCoprime(Full(n, poly));
      GoingBegins(n, x, poly);
      GoingStops(n, x, poly, EuclidStart(n, x, poly));
    } else {
      LargeEnough(n, x, poly);
      StopsIff(n, x, poly);
    }
  }

  /** gf2_invert ends exactly if x has no factor in common with the modulus and, in vectors of 256 bytes or more,
      no shift on the way is by a whole byte. */
  lemma InvertEndsIff(len: nat, x: Poly, poly: Poly)
    requires len >= 1 && Below(x, 8 * len) && Below(poly, 8 * len) && x != ZERO
    ensures InvertEnds(len, x, poly) <==>
            NoCommonFactor(Full(8 * len, poly), x)
            && (len < CHAR_VALUES || (FirstShift(8 * len, x) < 8 && AllShort(8 * len, EuclidStart(8 * len, x, poly))))
  {
    var n, s := 8 * len, EuclidStart(8 * len, x, poly);
    EndsIff(len, FirstShift(n, x));
    InvertStops(n, x, poly);
    if LoopEnds(len, s) {
      var k: nat :| LoopEndsIn(len, s, k);
      LoopStops(len, s, k);
      if len >= CHAR_VALUES {
        forall i: nat ensures ShortAt(n, s, i) { LoopShort(len, s, k, i); }
      }
    }
    if Stops(n, s) && (len < CHAR_VALUES || AllShort(n, s)) {
      var k: nat :| StopsAfter(n, s, k);
      StopsLoop(len, s, k);
    }
  }

  /** Modulo x^n + 1 in vectors of 256 bytes or more: the call for 1 does not end, the one for x^(n - 1) does. */
  lemma LongVectors(len: nat)
    requires len >= CHAR_VALUES
    ensures NoCommonFactor(Full(8 * len, {0}), ONE) && !InvertEnds(len, ONE, {0})
    ensures NoCommonFactor(Full(8 * len, {0}), {8 * len - 1}) && InvertEnds(len, {8 * len - 1}, {0})
  {
    var n := 8 * len;
    var x: Poly := {n - 1};
    OneCoprime(Full(n, {0}));
    UnitBits(n);
    EndsIff(len, n);
    SizeIs(x, n);
    SizeBelow(x, n);
    EndsIff(len, 1);
    forall e: nat ensures e !in ShiftWord(n, x, 1) { ShiftWordBit(n, x, 1, e); }
    XorLaws({0}, ZERO, ZERO);
    assert EuclidStart(n, x, {0}).u == ONE;
    assert LoopEndsIn(len, EuclidStart(n, x, {0}), 0);
    InvertEndsIff(len, x, {0});
  }

  /** What the code needs of a call that ends. */
  lemma InvertGoes(len: nat, x: Poly, poly: Poly)
    requires len >= 1 && Below(x, 8 * len) && Below(poly, 8 * len) && x != ZERO && InvertEnds(len, x, poly)
    ensures Invertible(8 * len, x, poly) && Going(8 * len, x, poly, EuclidStart(8 * len, x, poly))
  {
    InvertEndsIff(len, x, poly);
    GoingBegins(8 * len, x, poly);
  }

  lemma LoopGoesOn(len: nat, s: Words4)
    requires LoopEnds(len, s) && s.u != ONE
    ensures Ends(len, TurnShift(8 * len, s)) && LoopEnds(len, EuclidStep(8 * len, s))
  {
    var k: nat :| LoopEndsIn(len, s, k);
    assert LoopEndsIn(len, EuclidStep(8 * len, s), k - 1);
  }

  // ----- the whole of it

  /** The swap of the pointers that puts the larger word first. */
  method OrderWords(u0: array<Poly>, v0: array<Poly>, z0: array<Poly>, g0: array<Poly>, ghost n: nat, ghost s: Words4)
    returns (u: array<Poly>, v: array<Poly>, z: array<Poly>, g: array<Poly>, i: int)
    requires AllBytes(u0, v0, z0, g0) && n == 8 * u0.Length == 8 * v0.Length && s == Held4(u0, v0, z0, g0)
    ensures (u, v, z, g) == (u0, v0, z0, g0) || (u, v, z, g) == (v0, u0, g0, z0)
    ensures Held4(u, v, z, g) == Ordered(n, s) && i == TurnShift(n, s)
  {
    u, v, z, g := u0, v0, z0, g0;
    var a: int := VectorSizeInBits(u);
    var b: int := VectorSizeInBits(v);
    i := a - b;
    if i < 0 {
      u, v := v, u;
      z, g := g, z;
      i := -i;
    }
  }

  method CancelBoth(u: array<Poly>, v: array<Poly>, z: array<Poly>, g: array<Poly>, h: array<Poly>, i: nat,
                    ghost n: nat, ghost s: Words4)
    requires Apart(u, v, z, g, h) && AllBytes(u, v, z, g) && Ends(h.Length, i)
    requires n == 8 * h.Length && s == Held4(u, v, z, g)
    modifies u, z, h
    ensures AllBytes(u, v, z, g) && Held4(u, v, z, g) == Cancelled(n, s, i)
  {
    CancelTop(u, v, h, i);
    CancelTop(z, g, h, i);
  }

  method InvertTurn(u0: array<Poly>, v0: array<Poly>, z0: array<Poly>, g0: array<Poly>, h: array<Poly>,
                    ghost bufs: set<array<Poly>>, ghost n: nat, ghost s: Words4)
    returns (u: array<Poly>, v: array<Poly>, z: array<Poly>, g: array<Poly>, one: bool)
    requires Apart(u0, v0, z0, g0, h) && AllBytes(u0, v0, z0, g0) && {u0, v0, z0, g0} <= bufs
    requires n == 8 * h.Length && s == Held4(u0, v0, z0, g0) && Ends(h.Length, TurnShift(n, s))
    modifies bufs, h
    ensures Apart(u, v, z, g, h) && AllBytes(u, v, z, g) && {u, v, z, g} <= bufs
    ensures Held4(u, v, z, g) == EuclidStep(n, s)
    ensures one <==> Held4(u, v, z, g).u == ONE
  {
    var i;
    u, v, z, g, i := OrderWords(u0, v0, z0, g0, n, s);
    CancelBoth(u, v, z, g, h, i, n, Ordered(n, s));
    StepInTwo(n, s);
    one := VectorEqByte(u, ONE);
  }

  lemma StepInTwo(n: nat, s: Words4)
    ensures EuclidStep(n, s) == Cancelled(n, Ordered(n, s), TurnShift(n, s))
  {
  }

  /** The four words before the first turn. */
  method SetUp(x: array<Poly>, poly: array<Poly>, u: array<Poly>, v: array<Poly>, z: array<Poly>, g: array<Poly>,
               ghost h: array<Poly>)
    requires Apart(u, v, z, g, h) && {x, poly} !! {u, v, z, g, h} && x.Length == poly.Length == u.Length
    requires Bytes(x[..]) && Bytes(poly[..])
    modifies u, v, z, g
    ensures AllBytes(u, v, z, g) && Held4(u, v, z, g) == Words4(Value(poly[..]), Value(x[..]), ZERO, ONE)
  {
    CopyBytes(u, poly);
    CopyBytes(v, x);
    ZeroBytes(z, 0);
    ValueZeros(z[..]);
    SetOne(g);
  }

  /** The first turn, with the implicit top bit of the modulus. */
  method InvertBegins(x: array<Poly>, poly: array<Poly>, u: array<Poly>, v: array<Poly>, z: array<Poly>, g: array<Poly>,
                      h: array<Poly>, ghost n: nat)
    requires Apart(u, v, z, g, h) && {x, poly} !! {u, v, z, g, h} && x.Length == poly.Length == u.Length
    requires n == 8 * h.Length
    requires Bytes(x[..]) && Bytes(poly[..]) && Ends(h.Length, FirstShift(n, Value(x[..])))
    modifies u, v, z, g, h
    ensures AllBytes(u, v, z, g)
    ensures Held4(u, v, z, g) == EuclidStart(n, Value(x[..]), Value(poly[..]))
  {
    SetUp(x, poly, u, v, z, g, h);
    var size := VectorSizeInBits(v);
    var i: int := 8 * u.Length + 1 - size;
    assert i == FirstShift(n, Value(x[..]));
    CancelBoth(u, v, z, g, h, i, n, Words4(Value(poly[..]), Value(x[..]), ZERO, ONE));
  }

  method SetOne(g: array<Poly>)
    requires 1 <= g.Length
    modifies g
    ensures Bytes(g[..]) && Value(g[..]) == ONE
  {
    ZeroBytes(g, 0);
    g[g.Length - 1] := ONE;
    LastByte(g[..], ONE);
  }

  /** gf2_invert: false stands for EDOM.  What it leaves in dest times x is 1, unless x is 1 itself. */
  method Gf2Invert(dest: array<Poly>, x: array<Poly>, poly: array<Poly>) returns (ok: bool)
    requires dest != x && dest != poly && 1 <= dest.Length == x.Length == poly.Length
    requires Bytes(x[..]) && Bytes(poly[..])
    requires Value(x[..]) != ZERO ==> InvertEnds(dest.Length, Value(x[..]), Value(poly[..]))
    modifies dest
    ensures ok <==> Value(x[..]) != ZERO
    ensures ok ==> Bytes(dest[..]) && Below(Value(poly[..]), 8 * dest.Length)
    ensures ok ==> (ModMul(8 * dest.Length, Value(dest[..]), Value(x[..]), Value(poly[..])) == ONE <==>
                    Value(x[..]) != ONE || (Value(poly[..]) <= {8 * dest.Length - 1} && 0 !in Value(poly[..])))
  {
    var zero := VectorEqByte(x, ZERO);
    if zero { return false; }
    var u, v := new Poly[dest.Length](_ => ZERO), new Poly[dest.Length](_ => ZERO);
    var g, h := new Poly[dest.Length](_ => ZERO), new Poly[dest.Length](_ => ZERO);
    InvertIn(dest, x, poly, u, v, g, h, 8 * dest.Length, Value(x[..]), Value(poly[..]));
    ok := true;
  }

  /** The same with the scratch buffers. */
  method InvertIn(dest: array<Poly>, x: array<Poly>, poly: array<Poly>, u: array<Poly>, v: array<Poly>, g: array<Poly>,
                  h: array<Poly>, ghost n: nat, ghost vx: Poly, ghost vp: Poly)
    requires Apart(u, v, dest, g, h) && {x, poly} !! {u, v, dest, g, h} && x.Length == poly.Length == u.Length
    requires Bytes(x[..]) && Bytes(poly[..]) && vx == Value(x[..]) && vp == Value(poly[..]) && n == 8 * h.Length
    requires vx != ZERO && InvertEnds(h.Length, vx, vp)
    modifies {u, v, dest, g}, h
    ensures Bytes(dest[..]) && Below(vp, n)
    ensures ModMul(n, Value(dest[..]), vx, vp) == ONE <==> vx != ONE || (vp <= {n - 1} && 0 !in vp)
  {
    InvertGoes(h.Length, vx, vp);
    InvertBegins(x, poly, u, v, dest, g, h, n);
    InvertRest(dest, u, v, g, h, n, vx, vp);
  }

  method InvertRest(dest: array<Poly>, u: array<Poly>, v: array<Poly>, g: array<Poly>, h: array<Poly>, ghost n: nat,
                    ghost vx: Poly, ghost vp: Poly)
    requires Apart(u, v, dest, g, h) && AllBytes(u, v, dest, g) && n == 8 * h.Length && Invertible(n, vx, vp)
    requires Going(n, vx, vp, Held4(u, v, dest, g)) && LoopEnds(h.Length, Held4(u, v, dest, g))
    modifies {u, v, dest, g}, h
    ensures Bytes(dest[..])
    ensures ModMul(n, Value(dest[..]), vx, vp) == ONE <==> vx != ONE || (vp <= {n - 1} && 0 !in vp)
  {
    var z := InvertLoop(vx, vp, u, v, dest, g, h, {u, v, dest, g}, n);
    Deliver(dest, z);
  }

  /** The words may have changed places, so that the result need not be in dest. */
  method Deliver(dest: array<Poly>, z: array<Poly>)
    requires dest.Length == z.Length
    modifies dest
    ensures dest[..] == old(z[..])
  {
    if z != dest { CopyBytes(dest, z); }
  }

  method InvertLoop(ghost x: Poly, ghost poly: Poly, u0: array<Poly>, v0: array<Poly>, z0: array<Poly>, g0: array<Poly>,
                    h: array<Poly>, ghost bufs: set<array<Poly>>, ghost n: nat) returns (z: array<Poly>)
    requires Apart(u0, v0, z0, g0, h) && AllBytes(u0, v0, z0, g0) && {u0, v0, z0, g0} <= bufs
    requires n == 8 * h.Length && Invertible(n, x, poly) && Going(n, x, poly, Held4(u0, v0, z0, g0))
    requires LoopEnds(h.Length, Held4(u0, v0, z0, g0))
    modifies bufs, h
    ensures z.Length == h.Length && Bytes(z[..])
    ensures ModMul(n, Value(z[..]), x, poly) == ONE <==> x != ONE || (poly <= {n - 1} && 0 !in poly)
  {
    var u, v, g := u0, v0, g0;
    z := z0;
    ghost var s := Held4(u0, v0, z0, g0);
    var one := VectorEqByte(u, ONE);
    while !one
      invariant Apart(u, v, z, g, h) && {u, v, z, g} <= bufs
      invariant AllBytes(u, v, z, g) && s == Held4(u, v, z, g)
      invariant Going(n, x, poly, s) && LoopEnds(h.Length, s)
      invariant one <==> s.u == ONE
      decreases Measure(x, s)
      modifies bufs, h
    {
      ghost var was := s;
      LoopGoesOn(h.Length, s);
      s := GoingOn(n, x, poly, s);
      u, v, z, g, one := InvertTurn(u, v, z, g, h, bufs, n, was);
    }
    GoingEnds(n, x, poly, s);
  }
}
