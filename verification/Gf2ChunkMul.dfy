/** fast_gf2.c: the table builders and multiplications of 16-bit methods 7 and 8 and 32-bit methods 1 to 3.
    Each product of two words is summed from the top chunk down; between two steps the sum is shifted by a
    byte, through the reduction table once it may have grown to the width of the word. */
module Gf2ChunkMul {
  import opened Gf2Poly
  import opened Gf2Words
  import opened Gf2Digits
  import opened Gf2Field
  import opened Gf2Chunks

  // ----- builders

  lemma RowKept(was: seq<Poly>, t: seq<Poly>, i: nat, r: nat, x: Poly)
    requires |t| == |was| && r != i && Row(was, r, x)
    requires forall k :: 0 <= k < |t| && !(256 * i <= k < 256 * i + 256) ==> t[k] == was[k]
    ensures Row(t, r, x)
  {
    forall j | 0 <= j < 256 ensures Cell(t, r, x, j) { assert Cell(was, r, x, j); }
  }

  /** Row 0: the products with zero. */
  method ZeroRow(t: array<Poly>, ghost s: nat)
    requires t.Length >= 256
    modifies t
    ensures RowOf(t[..], s, 0)
  {
    assert Word(0) == ZERO && Shift(ZERO, s) == ZERO;
    var j := 0;
    while j < 256
      invariant 0 <= j <= 256
      invariant forall c :: 0 <= c < j ==> Cell(t[..], 0, ZERO, c)
      modifies t
    {
      ghost var was := t[..];
      t[j] := ZERO;
      MulUnits(Word(j));
      forall c | 0 <= c < j + 1 ensures Cell(t[..], 0, ZERO, c) {
        if c < j { assert Cell(was, 0, ZERO, c); }
      }
      j := j + 1;
    }
  }

  lemma ShiftedWord(i: nat, w: nat, s: nat)
    requires i < TwoTo(w)
    ensures Below(Shift(Word(i), s), w + s)
  {
    WordBelow(i, w);
    forall e | e in Shift(Word(i), s) ensures e < w + s { ShiftMember(Word(i), s, e); }
  }

  /** All straight products of i << s, for i of w bits, and a byte. */
  method ProductTable(w: nat, s: nat) returns (t: array<Poly>)
    requires w + s >= 8
    ensures Products(t[..], TwoTo(w), s)
    ensures fresh(t)
  {
    var rows := TwoTo(w);
    t := new Poly[256 * rows];
    ZeroRow(t, s);
    var i := 1;
    while i < rows
      invariant 1 <= i <= rows
      invariant forall r :: 0 <= r < i ==> RowOf(t[..], s, r)
      modifies t
    {
      ghost var was := t[..];
      ShiftedWord(i, w, s);
      FillRow(t, i, w + s, Shift(Word(i), s));
      forall r | 0 <= r < i + 1 ensures RowOf(t[..], s, r) {
        if r < i {
          assert RowOf(was, s, r);
          RowKept(was, t[..], i, r, Shift(Word(r), s));
        }
      }
      i := i + 1;
    }
  }

  method ShiftTable(n: nat, poly: Poly) returns (tab: array<Poly>)
    requires n >= 8 && Below(poly, n)
    ensures Reducers(n, poly, tab[..])
    ensures fresh(tab)
  {
    tab := new Poly[256];
    tab[0] := ZERO;
    assert Word(0) == ZERO && Shift(ZERO, n) == ZERO;
    CongRefl(ZERO, Full(n, poly));
    var i := 1;
    while i < 256
      invariant 1 <= i <= 256
      invariant forall r :: 0 <= r < i ==> Reduces(n, poly, tab[..], r)
      modifies tab
    {
      ghost var was := tab[..];
      var k := ShiftEntry(n, poly, i);
      tab[i] := k;
      forall r | 0 <= r < i + 1 ensures Reduces(n, poly, tab[..], r) {
        if r < i { assert Reduces(n, poly, was, r); }
      }
      i := i + 1;
    }
  }

  // ----- lookups

  lemma ProductBelow(a: Poly, b: Poly, j: nat, k: nat)
    requires Below(a, j) && Below(b, k) && j > 0
    ensures Below(Mul(a, b), j + k - 1)
  {
    MulSize(a, b);
    SizeBelow(a, j);
    SizeBelow(b, k);
    SizeBelow(Mul(a, b), j + k - 1);
  }

  /** The straight product of a word of w bits and a byte, from one table. */
  method Product(t: array<Poly>, w: nat, a: Poly, b: Poly) returns (p: Poly)
    requires w > 0 && Products(t[..], TwoTo(w), 0) && Below(a, w) && Below(b, 8)
    ensures p == Mul(a, b) && Below(p, w + 7)
  {
    Lookup(t[..], w, 0, a, b);
    ShiftZero(a);
    ProductBelow(a, b, w, 8);
    p := t[256 * Number(a, w) + Number(b, 8)];
  }

  /** The straight product of two bytes, from the tables for the two halves of the first. */
  method NibbleProduct(l: array<Poly>, r: array<Poly>, a: Poly, b: Poly) returns (p: Poly)
    requires Products(l[..], TwoTo(4), 4) && Products(r[..], TwoTo(4), 0) && Below(a, 8) && Below(b, 8)
    ensures p == Mul(a, b) && Below(p, 15)
  {
    var high, low := Chunk(a, 4, 4), Chunk(a, 0, 4);
    Lookup(l[..], 4, 4, high, b);
    Lookup(r[..], 4, 0, low, b);
    TwoChunks(a, 4);
    ShiftZero(low);
    MulLeft(low, Shift(high, 4), b);
    XorLaws(Mul(low, b), Mul(Shift(high, 4), b), ZERO);
    ProductBelow(a, b, 8, 8);
    p := Xor(l[256 * Number(high, 4) + Number(b, 8)], r[256 * Number(low, 4) + Number(b, 8)]);
  }

  // ----- the lines of a multiplication; x is the exact polynomial that c stands for

  /** c ^= p */
  method Plus(n: nat, ghost poly: Poly, c0: Poly, ghost x0: Poly, p: Poly, ghost m: nat)
    returns (c: Poly, ghost x: Poly)
    requires StandsFor(n, poly, c0, x0) && Below(c0, m) && Below(p, m) && m <= n
    ensures x == Xor(x0, p) && StandsFor(n, poly, c, x) && Below(c, m)
  {
    c, x := Xor(c0, p), Xor(x0, p);
    AddStep(n, poly, c0, x0, p);
  }

  /** c = (c << 8) ^ shift_tab[c >> (n - 8)] */
  method Up(n: nat, ghost poly: Poly, tab: array<Poly>, c0: Poly, ghost x0: Poly) returns (c: Poly, ghost x: Poly)
    requires n >= 8 && Reducers(n, poly, tab[..]) && StandsFor(n, poly, c0, x0)
    ensures x == Shift(x0, 8) && StandsFor(n, poly, c, x)
  {
    ByteCount();
    ShiftStep(n, poly, tab[..], c0, x0);
    c, x := Xor(ShiftWord(n, c0, 8), tab[Number(Down(c0, n - 8), 8)]), Shift(x0, 8);
  }

  /** c <<= 8, of a sum that leaves a byte of room. */
  method SafeUp(n: nat, ghost poly: Poly, c0: Poly, ghost x0: Poly, ghost m: nat) returns (c: Poly, ghost x: Poly)
    requires m + 8 <= n && StandsFor(n, poly, c0, x0) && Below(c0, m)
    ensures x == Shift(x0, 8) && StandsFor(n, poly, c, x) && Below(c, m + 8)
    ensures c == Shift(c0, 8)
  {
    c, x := ShiftWord(n, c0, 8), Shift(x0, 8);
    SizeBelow(c0, m);
    ShiftWordExact(n, c0, 8);
    SizeShift(c0, 8);
    SizeBelow(c, m + 8);
    CongShift(c0, x0, 8, Full(n, poly));
  }

  // ----- the sums that the lines compute

  /** What has been summed once the diagonals from k on are in. */
  ghost function Upper(a: seq<Poly>, b: seq<Poly>, k: nat): Poly
    requires k <= |a| + |b|
  {
    Value(Diagonals(a, b)[k..], 8)
  }

  lemma UpperStep(a: seq<Poly>, b: seq<Poly>, k: nat)
    requires k < |a| + |b|
    ensures Upper(a, b, k) == Xor(Diagonal(a, b, k), Shift(Upper(a, b, k + 1), 8))
  {
    var d := Diagonals(a, b);
    assert d[k..][1..] == d[k + 1..];
  }

  lemma Diagonal4(a: seq<Poly>, b: seq<Poly>, k: int)
    requires |a| == 4
    ensures Diagonal(a, b, k) == Xor(Term(a[0], b, k),
                                     Xor(Term(a[1], b, k - 1), Xor(Term(a[2], b, k - 2), Term(a[3], b, k - 3))))
  {
    var t1, t2, t3 := a[1..], a[2..], a[3..];
    assert t1[1..] == t2 && t2[1..] == t3 && t3[1..] == [];
    assert Diagonal(t3, b, k - 3) == Xor(Term(a[3], b, k - 3), ZERO);
    assert Diagonal(t2, b, k - 2) == Xor(Term(a[2], b, k - 2), Diagonal(t3, b, k - 3));
    assert Diagonal(t1, b, k - 1) == Xor(Term(a[1], b, k - 1), Diagonal(t2, b, k - 2));
  }

  /** One line of sums: the shifted sum so far, and the products on diagonal k. */
  lemma Line4(a: seq<Poly>, b: seq<Poly>, k: nat, s: Poly)
    requires |a| == 4 && |b| == 4 && k < 8 && s == Shift(Upper(a, b, k + 1), 8)
    ensures Upper(a, b, k) == Xor(Xor(Xor(Xor(s, Term(a[3], b, k - 3)), Term(a[2], b, k - 2)), Term(a[1], b, k - 1)),
                                  Term(a[0], b, k))
  {
    UpperStep(a, b, k);
    Diagonal4(a, b, k);
  }

  lemma Top4(a: seq<Poly>, b: seq<Poly>)
    requires |a| == 4 && |b| == 4
    ensures Upper(a, b, 6) == Mul(a[3], b[3])
  {
    assert Shift(ZERO, 8) == ZERO;
    Line4(a, b, 7, ZERO);
    Line4(a, b, 6, ZERO);
  }

  lemma Result4(poly: Poly, a: Poly, b: Poly, da: seq<Poly>, db: seq<Poly>, r: Poly)
    requires Below(poly, 32) && Value(da, 8) == a && Value(db, 8) == b && StandsFor(32, poly, r, Upper(da, db, 0))
    ensures r == ModMul(32, a, b, poly)
  {
    var d := Diagonals(da, db);
    assert d[0..] == d;
    ProductOfValues(da, db, 8);
    ModMulIs(32, a, b, poly, r);
  }

  /** The lines of the 4-by-4 products, from the top. */
  lemma Lines4(a: seq<Poly>, b: seq<Poly>)
    requires |a| == 4 && |b| == 4
    ensures Upper(a, b, 6) == Mul(a[3], b[3])
    ensures Upper(a, b, 5) == Xor(Xor(Shift(Upper(a, b, 6), 8), Mul(a[3], b[2])), Mul(a[2], b[3]))
    ensures Upper(a, b, 4) == Xor(Xor(Xor(Shift(Upper(a, b, 5), 8), Mul(a[3], b[1])), Mul(a[2], b[2])), Mul(a[1], b[3]))
    ensures Upper(a, b, 3)
         == Xor(Xor(Xor(Xor(Shift(Upper(a, b, 4), 8), Mul(a[3], b[0])), Mul(a[2], b[1])), Mul(a[1], b[2])),
                Mul(a[0], b[3]))
    ensures Upper(a, b, 2) == Xor(Xor(Xor(Shift(Upper(a, b, 3), 8), Mul(a[2], b[0])), Mul(a[1], b[1])), Mul(a[0], b[2]))
    ensures Upper(a, b, 1) == Xor(Xor(Shift(Upper(a, b, 2), 8), Mul(a[1], b[0])), Mul(a[0], b[1]))
    ensures Upper(a, b, 0) == Xor(Shift(Upper(a, b, 1), 8), Mul(a[0], b[0]))
  {
    Top4(a, b);
    forall s: Poly ensures Xor(s, ZERO) == s { XorLaws(s, s, s); }
    Line4(a, b, 5, Shift(Upper(a, b, 6), 8));
    Line4(a, b, 4, Shift(Upper(a, b, 5), 8));
    Line4(a, b, 3, Shift(Upper(a, b, 4), 8));
    Line4(a, b, 2, Shift(Upper(a, b, 3), 8));
    Line4(a, b, 1, Shift(Upper(a, b, 2), 8));
    Line4(a, b, 0, Shift(Upper(a, b, 1), 8));
  }

  /** The lines when a comes in two chunks of 16 bits. */
  lemma LinesWide(low: Poly, high: Poly, b: seq<Poly>)
    requires |b| == 4
    ensures var a := [low, ZERO, high, ZERO];
      && Upper(a, b, 5) == Mul(high, b[3])
      && Upper(a, b, 4) == Xor(Shift(Upper(a, b, 5), 8), Mul(high, b[2]))
      && Upper(a, b, 3) == Xor(Xor(Shift(Upper(a, b, 4), 8), Mul(high, b[1])), Mul(low, b[3]))
      && Upper(a, b, 2) == Xor(Xor(Shift(Upper(a, b, 3), 8), Mul(low, b[2])), Mul(high, b[0]))
      && Upper(a, b, 1) == Xor(Shift(Upper(a, b, 2), 8), Mul(low, b[1]))
      && Upper(a, b, 0) == Xor(Shift(Upper(a, b, 1), 8), Mul(low, b[0]))
  {
    var a := [low, ZERO, high, ZERO];
    Lines4(a, b);
    forall s: Poly ensures Xor(s, ZERO) == s { XorLaws(s, s, s); }
    assert Shift(ZERO, 8) == ZERO;
    MulUnits(b[0]);
    MulUnits(b[1]);
    MulUnits(b[2]);
    MulUnits(b[3]);
    XorLaws(Mul(high, b[3]), ZERO, ZERO);
    var s, p, q := Shift(Upper(a, b, 3), 8), Mul(high, b[0]), Mul(low, b[2]);
    XorLaws(s, p, q);
    XorLaws(s, q, p);
    XorLaws(p, q, s);
  }

  // ----- multiplications

  ghost predicate IsProduct(p: seq<seq<Poly>>, a: seq<Poly>, b: seq<Poly>, i: nat, j: nat) {
    i < |p| && j < |p[i]| && i < |a| && j < |b| && p[i][j] == Mul(a[i], b[j]) && Below(p[i][j], 15)
  }

  ghost predicate AllProducts(p: seq<seq<Poly>>, a: seq<Poly>, b: seq<Poly>) {
    forall i, j :: 0 <= i < 4 && 0 <= j < 4 ==> IsProduct(p, a, b, i, j)
  }

  lemma ProductsOn(p: seq<seq<Poly>>, a: seq<Poly>, b: seq<Poly>, i: nat)
    requires AllProducts(p, a, b) && i < 4
    ensures IsProduct(p, a, b, i, 0) && IsProduct(p, a, b, i, 1) && IsProduct(p, a, b, i, 2) && IsProduct(p, a, b, i, 3)
  {
  }

  /** The first three lines of gf2_fast_u32_mul_m2 and _m3: the shifts between them need no reduction. */
  method HighLines(ghost poly: Poly, ghost da: seq<Poly>, ghost db: seq<Poly>, p: seq<seq<Poly>>) returns (c: Poly)
    requires |da| == 4 && |db| == 4 && AllProducts(p, da, db)
    ensures StandsFor(32, poly, c, Upper(da, db, 4))
  {
    Lines4(da, db);
    ProductsOn(p, da, db, 3);
    ProductsOn(p, da, db, 2);
    ProductsOn(p, da, db, 1);
    ghost var x;
    c, x := p[3][3], p[3][3];
    Exactly(32, poly, c);
    c, x := SafeUp(32, poly, c, x, 15);
    c, x := Plus(32, poly, c, x, p[3][2], 23);
    c, x := Plus(32, poly, c, x, p[2][3], 23);
    c, x := SafeUp(32, poly, c, x, 23);
    c, x := Plus(32, poly, c, x, p[3][1], 32);
    c, x := Plus(32, poly, c, x, p[2][2], 32);
    c, x := Plus(32, poly, c, x, p[1][3], 32);
  }

  /** The other four lines. */
  method LowLines(ghost poly: Poly, shiftTab: array<Poly>, ghost da: seq<Poly>, ghost db: seq<Poly>, p: seq<seq<Poly>>,
                  c0: Poly)
    returns (c: Poly)
    requires |da| == 4 && |db| == 4 && AllProducts(p, da, db) && Reducers(32, poly, shiftTab[..])
    requires StandsFor(32, poly, c0, Upper(da, db, 4))
    ensures StandsFor(32, poly, c, Upper(da, db, 0))
  {
    Lines4(da, db);
    ProductsOn(p, da, db, 3);
    ProductsOn(p, da, db, 2);
    ProductsOn(p, da, db, 1);
    ProductsOn(p, da, db, 0);
    ghost var x;
    c, x := Up(32, poly, shiftTab, c0, Upper(da, db, 4));
    c, x := Plus(32, poly, c, x, p[3][0], 32);
    c, x := Plus(32, poly, c, x, p[2][1], 32);
    c, x := Plus(32, poly, c, x, p[1][2], 32);
    c, x := Plus(32, poly, c, x, p[0][3], 32);
    c, x := Up(32, poly, shiftTab, c, x);
    c, x := Plus(32, poly, c, x, p[2][0], 32);
    c, x := Plus(32, poly, c, x, p[1][1], 32);
    c, x := Plus(32, poly, c, x, p[0][2], 32);
    c, x := Up(32, poly, shiftTab, c, x);
    c, x := Plus(32, poly, c, x, p[1][0], 32);
    c, x := Plus(32, poly, c, x, p[0][1], 32);
    c, x := Up(32, poly, shiftTab, c, x);
    c, x := Plus(32, poly, c, x, p[0][0], 32);
  }

  /** The lookups for one byte of a: straight products with the four bytes of b. */
  method ByteRow(t: array<Poly>, a: Poly, b: Poly) returns (p: seq<Poly>)
    requires Products(t[..], TwoTo(8), 0) && Below(a, 8)
    ensures |p| == 4 && forall j :: 0 <= j < 4 ==> p[j] == Mul(a, Bytes4(b)[j]) && Below(p[j], 15)
  {
    var p0 := Product(t, 8, a, Chunk(b, 0, 8));
    var p1 := Product(t, 8, a, Chunk(b, 8, 8));
    var p2 := Product(t, 8, a, Chunk(b, 16, 8));
    var p3 := Product(t, 8, a, Chunk(b, 24, 8));
    p := [p0, p1, p2, p3];
  }

  method NibbleRow(l: array<Poly>, r: array<Poly>, a: Poly, b: Poly) returns (p: seq<Poly>)
    requires Products(l[..], TwoTo(4), 4) && Products(r[..], TwoTo(4), 0) && Below(a, 8)
    ensures |p| == 4 && forall j :: 0 <= j < 4 ==> p[j] == Mul(a, Bytes4(b)[j]) && Below(p[j], 15)
  {
    var p0 := NibbleProduct(l, r, a, Chunk(b, 0, 8));
    var p1 := NibbleProduct(l, r, a, Chunk(b, 8, 8));
    var p2 := NibbleProduct(l, r, a, Chunk(b, 16, 8));
    var p3 := NibbleProduct(l, r, a, Chunk(b, 24, 8));
    p := [p0, p1, p2, p3];
  }

  /** gf2_fast_u32_mul_m2: 8-bit chunks. */
  method U32MulM2(ghost poly: Poly, mulTable: array<Poly>, shiftTab: array<Poly>, a: Poly, b: Poly) returns (c: Poly)
    requires Below(poly, 32) && Products(mulTable[..], TwoTo(8), 0) && Reducers(32, poly, shiftTab[..])
    requires Below(a, 32) && Below(b, 32)
    ensures c == ModMul(32, a, b, poly)
  {
    var r0 := ByteRow(mulTable, Chunk(a, 0, 8), b);
    var r1 := ByteRow(mulTable, Chunk(a, 8, 8), b);
    var r2 := ByteRow(mulTable, Chunk(a, 16, 8), b);
    var r3 := ByteRow(mulTable, Chunk(a, 24, 8), b);
    c := HighLines(poly, Bytes4(a), Bytes4(b), [r0, r1, r2, r3]);
    c := LowLines(poly, shiftTab, Bytes4(a), Bytes4(b), [r0, r1, r2, r3], c);
    Bytes4Value(a);
    Bytes4Value(b);
    Result4(poly, a, b, Bytes4(a), Bytes4(b), c);
  }

  /** gf2_fast_u32_mul_m3: 4-bit by 8-bit chunks. */
  method U32MulM3(ghost poly: Poly, lmulTable: array<Poly>, rmulTable: array<Poly>, shiftTab: array<Poly>, a: Poly,
                  b: Poly)
    returns (c: Poly)
    requires Below(poly, 32) && Products(lmulTable[..], TwoTo(4), 4) && Products(rmulTable[..], TwoTo(4), 0)
    requires Reducers(32, poly, shiftTab[..]) && Below(a, 32) && Below(b, 32)
    ensures c == ModMul(32, a, b, poly)
  {
    var r0 := NibbleRow(lmulTable, rmulTable, Chunk(a, 0, 8), b);
    var r1 := NibbleRow(lmulTable, rmulTable, Chunk(a, 8, 8), b);
    var r2 := NibbleRow(lmulTable, rmulTable, Chunk(a, 16, 8), b);
    var r3 := NibbleRow(lmulTable, rmulTable, Chunk(a, 24, 8), b);
    c := HighLines(poly, Bytes4(a), Bytes4(b), [r0, r1, r2, r3]);
    c := LowLines(poly, shiftTab, Bytes4(a), Bytes4(b), [r0, r1, r2, r3], c);
    Bytes4Value(a);
    Bytes4Value(b);
    Result4(poly, a, b, Bytes4(a), Bytes4(b), c);
  }

  /** gf2_fast_u32_mul_m1: 16-bit by 8-bit chunks. */
  method U32MulM1(ghost poly: Poly, mulTable: array<Poly>, shiftTab: array<Poly>, a: Poly, b: Poly) returns (c: Poly)
    requires Below(poly, 32) && Products(mulTable[..], TwoTo(16), 0) && Reducers(32, poly, shiftTab[..])
    requires Below(a, 32) && Below(b, 32)
    ensures c == ModMul(32, a, b, poly)
  {
    var high, low := Chunk(a, 16, 16), Chunk(a, 0, 16);
    var b3, b2, b1, b0 := Chunk(b, 24, 8), Chunk(b, 16, 8), Chunk(b, 8, 8), Chunk(b, 0, 8);
    ghost var da, db := [low, ZERO, high, ZERO], Bytes4(b);
    LinesWide(low, high, db);
    ghost var x;
    c := Product(mulTable, 16, high, b3);
    x := c;
    Exactly(32, poly, c);
    c, x := SafeUp(32, poly, c, x, 23);
    var p := Product(mulTable, 16, high, b2);
    c, x := Plus(32, poly, c, x, p, 32);
    c, x := Up(32, poly, shiftTab, c, x);
    p := Product(mulTable, 16, high, b1);
    c, x := Plus(32, poly, c, x, p, 32);
    p := Product(mulTable, 16, low, b3);
    c, x := Plus(32, poly, c, x, p, 32);
    c, x := Up(32, poly, shiftTab, c, x);
    p := Product(mulTable, 16, low, b2);
    c, x := Plus(32, poly, c, x, p, 32);
    p := Product(mulTable, 16, high, b0);
    c, x := Plus(32, poly, c, x, p, 32);
    c, x := Up(32, poly, shiftTab, c, x);
    p := Product(mulTable, 16, low, b1);
    c, x := Plus(32, poly, c, x, p, 32);
    c, x := Up(32, poly, shiftTab, c, x);
    p := Product(mulTable, 16, low, b0);
    c, x := Plus(32, poly, c, x, p, 32);
    WideValue(a);
    Bytes4Value(b);
    Result4(poly, a, b, da, db, c);
  }

  lemma WideValue(a: Poly)
    requires Below(a, 32)
    ensures Value([Chunk(a, 0, 16), ZERO, Chunk(a, 16, 16), ZERO], 8) == a
  {
    var high, low := Chunk(a, 16, 16), Chunk(a, 0, 16);
    TwoChunks(a, 16);
    ValueOf4([low, ZERO, high, ZERO], 8);
    assert Shift(ZERO, 8) == ZERO;
    XorLaws(high, ZERO, ZERO);
    XorLaws(Shift(high, 8), ZERO, ZERO);
    ShiftShift(high, 8, 8);
  }

  // ----- 16-bit words: two bytes each

  lemma Lines2(a1: Poly, a0: Poly, b1: Poly, b0: Poly)
    ensures Mul(Xor(a0, Shift(a1, 8)), Xor(b0, Shift(b1, 8)))
         == Xor(Shift(Xor(Xor(Shift(Mul(a1, b1), 8), Mul(a1, b0)), Mul(a0, b1)), 8), Mul(a0, b0))
  {
    var b := Xor(b0, Shift(b1, 8));
    var p, q, r := Mul(a1, b1), Mul(a1, b0), Mul(a0, b1);
    MulLeft(a0, Shift(a1, 8), b);
    MulRight(a0, b0, Shift(b1, 8));
    MulRight(a1, b0, Shift(b1, 8));
    MulShift(a1, b, 8);
    MulShift(a0, b1, 8);
    MulShift(a1, b1, 8);
    ShiftXor(q, Shift(p, 8), 8);
    ShiftXor(Xor(Shift(p, 8), q), r, 8);
    ShiftXor(Shift(p, 8), q, 8);
    Rearranged(Mul(a0, b0), Shift(r, 8), Shift(q, 8), Shift(Shift(p, 8), 8));
  }

  lemma Rearranged(s: Poly, r: Poly, q: Poly, p: Poly)
    ensures Xor(Xor(s, r), Xor(q, p)) == Xor(Xor(Xor(p, q), r), s)
  {
  }

  lemma Result2(poly: Poly, a: Poly, b: Poly, r: Poly, x: Poly)
    requires Below(poly, 16) && Below(a, 16) && Below(b, 16) && StandsFor(16, poly, r, x)
    requires var a1, a0, b1, b0 := Chunk(a, 8, 8), Chunk(a, 0, 8), Chunk(b, 8, 8), Chunk(b, 0, 8);
      x == Xor(Shift(Xor(Xor(Shift(Mul(a1, b1), 8), Mul(a1, b0)), Mul(a0, b1)), 8), Mul(a0, b0))
    ensures r == ModMul(16, a, b, poly)
  {
    TwoChunks(a, 8);
    TwoChunks(b, 8);
    Lines2(Chunk(a, 8, 8), Chunk(a, 0, 8), Chunk(b, 8, 8), Chunk(b, 0, 8));
    ModMulIs(16, a, b, poly, r);
  }

  /** gf2_fast_u16_mul_m7: 8-bit chunks. */
  method U16MulM7(ghost poly: Poly, mulTable: array<Poly>, shiftTab: array<Poly>, a: Poly, b: Poly) returns (c: Poly)
    requires Below(poly, 16) && Products(mulTable[..], TwoTo(8), 0) && Reducers(16, poly, shiftTab[..])
    requires Below(a, 16) && Below(b, 16)
    ensures c == ModMul(16, a, b, poly)
  {
    var a1, a0, b1, b0 := Chunk(a, 8, 8), Chunk(a, 0, 8), Chunk(b, 8, 8), Chunk(b, 0, 8);
    ghost var x;
    c := Product(mulTable, 8, a1, b1);
    x := c;
    Exactly(16, poly, c);
    c, x := Up(16, poly, shiftTab, c, x);
    var p := Product(mulTable, 8, a1, b0);
    c, x := Plus(16, poly, c, x, p, 16);
    p := Product(mulTable, 8, a0, b1);
    c, x := Plus(16, poly, c, x, p, 16);
    c, x := Up(16, poly, shiftTab, c, x);
    p := Product(mulTable, 8, a0, b0);
    c, x := Plus(16, poly, c, x, p, 16);
    Result2(poly, a, b, c, x);
  }

  /** gf2_fast_u16_mul_m8: 4-bit by 8-bit chunks. */
  method U16MulM8(ghost poly: Poly, lmulTable: array<Poly>, rmulTable: array<Poly>, shiftTab: array<Poly>, a: Poly,
                  b: Poly)
    returns (c: Poly)
    requires Below(poly, 16) && Products(lmulTable[..], TwoTo(4), 4) && Products(rmulTable[..], TwoTo(4), 0)
    requires Reducers(16, poly, shiftTab[..]) && Below(a, 16) && Below(b, 16)
    ensures c == ModMul(16, a, b, poly)
  {
    var a32, a10, b1, b0 := Chunk(a, 8, 8), Chunk(a, 0, 8), Chunk(b, 8, 8), Chunk(b, 0, 8);
    ghost var x;
    c := NibbleProduct(lmulTable, rmulTable, a32, b1);
    x := c;
    Exactly(16, poly, c);
    c, x := Up(16, poly, shiftTab, c, x);
    var p := NibbleProduct(lmulTable, rmulTable, a32, b0);
    c, x := Plus(16, poly, c, x, p, 16);
    p := NibbleProduct(lmulTable, rmulTable, a10, b1);
    c, x := Plus(16, poly, c, x, p, 16);
    c, x := Up(16, poly, shiftTab, c, x);
    p := NibbleProduct(lmulTable, rmulTable, a10, b0);
    c, x := Plus(16, poly, c, x, p, 16);
    Result2(poly, a, b, c, x);
  }
}
