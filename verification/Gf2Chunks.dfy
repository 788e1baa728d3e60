/** fast_gf2.c, 16-bit methods 7 and 8 and 32-bit methods 1, 2 and 3: multiplication chunk by chunk, with
    tables of straight products and a table that reduces the byte that a shift pushes out of the word. */
module Gf2Chunks {
  import opened Gf2Poly
  import opened Gf2Words
  import opened Gf2Digits
  import opened Gf2Field

  // ----- words as numbers

  /** Right shift. */
  function Down(a: Poly, k: nat): Poly {
    set e | e in a && e >= k :: e - k
  }

  lemma DownMember(a: Poly, k: nat, e: nat)
    ensures e in Down(a, k) <==> e + k in a
  {
    if e + k in a { assert (e + k) - k in Down(a, k); }
  }

  /** The word with a given numeric value. */
  function Word(i: nat): Poly {
    if i == 0 then ZERO else Shift(Word(i / 2), 1) + (if i % 2 == 1 then ONE else ZERO)
  }

  /** The numeric value of a word of w bits. */
  function Number(a: Poly, w: nat): (r: nat)
    ensures r < TwoTo(w)
    decreases w
  {
    if w == 0 then 0 else 2 * Number(Down(a, 1), w - 1) + (if 0 in a then 1 else 0)
  }

  lemma DownSplit(a: Poly)
    ensures a == Shift(Down(a, 1), 1) + (if 0 in a then ONE else ZERO)
  {
    forall e: nat ensures e in a <==> e in Shift(Down(a, 1), 1) + (if 0 in a then ONE else ZERO) {
      ShiftMember(Down(a, 1), 1, e);
      if e > 0 { DownMember(a, 1, e - 1); }
    }
  }

  lemma {:induction false} WordOfNumber(a: Poly, w: nat)
    requires Below(a, w)
    ensures Word(Number(a, w)) == a
    decreases w
  {
    if w == 0 {
      SizeBelow(a, 0);
    } else {
      var d := Down(a, 1);
      forall e | e in d ensures e < w - 1 { DownMember(a, 1, e); }
      WordOfNumber(d, w - 1);
      DownSplit(a);
      if Number(a, w) == 0 { assert Shift(ZERO, 1) == ZERO; }
    }
  }

  lemma {:induction false} WordBelow(i: nat, w: nat)
    requires i < TwoTo(w)
    ensures Below(Word(i), w)
  {
    if i > 0 {
      WordBelow(i / 2, w - 1);
      forall e | e in Word(i) ensures e < w { ShiftMember(Word(i / 2), 1, e); }
    }
  }

  lemma ByteCount()
    ensures TwoTo(8) == 256 && TwoTo(4) == 16
  {
    assert TwoTo(2) == 2 * TwoTo(1) == 4 * TwoTo(0) == 4;
    assert TwoTo(4) == 2 * TwoTo(3) == 4 * TwoTo(2) == 16;
    assert TwoTo(6) == 2 * TwoTo(5) == 4 * TwoTo(4) == 64;
    assert TwoTo(8) == 2 * TwoTo(7) == 4 * TwoTo(6);
  }

  // ----- chunks of a word

  /** w bits from bit k on. */
  function Chunk(a: Poly, k: nat, w: nat): (r: Poly)
    ensures Below(r, w)
  {
    set e | e in Down(a, k) && e < w
  }

  lemma ChunkMember(a: Poly, k: nat, w: nat, e: nat)
    ensures e in Chunk(a, k, w) <==> e < w && e + k in a
  {
    DownMember(a, k, e);
  }

  lemma ChunkSplit(a: Poly, w: nat)
    ensures a == Xor(Chunk(a, 0, w), Shift(Down(a, w), w))
  {
    forall e: nat ensures e in a <==> e in Xor(Chunk(a, 0, w), Shift(Down(a, w), w)) {
      ChunkMember(a, 0, w, e);
      ShiftMember(Down(a, w), w, e);
      if e >= w { DownMember(a, w, e - w); }
    }
  }

  lemma ChunkDown(a: Poly, j: nat, k: nat, w: nat)
    ensures Chunk(Down(a, j), k, w) == Chunk(a, j + k, w)
  {
    forall e: nat ensures e in Chunk(Down(a, j), k, w) <==> e in Chunk(a, j + k, w) {
      ChunkMember(Down(a, j), k, w, e);
      ChunkMember(a, j + k, w, e);
      DownMember(a, j, e + k);
    }
  }

  lemma LastChunk(a: Poly, k: nat, w: nat)
    requires Below(a, k + w)
    ensures Chunk(a, k, w) == Down(a, k)
  {
    forall e: nat ensures e in Chunk(a, k, w) <==> e in Down(a, k) {
      ChunkMember(a, k, w, e);
      DownMember(a, k, e);
    }
  }

  lemma TwoChunks(a: Poly, w: nat)
    requires Below(a, 2 * w)
    ensures a == Xor(Chunk(a, 0, w), Shift(Chunk(a, w, w), w))
  {
    ChunkSplit(a, w);
    LastChunk(a, w, w);
  }

  function Bytes4(a: Poly): seq<Poly> {
    [Chunk(a, 0, 8), Chunk(a, 8, 8), Chunk(a, 16, 8), Chunk(a, 24, 8)]
  }

  lemma ValueOf4(d: seq<Poly>, w: nat)
    requires |d| == 4
    ensures Value(d, w) == Xor(d[0], Shift(Xor(d[1], Shift(Xor(d[2], Shift(d[3], w)), w)), w))
  {
    var t1, t2, t3 := d[1..], d[2..], d[3..];
    assert t1[1..] == t2 && t2[1..] == t3 && t3[1..] == [];
    assert Shift(ZERO, w) == ZERO;
    assert Value(t3, w) == Xor(d[3], Shift(Value(t3[1..], w), w)) == d[3];
    assert Value(t2, w) == Xor(d[2], Shift(Value(t3, w), w));
    assert Value(t1, w) == Xor(d[1], Shift(Value(t2, w), w));
  }

  lemma Bytes4Value(a: Poly)
    requires Below(a, 32)
    ensures Value(Bytes4(a), 8) == a
  {
    var b, c := Down(a, 8), Down(a, 16);
    ChunkSplit(a, 8);
    ChunkSplit(b, 8);
    ChunkDown(a, 8, 0, 8);
    ChunkDown(a, 8, 8, 16);
    LastChunk(b, 8, 16) by { forall e | e in b ensures e < 24 { DownMember(a, 8, e); } }
    LastChunk(a, 16, 16);
    ChunkSplit(c, 8);
    ChunkDown(a, 16, 0, 8);
    ChunkDown(a, 16, 8, 8);
    LastChunk(c, 8, 8) by { forall e | e in c ensures e < 16 { DownMember(a, 16, e); } }
    ValueOf4(Bytes4(a), 8);
  }

  // ----- tables

  ghost predicate Cell(t: seq<Poly>, i: nat, x: Poly, j: nat) {
    256 * i + j < |t| && t[256 * i + j] == Mul(x, Word(j))
  }

  /** Row i holds the products of x and all bytes. */
  ghost predicate Row(t: seq<Poly>, i: nat, x: Poly) {
    forall j :: 0 <= j < 256 ==> Cell(t, i, x, j)
  }

  ghost predicate RowOf(t: seq<Poly>, s: nat, i: nat) {
    Row(t, i, Shift(Word(i), s))
  }

  /** A table of straight products: row i belongs to the number i, shifted by s. */
  ghost predicate Products(t: seq<Poly>, rows: nat, s: nat) {
    |t| == 256 * rows && forall i :: 0 <= i < rows ==> RowOf(t, s, i)
  }

  /** Lookups by a word of w bits and a byte. */
  lemma Lookup(t: seq<Poly>, w: nat, s: nat, a: Poly, b: Poly)
    requires Products(t, TwoTo(w), s) && Below(a, w) && Below(b, 8)
    ensures 256 * Number(a, w) + Number(b, 8) < |t|
    ensures t[256 * Number(a, w) + Number(b, 8)] == Mul(Shift(a, s), b)
  {
    ByteCount();
    WordOfNumber(a, w);
    WordOfNumber(b, 8);
    assert RowOf(t, s, Number(a, w));
    assert Cell(t, Number(a, w), Shift(a, s), Number(b, 8));
  }

  ghost predicate Reduces(n: nat, poly: Poly, tab: seq<Poly>, i: nat) {
    i < |tab| && Below(tab[i], n) && Cong(tab[i], Shift(Word(i), n), Full(n, poly))
  }

  /** Entry i is what the byte i, pushed out of the word, amounts to modulo the polynomial. */
  ghost predicate Reducers(n: nat, poly: Poly, tab: seq<Poly>) {
    |tab| == 256 && forall i :: 0 <= i < 256 ==> Reduces(n, poly, tab, i)
  }

  // ----- shifts

  /** (c << 8) ^ shift_tab[c >> (n - 8)] */
  function Shifted(n: nat, c: Poly, tab: seq<Poly>): Poly
    requires n >= 8 && |tab| == 256
  {
    ByteCount();
    Xor(ShiftWord(n, c, 8), tab[Number(Down(c, n - 8), 8)])
  }

  /** A byte-wide shift loses the top byte and nothing else. */
  lemma ByteLost(n: nat, c: Poly)
    requires n >= 8 && Below(c, n)
    ensures Shift(c, 8) == Xor(ShiftWord(n, c, 8), Shift(Down(c, n - 8), n))
  {
    forall e: nat ensures e in Shift(c, 8) <==> e in Xor(ShiftWord(n, c, 8), Shift(Down(c, n - 8), n)) {
      ShiftMember(c, 8, e);
      ShiftMember(Down(c, n - 8), n, e);
      if e >= n { DownMember(c, n - 8, e - n); }
    }
  }

  lemma ShiftedIs(n: nat, poly: Poly, c: Poly, tab: seq<Poly>)
    requires n >= 8 && Below(c, n) && Reducers(n, poly, tab)
    ensures Below(Shifted(n, c, tab), n) && Cong(Shifted(n, c, tab), Shift(c, 8), Full(n, poly))
  {
    ByteCount();
    var top, p := Down(c, n - 8), Full(n, poly);
    forall e | e in top ensures e < 8 { DownMember(c, n - 8, e); }
    WordOfNumber(top, 8);
    assert Reduces(n, poly, tab, Number(top, 8));
    CongRefl(ShiftWord(n, c, 8), p);
    CongXor(ShiftWord(n, c, 8), ShiftWord(n, c, 8), tab[Number(top, 8)], Shift(top, n), p);
    ByteLost(n, c);
  }

  /** c stands for x, modulo the polynomial. */
  ghost predicate StandsFor(n: nat, poly: Poly, c: Poly, x: Poly) {
    Below(c, n) && Cong(c, x, Full(n, poly))
  }

  lemma ShiftStep(n: nat, poly: Poly, tab: seq<Poly>, c: Poly, x: Poly)
    requires n >= 8 && Reducers(n, poly, tab) && StandsFor(n, poly, c, x)
    ensures StandsFor(n, poly, Shifted(n, c, tab), Shift(x, 8))
  {
    ShiftedIs(n, poly, c, tab);
    CongShift(c, x, 8, Full(n, poly));
    CongTrans(Shifted(n, c, tab), Shift(c, 8), Shift(x, 8), Full(n, poly));
  }

  lemma AddStep(n: nat, poly: Poly, c: Poly, x: Poly, t: Poly)
    requires StandsFor(n, poly, c, x) && Below(t, n)
    ensures StandsFor(n, poly, Xor(c, t), Xor(x, t))
  {
    CongRefl(t, Full(n, poly));
    CongXor(c, x, t, t, Full(n, poly));
  }

  lemma Exactly(n: nat, poly: Poly, c: Poly)
    requires Below(c, n)
    ensures StandsFor(n, poly, c, c)
  {
    CongRefl(c, Full(n, poly));
  }

  // ----- building the tables

  /** gf2_long_straight_multiply: from words of w bits to one of 2 w. */
  method StraightMultiply(w: nat, a: Poly, b: Poly) returns (result: Poly)
    requires w >= 2 && Below(a, w) && Below(b, w)
    ensures result == Mul(a, b)
  {
    var aa, bit := a, 1;
    result := if 0 in b then a else ZERO;
    ShiftZero(a);
    assert MulTo(b, a, 1) == Xor(MulTo(b, a, 0), if 0 in b then Shift(a, 0) else ZERO);
    while bit < w
      invariant 1 <= bit <= w && aa == Shift(a, bit - 1) && result == MulTo(b, a, bit)
    {
      SizeBelow(a, w);
      SizeShift(a, bit - 1);
      ShiftWordExact(2 * w, aa, 1);
      ShiftShift(a, bit - 1, 1);
      aa := ShiftWord(2 * w, aa, 1);
      if bit in b {
        result := Xor(result, aa);
      }
      bit := bit + 1;
    }
    MulIs(b, a, w);
    MulComm(a, b);
  }

  /** One line of the eight that fill an entry of shift_tab. */
  method Double(n: nat, poly: Poly, k0: Poly, ghost x: Poly, ghost j: nat) returns (k: Poly)
    requires n > 0 && Below(poly, n) && StandsFor(n, poly, k0, Shift(x, j))
    ensures StandsFor(n, poly, k, Shift(x, j + 1))
  {
    ghost var p := Full(n, poly);
    DoubledCong(n, k0, poly);
    CongShift(k0, Shift(x, j), 1, p);
    ShiftShift(x, j, 1);
    CongTrans(Doubled(n, k0, poly), Shift(k0, 1), Shift(x, j + 1), p);
    if n - 1 in k0 { k := Xor(ShiftWord(n, k0, 1), poly); } else { k := ShiftWord(n, k0, 1); }
  }

  lemma TopByte(n: nat, poly: Poly, i: nat)
    requires n >= 8 && i < 256
    ensures var x := Shift(Word(i), n - 8);
      ShiftWord(n, Word(i), n - 8) == x && StandsFor(n, poly, x, Shift(x, 0)) && Shift(x, 8) == Shift(Word(i), n)
  {
    ByteCount();
    WordBelow(i, 8);
    SizeBelow(Word(i), 8);
    ShiftWordExact(n, Word(i), n - 8);
    SizeShift(Word(i), n - 8);
    var x := Shift(Word(i), n - 8);
    SizeBelow(x, n);
    ShiftZero(x);
    Exactly(n, poly, x);
    ShiftShift(Word(i), n - 8, 8);
  }

  /** An entry of shift_tab: the byte at the top of the word, doubled eight times. */
  method ShiftEntry(n: nat, poly: Poly, i: nat) returns (k: Poly)
    requires n >= 8 && Below(poly, n) && i < 256
    ensures StandsFor(n, poly, k, Shift(Word(i), n))
  {
    TopByte(n, poly, i);
    ghost var x := Shift(Word(i), n - 8);
    k := ShiftWord(n, Word(i), n - 8);
    k := Double(n, poly, k, x, 0);
    k := Double(n, poly, k, x, 1);
    k := Double(n, poly, k, x, 2);
    k := Double(n, poly, k, x, 3);
    k := Double(n, poly, k, x, 4);
    k := Double(n, poly, k, x, 5);
    k := Double(n, poly, k, x, 6);
    k := Double(n, poly, k, x, 7);
  }

  // ----- filling arrays

  /** Row i of a table, for the word x: a zero, then the products with the bytes from 1 on. */
  method FillRow(t: array<Poly>, i: nat, w: nat, x: Poly)
    requires 256 * i + 256 <= t.Length && w >= 8 && Below(x, w)
    modifies t
    ensures Row(t[..], i, x)
    ensures forall k :: 0 <= k < t.Length && !(256 * i <= k < 256 * i + 256) ==> t[k] == old(t[k])
  {
    t[256 * i] := ZERO;
    MulZero(x, Size(x));
    assert Word(0) == ZERO;
    var j := 1;
    while j < 256
      invariant 1 <= j <= 256
      invariant forall c :: 0 <= c < j ==> Cell(t[..], i, x, c)
      invariant forall k :: 0 <= k < t.Length && !(256 * i <= k < 256 * i + 256) ==> t[k] == old(t[k])
      modifies t
    {
      ByteCount();
      WordBelow(j, 8);
      ghost var was := t[..];
      var p := StraightMultiply(w, x, Word(j));
      t[256 * i + j] := p;
      forall c | 0 <= c < j + 1 ensures Cell(t[..], i, x, c) {
        if c < j { assert Cell(was, i, x, c); }
      }
      j := j + 1;
    }
  }
}
