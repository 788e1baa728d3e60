/** Products digit by digit: a polynomial cut into chunks of w bits, and the product of two such as a sum
    along antidiagonals. */
module Gf2Digits {
  import opened Gf2Poly

  /** The polynomial with the given chunks, least first. */
  function Value(d: seq<Poly>, w: nat): Poly {
    if d == [] then ZERO else Xor(d[0], Shift(Value(d[1..], w), w))
  }

  /** The product of two chunks, if the second one exists. */
  ghost function Term(a: Poly, b: seq<Poly>, k: int): Poly {
    if 0 <= k < |b| then Mul(a, b[k]) else ZERO
  }

  /** The sum of all products of a chunk of a and one of b whose places add up to k. */
  ghost function Diagonal(a: seq<Poly>, b: seq<Poly>, k: int): Poly {
    if a == [] then ZERO else Xor(Term(a[0], b, k), Diagonal(a[1..], b, k - 1))
  }

  ghost function Diagonals(a: seq<Poly>, b: seq<Poly>): (r: seq<Poly>)
    ensures |r| == |a| + |b|
  {
    seq(|a| + |b|, (k: nat) => Diagonal(a, b, k))
  }

  ghost function Scaled(a: Poly, b: seq<Poly>): (r: seq<Poly>)
    ensures |r| == |b| && forall k :: 0 <= k < |b| ==> r[k] == Mul(a, b[k])
  {
    seq(|b|, (k: nat) requires k < |b| => Mul(a, b[k]))
  }

  predicate SumAt(a: seq<Poly>, b: seq<Poly>, c: seq<Poly>, k: nat) {
    && k < |c|
    && c[k] == Xor(if k < |a| then a[k] else ZERO, if k < |b| then b[k] else ZERO)
  }

  /** c is the sum of a and b, place by place. */
  ghost predicate Sum(a: seq<Poly>, b: seq<Poly>, c: seq<Poly>) {
    |c| >= |a| && |c| >= |b| && forall k :: 0 <= k < |c| ==> SumAt(a, b, c, k)
  }

  function Tail(a: seq<Poly>): seq<Poly> {
    if a == [] then [] else a[1..]
  }

  lemma SumTail(a: seq<Poly>, b: seq<Poly>, c: seq<Poly>)
    requires Sum(a, b, c) && c != []
    ensures Sum(Tail(a), Tail(b), c[1..])
    ensures c[0] == Xor(if a == [] then ZERO else a[0], if b == [] then ZERO else b[0])
  {
    assert SumAt(a, b, c, 0);
    var d := c[1..];
    forall k | 0 <= k < |d| ensures SumAt(Tail(a), Tail(b), d, k) { assert SumAt(a, b, c, k + 1); }
  }

  lemma ValueTail(a: seq<Poly>, w: nat)
    ensures Value(a, w) == Xor(if a == [] then ZERO else a[0], Shift(Value(Tail(a), w), w))
  {
    if a == [] { assert Shift(ZERO, w) == ZERO; }
  }

  lemma {:induction false} ValueSum(a: seq<Poly>, b: seq<Poly>, c: seq<Poly>, w: nat)
    requires Sum(a, b, c)
    ensures Value(c, w) == Xor(Value(a, w), Value(b, w))
    decreases |c|
  {
    ValueTail(a, w);
    ValueTail(b, w);
    if c != [] {
      SumTail(a, b, c);
      ValueSum(Tail(a), Tail(b), c[1..], w);
      ShiftXor(Value(Tail(a), w), Value(Tail(b), w), w);
      XorSwap(if a == [] then ZERO else a[0], if b == [] then ZERO else b[0],
              Shift(Value(Tail(a), w), w), Shift(Value(Tail(b), w), w));
    }
  }

  lemma {:induction false} ValueScaled(a: Poly, b: seq<Poly>, w: nat)
    ensures Value(Scaled(a, b), w) == Mul(a, Value(b, w))
    decreases |b|
  {
    if b == [] {
      MulZero(a, Size(a));
    } else {
      assert Scaled(a, b)[1..] == Scaled(a, b[1..]);
      ValueScaled(a, b[1..], w);
      MulRight(a, b[0], Shift(Value(b[1..], w), w));
      MulShift(a, Value(b[1..], w), w);
    }
  }

  lemma {:induction false} DiagonalNegative(a: seq<Poly>, b: seq<Poly>, k: int)
    requires k < 0
    ensures Diagonal(a, b, k) == ZERO
    decreases |a|
  {
    if a != [] { DiagonalNegative(a[1..], b, k - 1); }
  }

  /** The first row of products and, one place up, the rest. */
  lemma DiagonalsSplit(a: seq<Poly>, b: seq<Poly>)
    requires a != []
    ensures Sum(Scaled(a[0], b), [ZERO] + Diagonals(a[1..], b), Diagonals(a, b))
  {
    var s, r, d := Scaled(a[0], b), [ZERO] + Diagonals(a[1..], b), Diagonals(a, b);
    forall k | 0 <= k < |d| ensures SumAt(s, r, d, k) {
      assert d[k] == Xor(Term(a[0], b, k), Diagonal(a[1..], b, k - 1));
      if k == 0 { DiagonalNegative(a[1..], b, -1); }
    }
  }

  lemma {:induction false} ValueZeros(d: seq<Poly>, w: nat)
    requires forall k :: 0 <= k < |d| ==> d[k] == ZERO
    ensures Value(d, w) == ZERO
    decreases |d|
  {
    if d != [] {
      ValueZeros(d[1..], w);
      assert Shift(ZERO, w) == ZERO;
    }
  }

  /** The product is the polynomial whose chunks are the sums along the antidiagonals. */
  lemma {:induction false} ProductOfValues(a: seq<Poly>, b: seq<Poly>, w: nat)
    ensures Value(Diagonals(a, b), w) == Mul(Value(a, w), Value(b, w))
    decreases |a|
  {
    if a == [] {
      MulUnits(Value(b, w));
      ValueZeros(Diagonals(a, b), w);
    } else {
      var rest := Diagonals(a[1..], b);
      DiagonalsSplit(a, b);
      ValueSum(Scaled(a[0], b), [ZERO] + rest, Diagonals(a, b), w);
      ValueScaled(a[0], b, w);
      ProductOfValues(a[1..], b, w);
      assert ([ZERO] + rest)[1..] == rest;
      XorLaws(ZERO, Shift(Value(rest, w), w), ZERO);
      MulShift(Value(a[1..], w), Value(b, w), w);
      MulLeft(a[0], Shift(Value(a[1..], w), w), Value(b, w));
    }
  }
}
