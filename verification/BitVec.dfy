/** bit_vec.c: the zeros before the first and after the last bit of a vector of bytes, by tables of nibbles. */
module BitVec {
  import opened Gf2Poly
  import opened Gf2Words
  import opened ByteVectors

  const LEADING: seq<nat> := [4, 3, 2, 2, 1, 1, 1, 1, 0, 0, 0, 0, 0, 0, 0, 0]

  const TRAILING: seq<nat> := [4, 0, 1, 0, 2, 0, 1, 0, 3, 0, 1, 0, 2, 0, 1, 0]

  /** The number that the bits of a nibble make. */
  function Number(b: Poly): (k: nat)
    ensures k < 16
  {
    (if 0 in b then 1 else 0) + (if 1 in b then 2 else 0) + (if 2 in b then 4 else 0) + (if 3 in b then 8 else 0)
  }

  lemma LeadingIs(b: Poly)
    requires Below(b, 4)
    ensures LEADING[Number(b)] + Size(b) == 4
  {
    SizeIs(b, if 3 in b then 4 else if 2 in b then 3 else if 1 in b then 2 else if 0 in b then 1 else 0);
  }

  /** The position of the lowest bit. */
  ghost predicate Lowest(b: Poly, k: nat) {
    k in b && forall e :: e in b ==> e >= k
  }

  lemma TrailingIs(b: Poly)
    requires Below(b, 4) && b != ZERO
    ensures Lowest(b, TRAILING[Number(b)])
  {
  }

  function Low(b: Poly): (r: Poly)
    ensures Below(r, 4) && forall e :: e in r <==> e in b && e < 4
  {
    set e | e in b && e < 4
  }

  lemma HighNibble(b: Poly)
    requires Below(b, 8)
    ensures Below(Right(b, 4), 4) && (Right(b, 4) == ZERO ==> Below(b, 4))
    ensures Right(b, 4) != ZERO ==> Size(b) == 4 + Size(Right(b, 4))
  {
    forall e: nat ensures e in Right(b, 4) <==> e + 4 in b { RightBit(b, 4, e); }
    forall e | e in b && e >= 4 ensures e - 4 in Right(b, 4) {}
    if Right(b, 4) != ZERO { SizeIs(b, 4 + Size(Right(b, 4))); }
  }

  /** The zeros before the first bit of a byte. */
  method ByteClz(b: Poly) returns (zeroes: nat)
    requires Below(b, 8)
    ensures zeroes + Size(b) == 8
  {
    HighNibble(b);
    if Right(b, 4) != ZERO {
      LeadingIs(Right(b, 4));
      zeroes := LEADING[Number(Right(b, 4))];
    } else {
      LeadingIs(b);
      zeroes := 4 + LEADING[Number(b)];
    }
  }

  /** The zeros after the last bit of a byte. */
  method ByteCtz(b: Poly) returns (zeroes: nat)
    requires Below(b, 8) && b != ZERO
    ensures Lowest(b, zeroes)
  {
    if Low(b) != ZERO {
      TrailingIs(Low(b));
      zeroes := TRAILING[Number(Low(b))];
    } else {
      HighNibble(b);
      NotBoth(b);
      TrailingIs(Right(b, 4));
      zeroes := 4 + TRAILING[Number(Right(b, 4))];
      HighLowest(b, zeroes - 4);
    }
  }

  lemma NotBoth(b: Poly)
    requires Below(b, 8) && b != ZERO && Low(b) == ZERO
    ensures Right(b, 4) != ZERO
  {
    var e :| e in b;
    assert e < 4 <==> e in Low(b);
    RightBit(b, 4, e - 4);
  }

  lemma HighLowest(b: Poly, k: nat)
    requires Low(b) == ZERO && Lowest(Right(b, 4), k)
    ensures Lowest(b, 4 + k)
  {
    RightBit(b, 4, k);
    forall e | e in b ensures e >= 4 + k {
      assert e < 4 <==> e in Low(b);
      RightBit(b, 4, e - 4);
    }
  }

  lemma SomeByte(s: seq<Poly>) returns (i: nat)
    requires Value(s) != ZERO
    ensures i < |s| && s[i] != ZERO
  {
    if forall i :: 0 <= i < |s| ==> s[i] == ZERO { ValueZeros(s); }
    i :| 0 <= i < |s| && s[i] != ZERO;
  }

  /** vec_clz, for a vector that is not zero: the zeros before the first bit. */
  method VecClz(s: array<Poly>) returns (zeroes: nat)
    requires Bytes(s[..]) && Value(s[..]) != ZERO
    ensures zeroes + Size(Value(s[..])) == 8 * s.Length
  {
    ghost var some := SomeByte(s[..]);
    var i := 0;
    zeroes := 0;
    while s[i] == ZERO
      invariant i <= some && zeroes == 8 * i && forall k :: 0 <= k < i ==> s[k] == ZERO
      decreases some - i
    {
      zeroes, i := zeroes + 8, i + 1;
    }
    TopByte(s[..], i);
    SizeBelow(s[i], 8);
    SizeBelow(Value(s[..]), 8 * s.Length);
    var more := ByteClz(s[i]);
    zeroes := zeroes + more;
  }

  lemma LowByte(s: seq<Poly>, i: nat, k: nat)
    requires Bytes(s) && i < |s| && (forall j :: i < j < |s| ==> s[j] == ZERO) && Lowest(s[i], k)
    ensures Lowest(Value(s), 8 * (|s| - 1 - i) + k)
  {
    BitOf(s, i, k);
    forall e | e in Value(s) ensures e >= 8 * (|s| - 1 - i) + k {
      var j, l := Place(e, |s|);
      BitOf(s, j, l);
      assert j <= i;
    }
  }

  /** vec_ctz, for a vector that is not zero: the zeros after the last bit. */
  method VecCtz(s: array<Poly>) returns (zeroes: nat)
    requires Bytes(s[..]) && Value(s[..]) != ZERO
    ensures Lowest(Value(s[..]), zeroes)
  {
    ghost var some := SomeByte(s[..]);
    var i := s.Length - 1;
    zeroes := 0;
    while s[i] == ZERO
      invariant some <= i < s.Length && zeroes == 8 * (s.Length - 1 - i)
      invariant forall k :: i < k < s.Length ==> s[k] == ZERO
      decreases i
    {
      zeroes, i := zeroes + 8, i - 1;
    }
    var more := ByteCtz(s[i]);
    LowByte(s[..], i, more);
    zeroes := zeroes + more;
  }

  /** A shift to the left loses nothing exactly if it is by no more bits than there are zeros before the first. */
  lemma LosesNothing(n: nat, w: Poly, k: nat)
    requires Below(w, n) && w != ZERO
    ensures ShiftWord(n, w, k) == Shift(w, k) <==> k + Size(w) <= n
  {
    if k + Size(w) <= n {
      ShiftWordExact(n, w, k);
    } else {
      var top := Size(w) - 1 + k;
      ShiftMember(w, k, top);
      assert top !in ShiftWord(n, w, k);
    }
  }

  /** A word without its first bit. */
  ghost function WithoutFirst(w: Poly): Poly {
    w - {Size(w) - 1}
  }

  lemma FirstOut(n: nat, w: Poly, k: nat)
    requires w != ZERO && k + Size(w) == n + 1
    ensures ShiftWord(n, w, k) == Shift(WithoutFirst(w), k) && k <= n
  {
    var rest := WithoutFirst(w);
    forall e: nat ensures e in ShiftWord(n, w, k) <==> e in Shift(rest, k) {
      ShiftWordBit(n, w, k, e);
      ShiftMember(rest, k, e);
    }
  }

  /** codec.pl, pivot_f2: skip the zeros of a vector that is not zero and the 1 after them.  Nothing else is lost. */
  method SkipOne(s: array<Poly>, ghost n: nat, ghost w: Poly) returns (bits: nat)
    requires Bytes(s[..]) && n == 8 * s.Length && w == Value(s[..]) && w != ZERO
    modifies s
    ensures Bytes(s[..]) && bits + Size(w) == n + 1 && Value(s[..]) == Shift(WithoutFirst(w), bits)
  {
    var zeroes := VecClz(s);
    bits := zeroes + 1;
    FirstOut(n, w, bits);
    VecShl(s, bits);
  }
}
