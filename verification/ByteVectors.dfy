/** rabin-ida.c and bit_vec.c: vectors of bytes, most significant first, as words of 8 bits for each byte. */
module ByteVectors {
  import opened CharLoops
  import opened Counters
  import opened Gf2Poly
  import opened Gf2Words

  predicate Bytes(s: seq<Poly>) {
    forall i :: 0 <= i < |s| ==> Below(s[i], 8)
  }

  /** The word that the bytes make. */
  function Value(s: seq<Poly>): (w: Poly)
    ensures Bytes(s) ==> Below(w, 8 * |s|)
  {
    if s == [] then ZERO else Xor(Shift(Value(s[..|s| - 1]), 8), s[|s| - 1])
  }

  /** Bit k of byte i. */
  lemma {:induction false} BitOf(s: seq<Poly>, i: nat, k: nat)
    requires Bytes(s) && i < |s| && k < 8
    ensures 8 * (|s| - 1 - i) + k in Value(s) <==> k in s[i]
    decreases |s|
  {
    var n, e := |s| - 1, 8 * (|s| - 1 - i) + k;
    ShiftMember(Value(s[..n]), 8, e);
    if i < n {
      BitOf(s[..n], i, k);
      assert e !in s[n];
    }
  }

  lemma BitIs(s: seq<Poly>, i: nat, k: nat, e: nat)
    requires Bytes(s) && i < |s| && k < 8 && e == 8 * (|s| - 1 - i) + k
    ensures e in Value(s) <==> k in s[i]
  {
    BitOf(s, i, k);
  }

  lemma Place(e: nat, n: nat) returns (i: nat, k: nat)
    requires e < 8 * n
    ensures i < n && k < 8 && e == 8 * (n - 1 - i) + k
  {
    i, k := n - 1 - e / 8, e % 8;
  }

  /** Bit k of byte i is the bit of the word that it should be, with n bytes in all. */
  ghost predicate SameBit(s: seq<Poly>, w: Poly, n: nat, i: nat, k: nat) {
    i < |s| && (k in s[i] <==> 8 * (n - 1 - i) + k in w)
  }

  lemma ValueIs(s: seq<Poly>, w: Poly, n: nat)
    requires n == |s| && Bytes(s) && Below(w, 8 * n)
    requires forall i: nat, k: nat :: i < n && k < 8 ==> SameBit(s, w, n, i, k)
    ensures Value(s) == w
  {
    forall e: nat ensures e in Value(s) <==> e in w {
      if e < 8 * n {
        var i, k := Place(e, n);
        BitOf(s, i, k);
        assert SameBit(s, w, n, i, k);
      }
    }
  }

  lemma {:induction false} ValueZeros(s: seq<Poly>)
    requires forall i :: 0 <= i < |s| ==> s[i] == ZERO
    ensures Value(s) == ZERO
    decreases |s|
  {
    if s != [] {
      ValueZeros(s[..|s| - 1]);
      assert Shift(ZERO, 8) == ZERO;
    }
  }

  lemma TopByte(s: seq<Poly>, i: nat)
    requires Bytes(s) && i < |s| && (forall k :: 0 <= k < i ==> s[k] == ZERO) && (i < |s| - 1 ==> s[i] != ZERO)
    ensures Bits(Value(s), 8 * |s|) == 8 * (|s| - 1 - i) + Bits(s[i], 8)
  {
    var low := 8 * (|s| - 1 - i);
    var m := low + Bits(s[i], 8);
    forall e | e in Value(s) ensures e < m {
      var j, k := Place(e, |s|);
      BitOf(s, j, k);
      assert j >= i;
    }
    SizeBelow(s[i], 8);
    if m > 0 { BitOf(s, i, Bits(s[i], 8) - 1); }
    SizeIs(Value(s), m);
    SizeBelow(Value(s), 8 * |s|);
  }

  // ----- sums

  ghost predicate XorAt(a: seq<Poly>, b: seq<Poly>, c: seq<Poly>, i: nat) {
    i < |a| && i < |b| && i < |c| && c[i] == Xor(a[i], b[i])
  }

  lemma {:induction false} XorValue(a: seq<Poly>, b: seq<Poly>, c: seq<Poly>)
    requires |a| == |b| == |c| && forall i: nat :: i < |c| ==> XorAt(a, b, c, i)
    ensures Value(c) == Xor(Value(a), Value(b))
    decreases |a|
  {
    if a == [] {
    } else {
      var n := |a| - 1;
      forall i: nat | i < n ensures XorAt(a[..n], b[..n], c[..n], i) { assert XorAt(a, b, c, i); }
      XorValue(a[..n], b[..n], c[..n]);
      assert XorAt(a, b, c, n);
      ShiftXor(Value(a[..n]), Value(b[..n]), 8);
      XorSwap(Shift(Value(a[..n]), 8), Shift(Value(b[..n]), 8), a[n], b[n]);
    }
  }

  method VectorXor(dest: array<Poly>, x: array<Poly>)
    requires dest != x && dest.Length == x.Length && Bytes(dest[..]) && Bytes(x[..])
    modifies dest
    ensures Bytes(dest[..]) && Value(dest[..]) == Xor(old(Value(dest[..])), Value(x[..]))
  {
    ghost var was := dest[..];
    for i := 0 to dest.Length
      invariant forall k :: 0 <= k < i ==> dest[k] == Xor(was[k], x[k])
      invariant forall k :: i <= k < dest.Length ==> dest[k] == was[k]
      modifies dest
    {
      dest[i] := Xor(dest[i], x[i]);
    }
    forall i: nat | i < dest.Length ensures XorAt(was, x[..], dest[..], i) {}
    XorValue(was, x[..], dest[..]);
  }

  // ----- shifts by one bit

  /** A byte shifted left, with a bit coming in. */
  function Up(b: Poly, carry: bool): (r: Poly)
    ensures Below(r, 8)
  {
    ShiftWord(8, b, 1) + if carry then ONE else ZERO
  }

  lemma UpBit(b: Poly, carry: bool, k: nat)
    requires k < 8
    ensures k in Up(b, carry) <==> if k == 0 then carry else k - 1 in b
  {
    ShiftWordBit(8, b, 1, k);
  }

  predicate CarryAt(s: seq<Poly>, i: nat, carry: bool) {
    if i + 1 < |s| then 7 in s[i + 1] else carry
  }

  function ShiftedBytes(s: seq<Poly>, carry: bool): (r: seq<Poly>)
    ensures |r| == |s| && Bytes(r)
    ensures forall i {:trigger r[i]} :: 0 <= i < |s| ==> r[i] == Up(s[i], CarryAt(s, i, carry))
  {
    seq(|s|, (i: nat) requires i < |s| => Up(s[i], CarryAt(s, i, carry)))
  }

  lemma ShiftWordBit(n: nat, a: Poly, k: nat, e: nat)
    ensures e in ShiftWord(n, a, k) <==> e < n && e >= k && e - k in a
  {
    ShiftMember(a, k, e);
  }

  lemma ShiftedValue(s: seq<Poly>)
    requires Bytes(s)
    ensures Value(ShiftedBytes(s, false)) == ShiftWord(8 * |s|, Value(s), 1)
  {
    var r, w := ShiftedBytes(s, false), ShiftWord(8 * |s|, Value(s), 1);
    forall i: nat, k: nat | i < |s| && k < 8 ensures SameBit(r, w, |s|, i, k) { ShiftedBit(s, i, k); }
    ShiftWordBelow(8 * |s|, Value(s), 1);
    ValueIs(r, w, |s|);
  }

  /** The bit to the right of bit k of byte i. */
  predicate BitBefore(s: seq<Poly>, i: nat, k: nat)
    requires i < |s|
  {
    if k > 0 then k - 1 in s[i] else i + 1 < |s| && 7 in s[i + 1]
  }

  lemma ShiftedByteBit(s: seq<Poly>, i: nat, k: nat)
    requires i < |s| && k < 8
    ensures k in ShiftedBytes(s, false)[i] <==> BitBefore(s, i, k)
  {
    UpBit(s[i], CarryAt(s, i, false), k);
  }

  lemma ShiftedWordBit(s: seq<Poly>, i: nat, k: nat, e: nat)
    requires Bytes(s) && i < |s| && k < 8 && e == 8 * (|s| - 1 - i) + k
    ensures e in ShiftWord(8 * |s|, Value(s), 1) <==> BitBefore(s, i, k)
  {
    ShiftWordBit(8 * |s|, Value(s), 1, e);
    if k > 0 {
      BitIs(s, i, k - 1, e - 1);
    } else if i + 1 < |s| {
      BitIs(s, i + 1, 7, e - 1);
    }
  }

  lemma ShiftedBit(s: seq<Poly>, i: nat, k: nat)
    requires Bytes(s) && i < |s| && k < 8
    ensures SameBit(ShiftedBytes(s, false), ShiftWord(8 * |s|, Value(s), 1), |s|, i, k)
  {
    ShiftedByteBit(s, i, k);
    ShiftedWordBit(s, i, k, 8 * (|s| - 1 - i) + k);
  }

  lemma ShiftWordBelow(n: nat, a: Poly, k: nat)
    ensures Below(ShiftWord(n, a, k), n)
  {
  }

  /** The first `bytes` bytes move one bit to the left; the last bit on the left comes out. */
  method VectorShiftLeft(r: array<Poly>, bytes: nat, carryIn: bool) returns (carryOut: bool)
    requires 1 <= bytes <= r.Length
    modifies r
    ensures r[..bytes] == ShiftedBytes(old(r[..bytes]), carryIn) && r[bytes..] == old(r[bytes..])
    ensures carryOut <==> 7 in old(r[0])
  {
    ghost var was, part := r[..], r[..bytes];
    ghost var up := ShiftedBytes(part, carryIn);
    var i, carry := bytes - 1, carryIn;
    carryOut := 7 in r[i];
    r[i] := Up(r[i], carry);
    while i > 0
      invariant 0 <= i < bytes && (carryOut <==> 7 in part[i])
      invariant forall k {:trigger r[k]} :: 0 <= k < i ==> r[k] == part[k]
      invariant forall k {:trigger r[k]} :: i <= k < bytes ==> r[k] == up[k]
      invariant forall k {:trigger r[k]} :: bytes <= k < r.Length ==> r[k] == was[k]
      modifies r
    {
      i := i - 1;
      carry := carryOut;
      carryOut := 7 in r[i];
      ShiftedByte(part, carryIn, i);
      r[i] := Up(r[i], carry);
    }
    assert r[..bytes] == up;
  }

  lemma ShiftedByte(s: seq<Poly>, carry: bool, i: nat)
    requires i + 1 < |s|
    ensures ShiftedBytes(s, carry)[i] == Up(s[i], 7 in s[i + 1])
  {
  }

  // ----- shifts by many bits

  lemma ShiftWordTwice(n: nat, a: Poly, j: nat, k: nat)
    ensures ShiftWord(n, ShiftWord(n, a, j), k) == ShiftWord(n, a, j + k)
  {
    forall e: nat ensures e in ShiftWord(n, ShiftWord(n, a, j), k) <==> e in ShiftWord(n, a, j + k) {
      ShiftWordBit(n, ShiftWord(n, a, j), k, e);
      ShiftWordBit(n, a, j + k, e);
      if e >= k { ShiftWordBit(n, a, j, e - k); }
    }
  }

  lemma ShiftWordNone(n: nat, a: Poly)
    requires Below(a, n)
    ensures ShiftWord(n, a, 0) == a
  {
    forall e: nat ensures e in ShiftWord(n, a, 0) <==> e in a { ShiftWordBit(n, a, 0, e); }
  }

  /** Several shifts by one bit. */
  ghost function Shifts(n: nat, a: Poly, k: nat): Poly {
    if k == 0 then a else ShiftWord(n, Shifts(n, a, k - 1), 1)
  }

  lemma {:induction false} ShiftsAre(n: nat, a: Poly, k: nat)
    requires Below(a, n)
    ensures Shifts(n, a, k) == ShiftWord(n, a, k)
  {
    if k == 0 {
      ShiftWordNone(n, a);
    } else {
      ShiftsAre(n, a, k - 1);
      ShiftWordTwice(n, a, k - 1, 1);
    }
  }

  /** The first n bytes make the word w, and rest follows them. */
  ghost predicate Parted(a: seq<Poly>, n: nat, w: Poly, rest: seq<Poly>) {
    n <= |a| && Bytes(a) && Value(a[..n]) == w && a[n..] == rest
  }

  lemma PartShifted(a: seq<Poly>, b: seq<Poly>, n: nat, w: Poly, rest: seq<Poly>)
    requires Parted(a, n, w, rest) && |b| == |a| && b[..n] == ShiftedBytes(a[..n], false) && b[n..] == a[n..]
    ensures Parted(b, n, ShiftWord(8 * n, w, 1), rest)
  {
    ShiftedValue(a[..n]);
    StillBytes(a, b, n);
  }

  /** Shift the first `bytes` bytes by one bit. */
  method ShiftOnce(s: array<Poly>, bytes: nat, ghost w: Poly, ghost rest: seq<Poly>)
    requires 1 <= bytes && Parted(s[..], bytes, w, rest)
    modifies s
    ensures Parted(s[..], bytes, ShiftWord(8 * bytes, w, 1), rest)
  {
    ghost var was := s[..];
    assert s[..bytes] == was[..bytes] && s[bytes..] == was[bytes..];
    var carry := VectorShiftLeft(s, bytes, false);
    assert s[..bytes] == s[..][..bytes] && s[bytes..] == s[..][bytes..];
    PartShifted(was, s[..], bytes, w, rest);
  }

  /** Shift the first `bytes` bytes several times by one bit. */
  method ShiftBits(s: array<Poly>, bytes: nat, bits: nat, ghost v: Poly, ghost rest: seq<Poly>)
    requires 1 <= bytes && Parted(s[..], bytes, v, rest)
    modifies s
    ensures Parted(s[..], bytes, Shifts(8 * bytes, v, bits), rest)
  {
    for i := 0 to bits
      invariant Parted(s[..], bytes, Shifts(8 * bytes, v, i), rest)
      modifies s
    {
      ShiftOnce(s, bytes, Shifts(8 * bytes, v, i), rest);
    }
  }

  lemma StillBytes(a: seq<Poly>, b: seq<Poly>, n: nat)
    requires Bytes(a) && |a| == |b| && n <= |a| && Bytes(b[..n]) && b[n..] == a[n..]
    ensures Bytes(b)
  {
    forall i | 0 <= i < |b| ensures Below(b[i], 8) {
      if i < n { assert b[i] == b[..n][i]; } else { assert b[i] == b[n..][i - n] == a[n..][i - n]; }
    }
  }

  lemma TailBit(s: seq<Poly>, full: nat, d: nat)
    requires Bytes(s) && full <= |s| && d < 8 * (|s| - full)
    ensures d in Value(s[full..]) <==> d in Value(s)
  {
    var i, k := Place(d, |s| - full);
    assert s[full..][i] == s[i + full];
    BitIs(s[full..], i, k, d);
    BitIs(s, i + full, k, d);
  }

  /** The bytes from number `full` on, shifted, with zeros behind them. */
  ghost predicate MovedUp(s: seq<Poly>, left: seq<Poly>, r: seq<Poly>, full: nat, rest: nat) {
    && Bytes(s) && full <= |s| && |left| == |s| - full && |r| == |s| && Bytes(r) && Bytes(left)
    && (forall i :: 0 <= i < |left| ==> r[i] == left[i]) && (forall i :: |left| <= i < |r| ==> r[i] == ZERO)
    && Value(left) == ShiftWord(8 * |left|, Value(s[full..]), rest)
  }

  /** A bit of a word that is shifted within its right part, of which `tail` are the bits. */
  lemma BitWithin(n: nat, w: Poly, tail: Poly, left: Poly, rest: nat, f: nat)
    requires left == ShiftWord(n, tail, rest) && f < n && (f >= rest ==> (f - rest in tail <==> f - rest in w))
    ensures f in left <==> f >= rest && f - rest in w
  {
    ShiftWordBit(n, tail, rest, f);
  }

  /** A bit of one of the bytes that have moved. */
  lemma MovedHigh(s: seq<Poly>, left: seq<Poly>, r: seq<Poly>, full: nat, rest: nat, i: nat, k: nat)
    requires MovedUp(s, left, r, full, rest) && i < |left| && k < 8
    ensures var f := 8 * (|left| - 1 - i) + k;
      k in r[i] <==> f >= rest && f - rest in Value(s)
  {
    var f := 8 * (|left| - 1 - i) + k;
    BitOf(left, i, k);
    if f >= rest { TailBit(s, full, f - rest); }
    BitWithin(8 * |left|, Value(s), Value(s[full..]), Value(left), rest, f);
  }

  lemma MovedBit(s: seq<Poly>, left: seq<Poly>, r: seq<Poly>, full: nat, rest: nat, n: nat, m: nat, i: nat, k: nat)
    requires MovedUp(s, left, r, full, rest) && n == 8 * |s| && m == 8 * full + rest && i < |s| && k < 8
    ensures SameBit(r, ShiftWord(n, Value(s), m), |s|, i, k)
  {
    var e := 8 * (|s| - 1 - i) + k;
    ShiftWordBit(n, Value(s), m, e);
    if i < |left| {
      MovedHigh(s, left, r, full, rest, i, k);
      assert e - m == 8 * (|left| - 1 - i) + k - rest;
    }
  }

  lemma MovedValue(s: seq<Poly>, left: seq<Poly>, r: seq<Poly>, full: nat, rest: nat, n: nat, m: nat)
    requires MovedUp(s, left, r, full, rest) && n == 8 * |s| && m == 8 * full + rest
    ensures Value(r) == ShiftWord(n, Value(s), m)
  {
    var w := ShiftWord(n, Value(s), m);
    forall i: nat, k: nat | i < |s| && k < 8
      ensures SameBit(r, w, |s|, i, k)
    {
      MovedBit(s, left, r, full, rest, n, m, i, k);
    }
    ShiftWordBelow(n, Value(s), m);
    ValueIs(r, w, |s|);
  }

  /** Move whole bytes to the left: the first stage of a shift. */
  method MoveBytes(s: array<Poly>, full: nat)
    requires full <= s.Length
    modifies s
    ensures s[..s.Length - full] == old(s[full..])
    ensures s[s.Length - full..] == old(s[s.Length - full..])
  {
    ghost var was := s[..];
    var i := 0;
    while i + full < s.Length
      invariant i <= s.Length - full
      invariant forall k :: 0 <= k < i ==> s[k] == was[full..][k]
      invariant forall k :: i <= k < s.Length ==> s[k] == was[k]
      modifies s
    {
      assert was[full..][i] == was[i + full];
      s[i] := s[i + full];
      i := i + 1;
    }
  }

  method ZeroBytes(s: array<Poly>, from: nat)
    requires from <= s.Length
    modifies s
    ensures s[..from] == old(s[..from]) && forall i :: from <= i < s.Length ==> s[i] == ZERO
  {
    for i := from to s.Length
      invariant forall k :: 0 <= k < from ==> s[k] == old(s[k])
      invariant forall k :: from <= k < i ==> s[k] == ZERO
      modifies s
    {
      s[i] := ZERO;
    }
  }

  lemma WholePart(a: seq<Poly>)
    requires Bytes(a)
    ensures Parted(a, |a|, Value(a), [])
  {
    assert a[..|a|] == a;
  }

  lemma PartWhole(a: seq<Poly>, w: Poly)
    requires Parted(a, |a|, w, [])
    ensures Value(a) == w
  {
    assert a[..|a|] == a;
  }

  method ShiftWhole(s: array<Poly>, bits: nat)
    requires 1 <= s.Length && Bytes(s[..])
    modifies s
    ensures Bytes(s[..]) && Value(s[..]) == ShiftWord(8 * s.Length, old(Value(s[..])), bits)
  {
    ghost var v := Value(s[..]);
    WholePart(s[..]);
    ShiftBits(s, s.Length, bits, v, []);
    ShiftsAre(8 * s.Length, v, bits);
    PartWhole(s[..], Shifts(8 * s.Length, v, bits));
  }

  /** vector_shift_left_many: shift to the left by any number of bits, if the loops of CharLoops end. */
  method VectorShiftLeftMany(s: array<Poly>, bits: nat)
    requires 1 <= s.Length && Bytes(s[..]) && Ends(s.Length, bits)
    modifies s
    ensures Bytes(s[..]) && Value(s[..]) == ShiftWord(8 * s.Length, old(Value(s[..])), bits)
  {
    assert bits < 8 || s.Length < CHAR_VALUES by { EndsIff(s.Length, bits); }
    var full, rest := bits / 8, bits % 8;
    assert bits == 8 * full + rest;
    if full > 0 {
      ShiftFull(s, full, rest, 8 * s.Length, bits);
    } else {
      assert rest == bits;
      ShiftWhole(s, rest);
    }
  }

  lemma ShiftedAway(n: nat, a: Poly, k: nat)
    requires k >= n
    ensures ShiftWord(n, a, k) == ZERO
  {
    forall e: nat ensures e !in ShiftWord(n, a, k) { ShiftWordBit(n, a, k, e); }
  }

  /** Where the first loop leaves the char: the bytes that come from the right are before it. */
  function Kept(len: nat, full: nat): (i: nat)
    ensures i <= len
  {
    if full < len then len - full else 0
  }

  /** The first loop, and the turns of CharLoops that it makes. */
  method MoveChars(s: array<Poly>, full: nat) returns (i: nat, ghost place: Shifting)
    requires 0 < full && s.Length < CHAR_VALUES
    modifies s
    ensures i == Kept(s.Length, full) && place == Zeroing(i)
    ensures s[..i] == old(s[s.Length - i..]) && s[i..] == old(s[i..])
  {
    ghost var was, from := s[..], s.Length - Kept(s.Length, full);
    i, place := 0, Begin(8 * full);
    while i + full < s.Length
      invariant i <= Kept(s.Length, full) && place == Moving(i)
      invariant forall k :: 0 <= k < i ==> s[k] == was[from..][k]
      invariant forall k :: i <= k < s.Length ==> s[k] == was[k]
      modifies s
    {
      assert was[from..][i] == was[i + full];
      s[i] := s[i + full];
      i, place := Bumped(i, CHAR_VALUES), Turn(s.Length, full, place);
    }
    place := Turn(s.Length, full, place);
  }

  /** The second loop, which goes on with the char of the first. */
  method ZeroChars(s: array<Poly>, i0: nat, full: nat, ghost place0: Shifting)
    requires i0 <= s.Length < CHAR_VALUES && place0 == Zeroing(i0)
    modifies s
    ensures s[..i0] == old(s[..i0]) && forall k :: i0 <= k < s.Length ==> s[k] == ZERO
  {
    var i := i0;
    ghost var place := place0;
    while i < s.Length
      invariant i0 <= i <= s.Length && place == Zeroing(i)
      invariant forall k :: 0 <= k < i0 ==> s[k] == old(s[k])
      invariant forall k :: i0 <= k < i ==> s[k] == ZERO
      modifies s
    {
      s[i] := ZERO;
      i, place := Bumped(i, CHAR_VALUES), Turn(s.Length, full, place);
    }
    assert Turn(s.Length, full, place) == Shifted;
  }

  /** The shift by whole bytes, and then by the rest, of the bytes that stay. */
  method MoveUp(s: array<Poly>, full: nat, rest: nat) returns (i: nat, ghost place: Shifting)
    requires s.Length < CHAR_VALUES && 0 < full && Bytes(s[..])
    modifies s
    ensures i == Kept(s.Length, full) && place == Zeroing(i) && Bytes(s[..i])
    ensures full < s.Length ==> Value(s[..i]) == ShiftWord(8 * i, Value(old(s[..])[full..]), rest)
  {
    ghost var was := s[..];
    assert full < s.Length ==> s[full..] == was[full..];
    i, place := MoveChars(s, full);
    ghost var moved := s[..];
    if full < s.Length {
      assert moved[..i] == was[full..] && moved[i..] == was[i..];
      StillBytes(was, moved, i);
      ShiftBits(s, i, rest, Value(was[full..]), moved[i..]);
      ShiftsAre(8 * i, Value(was[full..]), rest);
      assert s[..i] == s[..][..i];
    }
  }

  lemma ShiftedFull(s: seq<Poly>, left: seq<Poly>, r: seq<Poly>, full: nat, rest: nat, n: nat, m: nat)
    requires Bytes(s) && Bytes(left) && |r| == |s| && |left| == Kept(|s|, full) && r[..|left|] == left
    requires forall k :: |left| <= k < |r| ==> r[k] == ZERO
    requires full < |s| ==> Value(left) == ShiftWord(8 * |left|, Value(s[full..]), rest)
    requires n == 8 * |s| && m == 8 * full + rest
    ensures Bytes(r) && Value(r) == ShiftWord(n, Value(s), m)
  {
    forall k | 0 <= k < |left| ensures r[k] == left[k] { assert r[..|left|][k] == r[k]; }
    if full < |s| {
      MovedValue(s, left, r, full, rest, n, m);
    } else {
      ValueZeros(r);
      ShiftedAway(n, Value(s), m);
    }
  }

  method ShiftFull(s: array<Poly>, full: nat, rest: nat, ghost n: nat, ghost m: nat)
    requires 1 <= s.Length < CHAR_VALUES && 0 < full && Bytes(s[..]) && n == 8 * s.Length && m == 8 * full + rest
    modifies s
    ensures Bytes(s[..]) && Value(s[..]) == ShiftWord(n, old(Value(s[..])), m)
  {
    ghost var was := s[..];
    var i, place := MoveUp(s, full, rest);
    ghost var left := s[..i];
    ZeroChars(s, i, full, place);
    assert s[..][..i] == left;
    ShiftedFull(was, left, s[..], full, rest, n, m);
  }

  // ----- bit_vec.c

  /** A byte shifted right. */
  function Right(b: Poly, j: nat): Poly {
    set e | e in b && e >= j :: e - j
  }

  lemma RightBit(b: Poly, j: nat, k: nat)
    ensures k in Right(b, j) <==> k + j in b
  {
    if k + j in b { assert (k + j) - j in Right(b, j); }
  }

  /** The bits of two neighbours, shifted left by b. */
  function Joined(l: Poly, r: Poly, b: nat): Poly
    requires b <= 8
  {
    ShiftWord(8, l, b) + Right(r, 8 - b)
  }

  /** Byte i of a vector shifted left by `full` bytes and b bits. */
  function ShlByte(s: seq<Poly>, full: nat, b: nat, i: nat): Poly
    requires b <= 8
  {
    if i + full + 1 < |s| then Joined(s[i + full], s[i + full + 1], b)
    else if i + full < |s| then ShiftWord(8, s[i + full], b)
    else ZERO
  }

  lemma ShlByteBelow(s: seq<Poly>, full: nat, b: nat, i: nat)
    requires Bytes(s) && 0 < b < 8
    ensures Below(ShlByte(s, full, b, i), 8)
  {
    if i + full + 1 < |s| { RightBelow(s[i + full + 1], 8 - b); }
  }

  lemma RightBelow(b: Poly, j: nat)
    requires Below(b, 8)
    ensures Below(Right(b, j), 8)
  {
  }

  lemma ShlByteBit(s: seq<Poly>, full: nat, b: nat, i: nat, k: nat)
    requires Bytes(s) && 0 < b < 8 && i + full < |s| && k < 8
    ensures k in ShlByte(s, full, b, i) <==>
      if k >= b then k - b in s[i + full] else i + full + 1 < |s| && k + 8 - b in s[i + full + 1]
  {
    ShiftWordBit(8, s[i + full], b, k);
    if i + full + 1 < |s| {
      RightBit(s[i + full + 1], 8 - b, k);
      assert k >= b ==> k + (8 - b) !in s[i + full + 1];
    }
  }

  lemma ShlBit(s: seq<Poly>, r: seq<Poly>, full: nat, b: nat, i: nat, k: nat)
    requires Bytes(s) && 0 < b < 8 && |r| == |s| && i < |s| && k < 8 && r[i] == ShlByte(s, full, b, i)
    ensures SameBit(r, ShiftWord(8 * |s|, Value(s), 8 * full + b), |s|, i, k)
  {
    var n := |s|;
    var e := 8 * (n - 1 - i) + k;
    ShiftWordBit(8 * n, Value(s), 8 * full + b, e);
    if i + full < n {
      ShlByteBit(s, full, b, i, k);
      if k >= b {
        assert e - 8 * full - b == 8 * (n - 1 - (i + full)) + (k - b);
        BitOf(s, i + full, k - b);
      } else if i + full + 1 < n {
        assert e - 8 * full - b == 8 * (n - 1 - (i + full + 1)) + (k + 8 - b);
        BitOf(s, i + full + 1, k + 8 - b);
      }
    }
  }

  lemma ShlValue(s: seq<Poly>, r: seq<Poly>, full: nat, b: nat)
    requires Bytes(s) && 0 < b < 8 && |r| == |s| && forall i :: 0 <= i < |s| ==> r[i] == ShlByte(s, full, b, i)
    ensures Bytes(r) && Value(r) == ShiftWord(8 * |s|, Value(s), 8 * full + b)
  {
    var w := ShiftWord(8 * |s|, Value(s), 8 * full + b);
    forall i | 0 <= i < |r| ensures Below(r[i], 8) { ShlByteBelow(s, full, b, i); }
    forall i: nat, k: nat | i < |s| && k < 8 ensures SameBit(r, w, |s|, i, k) { ShlBit(s, r, full, b, i, k); }
    ShiftWordBelow(8 * |s|, Value(s), 8 * full + b);
    ValueIs(r, w, |s|);
  }

  /** vec_shl: as vector_shift_left_many, but two bytes at a time. */
  method VecShl(s: array<Poly>, bits: nat)
    requires bits <= 8 * s.Length && Bytes(s[..])
    modifies s
    ensures Bytes(s[..]) && Value(s[..]) == ShiftWord(8 * s.Length, old(Value(s[..])), bits)
  {
    if bits == 0 {
      ShiftWordNone(8 * s.Length, Value(s[..]));
      return;
    }
    var full, b := bits / 8, bits % 8;
    if b == 0 {
      ShlBytes(s, full, bits);
    } else {
      ShlPieces(s, full, b, bits);
    }
  }

  method ShlPieces(s: array<Poly>, full: nat, b: nat, ghost bits: nat)
    requires full < s.Length && 0 < b < 8 && Bytes(s[..]) && bits == 8 * full + b
    modifies s
    ensures Bytes(s[..]) && Value(s[..]) == ShiftWord(8 * s.Length, old(Value(s[..])), bits)
  {
    ghost var was := s[..];
    ShlJoin(s, full, b);
    ShlValue(was, s[..], full, b);
  }

  method ShlBytes(s: array<Poly>, full: nat, ghost bits: nat)
    requires full <= s.Length && Bytes(s[..]) && bits == 8 * full
    modifies s
    ensures Bytes(s[..]) && Value(s[..]) == ShiftWord(8 * s.Length, old(Value(s[..])), bits)
  {
    ghost var was := s[..];
    var n := s.Length - full;
    MoveBytes(s, full);
    ZeroBytes(s, n);
    assert s[..][..n] == s[..n];
    BytesMoved(was, s[..], full);
  }

  lemma BytesMoved(s: seq<Poly>, r: seq<Poly>, full: nat)
    requires Bytes(s) && full <= |s| == |r| && r[..|s| - full] == s[full..]
    requires forall i :: |s| - full <= i < |s| ==> r[i] == ZERO
    ensures Bytes(r) && Value(r) == ShiftWord(8 * |s|, Value(s), 8 * full)
  {
    assert MovedUp(s, s[full..], r, full, 0) by { BytesUp(s, r, full); }
    MovedValue(s, s[full..], r, full, 0, 8 * |s|, 8 * full);
  }

  lemma BytesUp(s: seq<Poly>, r: seq<Poly>, full: nat)
    requires Bytes(s) && full <= |s| == |r| && r[..|s| - full] == s[full..]
    requires forall i :: |s| - full <= i < |s| ==> r[i] == ZERO
    ensures MovedUp(s, s[full..], r, full, 0)
  {
    var left := s[full..];
    forall i | 0 <= i < |left| ensures r[i] == left[i] { assert r[..|s| - full][i] == r[i]; }
    ShiftWordNone(8 * |left|, Value(left));
  }

  method ShlJoin(s: array<Poly>, full: nat, b: nat)
    requires full < s.Length && 0 < b < 8
    modifies s
    ensures forall i :: 0 <= i < s.Length ==> s[i] == ShlByte(old(s[..]), full, b, i)
  {
    ghost var was := s[..];
    var i := 0;
    while i < s.Length - full - 1
      invariant i < s.Length - full
      invariant forall k :: 0 <= k < i ==> s[k] == ShlByte(was, full, b, k)
      invariant forall k :: i <= k < s.Length ==> s[k] == was[k]
      modifies s
    {
      s[i] := Joined(s[i + full], s[i + full + 1], b);
      i := i + 1;
    }
    s[i] := ShiftWord(8, s[i + full], b);
    i := i + 1;
    while i < s.Length
      invariant s.Length - full <= i <= s.Length
      invariant forall k :: 0 <= k < i ==> s[k] == ShlByte(was, full, b, k)
      modifies s
    {
      s[i] := ZERO;
      i := i + 1;
    }
  }
}
