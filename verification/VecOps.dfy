/** The loops of gf8.c, gf16_32.c and perpetual.c over buffers of field elements. */
module VecOps {
  import opened Fields
  import opened Vectors

  /** a with x written over it from position at on. */
  function Splice<T>(a: seq<T>, at: nat, x: seq<T>): (r: seq<T>)
    requires at + |x| <= |a|
    ensures |r| == |a|
  {
    a[..at] + x + a[at + |x|..]
  }

  lemma SpliceIs<T>(a: seq<T>, b: seq<T>, at: nat, x: seq<T>)
    requires at + |x| <= |a| == |b|
    requires forall k :: 0 <= k < |x| ==> b[at + k] == x[k]
    requires forall k :: 0 <= k < |a| && !(at <= k < at + |x|) ==> b[k] == a[k]
    ensures b == Splice(a, at, x)
  {
    var s := Splice(a, at, x);
    forall k | 0 <= k < |a| ensures b[k] == s[k] {
      if at <= k < at + |x| { assert b[at + (k - at)] == x[k - at]; }
    }
  }

  // ----- counting zeros

  /** Zeros at the end of a row that lies between two positions of a buffer. */
  method CountTrailing<T(!new, ==)>(o: Ops<T>, a: array<T>, lo: nat, hi: nat, ghost row: seq<T>) returns (n: nat)
    requires lo <= hi <= a.Length && row == a[lo..hi]
    ensures n == Trailing(o, row)
  {
    n := 0;
    var cp := hi;
    while cp > lo
      invariant lo <= cp <= hi && n == hi - cp
      invariant forall k :: cp <= k < hi ==> a[k] == o.zero
    {
      if a[cp - 1] != o.zero { break; }
      n := n + 1;
      cp := cp - 1;
    }
    TrailingIs(o, row, n);
  }

  method CountLeading<T(!new, ==)>(o: Ops<T>, a: array<T>) returns (n: nat)
    ensures n == Leading(o, a[..])
  {
    n := 0;
    while n < a.Length
      invariant n <= a.Length
      invariant forall k :: 0 <= k < n ==> a[k] == o.zero
    {
      if a[n] != o.zero { break; }
      n := n + 1;
    }
    LeadingIs(o, a[..], n);
  }

  // ----- sums

  /** Subtract a row from the code, and replace the row by the old code if they are to be swapped. */
  method AddRow<T(!new, ==)>(o: Ops<T>, code: array<T>, coding: array<T>, at: nat, swap: bool) returns (cancelled: bool)
    requires code != coding && at + code.Length <= coding.Length
    modifies code, coding
    ensures code[..] == Plus(o, old(code[..]), old(coding[at..at + code.Length]))
    ensures coding[..] == if swap then Splice(old(coding[..]), at, old(code[..])) else old(coding[..])
    ensures cancelled <==> AllZero(o, code[..])
  {
    cancelled := true;
    ghost var was, row := code[..], coding[at..at + code.Length];
    var k := 0;
    while k < code.Length
      invariant k <= code.Length
      invariant forall j :: 0 <= j < k ==> code[j] == o.add(was[j], row[j])
      invariant forall j :: k <= j < code.Length ==> code[j] == was[j]
      invariant forall j :: 0 <= j < coding.Length && !(swap && at <= j < at + k) ==> coding[j] == old(coding[j])
      invariant swap ==> forall j :: 0 <= j < k ==> coding[at + j] == was[j]
      invariant cancelled <==> forall j :: 0 <= j < k ==> code[j] == o.zero
      modifies code, coding
    {
      assert coding[at + k] == row[k];
      var cv := code[k];
      var sum := o.add(cv, coding[at + k]);
      if sum != o.zero { cancelled := false; }
      if swap { coding[at + k] := cv; }
      code[k] := sum;
      k := k + 1;
    }
    if swap { SpliceIs(old(coding[..]), coding[..], at, was); }
  }

  /** Does the symbol cancel as well? */
  method CompareSymbol<T(!new, ==)>(o: Ops<T>, sym: array<T>, symbol: array<T>, at: nat, swap: bool)
    returns (zero: bool)
    requires sym != symbol && at + sym.Length <= symbol.Length
    modifies symbol
    ensures zero <==> AllZero(o, Plus(o, sym[..], old(symbol[at..at + sym.Length])))
    ensures symbol[..] == if swap then Splice(old(symbol[..]), at, sym[..]) else old(symbol[..])
  {
    zero := true;
    ghost var row := symbol[at..at + sym.Length];
    var k := 0;
    while k < sym.Length
      invariant k <= sym.Length
      invariant forall j :: 0 <= j < symbol.Length && !(swap && at <= j < at + k) ==> symbol[j] == old(symbol[j])
      invariant swap ==> forall j :: 0 <= j < k ==> symbol[at + j] == sym[j]
      invariant zero <==> forall j :: 0 <= j < k ==> o.add(sym[j], row[j]) == o.zero
      modifies symbol
    {
      assert symbol[at + k] == row[k];
      if o.add(sym[k], symbol[at + k]) != o.zero { zero := false; }
      if swap { symbol[at + k] := sym[k]; }
      k := k + 1;
    }
    if swap { SpliceIs(old(symbol[..]), symbol[..], at, sym[..]); }
  }

  // ----- gf8.c

  /** Multiply the elements from position at on. */
  method VecMul<T(!new)>(o: Ops<T>, s: array<T>, at: nat, val: T)
    requires at <= s.Length
    modifies s
    ensures s[..] == old(s[..at]) + Scale(o, val, old(s[at..]))
  {
    ghost var was := s[at..];
    var k := at;
    while k < s.Length
      invariant at <= k <= s.Length
      invariant forall j :: 0 <= j < at ==> s[j] == old(s[j])
      invariant forall j :: at <= j < k ==> s[j] == o.mul(val, was[j - at])
      invariant forall j :: k <= j < s.Length ==> s[j] == was[j - at]
      modifies s
    {
      s[k] := o.mul(val, s[k]);
      k := k + 1;
    }
  }

  /** Fused add and multiply, with or without a swap. */
  method FamWithSwap<T(!new)>(o: Ops<T>, d: array<T>, s: array<T>, at: nat, val: T, swap: bool)
    requires d != s && at + d.Length <= s.Length
    modifies d, s
    ensures d[..] == Scale(o, val, Plus(o, old(d[..]), old(s[at..at + d.Length])))
    ensures s[..] == if swap then Splice(old(s[..]), at, old(d[..])) else old(s[..])
  {
    ghost var was, row := d[..], s[at..at + d.Length];
    var k := 0;
    while k < d.Length
      invariant k <= d.Length
      invariant forall j :: 0 <= j < k ==> d[j] == o.mul(val, o.add(was[j], row[j]))
      invariant forall j :: k <= j < d.Length ==> d[j] == was[j]
      invariant forall j :: 0 <= j < s.Length && !(swap && at <= j < at + k) ==> s[j] == old(s[j])
      invariant swap ==> forall j :: 0 <= j < k ==> s[at + j] == was[j]
      modifies d, s
    {
      assert s[at + k] == row[k];
      var dv := d[k];
      var sum := o.add(dv, s[at + k]);
      if swap { s[at + k] := dv; }
      d[k] := o.mul(val, sum);
      k := k + 1;
    }
    if swap { SpliceIs(old(s[..]), s[..], at, was); }
  }

  /** Move the elements from position n on to the front, and fill up with zeros. */
  method ShiftLeft<T(!new)>(o: Ops<T>, a: array<T>, n: nat)
    requires n <= a.Length
    modifies a
    ensures a[..] == old(a[n..]) + Zeros(o, n)
  {
    ghost var was := a[..];
    var k, cp := 0, n;
    while cp < a.Length
      invariant n <= cp <= a.Length && k == cp - n
      invariant forall j :: 0 <= j < k ==> a[j] == was[j + n]
      invariant forall j :: k <= j < a.Length ==> a[j] == was[j]
      modifies a
    {
      a[k] := a[cp];
      k, cp := k + 1, cp + 1;
    }
    while k < a.Length
      invariant a.Length - n <= k <= a.Length
      invariant forall j :: 0 <= j < a.Length - n ==> a[j] == was[j + n]
      invariant forall j :: a.Length - n <= j < k ==> a[j] == o.zero
      modifies a
    {
      a[k] := o.zero;
      k := k + 1;
    }
  }

  /** memcpy of a whole buffer into a larger one. */
  method CopyRow<T>(a: array<T>, at: nat, x: array<T>)
    requires a != x && at + x.Length <= a.Length
    modifies a
    ensures a[..] == Splice(old(a[..]), at, x[..])
  {
    var k := 0;
    while k < x.Length
      invariant k <= x.Length
      invariant forall j :: 0 <= j < k ==> a[at + j] == x[j]
      invariant forall j :: 0 <= j < a.Length && !(at <= j < at + k) ==> a[j] == old(a[j])
      modifies a
    {
      a[at + k] := x[k];
      k := k + 1;
    }
    SpliceIs(old(a[..]), a[..], at, x[..]);
  }
}
