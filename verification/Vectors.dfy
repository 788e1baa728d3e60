/** Vectors over a field of characteristic 2, as the coding vectors and symbols of perpetual codes are. */
module Vectors {
  import opened Fields

  ghost predicate In<T(!new)>(o: Ops<T>, a: seq<T>) {
    forall k :: 0 <= k < |a| ==> a[k] in o.carrier
  }

  function Plus<T(!new)>(o: Ops<T>, a: seq<T>, b: seq<T>): (r: seq<T>)
    requires |a| == |b|
    ensures |r| == |a| && forall k :: 0 <= k < |a| ==> r[k] == o.add(a[k], b[k])
  {
    seq(|a|, (k: nat) requires k < |a| && k < |b| => o.add(a[k], b[k]))
  }

  function Scale<T(!new)>(o: Ops<T>, t: T, a: seq<T>): (r: seq<T>)
    ensures |r| == |a| && forall k :: 0 <= k < |a| ==> r[k] == o.mul(t, a[k])
  {
    seq(|a|, (k: nat) requires k < |a| => o.mul(t, a[k]))
  }

  function Zeros<T(!new)>(o: Ops<T>, n: nat): (r: seq<T>)
    ensures |r| == n && forall k :: 0 <= k < n ==> r[k] == o.zero
  {
    seq(n, (k: nat) => o.zero)
  }

  lemma PlusIn<T(!new)>(o: Ops<T>, a: seq<T>, b: seq<T>)
    requires IsField(o) && |a| == |b| && In(o, a) && In(o, b)
    ensures In(o, Plus(o, a, b))
  {
    forall k | 0 <= k < |a| ensures Plus(o, a, b)[k] in o.carrier { Laws(o, a[k], b[k], o.zero); }
  }

  lemma ScaleIn<T(!new)>(o: Ops<T>, t: T, a: seq<T>)
    requires IsField(o) && In(o, a) && t in o.carrier
    ensures In(o, Scale(o, t, a))
  {
    forall k | 0 <= k < |a| ensures Scale(o, t, a)[k] in o.carrier { Laws(o, t, a[k], o.zero); }
  }

  // ----- zeros at the ends

  predicate AllZero<T(!new, ==)>(o: Ops<T>, a: seq<T>) {
    forall k :: 0 <= k < |a| ==> a[k] == o.zero
  }

  /** The number of zeros at the end. */
  function Trailing<T(!new, ==)>(o: Ops<T>, a: seq<T>): (n: nat)
    ensures n <= |a| && AllZero(o, a[|a| - n..]) && (n < |a| ==> a[|a| - n - 1] != o.zero)
  {
    if a == [] || a[|a| - 1] != o.zero then 0 else
      var n := Trailing(o, a[..|a| - 1]);
      assert a[|a| - 1 - n..] == a[..|a| - 1][|a| - 1 - n..] + [a[|a| - 1]];
      1 + n
  }

  /** The number of zeros at the start. */
  function Leading<T(!new, ==)>(o: Ops<T>, a: seq<T>): (n: nat)
    ensures n <= |a| && AllZero(o, a[..n]) && (n < |a| ==> a[n] != o.zero)
  {
    if a == [] || a[0] != o.zero then 0 else
      var n := Leading(o, a[1..]);
      assert a[..n + 1] == [a[0]] + a[1..][..n];
      1 + n
  }

  /** The length without the zeros at the end. */
  function Length<T(!new, ==)>(o: Ops<T>, a: seq<T>): nat {
    |a| - Trailing(o, a)
  }

  lemma LengthIs<T(!new)>(o: Ops<T>, a: seq<T>, n: nat)
    requires n <= |a| && (forall k :: n <= k < |a| ==> a[k] == o.zero)
    ensures Length(o, a) <= n
    ensures n > 0 && a[n - 1] != o.zero ==> Length(o, a) == n
  {
    var l := Length(o, a);
    if l < n && n > 0 { assert a[|a| - Trailing(o, a)..][n - 1 - l] == a[n - 1]; }
  }

  lemma BeyondLength<T(!new)>(o: Ops<T>, a: seq<T>, k: nat)
    requires Length(o, a) <= k < |a|
    ensures a[k] == o.zero
  {
    assert a[|a| - Trailing(o, a)..][k - Length(o, a)] == a[k];
  }

  lemma TrailingIs<T(!new)>(o: Ops<T>, a: seq<T>, n: nat)
    requires n <= |a| && (forall k :: |a| - n <= k < |a| ==> a[k] == o.zero) && (n < |a| ==> a[|a| - n - 1] != o.zero)
    ensures Trailing(o, a) == n
  {
    LengthIs(o, a, |a| - n);
    if n == |a| { LengthIs(o, a, 0); }
  }

  lemma BeforeLeading<T(!new)>(o: Ops<T>, a: seq<T>, k: nat)
    requires k < Leading(o, a)
    ensures a[k] == o.zero
  {
    assert a[..Leading(o, a)][k] == a[k];
  }

  lemma LeadingIs<T(!new)>(o: Ops<T>, a: seq<T>, n: nat)
    requires n <= |a| && (forall k :: 0 <= k < n ==> a[k] == o.zero) && (n < |a| ==> a[n] != o.zero)
    ensures Leading(o, a) == n
  {
    if Leading(o, a) > n { BeforeLeading(o, a, n); }
  }

  // ----- sums over a stretch of the message, which wraps round

  function Next(i: nat, gen: nat): nat {
    if i + 1 == gen then 0 else i + 1
  }

  /** The position n places on. */
  function Ahead(i: nat, n: nat, gen: nat): nat
    requires i < gen && n <= gen
  {
    if i + n < gen then i + n else i + n - gen
  }

  /** The sum of c[k] m[at + k], indices modulo the length of m. */
  ghost function Dot<T(!new)>(o: Ops<T>, c: seq<T>, m: seq<T>, at: nat): (r: T)
    requires IsField(o) && In(o, c) && In(o, m) && at < |m|
    ensures r in o.carrier
  {
    if c == [] then o.zero else
      var rest := Dot(o, c[1..], m, Next(at, |m|));
      Laws(o, c[0], m[at], o.zero);
      Laws(o, o.mul(c[0], m[at]), rest, o.zero);
      o.add(o.mul(c[0], m[at]), rest)
  }

  lemma AddSwap<T(!new)>(o: Ops<T>, a: T, b: T, c: T, d: T)
    requires IsField(o) && a in o.carrier && b in o.carrier && c in o.carrier && d in o.carrier
    ensures o.add(o.add(a, b), o.add(c, d)) == o.add(o.add(a, c), o.add(b, d))
  {
    Laws(o, c, d, o.zero);
    Laws(o, a, b, o.add(c, d));
    Laws(o, b, c, d);
    Laws(o, c, b, d);
    Laws(o, b, d, o.zero);
    Laws(o, a, c, o.add(b, d));
  }

  lemma Distribute<T(!new)>(o: Ops<T>, a: T, b: T, c: T)
    requires IsField(o) && a in o.carrier && b in o.carrier && c in o.carrier
    ensures o.mul(o.add(a, b), c) == o.add(o.mul(a, c), o.mul(b, c))
  {
    Laws(o, a, b, c);
    Laws(o, c, a, b);
    Laws(o, o.add(a, b), c, c);
  }

  lemma {:induction false} DotPlus<T(!new)>(o: Ops<T>, c: seq<T>, d: seq<T>, m: seq<T>, at: nat)
    requires IsField(o) && In(o, c) && In(o, d) && |c| == |d| && In(o, m) && at < |m|
    ensures In(o, Plus(o, c, d)) && Dot(o, Plus(o, c, d), m, at) == o.add(Dot(o, c, m, at), Dot(o, d, m, at))
    decreases |c|
  {
    PlusIn(o, c, d);
    Laws(o, o.zero, o.zero, o.zero);
    if c != [] {
      var s := Plus(o, c, d);
      assert s[1..] == Plus(o, c[1..], d[1..]);
      var next := Next(at, |m|);
      DotPlus(o, c[1..], d[1..], m, next);
      Distribute(o, c[0], d[0], m[at]);
      Laws(o, c[0], m[at], d[0]);
      Laws(o, d[0], m[at], o.zero);
      AddSwap(o, o.mul(c[0], m[at]), o.mul(d[0], m[at]), Dot(o, c[1..], m, next), Dot(o, d[1..], m, next));
    }
  }

  lemma {:induction false} DotScale<T(!new)>(o: Ops<T>, t: T, c: seq<T>, m: seq<T>, at: nat)
    requires IsField(o) && In(o, c) && t in o.carrier && In(o, m) && at < |m|
    ensures In(o, Scale(o, t, c)) && Dot(o, Scale(o, t, c), m, at) == o.mul(t, Dot(o, c, m, at))
    decreases |c|
  {
    ScaleIn(o, t, c);
    Laws(o, t, o.zero, o.zero);
    if c != [] {
      assert Scale(o, t, c)[1..] == Scale(o, t, c[1..]);
      var next := Next(at, |m|);
      DotScale(o, t, c[1..], m, next);
      Laws(o, t, c[0], m[at]);
      Laws(o, t, o.mul(c[0], m[at]), Dot(o, c[1..], m, next));
    }
  }

  lemma {:induction false} DotZeros<T(!new)>(o: Ops<T>, c: seq<T>, m: seq<T>, at: nat)
    requires IsField(o) && In(o, c) && AllZero(o, c) && In(o, m) && at < |m|
    ensures Dot(o, c, m, at) == o.zero
    decreases |c|
  {
    if c != [] {
      DotZeros(o, c[1..], m, Next(at, |m|));
      Laws(o, o.zero, m[at], o.zero);
      Laws(o, m[at], o.zero, o.zero);
    }
  }

  lemma {:induction false} DotPadded<T(!new)>(o: Ops<T>, c: seq<T>, n: nat, m: seq<T>, at: nat)
    requires IsField(o) && In(o, c) && In(o, m) && at < |m|
    ensures In(o, c + Zeros(o, n)) && Dot(o, c + Zeros(o, n), m, at) == Dot(o, c, m, at)
    decreases |c|
  {
    var z := Zeros(o, n);
    if c == [] {
      assert c + z == z;
      DotZeros(o, z, m, at);
    } else {
      assert (c + z)[1..] == c[1..] + z;
      DotPadded(o, c[1..], n, m, Next(at, |m|));
    }
  }

  /** Zeros at the start only move the rest along. */
  lemma {:induction false} DotSkips<T(!new)>(o: Ops<T>, c: seq<T>, p: nat, m: seq<T>, at: nat)
    requires IsField(o) && In(o, c) && In(o, m) && at < |m| && p <= |c| && p <= |m| && AllZero(o, c[..p])
    ensures Ahead(at, p, |m|) < |m| && In(o, c[p..]) && Dot(o, c, m, at) == Dot(o, c[p..], m, Ahead(at, p, |m|))
    decreases p
  {
    if p == 0 {
      assert c[0..] == c;
    } else {
      var next := Next(at, |m|);
      assert c[..p][0] == o.zero;
      assert c[1..][..p - 1] == c[..p][1..];
      assert c[1..][p - 1..] == c[p..];
      DotSkips(o, c[1..], p - 1, m, next);
      Laws(o, o.zero, m[at], Dot(o, c[1..], m, next));
      Laws(o, m[at], o.zero, o.zero);
    }
  }
}
