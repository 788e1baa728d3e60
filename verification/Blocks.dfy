/** Data blocks under XOR. */
module Blocks {
  import opened Lists

  type Block = seq<bv8>

  function Zero(n: nat): (r: Block)
    ensures |r| == n
  {
    seq(n, i => 0)
  }

  function Xor(a: Block, b: Block): (r: Block)
    requires |a| == |b|
    ensures |r| == |a|
  {
    seq(|a|, i requires 0 <= i < |a| => a[i] ^ b[i])
  }

  lemma ByteXor(a: bv8, b: bv8, c: bv8)
    ensures a ^ b == b ^ a && (a ^ b) ^ c == a ^ (b ^ c) && a ^ a == 0 && a ^ 0 == a
  {
  }

  lemma XorSelf(a: Block)
    ensures Xor(a, a) == Zero(|a|)
  {
    forall i | 0 <= i < |a| ensures Xor(a, a)[i] == 0 { ByteXor(a[i], 0, 0); }
  }

  lemma XorZero(a: Block)
    ensures Xor(a, Zero(|a|)) == a && Xor(Zero(|a|), a) == a
  {
    forall i | 0 <= i < |a| ensures Xor(a, Zero(|a|))[i] == a[i] && Xor(Zero(|a|), a)[i] == a[i] {
      ByteXor(a[i], 0, 0);
      ByteXor(0, a[i], 0);
    }
  }

  lemma XorComm(a: Block, b: Block)
    requires |a| == |b|
    ensures Xor(a, b) == Xor(b, a)
  {
    forall i | 0 <= i < |a| ensures Xor(a, b)[i] == Xor(b, a)[i] { ByteXor(a[i], b[i], 0); }
  }

  lemma XorAssoc(a: Block, b: Block, c: Block)
    requires |a| == |b| == |c|
    ensures Xor(Xor(a, b), c) == Xor(a, Xor(b, c))
  {
    forall i | 0 <= i < |a| ensures Xor(Xor(a, b), c)[i] == Xor(a, Xor(b, c))[i] {
      ByteXor(a[i], b[i], c[i]);
    }
  }

  /** Two blocks that cancel are the same. */
  lemma XorCancels(a: Block, b: Block)
    requires |a| == |b|
    ensures Xor(a, b) == Zero(|a|) <==> a == b
    ensures Xor(a, Xor(a, b)) == b
  {
    XorSelf(a);
    XorAssoc(a, a, b);
    XorZero(b);
    XorZero(a);
  }

  predicate SizedOn(n: nat, val: nat -> Block, s: seq<nat>) {
    forall i :: 0 <= i < |s| ==> |val(s[i])| == n
  }

  /** XOR of the values of all members of a list, with multiplicity. */
  function XorSum(n: nat, val: nat -> Block, s: seq<nat>): (r: Block)
    requires SizedOn(n, val, s)
    ensures |r| == n
  {
    if s == [] then Zero(n)
    else
      assert SizedOn(n, val, s[1..]) by { assert forall i :: 0 <= i < |s| - 1 ==> s[1..][i] == s[i + 1]; }
      Xor(val(s[0]), XorSum(n, val, s[1..]))
  }

  lemma SizedMembers(n: nat, val: nat -> Block, s: seq<nat>, t: seq<nat>)
    requires SizedOn(n, val, s) && forall x :: x in t ==> x in s
    ensures SizedOn(n, val, t)
  {
    forall i | 0 <= i < |t| ensures |val(t[i])| == n {
      assert t[i] in s;
    }
  }

  lemma {:induction false} XorSumConcat(n: nat, val: nat -> Block, s: seq<nat>, t: seq<nat>)
    requires SizedOn(n, val, s) && SizedOn(n, val, t)
    ensures SizedOn(n, val, s + t) && XorSum(n, val, s + t) == Xor(XorSum(n, val, s), XorSum(n, val, t))
  {
    if s == [] {
      assert s + t == t;
      XorZero(XorSum(n, val, t));
    } else {
      SizedMembers(n, val, s, s[1..]);
      assert (s + t)[1..] == s[1..] + t;
      XorSumConcat(n, val, s[1..], t);
      XorAssoc(val(s[0]), XorSum(n, val, s[1..]), XorSum(n, val, t));
    }
  }

  lemma {:induction false} XorSumRemove(n: nat, val: nat -> Block, s: seq<nat>, k: nat)
    requires SizedOn(n, val, s) && k < |s|
    ensures SizedOn(n, val, RemoveAt(s, k))
    ensures XorSum(n, val, s) == Xor(val(s[k]), XorSum(n, val, RemoveAt(s, k)))
  {
    var l, r := s[..k], s[k + 1..];
    SizedMembers(n, val, s, l);
    SizedMembers(n, val, s, r);
    SizedMembers(n, val, s, [s[k]]);
    assert s == l + ([s[k]] + r) && RemoveAt(s, k) == l + r;
    XorSumConcat(n, val, [s[k]], r);
    XorSumConcat(n, val, l, [s[k]] + r);
    XorSumConcat(n, val, l, r);
    XorSumOne(n, val, s[k]);
    var a, b, c := XorSum(n, val, l), val(s[k]), XorSum(n, val, r);
    XorAssoc(a, b, c);
    XorComm(a, b);
    XorAssoc(b, a, c);
  }

  lemma XorSumOne(n: nat, val: nat -> Block, x: nat)
    requires |val(x)| == n
    ensures XorSum(n, val, [x]) == val(x)
  {
    XorZero(val(x));
  }

  /** The sum does not depend on the order of the list. */
  lemma {:induction false} XorSumRearranged(n: nat, val: nat -> Block, s: seq<nat>, t: seq<nat>)
    requires Rearranged(s, t) && SizedOn(n, val, s)
    ensures SizedOn(n, val, t) && XorSum(n, val, s) == XorSum(n, val, t)
    decreases |s|
  {
    if s != [] {
      assert SameCount(s, t, s[0]);
      CountPositive(t, s[0]);
      var k := IndexOf(t, s[0]);
      var r := RemoveAt(t, k);
      SizedMembers(n, val, s, s[1..]);
      forall x: nat ensures SameCount(s[1..], r, x) {
        assert SameCount(s, t, x);
        CountRemoveAt(t, k, x);
      }
      XorSumRearranged(n, val, s[1..], r);
      assert forall i :: 0 <= i < |t| && i != k ==> t[i] == r[if i < k then i else i - 1];
      XorSumRemove(n, val, t, k);
    }
  }

  lemma {:induction false} XorSumAgree(n: nat, val: nat -> Block, wal: nat -> Block, s: seq<nat>)
    requires SizedOn(n, val, s) && forall i :: 0 <= i < |s| ==> wal(s[i]) == val(s[i])
    ensures SizedOn(n, wal, s) && XorSum(n, wal, s) == XorSum(n, val, s)
  {
    if s != [] {
      SizedMembers(n, val, s, s[1..]);
      XorSumAgree(n, val, wal, s[1..]);
    }
  }
}
