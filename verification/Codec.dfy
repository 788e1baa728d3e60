/** codec.c: encoder and decoder over flat byte buffers, side by side. */
module Codec {
  import opened Blocks
  import opened Peeling
  import opened CodecValues

  // ----- blocks in a flat buffer

  /** Block k of a buffer starts at byte k * n. */
  ghost function At(n: nat, k: nat): nat {
    if k == 0 then 0 else At(n, k - 1) + n
  }

  lemma {:induction false} AtTimes(n: nat, k: nat)
    ensures At(n, k) == k * n
  {
    if k > 0 { AtTimes(n, k - 1); }
  }

  lemma {:induction false} AtBelow(n: nat, k: nat, count: nat)
    requires k < count
    ensures At(n, k) + n <= At(n, count)
  {
    if k + 1 < count { AtBelow(n, k, count - 1); }
  }

  ghost predicate SlotIs(a: seq<bv8>, n: nat, k: nat, v: Block) {
    At(n, k) + n <= |a| && a[At(n, k)..At(n, k) + n] == v
  }

  /** b differs from a at most in block k, which now holds v. */
  ghost predicate SlotSet(a: seq<bv8>, b: seq<bv8>, n: nat, k: nat, v: Block) {
    && |b| == |a| && SlotIs(b, n, k, v)
    && (forall i :: 0 <= i < |a| && !(At(n, k) <= i < At(n, k) + n) ==> b[i] == a[i])
  }

  lemma OtherSlots(a: seq<bv8>, b: seq<bv8>, n: nat, k: nat, v: Block, j: nat, w: Block)
    requires SlotSet(a, b, n, k, v) && SlotIs(a, n, j, w) && j != k
    ensures SlotIs(b, n, j, w)
  {
    if j < k { AtBelow(n, j, k); } else { AtBelow(n, k, j); }
    var at := At(n, j);
    assert forall i :: at <= i < at + n ==> b[i] == a[i];
    assert b[at..at + n] == a[at..at + n];
  }

  lemma ZeroSlot(a: seq<bv8>, n: nat, k: nat)
    requires At(n, k) + n <= |a| && forall i :: 0 <= i < |a| ==> a[i] == 0
    ensures SlotIs(a, n, k, Zero(n))
  {
    assert a[At(n, k)..At(n, k) + n] == Zero(n);
  }

  ghost function Cut(a: seq<bv8>, n: nat, count: nat): (r: seq<Block>)
    requires At(n, count) <= |a|
    ensures |r| == count && MessageOk(n, r)
  {
    if count == 0 then [] else Cut(a, n, count - 1) + [a[At(n, count - 1)..At(n, count)]]
  }

  lemma {:induction false} CutSlot(a: seq<bv8>, n: nat, count: nat, k: nat)
    requires At(n, count) <= |a| && k < count
    ensures SlotIs(a, n, k, Cut(a, n, count)[k])
  {
    if k + 1 < count { CutSlot(a, n, count - 1, k); }
  }

  /** xor: dst[d..] ^= src[s..], n bytes. */
  method XorInto(dst: array<bv8>, d: nat, src: array<bv8>, s: nat, n: nat)
    requires d + n <= dst.Length && s + n <= src.Length && dst != src
    modifies dst
    ensures dst[d..d + n] == Xor(old(dst[d..d + n]), src[s..s + n])
    ensures forall i :: 0 <= i < dst.Length && !(d <= i < d + n) ==> dst[i] == old(dst[i])
  {
    var count, p, q := n, d, s;
    while count > 0
      invariant 0 <= count <= n && p == d + (n - count) && q == s + (n - count)
      invariant forall i :: d <= i < p ==> dst[i] == old(dst[i]) ^ src[s + (i - d)]
      invariant forall i :: 0 <= i < dst.Length && !(d <= i < p) ==> dst[i] == old(dst[i])
    {
      count := count - 1;
      dst[p] := dst[p] ^ src[q];
      p, q := p + 1, q + 1;
    }
  }

  /** XOR of one block into a slot. */
  method XorSlot(dst: array<bv8>, k: nat, src: array<bv8>, j: nat, n: nat, ghost u: Block, ghost v: Block)
    requires dst != src && SlotIs(dst[..], n, k, u) && SlotIs(src[..], n, j, v)
    modifies dst
    ensures |u| == n == |v| && SlotSet(old(dst[..]), dst[..], n, k, Xor(u, v))
  {
    AtTimes(n, k);
    AtTimes(n, j);
    XorInto(dst, k * n, src, j * n, n);
  }

  /** memcpy of a whole block into a slot. */
  method CopySlot(dst: array<bv8>, k: nat, src: array<bv8>, n: nat)
    requires dst != src && At(n, k) + n <= dst.Length && n <= src.Length
    modifies dst
    ensures SlotSet(old(dst[..]), dst[..], n, k, src[..n])
  {
    AtTimes(n, k);
    forall i | 0 <= i < n {
      dst[k * n + i] := src[i];
    }
  }

  // ----- encoder

  ghost predicate AuxSum(n: nat, msg: seq<Block>, edges: seq<Edge>, i: nat, cache: seq<bv8>, a: nat)
    requires i <= |edges| && |msg| <= a
  {
    SlotIs(cache, n, a - |msg|, XorSum(n, MessageOf(n, msg), AuxLowers(edges, i, a)))
  }

  lemma AuxSumStep(n: nat, msg: seq<Block>, edges: seq<Edge>, i: nat, old_: seq<bv8>, cache: seq<bv8>, a: nat)
    requires i < |edges| && |msg| <= a && AuxSum(n, msg, edges, i, old_, a) && |msg| <= edges[i].aux
    requires var b := edges[i].aux;
      SlotSet(old_, cache, n, b - |msg|,
              Xor(XorSum(n, MessageOf(n, msg), AuxLowers(edges, i, b)), MessageValue(n, msg, edges[i].msg)))
    ensures AuxSum(n, msg, edges, i + 1, cache, a)
  {
    var b, x := edges[i].aux, edges[i].msg;
    var low := AuxLowers(edges, i, b);
    if a == b {
      assert AuxLowers(edges, i + 1, a) == [x] + low;
      assert ([x] + low)[1..] == low;
      XorComm(XorSum(n, MessageOf(n, msg), low), MessageValue(n, msg, x));
    } else {
      OtherSlots(old_, cache, n, b - |msg|,
                 Xor(XorSum(n, MessageOf(n, msg), low), MessageValue(n, msg, x)), a - |msg|,
                 XorSum(n, MessageOf(n, msg), AuxLowers(edges, i, a)));
    }
  }

  ghost predicate CompositeStored(n: nat, msg: seq<Block>, edges: seq<Edge>, message: seq<bv8>, cache: seq<bv8>,
                                  x: nat) {
    if x < |msg| then SlotIs(message, n, x, CompositeValue(n, msg, edges, x))
    else SlotIs(cache, n, x - |msg|, CompositeValue(n, msg, edges, x))
  }

  ghost predicate AllStored(n: nat, msg: seq<Block>, co: nat, edges: seq<Edge>, message: seq<bv8>, cache: seq<bv8>) {
    forall x :: 0 <= x < co ==> CompositeStored(n, msg, edges, message, cache, x)
  }

  /** The encoder's auxiliary cache holds the value of every auxiliary block. */
  method EncodeAux(n: nat, m: nat, co: nat, message: array<bv8>, edges: seq<Edge>) returns (cache: array<bv8>)
    requires m <= co && EdgesOk(m, co, edges) && At(n, m) <= message.Length
    ensures fresh(cache) && AllStored(n, Cut(message[..], n, m), co, edges, message[..], cache[..])
  {
    ghost var msg := Cut(message[..], n, m);
    AtTimes(n, co - m);
    cache := new bv8[(co - m) * n](_ => 0);
    forall a: nat | m <= a < co ensures AuxSum(n, msg, edges, 0, cache[..], a) {
      AtBelow(n, a - m, co - m);
      ZeroSlot(cache[..], n, a - m);
    }
    var i := 0;
    while i < |edges|
      invariant i <= |edges| && message[..] == old(message[..])
      invariant forall a :: m <= a < co ==> AuxSum(n, msg, edges, i, cache[..], a)
    {
      EncodeAuxEdge(n, m, co, message, edges, cache, i);
      i := i + 1;
    }
    forall x: nat | x < co ensures CompositeStored(n, msg, edges, message[..], cache[..], x) {
      if x < m { CutSlot(message[..], n, m, x); } else { assert AuxSum(n, msg, edges, |edges|, cache[..], x); }
    }
  }

  method EncodeAuxEdge(n: nat, m: nat, co: nat, message: array<bv8>, edges: seq<Edge>, cache: array<bv8>, i: nat)
    requires m <= co && EdgesOk(m, co, edges) && At(n, m) <= message.Length && i < |edges| && message != cache
    requires forall a :: m <= a < co ==> AuxSum(n, Cut(message[..], n, m), edges, i, cache[..], a)
    modifies cache
    ensures var i' := i + 1; forall a :: m <= a < co ==> AuxSum(n, Cut(message[..], n, m), edges, i', cache[..], a)
  {
    ghost var msg, was := Cut(message[..], n, m), cache[..];
    var x, b := edges[i].msg, edges[i].aux;
    CutSlot(message[..], n, m, x);
    assert AuxSum(n, msg, edges, i, was, b);
    XorSlot(cache, b - m, message, x, n, XorSum(n, MessageOf(n, msg), AuxLowers(edges, i, b)), MessageValue(n, msg, x));
    ghost var i' := i + 1;
    forall a: nat | m <= a < co ensures AuxSum(n, msg, edges, i', cache[..], a) {
      assert AuxSum(n, msg, edges, i, was, a);
      AuxSumStep(n, msg, edges, i, was, cache[..], a);
    }
  }

  /** XOR of the blocks of a prefix grows by one block at a time. */
  lemma SumNext(n: nat, val: nat -> Block, s: seq<nat>, i: nat)
    requires i < |s| && SizedOn(n, val, s)
    ensures SizedOn(n, val, s[..i]) && SizedOn(n, val, s[..i + 1])
    ensures XorSum(n, val, s[..i + 1]) == Xor(XorSum(n, val, s[..i]), val(s[i]))
  {
    SizedMembers(n, val, s, s[..i]);
    SizedMembers(n, val, s, [s[i]]);
    assert s[..i + 1] == s[..i] + [s[i]];
    XorSumConcat(n, val, s[..i], [s[i]]);
    XorSumOne(n, val, s[i]);
  }

  /** The encoder's check block. */
  method EncodeCheck(n: nat, m: nat, co: nat, message: array<bv8>, cache: array<bv8>, list: seq<nat>,
                     ghost edges: seq<Edge>) returns (xmit: array<bv8>)
    requires m <= co && At(n, m) <= message.Length && Within(list, 0, co)
    requires AllStored(n, Cut(message[..], n, m), co, edges, message[..], cache[..])
    ensures fresh(xmit) && xmit.Length == n
    ensures xmit[..] == XorSum(n, CompositeOf(n, Cut(message[..], n, m), edges), list)
  {
    ghost var msg := Cut(message[..], n, m);
    ghost var val := CompositeOf(n, msg, edges);
    xmit := new bv8[n](_ => 0);
    assert xmit[..] == Zero(n) && list[..0] == [];
    var k := 0;
    while k < |list|
      invariant k <= |list| && SizedOn(n, val, list[..k]) && xmit[..] == XorSum(n, val, list[..k])
      invariant message[..] == old(message[..]) && cache[..] == old(cache[..])
    {
      var i := list[k];
      assert CompositeStored(n, msg, edges, message[..], cache[..], i);
      SumNext(n, val, list, k);
      if i < m {
        XorWhole(xmit, message, i, n, val(i));
      } else {
        XorWhole(xmit, cache, i - m, n, val(i));
      }
      k := k + 1;
    }
    assert list[..|list|] == list;
  }

  /** XOR of one block into a buffer of the size of a block. */
  method XorWhole(xmit: array<bv8>, src: array<bv8>, j: nat, n: nat, ghost v: Block)
    requires xmit.Length == n && xmit != src && SlotIs(src[..], n, j, v)
    modifies xmit
    ensures |v| == n && xmit[..] == Xor(old(xmit[..]), v)
  {
    AtTimes(n, j);
    XorInto(xmit, 0, src, j * n, n);
    assert xmit[..] == xmit[0..0 + n] && old(xmit[..]) == old(xmit[0..0 + n]);
  }
}
