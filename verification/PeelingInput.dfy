/** The invariant is established by graph initialisation and kept when check blocks arrive. */
module PeelingInput {
  import opened Lists
  import opened Peeling
  import opened PeelingInvariant

  // ----- check blocks

  lemma {:induction false} AddEdgesRing(ring: seq<seq<nat>>, lowers: seq<nat>, u: nat, x: nat, w: nat)
    requires Within(lowers, 0, |ring|) && x < |ring|
    ensures Count(AddEdges(ring, lowers, u)[x], w)
         == Count(ring[x], w) + if w == u then Count(lowers, x) else 0
    decreases |lowers|
  {
    if lowers != [] {
      var r := ring[lowers[0] := ring[lowers[0]] + [u]];
      AddEdgesRing(r, lowers[1..], u, x, w);
      CountConcat(ring[lowers[0]], [u], w);
    }
  }

  lemma {:induction false} AddEdgesWithin(ring: seq<seq<nat>>, lowers: seq<nat>, u: nat, x: nat, lo: nat, hi: nat)
    requires Within(lowers, 0, |ring|) && x < |ring| && Within(ring[x], lo, hi) && lo <= u < hi
    ensures Within(AddEdges(ring, lowers, u)[x], lo, hi)
    decreases |lowers|
  {
    if lowers != [] {
      AddEdgesWithin(ring[lowers[0] := ring[lowers[0]] + [u]], lowers[1..], u, x, lo, hi);
    }
  }

  ghost predicate FreshBone(sol: seq<Option<nat>>, u: nat, b: Bone) {
    && b.unknowns <= |b.elems| && u in b.elems && Count(b.elems, u) == 1
    && CountOpen(sol, u, b.elems) == b.unknowns
    && (forall i :: 0 <= i < |b.elems| ==> b.elems[i] == u || b.elems[i] < |sol|)
    && (forall i :: 0 <= i < |b.elems| ==> (Open(sol, u, b.elems[i]) <==> i < b.unknowns))
  }

  /** A new check bone: unsolved members in front, solved members and the check block behind. */
  lemma CheckBoneFresh(sol: seq<Option<nat>>, list: seq<nat>, u: nat)
    requires Within(list, 0, |sol|) && |sol| <= u
    ensures FreshBone(sol, u, CheckBone(sol, list, u))
  {
    var unk, kn := UnsolvedOf(sol, list), SolvedOf(sol, list);
    assert (forall x :: x in unk ==> Open(sol, u, x)) && (forall x :: x in kn ==> x < |sol| && !Open(sol, u, x)) by {
      UnsolvedOfMembers(sol, list);
    }
    PartsFresh(sol, unk, kn, u);
  }

  lemma PartsFresh(sol: seq<Option<nat>>, unk: seq<nat>, kn: seq<nat>, u: nat)
    requires |sol| <= u && forall x :: x in unk ==> Open(sol, u, x)
    requires forall x :: x in kn ==> x < |sol| && !Open(sol, u, x)
    ensures FreshBone(sol, u, Bone(|unk|, unk + kn + [u]))
  {
    var elems := unk + kn + [u];
    assert Count(elems, u) == 1 by {
      CountConcat(unk + kn, [u], u);
      CountConcat(unk, kn, u);
      CountPositive(unk, u);
      CountPositive(kn, u);
    }
    assert elems[|unk + kn|] == u;
    forall i | 0 <= i < |elems|
      ensures elems[i] == u || elems[i] < |sol|
      ensures Open(sol, u, elems[i]) <==> i < |unk|
    {
      if i < |unk| {
        assert elems[i] == unk[i] && unk[i] in unk;
      } else if i < |unk + kn| {
        assert elems[i] == kn[i - |unk|] && kn[i - |unk|] in kn;
      }
    }
    CountOpenPrefix(sol, u, elems, |unk|);
  }

  lemma {:induction false} CountOpenPrefix(sol: seq<Option<nat>>, u: nat, s: seq<nat>, n: nat)
    requires n <= |s| && forall i :: 0 <= i < |s| ==> (Open(sol, u, s[i]) <==> i < n)
    ensures CountOpen(sol, u, s) == n
  {
    if n == 0 {
      CountOpenZero(sol, u, s);
    } else {
      CountOpenPrefix(sol, u, s[1..], n - 1);
    }
  }

  lemma CheckOccurrences(sol: seq<Option<nat>>, list: seq<nat>, u: nat, x: nat)
    requires Within(list, 0, |sol|) && |sol| <= u && x < |sol| && sol[x].None?
    ensures Occurrences(u, CheckBone(sol, list, u), x) == Count(UnsolvedOf(sol, list), x)
  {
    var unk, kn := UnsolvedOf(sol, list), SolvedOf(sol, list);
    UnsolvedOfMembers(sol, list);
    CountConcat(unk + kn, [u], x);
    CountConcat(unk, kn, x);
    CountPositive(kn, x);
  }

  lemma AddCheckRings(g: Graph, list: seq<nat>)
    requires g.Shape() && Within(list, 0, g.co) && RingsOk(g.m, g.bones, g.ring, g.sol)
    ensures var r := AddCheck(g, list); RingsOk(r.m, r.bones, r.ring, r.sol)
  {
    var r := AddCheck(g, list);
    var u := g.m + |g.bones|;
    forall x: nat, w: nat | x < |r.sol| && r.sol[x].None? && r.m <= w < r.m + |r.bones|
      ensures RingRight(r.m, r.bones, r.ring, x, w)
    {
      AddEdgesRing(g.ring, UnsolvedOf(g.sol, list), u, x, w);
      if w < u {
        assert RingRight(g.m, g.bones, g.ring, x, w);
      } else {
        assert RingShape(g.m, g.bones, g.ring, x);
        CountPositive(g.ring[x], u);
        CheckOccurrences(g.sol, list, u, x);
      }
    }
  }

  lemma FreshBoneFits(m: nat, co: nat, sol: seq<Option<nat>>, u: nat, b: Bone)
    requires FreshBone(sol, u, b) && |sol| == co <= u
    ensures BoneFits(m, co, u, b)
  {
  }

  lemma AppendShape(m: nat, co: nat, bones: seq<Bone>, b: Bone, u: nat)
    requires BoneFits(m, co, m + |bones|, b) && m <= u <= m + |bones|
    requires u < m + |bones| ==> BoneShape(m, co, bones, u)
    ensures BoneShape(m, co, bones + [b], u)
  {
  }

  lemma AppendRingShape(m: nat, bones: seq<Bone>, ring: seq<seq<nat>>, lowers: seq<nat>, b: Bone, x: nat)
    requires Within(lowers, 0, |ring|) && x < |ring| && RingShape(m, bones, ring, x)
    ensures RingShape(m, bones + [b], AddEdges(ring, lowers, m + |bones|), x)
  {
    AddEdgesWithin(ring, lowers, m + |bones|, x, m, m + |bones| + 1);
  }

  lemma AppendNetShape(m: nat, co: nat, bones: seq<Bone>, ring: seq<seq<nat>>, sol: seq<Option<nat>>,
                       lowers: seq<nat>, b: Bone)
    requires NetShape(m, co, bones, ring, sol) && Within(lowers, 0, co) && BoneFits(m, co, m + |bones|, b)
    ensures NetShape(m, co, bones + [b], AddEdges(ring, lowers, m + |bones|), sol)
  {
    var bones', ring' := bones + [b], AddEdges(ring, lowers, m + |bones|);
    forall w | m <= w < m + |bones'| ensures BoneShape(m, co, bones', w) {
      AppendShape(m, co, bones, b, w);
    }
    forall x: nat | x < co ensures RingShape(m, bones', ring', x) {
      AppendRingShape(m, bones, ring, lowers, b, x);
    }
  }

  lemma AddCheckShape(g: Graph, list: seq<nat>)
    requires g.Shape() && Within(list, 0, g.co)
    ensures var r := AddCheck(g, list); NetShape(r.m, r.co, r.bones, r.ring, r.sol)
  {
    var u := g.m + |g.bones|;
    var b := CheckBone(g.sol, list, u);
    assert BoneFits(g.m, g.co, u, b) by {
      CheckBoneFresh(g.sol, list, u);
      FreshBoneFits(g.m, g.co, g.sol, u, b);
    }
    AppendNetShape(g.m, g.co, g.bones, g.ring, g.sol, UnsolvedOf(g.sol, list), b);
  }

  lemma AppendCounts(g: Graph, b: Bone, c: int, r: Graph)
    requires CountsOwe(g, []) && c == CountOpen(g.sol, g.m + |g.bones|, b.elems)
    requires r.m == g.m && r.bones == g.bones + [b] && r.vcount == g.vcount + [c] && r.sol == g.sol
    ensures CountsOwe(r, [])
  {
    forall u: nat | r.m <= u < r.m + |r.bones| ensures CountRight(r.m, r.bones, r.vcount, r.sol, [], u) {
      if u < g.m + |g.bones| {
        assert CountRight(g.m, g.bones, g.vcount, g.sol, [], u);
      }
    }
  }

  lemma AppendMissed(g: Graph, b: Bone, c: int, r: Graph)
    requires NothingMissed(g, []) && g.co <= g.m + |g.bones|
    requires r.m == g.m && r.co == g.co && r.bones == g.bones + [b] && r.vcount == g.vcount + [c] && r.sol == g.sol
    requires forall p :: p in g.pending ==> p in r.pending
    requires g.m + |g.bones| in r.pending || c == 0
    ensures NothingMissed(r, [])
  {
    forall u: nat | r.m <= u < r.m + |r.bones| ensures NotMissed(r, [], u) {
      if u < g.m + |g.bones| {
        assert NotMissed(g, [], u);
      }
    }
  }

  lemma AppendSolved(g: Graph, b: Bone)
    requires SolvedOk(g.m, g.co, g.bones, g.sol)
    ensures SolvedOk(g.m, g.co, g.bones + [b], g.sol)
  {
    forall x | 0 <= x < |g.sol| ensures SolvedRight(g.m, g.co, g.bones + [b], g.sol, x) {
      assert SolvedRight(g.m, g.co, g.bones, g.sol, x);
    }
  }

  lemma AppendFront(g: Graph, b: Bone)
    requires OpenInFront(g.m, g.bones, g.sol) && |g.sol| <= g.m + |g.bones|
    requires forall i :: b.unknowns <= i < |b.elems| ==> !Open(g.sol, g.m + |g.bones|, b.elems[i])
    requires forall i :: 0 <= i < b.unknowns && i < |b.elems| ==> b.elems[i] < |g.sol|
    ensures OpenInFront(g.m, g.bones + [b], g.sol)
  {
    forall u: nat | g.m <= u < g.m + |g.bones| + 1 ensures BoneFront(g.m, g.bones + [b], g.sol, u) {
      if u < g.m + |g.bones| {
        assert BoneFront(g.m, g.bones, g.sol, u);
      }
    }
  }

  lemma AppendSensible(g: Graph, b: Bone, s: seq<nat>, r: Graph)
    requires AllSensible(g, s) && r.m == g.m && r.co == g.co && r.bones == g.bones + [b] && r.sol == g.sol
    ensures AllSensible(r, s)
  {
    forall u | u in s ensures Sensible(r.m, r.co, r.bones, r.sol, u) {
      assert Sensible(g.m, g.co, g.bones, g.sol, u);
    }
  }

  lemma AddCheckStructure(g: Graph, list: seq<nat>)
    requires Inv(g) && Within(list, 0, g.co)
    ensures StructureOf(AddCheck(g, list))
  {
    var r := AddCheck(g, list);
    var u := g.m + |g.bones|;
    var b := CheckBone(g.sol, list, u);
    assert NetShape(r.m, r.co, r.bones, r.ring, r.sol) by { AddCheckShape(g, list); }
    assert RingsOk(r.m, r.bones, r.ring, r.sol) by { AddCheckRings(g, list); }
    assert SolvedOk(r.m, r.co, r.bones, r.sol) by { AppendSolved(g, b); }
    assert OpenInFront(r.m, r.bones, r.sol) by {
      CheckBoneFresh(g.sol, list, u);
      AppendFront(g, b);
    }
  }

  lemma AddCheckKeeps(g: Graph, list: seq<nat>)
    requires Inv(g) && Within(list, 0, g.co)
    ensures Inv(AddCheck(g, list))
  {
    var r := AddCheck(g, list);
    var u := g.m + |g.bones|;
    var b := CheckBone(g.sol, list, u);
    assert StructureOf(r) by { AddCheckStructure(g, list); }
    assert AllSensible(r, r.pending) by { AppendSensible(g, b, g.pending, r); }
    if !g.done {
      assert r.pending[|r.pending| - 1] == u;
      assert CountsOwe(r, []) by {
        CheckBoneFresh(g.sol, list, u);
        AppendCounts(g, b, b.unknowns, r);
      }
      assert NothingMissed(r, []) by { AppendMissed(g, b, b.unknowns, r); }
    }
  }

  lemma AddHoleStructure(g: Graph)
    requires Inv(g)
    ensures StructureOf(AddHole(g))
  {
    var r := AddHole(g);
    var u := g.m + |g.bones|;
    assert SolvedOk(r.m, r.co, r.bones, r.sol) by { AppendSolved(g, Bone(0, [])); }
    assert OpenInFront(r.m, r.bones, r.sol) by { AppendFront(g, Bone(0, [])); }
    forall x: nat, w: nat | x < |r.sol| && r.sol[x].None? && r.m <= w < r.m + |r.bones|
      ensures RingRight(r.m, r.bones, r.ring, x, w)
    {
      if w < u {
        assert RingRight(g.m, g.bones, g.ring, x, w);
      } else {
        assert RingShape(g.m, g.bones, g.ring, x);
        CountPositive(g.ring[x], u);
      }
    }
    AppendNetShape(g.m, g.co, g.bones, g.ring, g.sol, [], Bone(0, []));
  }

  lemma AddHoleKeeps(g: Graph)
    requires Inv(g)
    ensures Inv(AddHole(g))
  {
    var r := AddHole(g);
    var b := Bone(0, []);
    assert StructureOf(r) by { AddHoleStructure(g); }
    assert AllSensible(r, r.pending) by { AppendSensible(g, b, g.pending, r); }
    if !g.done {
      assert CountsOwe(r, []) by { AppendCounts(g, b, 0, r); }
      assert NothingMissed(r, []) by { AppendMissed(g, b, 0, r); }
    }
  }

  // ----- graph initialisation

  /** Both ends of the auxiliary map agree: each message is in the bone of an auxiliary node as
      often as that node is in the message's ring. */
  lemma {:induction false} BothEnds(edges: seq<Edge>, n: nat, x: nat, a: nat)
    requires n <= |edges|
    ensures Count(MsgUppers(edges, n, x), a) == Count(AuxLowers(edges, n, a), x)
  {
    if n > 0 {
      BothEnds(edges, n - 1, x, a);
      CountConcat(MsgUppers(edges, n - 1, x), [edges[n - 1].aux], a);
    }
  }

  lemma {:induction false} InitEnds(m: nat, co: nat, edges: seq<Edge>, n: nat, x: nat)
    requires n <= |edges| && EdgesOk(m, co, edges)
    ensures Within(MsgUppers(edges, n, x), m, co) && Within(AuxLowers(edges, n, x), 0, m)
    ensures m <= x ==> MsgUppers(edges, n, x) == []
  {
    if n > 0 { InitEnds(m, co, edges, n - 1, x); }
  }

  lemma AuxBoneParts(m: nat, co: nat, edges: seq<Edge>, a: nat)
    requires m <= a < co && EdgesOk(m, co, edges)
    ensures var b := AuxBone(edges, a);
      && BoneFits(m, co, a, b) && b.unknowns == |b.elems|
      && CountOpen(seq(co, x => None), a, b.elems) == |b.elems| - 1
  {
    var low := AuxLowers(edges, |edges|, a);
    var b := AuxBone(edges, a);
    InitEnds(m, co, edges, |edges|, a);
    CountConcat(low, [a], a);
    CountPositive(low, a);
    assert b.elems[|low|] == a;
    CountOpenPrefix(seq(co, x => None), a, b.elems, |low|);
  }

  lemma {:induction false} AllUnsolved(sol: seq<Option<nat>>, n: nat)
    requires n <= |sol| && forall i :: 0 <= i < |sol| ==> sol[i].None?
    ensures CountNone(sol, n) == n
  {
    if n > 0 { AllUnsolved(sol, n - 1); }
  }

  lemma InitRings(m: nat, co: nat, edges: seq<Edge>)
    requires m <= co && EdgesOk(m, co, edges)
    ensures var g := Init(m, co, edges); RingsOk(g.m, g.bones, g.ring, g.sol)
  {
    var g := Init(m, co, edges);
    forall x: nat, u: nat | x < |g.sol| && g.sol[x].None? && g.m <= u < g.m + |g.bones|
      ensures RingRight(g.m, g.bones, g.ring, x, u)
    {
      BothEnds(edges, |edges|, x, u);
      InitEnds(m, co, edges, |edges|, x);
      CountConcat(AuxLowers(edges, |edges|, u), [u], x);
      assert g.bones[u - g.m] == AuxBone(edges, u);
      if u == x {
        CountPositive(MsgUppers(edges, |edges|, x), u);
      }
    }
  }

  lemma InitStructure(m: nat, co: nat, edges: seq<Edge>)
    requires 1 <= m <= co && EdgesOk(m, co, edges)
    ensures StructureOf(Init(m, co, edges))
  {
    var g := Init(m, co, edges);
    forall u: nat | g.m <= u < g.m + |g.bones|
      ensures BoneShape(g.m, g.co, g.bones, u) && BoneFront(g.m, g.bones, g.sol, u)
    {
      AuxBoneParts(m, co, edges, u);
      assert g.bones[u - g.m] == AuxBone(edges, u);
    }
    forall x: nat | x < co ensures RingShape(g.m, g.bones, g.ring, x) && SolvedRight(g.m, g.co, g.bones, g.sol, x) {
      InitEnds(m, co, edges, |edges|, x);
    }
    assert RingsOk(g.m, g.bones, g.ring, g.sol) by { InitRings(m, co, edges); }
    AllUnsolved(g.sol, m);
  }

  lemma InitInv(m: nat, co: nat, edges: seq<Edge>)
    requires 1 <= m <= co && EdgesOk(m, co, edges)
    ensures Inv(Init(m, co, edges))
  {
    var g := Init(m, co, edges);
    assert StructureOf(g) by { InitStructure(m, co, edges); }
    forall u: nat | g.m <= u < g.m + |g.bones|
      ensures CountRight(g.m, g.bones, g.vcount, g.sol, [], u) && NotMissed(g, [], u)
    {
      AuxBoneParts(m, co, edges, u);
      assert g.bones[u - g.m] == AuxBone(edges, u);
    }
  }
}
