/** Bones always hold the equations that came in with the auxiliary map and the check blocks. */
module PeelingEquations {
  import opened Lists
  import opened Peeling
  import opened PeelingInvariant
  import opened PeelingRuns

  function MessagesOf(edges: seq<Edge>, a: nat): seq<nat> {
    AuxLowers(edges, |edges|, a)
  }

  /** One entry for each check node: its list, or None when the boneyard was full. */
  function Arrivals(es: seq<Event>): seq<Option<seq<nat>>> {
    if es == [] then [] else
    var rest := Arrivals(es[..|es| - 1]);
    match es[|es| - 1]
    case Check(list) => rest + [Some(list)]
    case Full => rest + [None]
    case Poll => rest
  }

  /** The bone of u holds the members of c, with multiplicity, and u itself. */
  ghost predicate Holds(b: Bone, u: nat, c: seq<nat>) {
    Rearranged(b.elems, c + [u])
  }

  lemma HoldsCount(b: Bone, u: nat, c: seq<nat>, x: nat)
    requires Holds(b, u, c)
    ensures Count(b.elems, x) == Count(c, x) + if x == u then 1 else 0
    ensures |b.elems| == |c| + 1
  {
    assert SameCount(b.elems, c + [u], x);
    CountConcat(c, [u], x);
  }

  lemma HoldsMember(b: Bone, u: nat, c: seq<nat>, x: nat)
    requires Holds(b, u, c)
    ensures x in c ==> x in b.elems
    ensures x in b.elems && x != u ==> x in c
    ensures u in b.elems
  {
    HoldsCount(b, u, c, x);
    HoldsCount(b, u, c, u);
    CountPositive(b.elems, x);
    CountPositive(c, x);
    CountPositive(b.elems, u);
  }

  /** The bone of node u belongs to its equation: the auxiliary map, or a check list. */
  ghost predicate EquationAt(m: nat, co: nat, bones: seq<Bone>, edges: seq<Edge>, arr: seq<Option<seq<nat>>>, u: nat)
    requires m <= u < m + |bones| && m <= co && |bones| == co - m + |arr|
  {
    if u < co then Holds(bones[u - m], u, MessagesOf(edges, u))
    else match arr[u - co]
      case Some(c) => Holds(bones[u - m], u, c)
      case None => bones[u - m].elems == []
  }

  ghost predicate EquationsOk(m: nat, co: nat, bones: seq<Bone>, edges: seq<Edge>, arr: seq<Option<seq<nat>>>) {
    && m <= co && |bones| == co - m + |arr|
    && (forall u :: m <= u < m + |bones| ==> EquationAt(m, co, bones, edges, arr, u))
  }

  ghost predicate EquationsOf(g: Graph, edges: seq<Edge>, arr: seq<Option<seq<nat>>>) {
    EquationsOk(g.m, g.co, g.bones, edges, arr)
  }

  lemma InitEquations(m: nat, co: nat, edges: seq<Edge>)
    requires m <= co
    ensures EquationsOf(Init(m, co, edges), edges, [])
  {
    var g := Init(m, co, edges);
    forall u: nat | g.m <= u < g.m + |g.bones| ensures EquationAt(g.m, g.co, g.bones, edges, [], u) {
      assert g.bones[u - m] == AuxBone(edges, u);
      RearrangedFromMultiset(g.bones[u - m].elems, MessagesOf(edges, u) + [u]);
    }
  }

  lemma AppendEquations(m: nat, co: nat, bones: seq<Bone>, b: Bone, edges: seq<Edge>,
                        arr: seq<Option<seq<nat>>>, a: Option<seq<nat>>)
    requires EquationsOk(m, co, bones, edges, arr)
    requires if a.Some? then Holds(b, m + |bones|, a.value) else b.elems == []
    ensures EquationsOk(m, co, bones + [b], edges, arr + [a])
  {
    forall u: nat | m <= u < m + |bones| + 1 ensures EquationAt(m, co, bones + [b], edges, arr + [a], u) {
      if u < m + |bones| {
        assert EquationAt(m, co, bones, edges, arr, u);
      }
    }
  }

  lemma CheckBoneHolds(sol: seq<Option<nat>>, list: seq<nat>, u: nat)
    requires Within(list, 0, |sol|)
    ensures Holds(CheckBone(sol, list, u), u, list)
  {
    UnsolvedOfMembers(sol, list);
    assert multiset(list + [u]) == multiset(list) + multiset{u};
    RearrangedFromMultiset(CheckBone(sol, list, u).elems, list + [u]);
  }

  ghost predicate RearrangedAt(bones: seq<Bone>, bones': seq<Bone>, k: nat)
    requires k < |bones| == |bones'|
  {
    Rearranged(bones'[k].elems, bones[k].elems)
  }

  /** Solving only permutes bones. */
  ghost predicate Permuted(bones: seq<Bone>, bones': seq<Bone>) {
    |bones'| == |bones| && forall k :: 0 <= k < |bones| ==> RearrangedAt(bones, bones', k)
  }

  lemma EffectPermutes(g: Graph, o: Outcome, u: nat, i: nat)
    requires Effect(g, o, u, i)
    ensures Permuted(g.bones, o.graph.bones)
  {
    if o.solved.Some? {
      SwapKeepsMultiset(g.bones[u - g.m].elems, 0, i);
      RearrangedFromMultiset(Swap(g.bones[u - g.m].elems, 0, i), g.bones[u - g.m].elems);
    }
    forall k: nat | k < |g.bones| ensures RearrangedAt(g.bones, o.graph.bones, k) {
      if o.solved.None? || g.m + k != u {
        assert o.graph.bones[k] == g.bones[k];
        RearrangedFromMultiset(g.bones[k].elems, g.bones[k].elems);
      }
    }
  }

  lemma PermutedEquations(m: nat, co: nat, bones: seq<Bone>, bones': seq<Bone>, edges: seq<Edge>,
                          arr: seq<Option<seq<nat>>>)
    requires EquationsOk(m, co, bones, edges, arr) && Permuted(bones, bones')
    ensures EquationsOk(m, co, bones', edges, arr)
  {
    forall u: nat | m <= u < m + |bones'| ensures EquationAt(m, co, bones', edges, arr, u) {
      assert EquationAt(m, co, bones, edges, arr, u);
      assert RearrangedAt(bones, bones', u - m);
      if u < co {
        RearrangedTrans(bones'[u - m].elems, bones[u - m].elems, MessagesOf(edges, u) + [u]);
      } else if arr[u - co].Some? {
        RearrangedTrans(bones'[u - m].elems, bones[u - m].elems, arr[u - co].value + [u]);
      }
    }
  }

  lemma {:induction false} RunEquations(m: nat, co: nat, edges: seq<Edge>, es: seq<Event>)
    requires 1 <= m <= co && EdgesOk(m, co, edges) && EventsOk(co, es)
    ensures EquationsOf(Run(m, co, edges, es).graph, edges, Arrivals(es))
  {
    if es == [] {
      InitEquations(m, co, edges);
    } else {
      var init, e := es[..|es| - 1], es[|es| - 1];
      RunEquations(m, co, edges, init);
      var r := Run(m, co, edges, init);
      match e
      case Check(list) => AddCheckEquations(r.graph, list, edges, Arrivals(init));
      case Full => AppendEquations(r.graph.m, r.graph.co, r.graph.bones, Bone(0, []), edges, Arrivals(init), None);
      case Poll => PollEquations(r.graph, edges, Arrivals(init));
    }
  }

  lemma AddCheckEquations(g: Graph, list: seq<nat>, edges: seq<Edge>, arr: seq<Option<seq<nat>>>)
    requires g.Shape() && Within(list, 0, g.co) && EquationsOf(g, edges, arr)
    ensures EquationsOf(AddCheck(g, list), edges, arr + [Some(list)])
  {
    var u := g.m + |g.bones|;
    CheckBoneHolds(g.sol, list, u);
    AppendEquations(g.m, g.co, g.bones, CheckBone(g.sol, list, u), edges, arr, Some(list));
  }

  lemma PollEquations(g: Graph, edges: seq<Edge>, arr: seq<Option<seq<nat>>>)
    requires Inv(g) && EquationsOf(g, edges, arr)
    ensures EquationsOf(Resolve(g).graph, edges, arr)
  {
    var u, i := ResolveEffect(g);
    EffectPermutes(g, Resolve(g), u, i);
    PermutedEquations(g.m, g.co, g.bones, Resolve(g).graph.bones, edges, arr);
  }
}
