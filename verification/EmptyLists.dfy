/** When the list that oc_expansion makes of a solved node cancels to nothing, which the codec takes for a
    failure: exactly when an auxiliary node was solved by the auxiliary rule and every message is mapped to
    it an even number of times. */
module EmptyLists {
  import opened Lists
  import opened Peeling
  import opened PeelingInvariant
  import opened PeelingRuns
  import opened PeelingEquations
  import opened Expansion
  import opened Decoder
  import opened CodecValues

  // ----- how often a node occurs in an expansion

  lemma TracedWithout(g: Graph, log: seq<nat>, s: seq<nat>, bound: nat, k: nat)
    requires Traced(g, log, s, bound) && k < |s|
    ensures Traced(g, log, RemoveAt(s, k), bound) && TracedNode(g, log, s[k], bound)
  {
    var r := RemoveAt(s, k);
    forall i | 0 <= i < |r| ensures TracedNode(g, log, r[i], bound) {
      assert r[i] == s[if i < k then i else i + 1];
    }
  }

  /** Taking a member out of a list takes its expansion out of the list's. */
  lemma {:induction false} ExpandWithout(g: Graph, log: seq<nat>, f: Flags, s: seq<nat>, bound: nat, k: nat, z: nat)
    requires LogTraced(g, log) && Traced(g, log, s, bound) && g.m <= g.co && k < |s|
    ensures Traced(g, log, RemoveAt(s, k), bound) && TracedNode(g, log, s[k], bound)
    ensures Count(Expand(g, log, f, s, bound), z)
         == Count(ExpandNode(g, log, f, s[k], bound), z) + Count(Expand(g, log, f, RemoveAt(s, k), bound), z)
    decreases |s|
  {
    TracedWithout(g, log, s, bound, k);
    TracedWithout(g, log, s, bound, 0);
    assert RemoveAt(s, 0) == s[1..];
    CountConcat(ExpandNode(g, log, f, s[0], bound), Expand(g, log, f, s[1..], bound), z);
    if k > 0 {
      var r := RemoveAt(s, k);
      assert r[0] == s[0] && r[1..] == RemoveAt(s[1..], k - 1);
      ExpandWithout(g, log, f, s[1..], bound, k - 1, z);
      CountConcat(ExpandNode(g, log, f, s[0], bound), Expand(g, log, f, r[1..], bound), z);
    }
  }

  lemma EvenPair(s: seq<nat>) returns (k: nat)
    requires s != [] && AllEven(s)
    ensures 1 <= k < |s| && s[k] == s[0] && AllEven(RemoveAt(s[1..], k - 1))
  {
    assert !OddIn(s, s[0]);
    CountPositive(s[1..], s[0]);
    var j := IndexOf(s[1..], s[0]);
    k := j + 1;
    forall y ensures !OddIn(RemoveAt(s[1..], j), y) {
      assert !OddIn(s, y);
      CountRemoveAt(s[1..], j, y);
    }
  }

  /** A node that occurs twice in a list cancels, however it is expanded. */
  lemma {:induction false} ExpandEven(g: Graph, log: seq<nat>, f: Flags, s: seq<nat>, bound: nat, z: nat)
    requires LogTraced(g, log) && Traced(g, log, s, bound) && g.m <= g.co && AllEven(s)
    ensures !OddIn(Expand(g, log, f, s, bound), z)
    decreases |s|
  {
    if s != [] {
      var k := EvenPair(s);
      ExpandWithout(g, log, f, s, bound, 0, z);
      assert RemoveAt(s, 0) == s[1..];
      ExpandWithout(g, log, f, s[1..], bound, k - 1, z);
      ExpandEven(g, log, f, RemoveAt(s[1..], k - 1), bound, z);
    }
  }

  /** u is in none of the lists that solved the first nodes. */
  ghost predicate UnusedBefore(g: Graph, log: seq<nat>, u: nat, bound: nat)
    requires LogTraced(g, log)
  {
    forall j :: 0 <= j < bound && j < |log| ==> UnusedAt(g, log, u, j)
  }

  ghost predicate UnusedAt(g: Graph, log: seq<nat>, u: nat, j: nat)
    requires j < |log|
  {
    LogNode(g, log, j) && u !in SolutionList(g, log[j])
  }

  lemma {:induction false} ExpandLacks(g: Graph, log: seq<nat>, f: Flags, s: seq<nat>, bound: nat, u: nat)
    requires LogTraced(g, log) && Traced(g, log, s, bound) && g.m <= g.co && u !in s && UnusedBefore(g, log, u, bound)
    ensures u !in Expand(g, log, f, s, bound)
    decreases bound, |s|
  {
    if s != [] {
      TracedWithout(g, log, s, bound, 0);
      assert RemoveAt(s, 0) == s[1..];
      ExpandLacks(g, log, f, s[1..], bound, u);
      if Expandable(g.m, g.co, f, s[0]) {
        var j := IndexOf(log, s[0]);
        assert LogNode(g, log, j) && UnusedAt(g, log, u, j);
        forall i | 0 <= i < j && i < |log| ensures UnusedAt(g, log, u, i) {}
        ExpandLacks(g, log, f, SolutionList(g, s[0]), j, u);
      }
    }
  }

  // ----- a node solved by another bone

  /** Check block u is in the list of the one node that it solved, once, and in no other. */
  lemma CheckUsedOnce(g: Graph, log: seq<nat>, u: nat, j: nat, i: nat)
    requires StructureOf(g) && LogTraced(g, log) && j < |log| && i < |log| && LogNode(g, log, i) && LogNode(g, log, j)
    requires g.sol[log[j]] == Some(u) && g.co <= u && log[i] != log[j]
    ensures UnusedAt(g, log, u, i)
  {
    var w := g.sol[log[i]].value;
    assert SolvedRight(g.m, g.co, g.bones, g.sol, log[i]) && SolvedRight(g.m, g.co, g.bones, g.sol, log[j]);
    assert BoneShape(g.m, g.co, g.bones, w);
  }

  lemma SolverInList(g: Graph, edges: seq<Edge>, arr: seq<Option<seq<nat>>>, log: seq<nat>, j: nat, u: nat)
    returns (k: nat)
    requires StructureOf(g) && EquationsOf(g, edges, arr) && j < |log| && LogNode(g, log, j)
    requires g.sol[log[j]] == Some(u) && g.co <= u
    ensures var s := SolutionList(g, log[j]); k < |s| && s[k] == u && u !in RemoveAt(s, k)
  {
    var e := g.bones[u - g.m].elems;
    assert SolvedRight(g.m, g.co, g.bones, g.sol, log[j]);
    assert EquationAt(g.m, g.co, g.bones, edges, arr, u) && BoneShape(g.m, g.co, g.bones, u);
    HoldsMember(g.bones[u - g.m], u, arr[u - g.co].value, u);
    var s := SolutionList(g, log[j]);
    assert e == [e[0]] + s;
    k := IndexOf(s, u);
    CountRemoveAt(s, k, u);
    CountPositive(RemoveAt(s, k), u);
  }

  lemma SolverRemains(g: Graph, edges: seq<Edge>, arr: seq<Option<seq<nat>>>, log: seq<nat>, f: Flags, j: nat, u: nat)
    requires StructureOf(g) && EquationsOf(g, edges, arr) && LogTraced(g, log) && j < |log| && LogNode(g, log, j)
    requires g.m <= g.co && g.sol[log[j]] == Some(u) && g.co <= u
    requires forall i :: 0 <= i < j ==> log[i] != log[j]
    ensures OddIn(Expand(g, log, f, SolutionList(g, log[j]), j), u)
  {
    var s := SolutionList(g, log[j]);
    var k := SolverInList(g, edges, arr, log, j, u);
    forall i | 0 <= i < j && i < |log| ensures UnusedAt(g, log, u, i) {
      assert LogNode(g, log, i);
      CheckUsedOnce(g, log, u, j, i);
    }
    ExpandWithout(g, log, f, s, j, k, u);
    ExpandLacks(g, log, f, RemoveAt(s, k), j, u);
    CountPositive(Expand(g, log, f, RemoveAt(s, k), j), u);
    assert ExpandNode(g, log, f, s[k], j) == [u];
  }

  // ----- the condition

  lemma CancelledIff(s: seq<nat>)
    ensures Odds(Sort(s)) == [] <==> AllEven(s)
  {
    var t := Sort(s);
    SortRearranges(s);
    forall z: nat ensures z in Odds(t) <==> OddIn(s, z) {
      OddsParity(t, z);
      assert SameCount(t, s, z);
    }
    if Odds(t) == [] {
      forall z ensures !OddIn(s, z) { assert z !in Odds(t); }
    } else {
      assert Odds(t)[0] in Odds(t);
      assert OddIn(s, Odds(t)[0]);
    }
  }

  /** x was solved by the auxiliary rule, and every message is mapped to it an even number of times. */
  ghost predicate EvenByItself(m: nat, co: nat, edges: seq<Edge>, es: seq<Event>, x: nat) {
    && 1 <= m <= co && EdgesOk(m, co, edges) && EventsOk(co, es)
    && var r := Run(m, co, edges, es);
    && x in r.log && x < |r.graph.sol| && r.graph.sol[x] == Some(x) && AllEven(MessagesOf(edges, x))
  }

  lemma OwnListIsEven(g: Graph, edges: seq<Edge>, arr: seq<Option<seq<nat>>>, log: seq<nat>, j: nat)
    requires StructureOf(g) && EquationsOf(g, edges, arr) && j < |log| && LogNode(g, log, j)
    requires log[j] < g.co && g.sol[log[j]] == Some(log[j]) && AllEven(MessagesOf(edges, log[j]))
    ensures AllEven(SolutionList(g, log[j]))
  {
    var x := log[j];
    var b, c, s := g.bones[x - g.m], MessagesOf(edges, x), SolutionList(g, x);
    assert SolvedRight(g.m, g.co, g.bones, g.sol, x) && EquationAt(g.m, g.co, g.bones, edges, arr, x);
    assert b.elems == [x] + s;
    forall y ensures !OddIn(s, y) {
      HoldsCount(b, x, c, y);
      CountConcat([x], s, y);
      assert !OddIn(c, y);
    }
  }

  lemma EvenCancels(m: nat, co: nat, edges: seq<Edge>, es: seq<Event>, f: Flags, x: nat)
    requires EvenByItself(m, co, edges, es, x)
    ensures CancelsOut(m, co, edges, es, f, x)
  {
    var r := Run(m, co, edges, es);
    var g, log, j := r.graph, r.log, IndexOf(r.log, x);
    RunIsTraced(r);
    RunEquations(m, co, edges, es);
    assert LogNode(g, log, j);
    OwnListIsEven(g, edges, Arrivals(es), log, j);
    var s := SolutionList(g, x);
    forall z ensures !OddIn(Expand(g, log, f, s, j), z) { ExpandEven(g, log, f, s, j, z); }
    CancelledIff(Expand(g, log, f, s, j));
  }

  lemma CancelsByItself(m: nat, co: nat, edges: seq<Edge>, es: seq<Event>, f: Flags, x: nat)
    requires CancelsOut(m, co, edges, es, f, x)
    ensures EvenByItself(m, co, edges, es, x)
  {
    var r := Run(m, co, edges, es);
    var g, log, j := r.graph, r.log, IndexOf(r.log, x);
    EmptyListOnlyIfEven(m, co, edges, es, f, x);
    RunEquations(m, co, edges, es);
    assert LogNode(g, log, j);
    var u := g.sol[x].value;
    assert SolvedRight(g.m, g.co, g.bones, g.sol, x);
    CancelledIff(Expanded(g, log, f, x));
    if g.co <= u {
      SolverRemains(g, edges, Arrivals(es), log, f, j, u);
    } else {
      assert BoneShape(g.m, g.co, g.bones, u);
    }
  }

  /** The list of a solved node cancels to nothing exactly if the auxiliary rule solved it and every message
      is mapped to it an even number of times; some message then is. */
  lemma CancelsIff(m: nat, co: nat, edges: seq<Edge>, es: seq<Event>, f: Flags, x: nat)
    ensures CancelsOut(m, co, edges, es, f, x) <==> EvenByItself(m, co, edges, es, x)
    ensures EvenByItself(m, co, edges, es, x) ==> m <= x < co && MessagesOf(edges, x) != []
  {
    if CancelsOut(m, co, edges, es, f, x) { CancelsByItself(m, co, edges, es, f, x); }
    if EvenByItself(m, co, edges, es, x) {
      EvenCancels(m, co, edges, es, f, x);
      var r := Run(m, co, edges, es);
      var j := IndexOf(r.log, x);
      EmptyListOnlyIfEven(m, co, edges, es, f, x);
      RunEquations(m, co, edges, es);
      assert LogEntryOk(r.graph, r.log, j);
      assert EquationAt(m, co, r.graph.bones, edges, Arrivals(es), x);
      HoldsCount(r.graph.bones[x - m], x, MessagesOf(edges, x), x);
    }
  }

  // ----- such a run

  /** Two messages and one auxiliary node, to which message 0 is mapped twice. */
  ghost predicate Twice(m: nat, co: nat, edges: seq<Edge>) {
    m == 2 && co == 3 && edges == [Edge(0, 2), Edge(0, 2)]
  }

  ghost predicate Before(g: Graph) {
    && g == Graph(2, 3, g.bones, [2], [[2, 2], [], []], [None, None, None], [], 2, false)
    && g.bones == [Bone(3, [0, 0, 2])]
  }

  /** A check block that is message 0 has come. */
  ghost predicate Come(g: Graph) {
    && g == Graph(2, 3, g.bones, [2, 1], [[2, 2, 3], [], []], [None, None, None], [3], 2, false)
    && g.bones == [Bone(3, [0, 0, 2]), Bone(1, [0, 3])]
  }

  /** It has given message 0. */
  ghost predicate First(g: Graph) {
    && g == Graph(2, 3, g.bones, [0, 0], [[2, 2], [], []], [Some(3), None, None], [2, 2], 1, false)
    && g.bones == [Bone(3, [0, 0, 2]), Bone(1, [0, 3])]
  }

  /** The auxiliary rule has given node 2. */
  ghost predicate Second(g: Graph) {
    && g == Graph(2, 3, g.bones, [0, 0], [[2, 2], [], []], [Some(3), None, Some(2)], [2], 1, false)
    && g.bones == [Bone(1, [2, 0, 0]), Bone(1, [0, 3])]
  }

  lemma LastEntry(edges: seq<Edge>, n: nat, a: nat, x: nat)
    requires n < |edges| && edges[n] == Edge(x, a)
    ensures AuxLowers(edges, n + 1, a) == [x] + AuxLowers(edges, n, a)
    ensures MsgUppers(edges, n + 1, x) == MsgUppers(edges, n, x) + [a]
    ensures forall y :: y != x ==> MsgUppers(edges, n + 1, y) == MsgUppers(edges, n, y)
  {
  }

  lemma Initially(m: nat, co: nat, edges: seq<Edge>, x: nat, g: Graph)
    requires Twice(m, co, edges) && x == 0 && g == Init(m, co, edges)
    ensures Before(g) && MessagesOf(edges, 2) == [0, 0]
  {
    LastEntry(edges, 0, m, x);
    LastEntry(edges, 1, m, x);
    assert AuxLowers(edges, 2, m) == [x] + ([x] + AuxLowers(edges, 0, m)) == [0, 0];
    assert MsgUppers(edges, 2, x) == MsgUppers(edges, 0, x) + [m] + [m] == [2, 2];
    assert [0, 0] + [2] == [0, 0, 2];
    forall y: nat | y != x ensures MsgUppers(edges, 2, y) == [] { assert MsgUppers(edges, 0, y) == []; }
    assert g.bones == [AuxBone(edges, m)] && g.ring == [[2, 2], [], []];
  }

  lemma OneMember(sol: seq<Option<nat>>, ring: seq<seq<nat>>, x: nat, u: nat)
    requires x < |sol| == |ring| && sol[x].None?
    ensures CheckBone(sol, [x], u) == Bone(1, [x, u]) && UnsolvedOf(sol, [x]) == [x]
    ensures AddEdges(ring, [x], u) == ring[x := ring[x] + [u]]
  {
    var none: seq<nat> := [];
    var list := [x];
    assert list[1..] == none;
    assert UnsolvedOf(sol, none) == none && SolvedOf(sol, none) == none;
    assert SolvedOf(sol, list) == SolvedOf(sol, none) + none;
    assert [x] + none + [u] == [x, u];
  }

  lemma CheckComes(g: Graph, x: nat)
    requires Before(g) && g.Shape() && x == 0 && Within([x], 0, g.co)
    ensures Come(AddCheck(g, [x]))
  {
    OneMember(g.sol, g.ring, x, 3);
    assert [2, 2] + [3] == [2, 2, 3];
    assert g.ring[x := g.ring[x] + [3]] == [[2, 2, 3], [], []];
  }

  lemma MessageGiven(g: Graph)
    requires Come(g) && g.Shape()
    ensures Resolve(g).solved == Some(0) && First(Resolve(g).graph)
  {
    var h := g.(pending := g.pending[1..]);
    assert h.Shape() && h.pending == [];
    assert FirstUnsolved(g.sol, g.bones[1].elems, 1) == 0;
    assert ResolveLoop(g) == Outcome(Propagate(h, 3, 0), Some(0));
    FirstPropagated(h);
    var s := Propagated(h, 3, 0);
    CascadeTwice(s);
  }

  lemma FirstPropagated(h: Graph)
    requires h == Graph(2, 3, h.bones, [2, 1], [[2, 2, 3], [], []], [None, None, None], [], 2, false)
    requires h.bones == [Bone(3, [0, 0, 2]), Bone(1, [0, 3])]
    ensures Propagated(h, 3, 0) == Graph(2, 3, h.bones, [2, 0], [[2, 2], [], []], [Some(3), None, None], [], 1, false)
  {
    var r := [2, 2, 3];
    assert IndexOf(r, 3) == 2 && RemoveAt(r, 2) == [2, 2];
    assert Swap([0, 3], 0, 0) == [0, 3];
    var s := Propagated(h, 3, 0);
    assert s.bones == h.bones && s.vcount == [2, 0] && s.ring == [[2, 2], [], []] && s.sol == [Some(3), None, None];
  }

  lemma CascadeTwice(s: Graph)
    requires |s.bones| == 2 && s == Graph(2, 3, s.bones, [2, 0], [[2, 2], [], []], [Some(3), None, None], [], 1, false)
    ensures Cascade(s, [2, 2]) == s.(vcount := [0, 0], pending := [2, 2])
  {
    var ups, up, none: seq<nat> := [2, 2], [2], [];
    assert ups[1..] == up && up[1..] == none;
    var t := s.(vcount := [1, 0], pending := [2]);
    assert Cascade(s, ups) == Cascade(t, up);
    var w := t.(vcount := [0, 0], pending := [2, 2]);
    assert Cascade(t, up) == Cascade(w, none) == w;
  }

  lemma NodeGiven(g: Graph)
    requires First(g) && g.Shape()
    ensures Resolve(g).solved == Some(2) && Second(Resolve(g).graph)
  {
    var h := g.(pending := g.pending[1..]);
    assert h.pending == [2] && h.Shape() && BoneShape(h.m, h.co, h.bones, 2);
    assert ResolveLoop(g) == Outcome(AuxRule(h, 2), Some(2));
    var e: seq<nat> := [0, 0, 2];
    assert IndexOf(e, 2) == 2 && Swap(e, 0, 2) == [2, 0, 0];
    var s := Solve(h, 2, 2);
    assert s.bones == [Bone(1, [2, 0, 0]), Bone(1, [0, 3])] && s.sol == [Some(3), None, Some(2)];
    assert AuxRule(h, 2) == Cascade(s, []);
  }

  lemma RunNext(m: nat, co: nat, edges: seq<Edge>, es: seq<Event>, e: Event)
    requires 1 <= m <= co && EdgesOk(m, co, edges) && EventsOk(co, es) && EventOk(co, e)
    ensures EventsOk(co, es + [e]) && Run(m, co, edges, es + [e]) == Step(Run(m, co, edges, es), e)
  {
    assert (es + [e])[..|es|] == es;
  }

  /** The three events. */
  function Happening(x: nat): seq<Event> {
    [] + [Check([x])] + [Poll] + [Poll]
  }

  lemma RunComes(m: nat, co: nat, edges: seq<Edge>, x: nat)
    requires Twice(m, co, edges) && x == 0
    ensures EdgesOk(m, co, edges) && EventsOk(co, [] + [Check([x])])
    ensures var r := Run(m, co, edges, [] + [Check([x])]); Come(r.graph) && r.log == []
  {
    var none: seq<Event> := [];
    Initially(m, co, edges, x, Init(m, co, edges));
    RunNext(m, co, edges, none, Check([x]));
    assert Run(m, co, edges, none) == RunState(Init(m, co, edges), []);
    CheckComes(Init(m, co, edges), x);
  }

  lemma RunGives(m: nat, co: nat, edges: seq<Edge>, x: nat)
    requires Twice(m, co, edges) && x == 0
    ensures EdgesOk(m, co, edges) && EventsOk(co, [] + [Check([x])] + [Poll])
    ensures var r := Run(m, co, edges, [] + [Check([x])] + [Poll]); First(r.graph) && r.log == [0]
  {
    RunComes(m, co, edges, x);
    RunNext(m, co, edges, [] + [Check([x])], Poll);
    MessageGiven(Run(m, co, edges, [] + [Check([x])]).graph);
  }

  lemma RunEnds(m: nat, co: nat, edges: seq<Edge>, x: nat)
    requires Twice(m, co, edges) && x == 0
    ensures EdgesOk(m, co, edges) && EventsOk(co, Happening(x))
    ensures var r := Run(m, co, edges, Happening(x)); Second(r.graph) && r.log == [0, 2]
  {
    RunGives(m, co, edges, x);
    RunNext(m, co, edges, [] + [Check([x])] + [Poll], Poll);
    NodeGiven(Run(m, co, edges, [] + [Check([x])] + [Poll]).graph);
  }

  lemma PairIsEven(x: nat)
    ensures AllEven([x, x])
  {
    forall y: nat ensures !OddIn([x, x], y) {
      CountConcat([x], [x], y);
      assert [x, x] == [x] + [x];
    }
  }

  /** Two entries of the auxiliary map for the same message and node, and a check block that is this message:
      the second node to be solved has an empty list, whatever the flags. */
  lemma EmptyListHappens(m: nat, co: nat, edges: seq<Edge>, x: nat, f: Flags)
    requires Twice(m, co, edges) && x == 0
    ensures CancelsOut(m, co, edges, Happening(x), f, 2)
  {
    RunEnds(m, co, edges, x);
    Initially(m, co, edges, x, Init(m, co, edges));
    PairIsEven(x);
    CancelsIff(m, co, edges, Happening(x), f, 2);
  }
}
