/** The peeling decoder of Net-OnlineCode/C/graph.c and bones.c as a state machine on values.

    Blocks are numbered message < auxiliary < check.  The class OcGraph keeps the same state in
    arrays and is proved to follow these functions. */
module Peeling {
  import opened Lists

  /** One "bone": elems[i] is the node stored in bone[i + 1], so the target of a solution is
      elems[0].  The first `unknowns` elements were not solved when the bone was made. */
  datatype Bone = Bone(unknowns: nat, elems: seq<nat>)

  /** bones[k], vcount[k] belong to node m + k; ring[x], sol[x] to message or auxiliary node x.
      sol[x] == Some(u) says that the bone of node u is the solution of x.  A check block that
      found no room in the boneyard has the bone Bone(0, []). */
  datatype Graph = Graph(m: nat, co: nat, bones: seq<Bone>, vcount: seq<int>, ring: seq<seq<nat>>,
                         sol: seq<Option<nat>>, pending: seq<nat>, unsolved: int, done: bool)
  {
    predicate Upper(u: nat) { m <= u < m + |bones| }

    /** Shape of the state: enough for every operation below to be defined. */
    predicate Shape() {
      && NetShape(m, co, bones, ring, sol)
      && |vcount| == |bones|
      && Within(pending, m, m + |bones|)
    }

    predicate IsCheckOrSolved(u: nat) {
      co <= u || (u < |sol| && sol[u].Some?)
    }
  }

  predicate NetShape(m: nat, co: nat, bones: seq<Bone>, ring: seq<seq<nat>>, sol: seq<Option<nat>>) {
    && m <= co <= m + |bones|
    && |ring| == co && |sol| == co
    && (forall u :: m <= u < m + |bones| ==> BoneShape(m, co, bones, u))
    && (forall x :: 0 <= x < co ==> RingShape(m, bones, ring, x))
  }

  predicate Within(s: seq<nat>, lo: nat, hi: nat) {
    forall i :: 0 <= i < |s| ==> lo <= s[i] < hi
  }

  predicate RingShape(m: nat, bones: seq<Bone>, ring: seq<seq<nat>>, x: nat)
    requires x < |ring|
  {
    Within(ring[x], m, m + |bones|)
  }

  /** An auxiliary bone lists messages and, once, the node itself; a check bone messages,
      auxiliary blocks and the node itself. */
  predicate BoneShape(m: nat, co: nat, bones: seq<Bone>, u: nat)
    requires m <= u < m + |bones|
  {
    BoneFits(m, co, u, bones[u - m])
  }

  predicate BoneFits(m: nat, co: nat, u: nat, b: Bone) {
    && b.unknowns <= |b.elems|
    && (u < co ==> u in b.elems)
    && (forall i :: 0 <= i < |b.elems| ==> b.elems[i] == u || b.elems[i] < if u < co then m else co)
    && Count(b.elems, u) <= 1
  }

  // ----- counting unsolved occurrences

  predicate Open(sol: seq<Option<nat>>, u: nat, x: nat) {
    x != u && x < |sol| && sol[x].None?
  }

  /** Number of occurrences in s of unsolved nodes other than u. */
  function CountOpen(sol: seq<Option<nat>>, u: nat, s: seq<nat>): nat {
    if s == [] then 0 else (if Open(sol, u, s[0]) then 1 else 0) + CountOpen(sol, u, s[1..])
  }

  // ----- graph initialisation

  /** One entry of the auxiliary map: message `msg` is attached to auxiliary node `aux`. */
  datatype Edge = Edge(msg: nat, aux: nat)

  predicate EdgesOk(m: nat, co: nat, edges: seq<Edge>) {
    forall i :: 0 <= i < |edges| ==> edges[i].msg < m <= edges[i].aux < co
  }

  /** The messages that the first n entries attach to node a, latest first. */
  function AuxLowers(edges: seq<Edge>, n: nat, a: nat): seq<nat>
    requires n <= |edges|
  {
    if n == 0 then [] else
    if edges[n - 1].aux == a then [edges[n - 1].msg] + AuxLowers(edges, n - 1, a)
    else AuxLowers(edges, n - 1, a)
  }

  /** The auxiliary nodes that the first n entries attach to message x, in order. */
  function MsgUppers(edges: seq<Edge>, n: nat, x: nat): seq<nat>
    requires n <= |edges|
  {
    if n == 0 then [] else
    if edges[n - 1].msg == x then MsgUppers(edges, n - 1, x) + [edges[n - 1].aux]
    else MsgUppers(edges, n - 1, x)
  }

  function AuxBone(edges: seq<Edge>, a: nat): Bone {
    var low := AuxLowers(edges, |edges|, a);
    Bone(|low| + 1, low + [a])
  }

  function Init(m: nat, co: nat, edges: seq<Edge>): Graph
    requires m <= co
  {
    Graph(m, co,
          seq(co - m, k requires 0 <= k => AuxBone(edges, m + k)),
          seq(co - m, k requires 0 <= k => |AuxLowers(edges, |edges|, m + k)|),
          seq(co, x requires 0 <= x => MsgUppers(edges, |edges|, x)),
          seq(co, x => None), [], m, false)
  }

  // ----- installing a check block

  function UnsolvedOf(sol: seq<Option<nat>>, list: seq<nat>): (r: seq<nat>)
    requires Within(list, 0, |sol|)
    ensures Within(r, 0, |sol|)
  {
    if list == [] then [] else
    (if sol[list[0]].None? then [list[0]] else []) + UnsolvedOf(sol, list[1..])
  }

  /** Solved members of the list; they are filled in from the right-hand end of the bone. */
  function SolvedOf(sol: seq<Option<nat>>, list: seq<nat>): seq<nat>
    requires Within(list, 0, |sol|)
  {
    if list == [] then [] else
    SolvedOf(sol, list[1..]) + (if sol[list[0]].Some? then [list[0]] else [])
  }

  function CheckBone(sol: seq<Option<nat>>, list: seq<nat>, u: nat): Bone
    requires Within(list, 0, |sol|)
  {
    var unk := UnsolvedOf(sol, list);
    Bone(|unk|, unk + SolvedOf(sol, list) + [u])
  }

  /** Append u to the ring of each listed node in turn. */
  function AddEdges(ring: seq<seq<nat>>, lowers: seq<nat>, u: nat): (r: seq<seq<nat>>)
    requires Within(lowers, 0, |ring|)
    ensures |r| == |ring|
    ensures lowers == [] ==> r == ring
    decreases |lowers|
  {
    if lowers == [] then ring
    else AddEdges(ring[lowers[0] := ring[lowers[0]] + [u]], lowers[1..], u)
  }

  lemma UnsolvedOfMembers(sol: seq<Option<nat>>, list: seq<nat>)
    requires Within(list, 0, |sol|)
    ensures forall x :: x in UnsolvedOf(sol, list) <==> x in list && sol[x].None?
    ensures forall x :: x in SolvedOf(sol, list) <==> x in list && sol[x].Some?
    ensures multiset(UnsolvedOf(sol, list)) + multiset(SolvedOf(sol, list)) == multiset(list)
  {
    if list != [] {
      UnsolvedOfMembers(sol, list[1..]);
      SplitHead(list);
      assert forall x :: x in list <==> x == list[0] || x in list[1..];
    }
  }

  function AddCheck(g: Graph, list: seq<nat>): Graph
    requires g.Shape() && Within(list, 0, g.co)
  {
    var u := g.m + |g.bones|;
    var bone := CheckBone(g.sol, list, u);
    g.(bones := g.bones + [bone], vcount := g.vcount + [bone.unknowns],
       ring := AddEdges(g.ring, UnsolvedOf(g.sol, list), u), pending := g.pending + [u])
  }

  /** The boneyard was full: the node number is used up and nothing else happens. */
  function AddHole(g: Graph): Graph {
    g.(bones := g.bones + [Bone(0, [])], vcount := g.vcount + [0])
  }

  // ----- resolving

  /** Cascade up from a newly solved node: `ups` is what is left of its ring. */
  function Cascade(g: Graph, ups: seq<nat>): (r: Graph)
    requires |g.vcount| == |g.bones| && Within(ups, g.m, g.m + |g.bones|)
    decreases |ups|
    ensures r == g.(vcount := r.vcount, pending := r.pending) && |r.vcount| == |g.vcount|
  {
    if ups == [] then g else
    var c := g.vcount[ups[0] - g.m] - 1;
    Cascade(g.(vcount := g.vcount[ups[0] - g.m := c],
               pending := if c < 2 then g.pending + [ups[0]] else g.pending), ups[1..])
  }

  /** Index of the first unsolved element among the first n, or n when there is none. */
  function FirstUnsolved(sol: seq<Option<nat>>, elems: seq<nat>, n: nat): (i: nat)
    requires n <= |elems|
    ensures i <= n
    ensures forall j :: 0 <= j < i && elems[j] < |sol| ==> sol[elems[j]].Some?
    ensures i < n ==> elems[i] < |sol| && sol[elems[i]].None?
  {
    if n == 0 then 0 else
    var i := FirstUnsolved(sol, elems, n - 1);
    if i < n - 1 then i
    else if elems[n - 1] < |sol| && sol[elems[n - 1]].None? then n - 1 else n
  }

  /** Bubble element i of the bone of u to the front and record it as solved by that bone. */
  function Solve(g: Graph, u: nat, i: nat): (r: Graph)
    requires g.Upper(u) && i < |g.bones[u - g.m].elems|
    requires g.bones[u - g.m].elems[i] < |g.sol|
    ensures r == g.(bones := r.bones, sol := r.sol, unsolved := r.unsolved) && |r.bones| == |g.bones|
  {
    var elems := g.bones[u - g.m].elems;
    g.(bones := g.bones[u - g.m := Bone(1, Swap(elems, 0, i))], sol := g.sol[elems[i] := Some(u)],
       unsolved := if elems[i] < g.m then g.unsolved - 1 else g.unsolved)
  }

  /** An unsolved auxiliary node with no unsolved edges is solved by its own bone. */
  function AuxRule(g: Graph, a: nat): Graph
    requires g.Shape() && g.Upper(a) && a < g.co
  {
    assert BoneShape(g.m, g.co, g.bones, a) && RingShape(g.m, g.bones, g.ring, a);
    Cascade(Solve(g, a, IndexOf(g.bones[a - g.m].elems, a)), g.ring[a])
  }

  function WithoutFirst(s: seq<nat>, u: nat): (r: seq<nat>)
    ensures forall i :: 0 <= i < |r| ==> r[i] in s
  {
    if u in s then RemoveAt(s, IndexOf(s, u)) else s
  }

  /** The propagation rule up to its cascade: the bone of `from` solves its one unsolved element,
      at index i, and the link between the two is deleted. */
  function Propagated(g: Graph, from: nat, i: nat): Graph
    requires g.Upper(from) && i < |g.bones[from - g.m].elems| && |g.vcount| == |g.bones|
    requires g.bones[from - g.m].elems[i] < |g.sol| == |g.ring|
  {
    var to := g.bones[from - g.m].elems[i];
    Solve(g, from, i).(vcount := g.vcount[from - g.m := g.vcount[from - g.m] - 1],
                       ring := g.ring[to := WithoutFirst(g.ring[to], from)],
                       pending := if to < g.m then g.pending else g.pending + [to])
  }

  function Propagate(g: Graph, from: nat, i: nat): Graph
    requires g.Shape() && g.Upper(from) && i < |g.bones[from - g.m].elems|
    requires g.bones[from - g.m].elems[i] < g.co
  {
    var to := g.bones[from - g.m].elems[i];
    var s := Propagated(g, from, i);
    assert RingShape(g.m, g.bones, g.ring, to);
    if to < g.m && s.unsolved == 0 then s.(done := true, pending := [])
    else Cascade(s, s.ring[to])
  }

  /** A step of oc_graph_resolve ends with at most one solved node. */
  datatype Outcome = Outcome(graph: Graph, solved: Option<nat>)

  function ResolveLoop(g: Graph): Outcome
    requires g.Shape()
    decreases |g.pending|
  {
    if g.pending == [] then Outcome(g, None) else
    var from := g.pending[0];
    var g' := g.(pending := g.pending[1..]);
    var count := g.vcount[from - g.m];
    var bone := g.bones[from - g.m];
    assert BoneShape(g.m, g.co, g.bones, from);
    if count == 0 && from < g.co && g.sol[from].None? then Outcome(AuxRule(g', from), Some(from))
    else if count == 1 && g.IsCheckOrSolved(from) then
      var i := FirstUnsolved(g.sol, bone.elems, bone.unknowns);
      // the C code exits when the scan finds nothing; LastUnsolvedFound shows that it never does
      if i < bone.unknowns then Outcome(Propagate(g', from, i), Some(bone.elems[i]))
      else Outcome(g', None)
    else ResolveLoop(g')
  }

  function Resolve(g: Graph): Outcome
    requires g.Shape()
  {
    if g.pending == [] then Outcome(g, None)
    else if g.unsolved == 0 then Outcome(g.(done := true), None)
    else ResolveLoop(g)
  }
}
