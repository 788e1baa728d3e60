/** graph.c, the order in which the resolver works: which node of the queue a call serves, what it solves with
    it, and which nodes it appends to the queue. */
module PeelingOrder {
  import opened Lists
  import opened Peeling
  import opened PeelingInvariant

  // ----- what a cascade appends

  /** The members of ups, in order, that have at most one unsolved edge left when a cascade reaches them: the
      count of each has then gone down once for every time it was met so far. */
  function Pushed(m: nat, vcount: seq<int>, ups: seq<nat>): seq<nat>
    decreases |ups|
  {
    if ups == [] then []
    else
      var u := ups[|ups| - 1];
      Pushed(m, vcount, ups[..|ups| - 1])
      + if m <= u < m + |vcount| && vcount[u - m] - Count(ups, u) <= 1 then [u] else []
  }

  predicate CountedDown(g: Graph, r: Graph, ups: seq<nat>, u: nat)
    requires g.Upper(u) && |r.vcount| == |g.vcount| == |g.bones|
  {
    r.vcount[u - g.m] == g.vcount[u - g.m] - Count(ups, u)
  }

  lemma {:induction false} CascadeLast(g: Graph, ups: seq<nat>)
    requires |g.vcount| == |g.bones| && Within(ups, g.m, g.m + |g.bones|) && ups != []
    ensures Cascade(g, ups) == CascadeTurn(Cascade(g, ups[..|ups| - 1]), ups[|ups| - 1])
    decreases |ups|
  {
    if |ups| > 1 {
      assert ups[1..][..|ups| - 2] == ups[..|ups| - 1][1..];
      CascadeLast(CascadeTurn(g, ups[0]), ups[1..]);
    }
  }

  /** A cascade lowers the count of each node by the number of times it is listed, and appends to the queue,
      in the order of the list, those that come down to one unsolved edge or none. */
  lemma {:induction false} CascadeOrder(g: Graph, ups: seq<nat>)
    requires |g.vcount| == |g.bones| && Within(ups, g.m, g.m + |g.bones|)
    ensures Cascade(g, ups).pending == g.pending + Pushed(g.m, g.vcount, ups)
    ensures forall u :: g.Upper(u) ==> CountedDown(g, Cascade(g, ups), ups, u)
    decreases |ups|
  {
    if ups != [] {
      var rest, last := ups[..|ups| - 1], ups[|ups| - 1];
      CascadeOrder(g, rest);
      CascadeLast(g, ups);
      assert ups == rest + [last];
      forall u | g.Upper(u) ensures CountedDown(g, Cascade(g, ups), ups, u) {
        assert CountedDown(g, Cascade(g, rest), rest, u);
        CountConcat(rest, [last], u);
      }
      assert CountedDown(g, Cascade(g, ups), ups, last);
    }
  }

  // ----- the two rules

  function CountOf(g: Graph, u: nat): int {
    if g.m <= u < g.m + |g.vcount| then g.vcount[u - g.m] else 0
  }

  /** Node `at` solves node x, and the queue is then `queue`. */
  ghost predicate SolvesBy(g: Graph, at: nat, x: nat, queue: seq<nat>, r: Outcome) {
    && x < |g.sol| && g.sol[x].None? && r.graph.sol == g.sol[x := Some(at)]
    && r.solved == Some(x) && r.graph.pending == queue
  }

  /** An auxiliary node without unsolved edges solves itself. */
  ghost predicate ByItself(g: Graph, a: nat, rest: seq<nat>, r: Outcome) {
    && !g.IsCheckOrSolved(a) && CountOf(g, a) == 0 && a < |g.ring|
    && SolvesBy(g, a, a, rest + Pushed(g.m, g.vcount, g.ring[a]), r)
  }

  /** What the queue becomes when `at` solves x, an auxiliary x being queued before the nodes of its ring. */
  function QueueAfter(g: Graph, at: nat, x: nat, rest: seq<nat>): seq<nat>
    requires g.m <= at < g.m + |g.vcount| && x < |g.ring|
  {
    (if x < g.m then rest else rest + [x]) + Pushed(g.m, g.vcount[at - g.m := 0], WithoutFirst(g.ring[x], at))
  }

  /** A check block or solved auxiliary node solves its last unsolved edge, to x; the last message
      ends it all. */
  ghost predicate OneEdge(g: Graph, at: nat, x: nat, rest: seq<nat>, r: Outcome) {
    && g.IsCheckOrSolved(at) && CountOf(g, at) == 1 && g.Upper(at) && x in g.bones[at - g.m].elems && x < |g.ring|
    && (r.graph.done <==> x < g.m && g.unsolved == 1)
    && SolvesBy(g, at, x, if r.graph.done then [] else QueueAfter(g, at, x, rest), r)
  }

  ghost predicate Served(g: Graph, at: nat, x: nat, rest: seq<nat>, r: Outcome) {
    if x == at then ByItself(g, at, rest, r) else OneEdge(g, at, x, rest, r)
  }

  lemma AuxServed(g: Graph)
    requires Going(g) && Front(g) == Aux
    ensures ByItself(g, g.pending[0], g.pending[1..], ResolveLoop(g))
  {
    var a := g.pending[0];
    var g' := g.(pending := g.pending[1..]);
    PopQueue(g);
    AuxRuleFound(g', a);
    var s := Solve(g', a, IndexOf(g.bones[a - g.m].elems, a));
    assert RingShape(g.m, g.bones, g.ring, a);
    CascadeOrder(s, g.ring[a]);
  }

  /** What the propagation rule does to the queue and the flag. */
  lemma PropagateOrder(g: Graph, from: nat, i: nat)
    requires g.Shape() && SolveReady(g, from, i) && !g.done && g.vcount[from - g.m] == 1
    ensures var x := g.bones[from - g.m].elems[i]; var r := Propagate(g, from, i);
      && r.sol == g.sol[x := Some(from)]
      && (r.done <==> x < g.m && g.unsolved == 1)
      && r.pending == if r.done then [] else QueueAfter(g, from, x, g.pending)
  {
    var x := g.bones[from - g.m].elems[i];
    var s := Propagated(g, from, i);
    assert RingShape(g.m, g.bones, g.ring, x);
    assert s.ring[x] == WithoutFirst(g.ring[x], from) && s.vcount == g.vcount[from - g.m := 0];
    if !(x < g.m && s.unsolved == 0) {
      CascadeOrder(s, s.ring[x]);
      assert Propagate(g, from, i) == Cascade(s, s.ring[x]);
    }
  }

  lemma PropagationLink(g: Graph) returns (i: nat)
    requires Going(g) && Front(g) == Propagation
    ensures var b := g.bones[g.pending[0] - g.m];
      b.unknowns <= |b.elems| && i == FirstUnsolved(g.sol, b.elems, b.unknowns) && i < b.unknowns
    ensures OneLink(g.(pending := g.pending[1..]), g.pending[0], i)
  {
    var b := g.bones[g.pending[0] - g.m];
    PopQueue(g);
    PropagationFound(g.(pending := g.pending[1..]), g.pending[0]);
    i := FirstUnsolved(g.sol, b.elems, b.unknowns);
  }

  lemma PropagationServed(g: Graph) returns (x: nat)
    requires Going(g) && Front(g) == Propagation
    ensures x != g.pending[0] && OneEdge(g, g.pending[0], x, g.pending[1..], ResolveLoop(g))
  {
    var from := g.pending[0];
    var i := PropagationLink(g);
    x := g.bones[from - g.m].elems[i];
    PropagateOrder(g.(pending := g.pending[1..]), from, i);
  }

  // ----- a call

  ghost predicate Passes(g: Graph, u: nat) {
    g.Upper(u) && |g.vcount| == |g.bones| && !Actionable(g, u)
  }

  /** The call passes over k nodes of the queue, at which no rule fires, and serves the next one, which solves x;
      or there is no next one. */
  ghost predicate ServesAt(g: Graph, k: nat, x: nat, r: Outcome) {
    && k <= |g.pending|
    && (forall j :: 0 <= j < k ==> Passes(g, g.pending[j]))
    && if k == |g.pending| then r == Outcome(g.(pending := []), None)
       else Served(g, g.pending[k], x, g.pending[k + 1..], r)
  }

  lemma SkipOne(g: Graph, k: nat, x: nat, r: Outcome)
    requires g.pending != [] && Passes(g, g.pending[0])
    requires ServesAt(g.(pending := g.pending[1..]), k, x, r)
    ensures ServesAt(g, k + 1, x, r)
  {
    var g' := g.(pending := g.pending[1..]);
    forall j | 0 <= j < k + 1 ensures Passes(g, g.pending[j]) {
      if j > 0 { assert g.pending[j] == g'.pending[j - 1] && Passes(g', g'.pending[j - 1]); }
    }
    if k < |g'.pending| {
      assert g.pending[k + 1] == g'.pending[k] && g.pending[k + 2..] == g'.pending[k + 1..];
    }
  }

  /** A call takes the queue in order. */
  lemma {:induction false} ServesFirst(g: Graph) returns (k: nat, x: nat)
    requires Inv(g) && !g.done
    ensures ServesAt(g, k, x, ResolveLoop(g))
    decreases |g.pending|
  {
    k, x := 0, 0;
    if g.pending != [] {
      match Front(g)
      case Aux =>
        AuxServed(g);
        x := g.pending[0];
      case Propagation =>
        x := PropagationServed(g);
      case Nothing =>
        NothingTurn(g);
        k, x := ServesFirst(g.(pending := g.pending[1..]));
        SkipOne(g, k, x, ResolveLoop(g));
        k := k + 1;
    }
  }

  /** Before the decoder is done, a call of the resolver serves the first node of the queue where a rule fires;
      after that it changes nothing. */
  lemma ResolveServes(g: Graph) returns (k: nat, x: nat)
    requires Inv(g)
    ensures if g.done then Resolve(g) == Outcome(g, None) else ServesAt(g, k, x, Resolve(g))
  {
    if g.done { k, x := 0, 0; } else { k, x := ServesFirst(g); }
  }
}
