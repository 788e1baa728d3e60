/** Whole runs of the decoder: check blocks arriving and resolve calls, in any order. */
module PeelingRuns {
  import opened Lists
  import opened Peeling
  import opened PeelingInvariant
  import opened PeelingInput

  /** Check(list): a check block is installed.  Full: a check block found no room in the boneyard.
      Poll: oc_graph_resolve is called once. */
  datatype Event = Check(list: seq<nat>) | Full | Poll

  /** The graph and all nodes reported as solved so far, in order. */
  datatype RunState = RunState(graph: Graph, log: seq<nat>)

  predicate EventOk(co: nat, e: Event) {
    e.Check? ==> Within(e.list, 0, co)
  }

  predicate EventsOk(co: nat, es: seq<Event>) {
    forall i :: 0 <= i < |es| ==> EventOk(co, es[i])
  }

  function Step(r: RunState, e: Event): RunState
    requires r.graph.Shape() && EventOk(r.graph.co, e)
  {
    match e
    case Check(list) => RunState(AddCheck(r.graph, list), r.log)
    case Full => RunState(AddHole(r.graph), r.log)
    case Poll =>
      var o := Resolve(r.graph);
      RunState(o.graph, if o.solved.Some? then r.log + [o.solved.value] else r.log)
  }

  /** The state after the events es, the last one last. */
  ghost function Run(m: nat, co: nat, edges: seq<Edge>, es: seq<Event>): RunState
    requires 1 <= m <= co && EdgesOk(m, co, edges) && EventsOk(co, es)
    ensures RunInv(Run(m, co, edges, es)) && Run(m, co, edges, es).graph.co == co
    ensures Run(m, co, edges, es).graph.m == m
  {
    if es == [] then
      InitInv(m, co, edges);
      RunState(Init(m, co, edges), [])
    else
      var r := Run(m, co, edges, es[..|es| - 1]);
      StepKeeps(r, es[|es| - 1]);
      Step(r, es[|es| - 1])
  }

  // ----- the order of solving

  /** Every element of the bone of u but its target is in `earlier`, or is the check block u. */
  ghost predicate UsesOnly(co: nat, u: nat, b: Bone, earlier: seq<nat>) {
    forall i :: 1 <= i < |b.elems| ==> (b.elems[i] == u && co <= u) || b.elems[i] in earlier
  }

  ghost predicate LogEntryOk(g: Graph, log: seq<nat>, j: nat)
    requires j < |log|
  {
    && log[j] < |g.sol| && g.sol[log[j]].Some?
    && var u := g.sol[log[j]].value;
    && g.Upper(u) && UsesOnly(g.co, u, g.bones[u - g.m], log[..j])
    && (log[j] == u ==> |g.bones[u - g.m].elems| > 1)
  }

  /** The log lists each solved node once, and each solution uses only nodes logged before it. */
  ghost predicate LogOk(g: Graph, log: seq<nat>) {
    && (forall j :: 0 <= j < |log| ==> LogEntryOk(g, log, j))
    && (forall i, j :: 0 <= i < j < |log| ==> log[i] != log[j])
    && (forall x :: 0 <= x < |g.sol| && g.sol[x].Some? ==> x in log)
  }

  ghost predicate RunInv(r: RunState) {
    Inv(r.graph) && LogOk(r.graph, r.log)
  }

  // ----- what one resolve call changes

  ghost predicate SolvedWith(g: Graph, r: Graph, u: nat, i: nat) {
    && SolveReady(g, u, i) && r.m == g.m && r.co == g.co
    && r.bones == Solve(g, u, i).bones && r.sol == Solve(g, u, i).sol
    && (g.bones[u - g.m].elems[i] == u ==> |g.bones[u - g.m].elems| > 1)
  }

  ghost predicate Untouched(g: Graph, r: Graph) {
    r.m == g.m && r.co == g.co && r.bones == g.bones && r.sol == g.sol
  }

  /** Node u's element i became solved and was reported, or nothing happened and none was. */
  ghost predicate Effect(g: Graph, o: Outcome, u: nat, i: nat) {
    if o.solved.None? then Untouched(g, o.graph)
    else SolvedWith(g, o.graph, u, i) && o.solved.value == g.bones[u - g.m].elems[i]
  }

  lemma AuxTurnEffect(g: Graph) returns (u: nat, i: nat)
    requires Going(g) && Front(g) == Aux
    ensures Effect(g, ResolveLoop(g), u, i)
  {
    u := g.pending[0];
    i := IndexOf(g.bones[u - g.m].elems, u);
    PopQueue(g);
    AuxRuleFound(g.(pending := g.pending[1..]), u);
  }

  lemma PropagationTurnEffect(g: Graph) returns (u: nat, i: nat)
    requires Going(g) && Front(g) == Propagation
    ensures Effect(g, ResolveLoop(g), u, i)
  {
    u := g.pending[0];
    PopQueue(g);
    PropagationFound(g.(pending := g.pending[1..]), u);
    i := FirstUnsolved(g.sol, g.bones[u - g.m].elems, g.bones[u - g.m].unknowns);
  }

  /** A resolve call leaves bones and solutions alone, or solves the node it reports. */
  lemma {:induction false} ResolveLoopEffect(g: Graph) returns (u: nat, i: nat)
    requires Inv(g) && !g.done
    ensures Effect(g, ResolveLoop(g), u, i)
    decreases |g.pending|
  {
    u, i := 0, 0;
    if g.pending != [] {
      match Front(g)
      case Aux => u, i := AuxTurnEffect(g);
      case Propagation => u, i := PropagationTurnEffect(g);
      case Nothing =>
        NothingTurn(g);
        u, i := ResolveLoopEffect(g.(pending := g.pending[1..]));
    }
  }

  lemma ResolveEffect(g: Graph) returns (u: nat, i: nat)
    requires Inv(g)
    ensures Effect(g, Resolve(g), u, i)
  {
    u, i := 0, 0;
    if g.pending != [] && g.unsolved != 0 {
      u, i := ResolveLoopEffect(g);
    }
  }

  // ----- the log

  lemma OldEntry(g: Graph, r: Graph, u: nat, i: nat, log: seq<nat>, x: nat, j: nat)
    requires SolvedOk(g.m, g.co, g.bones, g.sol) && SolvedWith(g, r, u, i)
    requires j < |log| && LogEntryOk(g, log, j)
    ensures LogEntryOk(r, log + [x], j) && log[j] != g.bones[u - g.m].elems[i]
  {
    assert SolvedRight(g.m, g.co, g.bones, g.sol, log[j]);
    NotYetUsed(g, u, i, log[j]);
    assert (log + [x])[..j] == log[..j];
  }

  lemma NewEntry(g: Graph, r: Graph, u: nat, i: nat, log: seq<nat>)
    requires LogOk(g, log) && SolvedWith(g, r, u, i)
    ensures LogEntryOk(r, log + [g.bones[u - g.m].elems[i]], |log|)
  {
    var elems := g.bones[u - g.m].elems;
    assert (log + [elems[i]])[..|log|] == log;
    forall l | 1 <= l < |elems|
      ensures (Swap(elems, 0, i)[l] == u && g.co <= u) || Swap(elems, 0, i)[l] in log
    {
      assert Known(g.co, g.sol, u, elems[if l == i then 0 else l]);
    }
  }

  lemma SolveLog(g: Graph, r: Graph, u: nat, i: nat, log: seq<nat>)
    requires SolvedOk(g.m, g.co, g.bones, g.sol) && LogOk(g, log) && SolvedWith(g, r, u, i)
    ensures LogOk(r, log + [g.bones[u - g.m].elems[i]])
  {
    var x := g.bones[u - g.m].elems[i];
    var log' := log + [x];
    forall j | 0 <= j < |log'|
      ensures LogEntryOk(r, log', j) && (j < |log| ==> log'[j] != x)
    {
      if j < |log| {
        OldEntry(g, r, u, i, log, x, j);
      } else {
        NewEntry(g, r, u, i, log);
      }
    }
    forall y | 0 <= y < |r.sol| && r.sol[y].Some? ensures y in log' {
      if y == x {
        assert log'[|log|] == y;
      }
    }
  }

  lemma StepKeeps(r: RunState, e: Event)
    requires RunInv(r) && EventOk(r.graph.co, e)
    ensures RunInv(Step(r, e)) && Step(r, e).graph.m == r.graph.m && Step(r, e).graph.co == r.graph.co
  {
    match e
    case Check(list) =>
      AddCheckKeeps(r.graph, list);
      AppendLog(r.graph, AddCheck(r.graph, list), r.log, CheckBone(r.graph.sol, list, r.graph.m + |r.graph.bones|));
    case Full =>
      AddHoleKeeps(r.graph);
      AppendLog(r.graph, AddHole(r.graph), r.log, Bone(0, []));
    case Poll =>
      ResolveKeeps(r.graph);
      PollLog(r);
  }

  lemma AppendLog(g: Graph, r: Graph, log: seq<nat>, b: Bone)
    requires LogOk(g, log) && r.m == g.m && r.co == g.co && r.bones == g.bones + [b] && r.sol == g.sol
    ensures LogOk(r, log)
  {
    forall j | 0 <= j < |log| ensures LogEntryOk(r, log, j) {
      assert LogEntryOk(g, log, j);
    }
  }

  lemma PollLog(r: RunState)
    requires RunInv(r)
    ensures LogOk(Step(r, Poll).graph, Step(r, Poll).log)
    ensures Step(r, Poll).graph.m == r.graph.m && Step(r, Poll).graph.co == r.graph.co
  {
    var u, i := ResolveEffect(r.graph);
    EffectLog(r.graph, Resolve(r.graph), u, i, r.log);
  }

  lemma EffectLog(g: Graph, o: Outcome, u: nat, i: nat, log: seq<nat>)
    requires SolvedOk(g.m, g.co, g.bones, g.sol) && LogOk(g, log) && Effect(g, o, u, i)
    ensures LogOk(o.graph, if o.solved.Some? then log + [o.solved.value] else log)
  {
    if o.solved.Some? {
      SolveLog(g, o.graph, u, i, log);
    } else {
      SameLog(g, o.graph, log);
    }
  }

  lemma SameLog(g: Graph, r: Graph, log: seq<nat>)
    requires LogOk(g, log) && r.m == g.m && r.co == g.co && r.bones == g.bones && r.sol == g.sol
    ensures LogOk(r, log)
  {
    forall j | 0 <= j < |log| ensures LogEntryOk(r, log, j) {
      assert LogEntryOk(g, log, j);
    }
  }
}
