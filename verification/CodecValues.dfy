/** What the blocks of a session are worth, and that solutions and expansions add up to it. */
module CodecValues {
  import opened Lists
  import opened Blocks
  import opened Peeling
  import opened PeelingInvariant
  import opened PeelingInput
  import opened PeelingRuns
  import opened PeelingEquations
  import opened Expansion
  import opened Decoder

  /** The message, cut into blocks of n bytes. */
  ghost predicate MessageOk(n: nat, msg: seq<Block>) {
    forall k :: 0 <= k < |msg| ==> |msg[k]| == n
  }

  function MessageValue(n: nat, msg: seq<Block>, x: nat): (r: Block)
    ensures |r| == n
  {
    if x < |msg| && |msg[x]| == n then msg[x] else Zero(n)
  }

  function MessageOf(n: nat, msg: seq<Block>): nat -> Block {
    (x: nat) => MessageValue(n, msg, x)
  }

  /** A message block, or an auxiliary block: the XOR of the messages mapped to it. */
  function CompositeValue(n: nat, msg: seq<Block>, edges: seq<Edge>, x: nat): (r: Block)
    ensures |r| == n
  {
    if x < |msg| then MessageValue(n, msg, x) else XorSum(n, MessageOf(n, msg), MessagesOf(edges, x))
  }

  function CompositeOf(n: nat, msg: seq<Block>, edges: seq<Edge>): nat -> Block {
    (x: nat) => CompositeValue(n, msg, edges, x)
  }

  /** Any block of the session; a check block is the XOR of the blocks in its list. */
  function TrueValue(n: nat, msg: seq<Block>, co: nat, edges: seq<Edge>, arr: seq<Option<seq<nat>>>, x: nat): (r: Block)
    ensures |r| == n
  {
    if x < co then CompositeValue(n, msg, edges, x)
    else if x - co < |arr| && arr[x - co].Some? then XorSum(n, CompositeOf(n, msg, edges), arr[x - co].value)
    else Zero(n)
  }

  function TrueOf(n: nat, msg: seq<Block>, co: nat, edges: seq<Edge>, arr: seq<Option<seq<nat>>>): nat -> Block {
    (x: nat) => TrueValue(n, msg, co, edges, arr, x)
  }

  /** Node u and the list c of its equation are worth the same. */
  lemma EquationValue(n: nat, msg: seq<Block>, g: Graph, edges: seq<Edge>, arr: seq<Option<seq<nat>>>, u: nat,
                      c: seq<nat>)
    requires |msg| == g.m <= g.co && EdgesOk(g.m, g.co, edges) && g.m <= u
    requires if u < g.co then c == MessagesOf(edges, u)
      else u - g.co < |arr| && arr[u - g.co] == Some(c) && Within(c, 0, g.co)
    ensures var val := TrueOf(n, msg, g.co, edges, arr); SizedOn(n, val, c) && val(u) == XorSum(n, val, c)
  {
    var val := TrueOf(n, msg, g.co, edges, arr);
    if u < g.co {
      InitEnds(g.m, g.co, edges, |edges|, u);
      XorSumAgree(n, MessageOf(n, msg), val, c);
    } else {
      XorSumAgree(n, CompositeOf(n, msg, edges), val, c);
    }
  }

  /** A bone that holds its equation sums to zero. */
  lemma BoneIsZero(n: nat, val: nat -> Block, b: Bone, u: nat, c: seq<nat>)
    requires Holds(b, u, c) && SizedOn(n, val, c) && |val(u)| == n && val(u) == XorSum(n, val, c)
    ensures SizedOn(n, val, b.elems) && XorSum(n, val, b.elems) == Zero(n)
  {
    XorSumConcat(n, val, c, [u]);
    XorSumOne(n, val, u);
    XorSelf(val(u));
    XorSumRearrangedBack(n, val, b.elems, c + [u]);
  }

  /** In a list that sums to zero, the first member is worth the rest. */
  lemma FrontValue(n: nat, val: nat -> Block, s: seq<nat>)
    requires s != [] && SizedOn(n, val, s) && XorSum(n, val, s) == Zero(n)
    ensures SizedOn(n, val, s[1..]) && val(s[0]) == XorSum(n, val, s[1..])
  {
    SizedMembers(n, val, s, s[1..]);
    XorCancels(val(s[0]), XorSum(n, val, s[1..]));
  }

  lemma ListBelow(g: Graph, u: nat, b: Bone, c: seq<nat>)
    requires g.co <= u && BoneFits(g.m, g.co, u, b) && Holds(b, u, c)
    ensures Within(c, 0, g.co)
  {
    HoldsCount(b, u, c, u);
    CountPositive(c, u);
    forall i | 0 <= i < |c| ensures c[i] < g.co {
      HoldsMember(b, u, c, c[i]);
    }
  }

  lemma SolutionHolds(n: nat, msg: seq<Block>, g: Graph, edges: seq<Edge>, arr: seq<Option<seq<nat>>>, log: seq<nat>,
                      j: nat)
    requires |msg| == g.m && EdgesOk(g.m, g.co, edges) && StructureOf(g) && EquationsOf(g, edges, arr)
    requires j < |log| && LogNode(g, log, j)
    ensures SolutionValue(g, log, n, TrueOf(n, msg, g.co, edges, arr), j)
  {
    var val := TrueOf(n, msg, g.co, edges, arr);
    var u := g.sol[log[j]].value;
    var b := g.bones[u - g.m];
    assert SolvedRight(g.m, g.co, g.bones, g.sol, log[j]);
    assert EquationAt(g.m, g.co, g.bones, edges, arr, u) && BoneShape(g.m, g.co, g.bones, u);
    var c := if u < g.co then MessagesOf(edges, u) else arr[u - g.co].value;
    if g.co <= u { ListBelow(g, u, b, c); }
    EquationValue(n, msg, g, edges, arr, u, c);
    BoneIsZero(n, val, b, u, c);
    FrontValue(n, val, b.elems);
  }

  lemma AllSolutionsHold(n: nat, msg: seq<Block>, g: Graph, edges: seq<Edge>, arr: seq<Option<seq<nat>>>, log: seq<nat>)
    requires |msg| == g.m && EdgesOk(g.m, g.co, edges) && StructureOf(g) && EquationsOf(g, edges, arr)
    requires LogTraced(g, log)
    ensures SolutionValues(g, log, n, TrueOf(n, msg, g.co, edges, arr))
  {
    forall j: nat | j < |log|
      ensures LogNode(g, log, j) && SolutionValue(g, log, n, TrueOf(n, msg, g.co, edges, arr), j)
    {
      SolutionHolds(n, msg, g, edges, arr, log, j);
    }
  }

  /** Decoding is sound over every run: for every message, auxiliary map, sequence of check blocks
      and resolve calls, and every flag setting, the list that oc_expansion makes of a solved node
      XORs to the true value of that node, and names only check blocks and nodes solved earlier. */
  lemma DecodingSound(n: nat, msg: seq<Block>, m: nat, co: nat, edges: seq<Edge>, es: seq<Event>, f: Flags, x: nat)
    requires 1 <= m == |msg| <= co && EdgesOk(m, co, edges) && EventsOk(co, es)
    requires x in Run(m, co, edges, es).log
    ensures var r := Run(m, co, edges, es); var val := TrueOf(n, msg, co, edges, Arrivals(es));
      && LogTraced(r.graph, r.log)
      && var list := Odds(Sort(Expanded(r.graph, r.log, f, x)));
      && Ascending(list) && SizedOn(n, val, list) && XorSum(n, val, list) == val(x)
      && forall y :: y in list ==> Final(r.graph, r.log, f, y, IndexOf(r.log, x))
  {
    var r := Run(m, co, edges, es);
    RunIsTraced(r);
    RunEquations(m, co, edges, es);
    AllSolutionsHold(n, msg, r.graph, edges, Arrivals(es), r.log);
    ExpansionMeaning(r.graph, r.log, f, x, n, TrueOf(n, msg, co, edges, Arrivals(es)));
  }

  // ----- when a list cancels to nothing

  /** A message with v in block y and zero everywhere else. */
  function OnlyBlock(n: nat, m: nat, y: nat, v: Block): seq<Block>
    requires |v| == n
  {
    seq(m, k => if k == y then v else Zero(n))
  }

  lemma {:induction false} OnlyBlockSum(n: nat, m: nat, y: nat, v: Block, s: seq<nat>)
    requires |v| == n && y < m
    ensures XorSum(n, MessageOf(n, OnlyBlock(n, m, y, v)), s) == if OddIn(s, y) then v else Zero(n)
  {
    if s != [] {
      OnlyBlockSum(n, m, y, v, s[1..]);
      XorSelf(v);
      XorZero(v);
      XorZero(Zero(n));
    }
  }

  ghost predicate AllEven(s: seq<nat>) {
    forall y :: !OddIn(s, y)
  }

  ghost predicate CancelsOut(m: nat, co: nat, edges: seq<Edge>, es: seq<Event>, f: Flags, x: nat) {
    && 1 <= m <= co && EdgesOk(m, co, edges) && EventsOk(co, es)
    && var r := Run(m, co, edges, es);
    && x in r.log && LogTraced(r.graph, r.log) && Odds(Sort(Expanded(r.graph, r.log, f, x))) == []
  }

  lemma CancelsOutFor(m: nat, co: nat, edges: seq<Edge>, es: seq<Event>, f: Flags, x: nat, y: nat)
    requires CancelsOut(m, co, edges, es, f, x) && y < m
    ensures x != y && (m <= x < co ==> !OddIn(MessagesOf(edges, x), y))
  {
    var v: Block := [1];
    assert v[0] != Zero(1)[0];
    DecodingSound(1, OnlyBlock(1, m, y, v), m, co, edges, es, f, x);
    OnlyBlockSum(1, m, y, v, MessagesOf(edges, x));
  }

  /** The codec gives up on a solved node whose list cancels to nothing.  That only happens to an
      auxiliary node to which every message is mapped an even number of times (or never). */
  lemma EmptyListOnlyIfEven(m: nat, co: nat, edges: seq<Edge>, es: seq<Event>, f: Flags, x: nat)
    requires CancelsOut(m, co, edges, es, f, x)
    ensures m <= x < co && AllEven(MessagesOf(edges, x))
  {
    var r := Run(m, co, edges, es);
    assert LogNode(r.graph, r.log, IndexOf(r.log, x));
    if x < m {
      CancelsOutFor(m, co, edges, es, f, x, x);
    }
    forall y: nat ensures !OddIn(MessagesOf(edges, x), y) {
      if m <= y {
        InitEnds(m, co, edges, |edges|, x);
        CountPositive(MessagesOf(edges, x), y);
      } else {
        CancelsOutFor(m, co, edges, es, f, x, y);
      }
    }
  }
}
