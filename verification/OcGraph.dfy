/** graph.c and bones.c on arrays, proved to follow the state machine of module Peeling. */
module OcGraphs {
  import opened Lists
  import opened Peeling
  import opened PeelingInvariant
  import opened PeelingInput
  import opened OcRings
  import opened OcStore
  import opened OcInsert
  import opened OcInit

  // ----- the tables that are indexed by node

  ghost predicate CountsKept(g: Graph, vc: seq<int>) {
    && |g.bones| == |g.vcount| <= |vc| && vc[..|g.bones|] == g.vcount
    && forall k :: |g.bones| <= k < |vc| ==> Clear(vc, k, 0)
  }

  /** graph->top: null once the bone of an auxiliary node is its own solution. */
  ghost predicate TopRight(g: Graph, off: seq<int>, top: seq<int>, u: nat)
    requires g.Upper(u) && |off| == |g.bones| <= |top|
  {
    top[u - g.m] == if u < |g.sol| && g.sol[u] == Some(u) then NULL else off[u - g.m]
  }

  ghost predicate SolutionRight(g: Graph, off: seq<int>, solution: seq<int>, x: nat)
    requires |off| == |g.bones| && x < |g.sol| == |solution|
  {
    match g.sol[x]
    case None => solution[x] == NULL
    case Some(u) => g.Upper(u) && 0 <= off[u - g.m] == solution[x]
  }

  ghost predicate TablesKept(g: Graph, off: seq<int>, vc: seq<int>, top: seq<int>, solution: seq<int>) {
    && CountsKept(g, vc) && TopsKept(g, off, top) && SolutionsKept(g, off, solution)
  }

  ghost predicate SolutionsKept(g: Graph, off: seq<int>, solution: seq<int>) {
    && |off| == |g.bones| && |solution| == |g.sol|
    && (forall x :: 0 <= x < |g.sol| ==> SolutionRight(g, off, solution, x))
  }

  lemma SolutionKnown(g: Graph, off: seq<int>, solution: seq<int>, x: nat)
    requires SolutionsKept(g, off, solution) && x < |g.sol|
    ensures solution[x] == NULL <==> g.sol[x].None?
  {
    assert SolutionRight(g, off, solution, x);
  }

  ghost predicate TopsKept(g: Graph, off: seq<int>, top: seq<int>) {
    && |off| == |g.bones| <= |top|
    && (forall u :: g.m <= u < g.m + |g.bones| ==> TopRight(g, off, top, u))
    && (forall k :: |g.bones| <= k < |top| ==> Clear(top, k, NULL))
  }

  lemma CountsUpdated(g: Graph, vc: seq<int>, u: nat, c: int, r: Graph)
    requires CountsKept(g, vc) && g.Upper(u) && |r.bones| == |g.bones| && r.vcount == g.vcount[u - g.m := c]
    ensures CountsKept(r, vc[u - g.m := c])
  {
    var vc' := vc[u - g.m := c];
    assert vc'[..|r.bones|] == vc[..|g.bones|][u - g.m := c];
    forall k: nat | |r.bones| <= k < |vc'| ensures Clear(vc', k, 0) {
      assert Clear(vc, k, 0);
    }
  }

  lemma SolvedTables(g: Graph, off: seq<int>, vc: seq<int>, top: seq<int>, solution: seq<int>, u: nat, i: nat, r: Graph)
    requires TopsKept(g, off, top) && SolutionsKept(g, off, solution)
    requires SolveReady(g, u, i) && 0 <= off[u - g.m]
    requires r == Solve(g, u, i).(vcount := r.vcount, ring := r.ring, pending := r.pending) && CountsKept(r, vc)
    requires g.bones[u - g.m].elems[i] != u
    ensures TablesKept(r, off, vc, top, solution[g.bones[u - g.m].elems[i] := off[u - g.m]])
  {
    var x := g.bones[u - g.m].elems[i];
    var solution' := solution[x := off[u - g.m]];
    forall w: nat | r.m <= w < r.m + |r.bones| ensures TopRight(r, off, top, w) {
      assert TopRight(g, off, top, w);
    }
    forall k: nat | |r.bones| <= k < |top| ensures Clear(top, k, NULL) {
      assert Clear(top, k, NULL);
    }
    forall y: nat | y < |r.sol| ensures SolutionRight(r, off, solution', y) {
      assert SolutionRight(g, off, solution, y);
    }
  }

  lemma AuxSolvedTables(g: Graph, off: seq<int>, vc: seq<int>, top: seq<int>, solution: seq<int>, a: nat, i: nat)
    requires TablesKept(g, off, vc, top, solution) && SolveReady(g, a, i) && 0 <= off[a - g.m]
    requires g.bones[a - g.m].elems[i] == a
    ensures TablesKept(Solve(g, a, i), off, vc, top[a - g.m := NULL], solution[a := off[a - g.m]])
  {
    var r := Solve(g, a, i);
    var top', solution' := top[a - g.m := NULL], solution[a := off[a - g.m]];
    forall w: nat | r.m <= w < r.m + |r.bones| ensures TopRight(r, off, top', w) {
      assert TopRight(g, off, top, w);
    }
    forall k: nat | |r.bones| <= k < |top| ensures Clear(top', k, NULL) {
      assert Clear(top, k, NULL);
    }
    forall y: nat | y < |r.sol| ensures SolutionRight(r, off, solution', y) {
      assert SolutionRight(g, off, solution, y);
    }
  }

  lemma AppendedTables(g: Graph, off: seq<int>, vc: seq<int>, top: seq<int>, solution: seq<int>, r: Graph, b: Bone,
                       o: int, c: int)
    requires TablesKept(g, off, vc, top, solution) && |g.bones| < |vc| == |top| && g.co <= g.m + |g.bones|
    requires |g.sol| == g.co
    requires r.m == g.m && r.co == g.co && r.bones == g.bones + [b] && r.vcount == g.vcount + [c] && r.sol == g.sol
    ensures TablesKept(r, off + [o], vc[|g.bones| := c], top[|g.bones| := o], solution)
  {
    var vc', top' := vc[|g.bones| := c], top[|g.bones| := o];
    assert vc'[..|r.bones|] == vc[..|g.bones|] + [c];
    forall w: nat | r.m <= w < r.m + |r.bones| ensures TopRight(r, off + [o], top', w) {
      if w < g.m + |g.bones| { assert TopRight(g, off, top, w); }
    }
    forall k: nat | |r.bones| <= k < |top| ensures Clear(top', k, NULL) {
      assert Clear(top, k, NULL);
    }
    forall k: nat | |r.bones| <= k < |vc| ensures Clear(vc', k, 0) {
      assert Clear(vc, k, 0);
    }
    forall y: nat | y < |r.sol| ensures SolutionRight(r, off + [o], solution, y) {
      assert SolutionRight(g, off, solution, y);
    }
  }

  lemma SameTables(g: Graph, off: seq<int>, vc: seq<int>, top: seq<int>, solution: seq<int>, r: Graph, vc': seq<int>)
    requires TablesKept(g, off, vc, top, solution) && CountsKept(r, vc')
    requires r.m == g.m && r.co == g.co && r.bones == g.bones && r.sol == g.sol
    ensures TablesKept(r, off, vc', top, solution)
  {
    forall w: nat | r.m <= w < r.m + |r.bones| ensures TopRight(r, off, top, w) {
      assert TopRight(g, off, top, w);
    }
    forall k: nat | |r.bones| <= k < |top| ensures Clear(top, k, NULL) {
      assert Clear(top, k, NULL);
    }
    forall y: nat | y < |r.sol| ensures SolutionRight(r, off, solution, y) {
      assert SolutionRight(g, off, solution, y);
    }
  }

  class OcGraph {
    const m: nat             // mblocks
    const co: nat            // coblocks
    const nodeSpace: nat
    var nodes: nat
    const vCount: array<int>
    const top: array<int>
    const solution: array<int>
    const boneA: array<int>  // the boneyard, unions a and b
    const boneB: array<int>
    var boneNext: nat
    const upper: array<int>  // ring heads, then the ring fence
    const left: array<int>
    const right: array<int>
    var ringNext: nat
    var pending: seq<nat>
    var unsolved: int
    var done: bool

    ghost var graph: Graph
    ghost var shadow: Shadow

    ghost function CellsNow(): Cells
      reads this`boneNext, boneA, boneB
    {
      Cells(boneA[..], boneB[..], boneNext)
    }

    ghost function ArenaNow(): Arena
      reads this`ringNext, upper, left, right
    {
      Arena(upper[..], left[..], right[..], ringNext)
    }

    ghost predicate Separate() {
      && upper != left && upper != right && left != right && boneA != boneB
      && vCount != top && vCount != solution && top != solution
      && {vCount, top, solution} !! {boneA, boneB} && {vCount, top, solution, boneA, boneB} !! {upper, left, right}
    }

    ghost function Arrays(): set<object> {
      {vCount, top, solution, boneA, boneB, upper, left, right}
    }

    ghost predicate Stored()
      reads this, vCount, top, solution, boneA, boneB, upper, left, right
    {
      && Rep(graph, CellsNow(), ArenaNow(), shadow)
      && TablesKept(graph, shadow.off, vCount[..], top[..], solution[..])
    }

    ghost predicate Scalars()
      reads this
    {
      && graph.m == m && graph.co == co && co <= nodeSpace
      && vCount.Length == top.Length == nodeSpace - m
      && m + |graph.bones| == (if nodes <= nodeSpace then nodes else nodeSpace)
      && pending == graph.pending && unsolved == graph.unsolved && done == graph.done
    }

    /** The impossible alternative co < m keeps Valid one fact in proofs, instead of its conjuncts. */
    ghost predicate Valid()
      reads this, vCount, top, solution, boneA, boneB, upper, left, right
    {
      m <= co && (co < m || (&& Separate() && co <= nodeSpace && Scalars() && Inv(graph) && Stored()))
    }

    // ----- graph initialisation

    /** The allocations of oc_graph_init.  The sizes, which it computes in floating point, are given. */
    constructor Allocate(mblocks: nat, ablocks: nat, checkSpace: nat, boneSpace: nat)
      ensures fresh(Arrays()) && Blank() && m == mblocks && co == mblocks + ablocks
      ensures nodeSpace == mblocks + ablocks + checkSpace && boneA.Length == boneSpace
    {
      m, co, nodeSpace := mblocks, mblocks + ablocks, mblocks + ablocks + checkSpace;
      nodes := mblocks + ablocks;
      vCount := new int[ablocks + checkSpace](_ => 0);
      solution := new int[mblocks + ablocks](_ => NULL);
      top := new int[ablocks + checkSpace](_ => NULL);
      boneA := new int[boneSpace];
      boneB := new int[boneSpace];
      upper := new int[mblocks + ablocks + boneSpace](_ => 0);
      left := new int[mblocks + ablocks + boneSpace](_ => 0);
      right := new int[mblocks + ablocks + boneSpace](_ => 0);
      boneNext, ringNext, pending, unsolved, done := 0, 0, [], mblocks, false;
      graph := Init(mblocks, mblocks + ablocks, []);
      shadow := Shadow([], NoRings(mblocks + ablocks), []);
      new;
      assert Prepared();
    }

    /** Every ring starts as its head alone. */
    method LoneHeads()
      requires Separate() && co <= left.Length == right.Length
      modifies left, right
      ensures forall y :: 0 <= y < co ==> HeadAlone(ArenaNow(), y)
    {
      var x := 0;
      while x < co
        invariant x <= co && forall y :: 0 <= y < x ==> HeadAlone(ArenaNow(), y)
      {
        ghost var ar := ArenaNow();
        left[x] := x;
        right[x] := x;
        forall y: nat | y <= x ensures HeadAlone(ArenaNow(), y) {
          if y < x { assert HeadAlone(ar, y); }
        }
        x := x + 1;
      }
    }

    /** Sizes, and the fields that the registration of the auxiliary map does not change. */
    ghost predicate Prepared()
      reads this, solution
    {
      && Separate() && m <= co <= nodeSpace && nodes == co && pending == [] && unsolved == m && !done
      && vCount.Length == top.Length == nodeSpace - m && solution.Length == co
      && boneA.Length == boneB.Length && upper.Length == left.Length == right.Length == co + boneA.Length
      && (forall k :: 0 <= k < solution.Length ==> Clear(solution[..], k, NULL))
    }

    ghost predicate Blank()
      reads this, vCount, top, solution
    {
      && Prepared() && boneNext == 0 && ringNext == 0 && shadow == Shadow([], NoRings(co), [])
      && (forall k :: 0 <= k < vCount.Length ==> Clear(vCount[..], k, 0)) && TopsSet([], top[..])
    }

    /** First pass: count the entries of each auxiliary node, by twos. */
    method CountEntries(edges: seq<Edge>)
      requires Blank() && EdgesOk(m, co, edges)
      modifies vCount
      ensures CountsAre(m, co, edges, |edges|, 0, vCount[..])
    {
      var n := 0;
      assert CountsAre(m, co, edges, 0, 0, vCount[..]) by {
        forall a: nat | m <= a < co ensures CountIs(m, edges, 0, 0, vCount[..], a) {
          assert Clear(vCount[..], a - m, 0);
        }
      }
      while n < |edges|
        invariant n <= |edges| && CountsAre(m, co, edges, n, 0, vCount[..])
      {
        CountTwo(m, co, edges, n, vCount[..]);
        var k := edges[n].aux - m;
        vCount[k] := vCount[k] + 2;
        n := n + 1;
      }
    }

    /** Second pass: carve out a bone for each auxiliary node. */
    method MakeBones(edges: seq<Edge>) returns (ok: bool)
      requires Prepared() && EdgesOk(m, co, edges) && CountsAre(m, co, edges, |edges|, 0, vCount[..])
      requires boneNext == 0 && shadow.off == [] && TopsSet([], top[..])
      modifies this`boneNext, this`shadow, boneA, boneB, top
      ensures ok <==> m == co || |edges| + 3 * (co - m) < boneA.Length
      ensures ok ==> AuxBones(m, co, edges, 0, CellsNow(), ArenaNow(), shadow) && |shadow.off| == co - m
      ensures ok ==> boneNext == |edges| + 3 * (co - m) && TopsSet(shadow.off, top[..])
      ensures shadow == old(shadow).(off := shadow.off)
    {
      var aux := 0;
      EdgesBelowEnds(m, co, edges, |edges|);
      while aux < co - m
        invariant aux <= co - m && |shadow.off| == aux && shadow == old(shadow).(off := shadow.off)
        invariant boneNext == EdgesBelow(edges, |edges|, m + aux) + 3 * aux
        invariant boneNext < boneA.Length || aux == 0 == boneNext
        invariant AuxBones(m, co, edges, 0, CellsNow(), ArenaNow(), shadow) && TopsSet(shadow.off, top[..])
      {
        EdgesBelowNext(edges, |edges|, m + aux);
        EdgesBelowMonotone(edges, |edges|, m + aux + 1, co);
        assert CountIs(m, edges, |edges|, 0, vCount[..], m + aux);
        var temp := vCount[aux] / 2;
        ok := MakeBone(edges, aux, temp);
        if !ok {
          return;
        }
        aux := aux + 1;
      }
      return true;
    }

    method MakeBone(ghost edges: seq<Edge>, aux: nat, temp: nat) returns (ok: bool)
      requires Prepared() && |shadow.off| == aux < co - m && temp == Kids(edges, m + aux)
      requires AuxBones(m, co, edges, 0, CellsNow(), ArenaNow(), shadow) && TopsSet(shadow.off, top[..])
      modifies this`boneNext, this`shadow, boneA, boneB, top
      ensures ok <==> temp + 3 + old(boneNext) < boneA.Length
      ensures ok ==> boneNext == old(boneNext) + temp + 3 && |shadow.off| == aux + 1
      ensures ok ==> AuxBones(m, co, edges, 0, CellsNow(), ArenaNow(), shadow) && TopsSet(shadow.off, top[..])
      ensures shadow == old(shadow).(off := shadow.off)
    {
      ghost var c := CellsNow();
      var bone := NewBone(2 + temp);
      if bone == NULL {
        return false;
      }
      MadeBone(m, co, edges, c, ArenaNow(), shadow);
      boneA[bone] := temp + 1;
      boneB[bone] := temp + 1;
      boneA[bone + temp + 1] := aux + m;
      boneB[bone + temp + 1] := NULL;  // left unset by the C code, which relies on it
      assert CellsNow() == NewAuxCells(c, bone, temp, m + aux);
      TopSet(shadow.off, top[..], bone);
      top[aux] := bone;
      shadow := shadow.(off := shadow.off + [bone]);
      return true;
    }

    /** Third pass: store the edges, and take 1 from the count for each. */
    method StoreEdges(edges: seq<Edge>)
      requires Prepared() && EdgesOk(m, co, edges) && |shadow.off| == co - m && TopsSet(shadow.off, top[..])
      requires Storing(edges, 0) && |edges| <= boneNext
      modifies this`ringNext, this`shadow, vCount, boneA, boneB, upper, left, right
      ensures Storing(edges, |edges|) && shadow.off == old(shadow.off)
    {
      var n := 0;
      while n < |edges|
        invariant n <= |edges| && Storing(edges, n) && shadow.off == old(shadow.off)
      {
        StoreEdge(edges, n);
        n := n + 1;
      }
    }

    ghost predicate Storing(edges: seq<Edge>, n: nat)
      requires n <= |edges|
      reads this, vCount, boneA, boneB, upper, left, right
    {
      CountsAre(m, co, edges, |edges|, n, vCount[..]) && Filling(edges, n)
    }

    ghost predicate Filling(edges: seq<Edge>, n: nat)
      requires n <= |edges|
      reads this`boneNext, this`ringNext, this`shadow, boneA, boneB, upper, left, right
    {
      && ringNext == n == |shadow.owner|
      && AuxBones(m, co, edges, n, CellsNow(), ArenaNow(), shadow)
      && RingsStored(co, UppersSoFar(co, edges, n), Unknown(co), ArenaNow(), shadow)
    }

    method StoreEdge(edges: seq<Edge>, n: nat)
      requires Prepared() && n < |edges| <= boneNext && EdgesOk(m, co, edges)
      requires |shadow.off| == co - m && TopsSet(shadow.off, top[..]) && Storing(edges, n)
      modifies this`ringNext, this`shadow, vCount, boneA, boneB, upper, left, right
      ensures Storing(edges, n + 1) && shadow.off == old(shadow.off)
    {
      var msg, aux := edges[n].msg, edges[n].aux - m;
      ghost var c, ar, sh := CellsNow(), ArenaNow(), shadow;
      CountOne(m, co, edges, n, vCount[..]);
      assert CountIs(m, edges, |edges|, n, vCount[..], m + aux) && AuxCells(m, co, edges, n, c, ar, sh, m + aux);
      assert top[aux] == sh.off[aux] by { assert top[aux] == top[..][..|sh.off|][aux]; }
      var bone := top[aux];
      var temp := vCount[aux];
      vCount[aux] := temp - 1;
      bone := bone + temp - boneA[bone] + 1;
      FillEdge(edges, n, bone, msg, aux);
    }

    /** Put one entry of the auxiliary map into the bone and onto the ring. */
    method FillEdge(edges: seq<Edge>, n: nat, bone: int, msg: nat, aux: nat)
      requires Prepared() && n < |edges| <= boneNext && EdgesOk(m, co, edges) && |shadow.off| == co - m
      requires Filling(edges, n) && msg == edges[n].msg && m + aux == edges[n].aux
      requires bone == Place(m, edges, n, shadow.off)
      modifies this`ringNext, this`shadow, boneA, boneB, upper, left, right
      ensures Filling(edges, n + 1) && shadow.off == old(shadow.off)
    {
      ghost var c, ar, sh := CellsNow(), ArenaNow(), shadow;
      assert AuxCells(m, co, edges, n, c, ar, sh, m + aux);
      RoomLeft(edges, n);
      FillLeft(co, edges, n, ar, sh, msg);
      assert FillReady(m, co, edges, n, c, ar, sh);
      FillBones(m, co, edges, n, c, ar, sh);
      FillRings(m, co, edges, n, c, ar, sh);
      boneA[bone] := msg;
      var ring := CreateNEdge(aux + m, msg);
      boneB[bone] := ring;
      shadow := FilledShadow(m, co, edges, n, c, ar, sh);
      assert CellsNow() == FilledCells(m, co, edges, n, c, ar, sh.off);
    }

    ghost method Registered(edges: seq<Edge>)
      requires Prepared() && m >= 1 && EdgesOk(m, co, edges) && |shadow.off| == co - m && TopsSet(shadow.off, top[..])
      requires Storing(edges, |edges|) && |edges| <= boneNext <= boneA.Length
      modifies this`graph
      ensures Valid() && graph == Init(m, co, edges) && nodes == co
    {
      graph := Init(m, co, edges);
      assert Inv(graph) by { InitInv(m, co, edges); }
      assert Rep(graph, CellsNow(), ArenaNow(), shadow) by { DoneRep(m, co, edges, CellsNow(), ArenaNow(), shadow); }
      InitTables(m, co, edges, shadow.off, vCount[..], top[..], solution[..]);
    }

    /** The three passes over the auxiliary map. */
    method Register(edges: seq<Edge>) returns (ok: bool)
      requires Blank() && m >= 1 && m < co && EdgesOk(m, co, edges)
      modifies this`boneNext, this`ringNext, this`shadow, this`graph, vCount, top, boneA, boneB, upper, left, right
      ensures ok <==> |edges| + 3 * (co - m) < boneA.Length
      ensures ok ==> Valid() && graph == Init(m, co, edges) && nodes == co && boneNext == |edges| + 3 * (co - m)
    {
      LoneHeads();
      CountEntries(edges);
      ok := MakeBones(edges);
      if ok {
        EmptyRings(co, edges, ArenaNow(), shadow.off);
        StoreEdges(edges);
        Registered(edges);
      }
    }

    // ----- pending queue

    method PushPending(value: nat)
      modifies this`pending
      ensures pending == old(pending) + [value]
    {
      pending := pending + [value];
    }

    method ShiftPending() returns (value: nat)
      requires pending != []
      modifies this`pending
      ensures value == old(pending)[0] && pending == old(pending)[1..]
    {
      value := pending[0];
      pending := pending[1..];
    }

    // ----- rings

    method CreateNEdge(u: nat, x: nat) returns (p: nat)
      requires x < u && x < co && upper != left && upper != right && left != right
      requires upper.Length == left.Length == right.Length && co + ringNext < left.Length && 0 <= left[x] < left.Length
      modifies this`ringNext, upper, left, right
      ensures p == co + old(ringNext) && ArenaNow() == Pushed(old(ArenaNow()), co, x, u)
    {
      p := co + ringNext;
      ringNext := ringNext + 1;
      upper[x] := 0;
      upper[p] := u;
      var last := left[x];
      left[p] := last;
      right[p] := x;
      right[last] := p;
      left[x] := p;
    }

    method DeleteLowerEnd(p: nat, u: nat, x: nat, decrement: bool)
      requires upper != left && upper != right && left != right && vCount !in {upper, left, right}
      requires upper.Length == left.Length == right.Length && p < left.Length && x < co <= upper.Length
      requires upper[p] == u && 0 <= left[p] < left.Length && 0 <= right[p] < left.Length
      requires m <= u < m + vCount.Length && (decrement ==> vCount[u - m] != 0)
      modifies vCount, upper, left, right
      ensures ArenaNow() == Unlinked(old(ArenaNow()), x, p)
      ensures vCount[..] == if decrement then old(vCount[..])[u - m := old(vCount[u - m]) - 1] else old(vCount[..])
    {
      if decrement {
        vCount[u - m] := vCount[u - m] - 1;
      }
      upper[x] := 0;
      var l, r := left[p], right[p];
      right[l] := r;
      left[r] := l;
    }

    // ----- cascade

    /** One turn of the loop in oc_cascade. */
    method CascadeTo(to: nat, ghost ups: seq<nat>)
      requires graph.m == m && CascadeReady(graph, ups) && ups != [] && ups[0] == to
      requires CountsKept(graph, vCount[..]) && pending == graph.pending
      modifies vCount, this`pending, this`graph
      ensures graph == CascadeTurn(old(graph), to) && CascadeReady(graph, ups[1..])
      ensures Cascade(graph, ups[1..]) == Cascade(old(graph), ups)
      ensures CountsKept(graph, vCount[..]) && pending == graph.pending
    {
      CascadeAssert(graph, ups);
      CascadeStep(graph, ups);
      assert vCount[to - m] == vCount[..|graph.bones|][to - m];
      assert vCount[to - m] != 0;
      CountsUpdated(graph, vCount[..], to, vCount[to - m] - 1, CascadeTurn(graph, to));
      vCount[to - m] := vCount[to - m] - 1;
      if vCount[to - m] < 2 {
        PushPending(to);
      }
      graph := CascadeTurn(graph, to);
    }

    method CascadeUp(node: nat, ghost cells: seq<nat>, ghost ups: seq<nat>)
      requires vCount !in {upper, left, right} && RingHeld(ArenaNow(), shadow.owner, co, node, cells, ups)
      requires graph.m == m && CascadeReady(graph, ups)
      requires CountsKept(graph, vCount[..]) && pending == graph.pending
      modifies vCount, this`pending, this`graph
      ensures graph == Cascade(old(graph), ups)
      ensures CountsKept(graph, vCount[..]) && pending == graph.pending
    {
      ghost var i := 0;
      ghost var ar := ArenaNow();
      ghost var rest := ups;
      RingStep(ar, shadow.owner, co, node, cells, ups, 0);
      var p := right[node];
      while p != node
        invariant i <= |cells| && p == After([node] + cells, i) && rest == ups[i..]
        invariant graph.m == m && CascadeReady(graph, rest) && Cascade(graph, rest) == Cascade(old(graph), ups)
        invariant CountsKept(graph, vCount[..]) && pending == graph.pending
        invariant ArenaNow() == ar
        decreases |ups| - i
      {
        RingStep(ar, shadow.owner, co, node, cells, ups, i + 1);
        assert ar.upper[p] == ups[i] && ar.right[p] == After([node] + cells, i + 1);
        var to := upper[p];
        CascadeTo(to, rest);
        rest := rest[1..];
        i := i + 1;
        p := right[p];
      }
      OwnedPlain(shadow.owner, co, node, cells);
      assert i == |cells|;
    }

    // ----- bones

    /** Index of the first unsolved element of the bone at o; the C code exits if there is none. */
    method UnknownUnsolved(o: nat, ghost b: Bone, ghost sol: seq<Option<nat>>) returns (index: nat)
      requires o < boneA.Length && boneA[o] == b.unknowns <= |b.elems| && ElemsStored(boneA[..], o, b.elems)
      requires |sol| == solution.Length && forall x :: 0 <= x < |sol| ==> (solution[x] == NULL <==> sol[x].None?)
      requires forall i :: 0 <= i < b.unknowns ==> b.elems[i] < |sol|
      requires FirstUnsolved(sol, b.elems, b.unknowns) < b.unknowns
      ensures index == FirstUnsolved(sol, b.elems, b.unknowns) + 1
    {
      var count := boneA[o];
      index := 0;
      while count > 0
        invariant count + index == b.unknowns && 0 <= count
        invariant index <= FirstUnsolved(sol, b.elems, b.unknowns)
      {
        count := count - 1;
        index := index + 1;
        assert boneA[..][o + 1 + (index - 1)] == b.elems[index - 1];
        var node := boneA[o + index];
        if solution[node] == NULL {
          return;
        }
      }
    }

    /** Index of node a in the bone at o, where it is known to be. */
    method KnownUnsolved(o: nat, a: nat, ghost b: Bone) returns (index: nat)
      requires o < boneA.Length && boneA[o] == b.unknowns == |b.elems| && ElemsStored(boneA[..], o, b.elems)
      requires a in b.elems
      ensures index == IndexOf(b.elems, a) + 1
    {
      var count := boneA[o];
      index := 0;
      while count > 0
        invariant count + index == b.unknowns && 0 <= count
        invariant index <= IndexOf(b.elems, a)
      {
        count := count - 1;
        index := index + 1;
        assert boneA[..][o + 1 + (index - 1)] == b.elems[index - 1];
        if boneA[o + index] == a {
          return;
        }
      }
    }

    /** Swap element `index` to the front and set the number of unknowns to 1.  The deletion loop of
        the C code is empty, because it counts from the new number of unknowns. */
    method BubbleUnsolved(o: nat, index: nat)
      requires 1 <= index && o + index < boneA.Length == boneB.Length && boneA != boneB
      modifies boneA, boneB
      ensures CellsNow() == Bubbled(old(CellsNow()), o, index - 1)
    {
      if index != 1 {
        var node := boneA[o + index];
        boneA[o + index] := boneA[o + 1];
        boneA[o + 1] := node;
        var ring := boneB[o + index];
        boneB[o + index] := boneB[o + 1];
        boneB[o + 1] := ring;
      }
      boneA[o] := 1;
    }

    /** Everything but the invariant of the state machine. */
    ghost predicate Between()
      reads this, vCount, top, solution, boneA, boneB, upper, left, right
    {
      Separate() && m <= co <= nodeSpace && Scalars() && Stored()
    }

    // ----- the two rules, up to their cascades

    /** Where the auxiliary rule finds its bone, and itself in it. */
    method FindSelf(a: nat) returns (bone: nat, index: nat)
      requires Between() && StructureOf(graph) && graph.Upper(a) && a < co && graph.sol[a].None?
      ensures bone == shadow.off[a - m] && index == IndexOf(graph.bones[a - m].elems, a) + 1
      ensures index <= |graph.bones[a - m].elems| && bone + index < boneB.Length && boneB[bone + index] == NULL
    {
      AuxBoneWhole(graph, CellsNow(), shadow, ArenaNow(), a);
      assert TopRight(graph, shadow.off, top[..], a);
      bone := top[a - m];
      index := KnownUnsolved(bone, a, graph.bones[a - m]);
      assert SelfUnlinked(graph.m, graph.bones, shadow.off, graph.sol, boneB[..], a, index - 1);
    }

    method AuxRule(a: nat)
      requires Between() && Popped(graph, a) && a < co && graph.sol[a].None? && graph.vcount[a - m] == 0
      modifies top, solution, boneA, boneB, this`graph
      ensures Between() && SolveReady(old(graph), a, IndexOf(old(graph).bones[a - m].elems, a))
      ensures graph == Solve(old(graph), a, IndexOf(old(graph).bones[a - m].elems, a))
      ensures ArenaNow() == old(ArenaNow())
    {
      AuxRuleFound(graph, a);
      var bone, index := FindSelf(a);
      ghost var i: nat := index - 1;
      ghost var c := CellsNow();
      AuxStores(graph, c, ArenaNow(), shadow, vCount[..], top[..], solution[..], a, i);
      solution[a] := bone;
      BubbleUnsolved(bone, index);
      assert boneA[..][bone + 1] == a && boneB[..][bone + 1] == NULL;
      assert boneA[bone] == 1 && boneA[bone + 1] == a && boneB[bone + 1] == NULL;
      top[a - m] := NULL;
      graph := Solve(graph, a, i);
    }

    /** The propagation rule starts: where its bone is, and its one unsolved element in it. */
    method Target(from: nat) returns (bone: nat, index: nat)
      requires Between() && Popped(graph, from) && graph.IsCheckOrSolved(from) && graph.vcount[from - m] == 1
      ensures var b := graph.bones[from - m];
        && b.unknowns <= |b.elems| && index == FirstUnsolved(graph.sol, b.elems, b.unknowns) + 1
      ensures OneLink(graph, from, index - 1) && bone == shadow.off[from - m]
    {
      PropagationFound(graph, from);
      ghost var i := FirstUnsolved(graph.sol, graph.bones[from - m].elems, graph.bones[from - m].unknowns);
      assert 0 <= shadow.off[from - m] by { assert BoneStored(m, graph.bones, shadow.off, CellsNow(), from); }
      bone := BoneOf(from, i);
      index := FindUnsolved(bone, from);
    }

    /** Bubble it up, and read the element and its link. */
    method Extract(from: nat, bone: nat, index: nat) returns (to: nat, link: nat, ghost d: nat)
      requires boneA != boneB && graph.m == m && graph.co == co && StructureOf(graph)
      requires Rep(graph, CellsNow(), ArenaNow(), shadow)
      requires 0 < index && OneLink(graph, from, index - 1) && bone == shadow.off[from - m]
      modifies boneA, boneB
      ensures to == graph.bones[from - m].elems[index - 1]
      ensures Rep(Solve(graph, from, index - 1), CellsNow(), ArenaNow(), shadow)
      ensures RingHeld(ArenaNow(), shadow.owner, co, to, shadow.rings[to], graph.ring[to])
      ensures d < |shadow.rings[to]| && link == shadow.rings[to][d] && d == IndexOf(graph.ring[to], from)
      ensures link < upper.Length && upper[link] == from
    {
      d := ExtractStores(graph, CellsNow(), ArenaNow(), shadow, from, index - 1);
      BubbleUnsolved(bone, index);
      assert boneA[..][bone + 1] == boneA[bone + 1] && boneB[..][bone + 1] == boneB[bone + 1];
      to := boneA[bone + 1];
      link := boneB[bone + 1];
    }

    /** Then delete the link; what remains of the ring is cells. */
    method Unlink(from: nat, to: nat, link: nat, ghost i: nat, ghost d: nat) returns (ghost cells: seq<nat>)
      requires Separate() && graph.m == m && graph.co == co == |graph.ring| && OneLink(graph, from, i)
      requires to == graph.bones[from - m].elems[i] && m <= co <= upper.Length && CountsKept(graph, vCount[..])
      requires graph.vcount[from - m] == 1
      requires Rep(Solve(graph, from, i), CellsNow(), ArenaNow(), shadow)
      requires RingHeld(ArenaNow(), shadow.owner, co, to, shadow.rings[to], graph.ring[to])
      requires d < |shadow.rings[to]| && link == shadow.rings[to][d] && d == IndexOf(graph.ring[to], from)
      requires link < upper.Length && upper[link] == from
      modifies vCount, upper, left, right
      ensures Rep(Propagated(graph, from, i), CellsNow(), ArenaNow(), shadow)
      ensures vCount[..] == old(vCount[..])[from - m := old(vCount[from - m]) - 1]
      ensures RingHeld(ArenaNow(), shadow.owner, co, to, cells, Propagated(graph, from, i).ring[to])
    {
      ghost var ar := ArenaNow();
      cells := RemoveAt(shadow.rings[to], d);
      UnlinkedRing(ar, shadow.owner, co, to, shadow.rings[to], graph.ring[to], d);
      assert Rep(Propagated(graph, from, i), CellsNow(), Unlinked(ar, to, link), shadow) by {
        PropagatedRep(graph, CellsNow(), ar, shadow, from, i, d);
      }
      assert vCount[from - m] == vCount[..|graph.bones|][from - m];
      DeleteLowerEnd(link, from, to, true);
    }

    /** Take the element out of the bone, and its link out of the ring. */
    method Detach(from: nat, bone: nat, index: nat, ghost t: Graph) returns (to: nat, ghost cells: seq<nat>)
      requires Between() && StructureOf(graph) && 0 < index && OneLink(graph, from, index - 1)
      requires bone == shadow.off[from - m] && graph.vcount[from - m] == 1 && t == Propagated(graph, from, index - 1)
      requires co <= upper.Length && CountsKept(graph, vCount[..]) && |graph.ring| == co
      modifies vCount, boneA, boneB, upper, left, right
      ensures to == graph.bones[from - m].elems[index - 1] && Rep(t, CellsNow(), ArenaNow(), shadow)
      ensures vCount[..] == old(vCount[..])[from - m := old(vCount[from - m]) - 1]
      ensures to < |t.ring| && RingHeld(ArenaNow(), shadow.owner, co, to, cells, t.ring[to])
    {
      ghost var vc := vCount[..];
      var link;
      ghost var d;
      to, link, d := Extract(from, bone, index);
      assert vCount[..] == vc;
      cells := Unlink(from, to, link, index - 1, d);
    }

    method BoneOf(from: nat, ghost i: nat) returns (bone: nat)
      requires Between() && StructureOf(graph) && OneLink(graph, from, i) && 0 <= shadow.off[from - m]
      ensures bone == shadow.off[from - m]
    {
      NotItself(graph, from, i);
      assert TopRight(graph, shadow.off, top[..], from);
      bone := top[from - m];
    }

    /** Finally record the solution of `to` and update the scalars; t is the graph to arrive at. */
    method Record(bone: nat, to: nat, ghost t: Graph) returns (finished: bool)
      requires Separate() && t.m == m && t.co == co && vCount.Length == top.Length == nodeSpace - m
      requires m <= co <= nodeSpace && m + |t.bones| == (if nodes <= nodeSpace then nodes else nodeSpace)
      requires t.pending == (if to < m then pending else pending + [to]) && done == t.done
      requires unsolved == t.unsolved + (if to < m then 1 else 0)
      requires to < solution.Length && solution[to] == NULL
      requires TablesKept(t, shadow.off, vCount[..], top[..], solution[..][to := bone])
      requires Rep(t, CellsNow(), ArenaNow(), shadow)
      modifies this`graph, this`pending, this`unsolved, this`done, solution
      ensures Between()
      ensures finished == (to < m && t.unsolved == 0) && graph == Finish(t, finished)
    {
      assert solution[to] == NULL;
      solution[to] := bone;
      finished := false;
      if to < m {
        unsolved := unsolved - 1;
        if unsolved == 0 {
          done := true;
          FlushPending();
          finished := true;
        }
      } else {
        PushPending(to);
      }
      graph := Finish(t, finished);
      assert TablesKept(graph, shadow.off, vCount[..], top[..], solution[..]) by {
        SameTables(t, shadow.off, vCount[..], top[..], solution[..], graph, vCount[..]);
      }
      assert Rep(graph, CellsNow(), ArenaNow(), shadow) by { SameRep(t, graph, CellsNow(), ArenaNow(), shadow); }
    }

    /** The propagation rule at `from`, up to its cascade: returns the solved node, and whether it was
        the last message.  The remaining ring of that node is cells. */
    method PropagateFrom(from: nat) returns (to: nat, finished: bool, ghost i: nat, ghost cells: seq<nat>)
      requires Between() && Popped(graph, from) && graph.IsCheckOrSolved(from) && graph.vcount[from - m] == 1
      modifies this`graph, this`pending, this`unsolved, this`done, vCount, solution, boneA, boneB, upper, left, right
      ensures Between()
      ensures var b := old(graph).bones[from - m];
        && b.unknowns <= |b.elems| && i == FirstUnsolved(old(graph).sol, b.elems, b.unknowns)
      ensures OneLink(old(graph), from, i) && to == old(graph).bones[from - m].elems[i]
      ensures finished == (to < m && Propagated(old(graph), from, i).unsolved == 0)
      ensures graph == Finish(Propagated(old(graph), from, i), finished)
      ensures RingHeld(ArenaNow(), shadow.owner, co, to, cells, Propagated(old(graph), from, i).ring[to])
    {
      ghost var g, off, vc, tops, sols := graph, shadow.off, vCount[..], top[..], solution[..];
      var bone, index := Target(from);
      i := index - 1;
      ghost var t := Propagated(g, from, i);
      to, cells := Detach(from, bone, index, t);
      PropagatedTables(g, off, vc, vCount[..], tops, sols, from, i);
      finished := Record(bone, to, t);
    }

    method FlushPending()
      modifies this`pending
      ensures pending == []
    {
      while pending != []
        decreases |pending|
      {
        pending := pending[1..];
      }
    }

    /** oc_unknown_unsolved at the bone of a node where the propagation rule applies. */
    method FindUnsolved(bone: nat, from: nat) returns (index: nat)
      requires Between() && graph.Upper(from) && bone == shadow.off[from - m]
      requires StructureOf(graph)
      requires graph.bones[from - m].unknowns <= |graph.bones[from - m].elems|
      requires var b := graph.bones[from - m]; var i := FirstUnsolved(graph.sol, b.elems, b.unknowns);
        OneLink(graph, from, i) && i < b.unknowns
      ensures var b := graph.bones[from - m]; index == FirstUnsolved(graph.sol, b.elems, b.unknowns) + 1
    {
      forall x: nat | x < |graph.sol| ensures solution[x] == NULL <==> graph.sol[x].None? {
        assert SolutionRight(graph, shadow.off, solution[..], x);
      }
      UnknownsAreLower(graph, from);
      assert BoneStored(m, graph.bones, shadow.off, CellsNow(), from);
      index := UnknownUnsolved(bone, graph.bones[from - m], graph.sol);
    }

    // ----- oc_graph_resolve

    /** Cascade from a node that was just solved; then everything is in order again. */
    method CascadeFrom(node: nat, ghost cells: seq<nat>, ghost ups: seq<nat>)
      requires Between() && RingHeld(ArenaNow(), shadow.owner, co, node, cells, ups)
      requires CascadeReady(graph, ups) && Inv(Cascade(graph, ups))
      modifies vCount, this`pending, this`graph
      ensures Valid() && graph == Cascade(old(graph), ups)
    {
      ghost var g, vc, tops, sols := graph, vCount[..], top[..], solution[..];
      ghost var c, ar := CellsNow(), ArenaNow();
      CascadeUp(node, cells, ups);
      assert top[..] == tops && solution[..] == sols && CellsNow() == c && ArenaNow() == ar;
      assert TablesKept(graph, shadow.off, vCount[..], tops, sols) by {
        SameTables(g, shadow.off, vc, tops, sols, graph, vCount[..]);
      }
      assert Rep(graph, c, ar, shadow) by { SameRep(g, graph, c, ar, shadow); }
    }

    method AuxTurnAt(from: nat, ghost g0: Graph)
      requires Between() && Going(g0) && Front(g0) == Aux && from == g0.pending[0]
      requires graph == g0.(pending := g0.pending[1..])
      modifies this`graph, this`pending, vCount, top, solution, boneA, boneB
      ensures Valid() && ResolveLoop(g0) == Outcome(graph, Some(from))
    {
      PopQueue(g0);
      AuxTurn(g0);
      ghost var i := IndexOf(graph.bones[from - m].elems, from);
      AuxRuleFound(graph, from);
      AuxRuleReady(graph, from, i);
      assert RingStored(co, graph.ring, graph.sol, ArenaNow(), shadow, from);
      AuxRule(from);
      CascadeFrom(from, shadow.rings[from], graph.ring[from]);
    }

    method PropagationTurnAt(from: nat, ghost g0: Graph) returns (to: nat)
      requires Between() && Going(g0) && Front(g0) == Propagation && from == g0.pending[0]
      requires graph == g0.(pending := g0.pending[1..])
      modifies this`graph, this`pending, this`unsolved, this`done, vCount, solution, boneA, boneB, upper, left, right
      ensures Valid() && ResolveLoop(g0) == Outcome(graph, Some(to))
    {
      PopQueue(g0);
      ghost var g := graph;
      var finished;
      ghost var i, cells;
      to, finished, i, cells := PropagateFrom(from);
      TurnPropagates(g0, g, from, i);
      PropagatedReady(g, from, i);
      PropagateIs(g, from, i, Propagated(g, from, i), finished);
      if !finished {
        CascadeFrom(to, cells, graph.ring[to]);
      }
    }

    /** One call: the nodes solved (at most one, as the code is compiled with STEPPING), and whether
        the whole message is decoded. */
    method OcResolve() returns (isDone: bool, solved: seq<nat>)
      requires Valid()
      modifies this`graph, this`pending, this`unsolved, this`done
      modifies vCount, top, solution, boneA, boneB, upper, left, right
      ensures Valid() && graph == Resolve(old(graph)).graph && isDone == graph.done
      ensures solved == match Resolve(old(graph)).solved { case None => [] case Some(x) => [x] }
    {
      solved := [];
      if pending == [] {
        return done, solved;
      }
      if unsolved == 0 {
        done := true;
        return true, solved;
      }
      while pending != []
        invariant Valid() && !done && ResolveLoop(graph) == ResolveLoop(old(graph)) && solved == []
        decreases |pending|
      {
        ghost var g0 := graph;
        var from, found := TakePending();
        match found
        case Aux =>
          AuxTurnAt(from, g0);
          return done, [from];
        case Propagation =>
          var to := PropagationTurnAt(from, g0);
          return done, [to];
        case Nothing =>
          NothingTurn(g0);
      }
      return done, solved;
    }

    /** Take a node off the queue and decide what to do with it. */
    method TakePending() returns (from: nat, found: Found)
      requires Valid() && !done && pending != []
      modifies this`graph, this`pending
      ensures Between() && graph == old(graph).(pending := old(graph).pending[1..])
      ensures from == old(graph).pending[0] && Going(old(graph)) && found == Front(old(graph))
    {
      ghost var g := graph;
      from := ShiftPending();
      graph := graph.(pending := pending);
      CountAndSolution(g, shadow.off, vCount[..], top[..], solution[..], from);
      SameTables(g, shadow.off, vCount[..], top[..], solution[..], graph, vCount[..]);
      SameRep(g, graph, CellsNow(), ArenaNow(), shadow);
      var count := vCount[from - m];
      if count > 1 {
        found := Nothing;
      } else if count == 0 {
        // a check block, or an auxiliary block that is already solved, has nothing more to tell
        found := if from >= co || solution[from] != NULL then Nothing else Aux;
      } else {
        found := if from < co && solution[from] == NULL then Nothing else Propagation;
      }
    }

    // ----- check blocks

    /** oc_new_bone: carve a bone of size + 1 cells out of the boneyard, or return NULL. */
    method NewBone(size: nat) returns (o: int)
      modifies this`boneNext
      ensures if size + 1 + old(boneNext) >= boneA.Length then o == NULL && boneNext == old(boneNext)
              else o == old(boneNext) && boneNext == old(boneNext) + size + 1
    {
      var required := size + 1;
      if required + boneNext >= boneA.Length {
        return NULL;
      }
      o := boneNext;
      boneNext := boneNext + required;
    }

    /** An unsolved member gets an edge and a place on the left. */
    method AddUnknown(ghost c0: Cells, cnode: nat, ghost size: nat, ghost seen: seq<nat>, x: nat, bp: nat)
      requires Separate() && ReadingNow(c0, cnode, size, seen)
      requires |seen| < size && x < co <= cnode && graph.sol[x].None?
      requires bp == c0.next + 1 + |UnsolvedOf(graph.sol, seen)|
      modifies this`ringNext, this`shadow, boneA, boneB, upper, left, right
      ensures boneNext == old(boneNext) && shadow.off == old(shadow.off)
      ensures ReadingNow(c0, cnode, size, seen + [x])
      ensures |UnsolvedOf(graph.sol, seen + [x])| == |UnsolvedOf(graph.sol, seen)| + 1
      ensures |SolvedOf(graph.sol, seen + [x])| == |SolvedOf(graph.sol, seen)|
    {
      UnsolvedLast(graph.sol, seen, x);
      SolvedLast(graph.sol, seen, x);
      ghost var c, ar, sh := CellsNow(), ArenaNow(), shadow;
      ReadUnknown(graph, c0, c, ar, sh, cnode, size, seen, x);
      var ring := CreateNEdge(cnode, x);
      boneA[bp] := x;
      boneB[bp] := ring;
      shadow := PushedShadow(sh, co, x, ring);
      assert CellsNow() == c.(a := c.a[bp := x], b := c.b[bp := ring]);
    }

    /** A solved member gets a place on the right and no edge. */
    method AddKnown(ghost c0: Cells, ghost cnode: nat, ghost size: nat, ghost seen: seq<nat>, x: nat, at: nat)
      requires Separate() && ReadingNow(c0, cnode, size, seen)
      requires |seen| < size && x < co && graph.sol[x].Some? && at == c0.next + size - |SolvedOf(graph.sol, seen)|
      modifies boneA, boneB
      ensures ReadingNow(c0, cnode, size, seen + [x])
      ensures |UnsolvedOf(graph.sol, seen + [x])| == |UnsolvedOf(graph.sol, seen)|
      ensures |SolvedOf(graph.sol, seen + [x])| == |SolvedOf(graph.sol, seen)| + 1
    {
      UnsolvedLast(graph.sol, seen, x);
      SolvedLast(graph.sol, seen, x);
      ghost var c := CellsNow();
      ReadKnown(graph, c0, c, ArenaNow(), shadow, cnode, size, seen, x);
      boneA[at] := x;
      boneB[at] := NULL;
      assert CellsNow() == c.(a := c.a[at := x], b := c.b[at := NULL]);
    }

    ghost predicate ReadingNow(c0: Cells, cnode: nat, size: nat, seen: seq<nat>)
      reads this`graph, this`shadow, this`boneNext, this`ringNext, boneA, boneB, upper, left, right
    {
      && |graph.ring| == |graph.sol| == co == graph.co && Within(seen, 0, |graph.sol|)
      && Reading(graph, c0, CellsNow(), ArenaNow(), shadow, cnode, size, seen)
    }

    /** The loop of oc_check_bone, over a bone whose header and last element are in place. */
    method FillBone(o: nat, cnode: nat, list: seq<nat>, ghost c0: Cells) returns (unknowns: nat)
      requires Separate() && o == c0.next && Within(list, 0, |graph.sol|) && co <= cnode
      requires ReadingNow(c0, cnode, |list|, [])
      requires SolutionsKept(graph, shadow.off, solution[..])
      modifies this`ringNext, this`shadow, boneA, boneB, upper, left, right
      ensures unknowns == |UnsolvedOf(graph.sol, list)| && ReadingNow(c0, cnode, |list|, list)
      ensures shadow.off == old(shadow.off)
    {
      var size := |list|;
      unknowns := size;
      var lastIndex, bp, k := size, o + 1, 0;
      ghost var seen: seq<nat> := [];
      while k < size
        invariant k <= size && shadow.off == old(shadow.off) && seen == list[..k]
        invariant ReadingNow(c0, cnode, size, seen)
        invariant lastIndex == unknowns == size - |SolvedOf(graph.sol, seen)|
        invariant bp == o + 1 + |UnsolvedOf(graph.sol, seen)|
      {
        var lower := list[k];
        assert list[..k + 1] == seen + [lower];
        SolutionKnown(graph, shadow.off, solution[..], lower);
        if solution[lower] != NULL {
          AddKnown(c0, cnode, size, seen, lower, o + lastIndex);
          lastIndex := lastIndex - 1;
          unknowns := unknowns - 1;
        } else {
          AddUnknown(c0, cnode, size, seen, lower, bp);
          bp := bp + 1;
        }
        seen := seen + [lower];
        k := k + 1;
      }
      assert seen == list;
    }

    method CheckBoneAt(cnode: nat, list: seq<nat>) returns (o: int)
      requires Separate() && Stored() && Inv(graph) && graph.m == m && graph.co == co
      requires Within(list, 0, co) && cnode == m + |graph.bones| && co <= cnode
      modifies this`boneNext, this`ringNext, this`shadow, boneA, boneB, upper, left, right
      ensures o == NULL <==> |list| + 2 + old(boneNext) >= boneA.Length
      ensures o == NULL ==> CellsNow() == old(CellsNow()) && ArenaNow() == old(ArenaNow()) && shadow == old(shadow)
      ensures boneNext == old(boneNext) + if o == NULL then 0 else |list| + 2
      ensures o != NULL ==> 0 <= o < boneA.Length && boneA[o] == |UnsolvedOf(graph.sol, list)|
      ensures o != NULL ==> shadow.off == old(shadow.off) + [o]
      ensures o != NULL ==> Rep(AddCheck(graph, list), CellsNow(), ArenaNow(), shadow)
    {
      ghost var c0 := CellsNow();
      o := NewBone(|list| + 1);
      if o != NULL {
        WriteBone(o, cnode, list, c0);
      }
    }

    /** Fill a bone that was just carved out of the boneyard. */
    method WriteBone(o: nat, cnode: nat, list: seq<nat>, ghost c0: Cells)
      requires Separate() && Inv(graph) && graph.m == m && graph.co == co && Within(list, 0, co)
      requires cnode == m + |graph.bones| && co <= cnode && c0 == Cells(boneA[..], boneB[..], o)
      requires Rep(graph, c0, ArenaNow(), shadow) && TablesKept(graph, shadow.off, vCount[..], top[..], solution[..])
      requires boneNext == o + |list| + 2 < boneA.Length
      modifies this`ringNext, this`shadow, boneA, boneB, upper, left, right
      ensures boneA[o] == |UnsolvedOf(graph.sol, list)| && shadow.off == old(shadow.off) + [o]
      ensures Rep(AddCheck(graph, list), CellsNow(), ArenaNow(), shadow)
    {
      var lastIndex := |list| + 1;
      boneB[o] := lastIndex;
      boneA[o + lastIndex] := cnode;
      boneB[o + lastIndex] := NULL;
      var unknowns := FillBone(o, cnode, list, c0);
      ghost var unk, kn := UnsolvedOf(graph.sol, list), SolvedOf(graph.sol, list);
      GrownRep(graph, AddCheck(graph, list), c0, CellsNow(), ArenaNow(), shadow, AddEdges(graph.ring, unk, cnode),
               |list|, unk, kn);
      SealBone(o, cnode, list, unknowns, c0);
    }

    /** Write the number of unknowns, which completes the bone. */
    method SealBone(o: nat, cnode: nat, list: seq<nat>, unknowns: nat, ghost c0: Cells)
      requires Separate() && graph.Shape() && graph.co == co && Within(list, 0, co) && cnode == graph.m + |graph.bones|
      requires ReadingNow(c0, cnode, |list|, list) && o == c0.next && o < boneA.Length
      requires unknowns == |UnsolvedOf(graph.sol, list)|
      requires var t := AddCheck(graph, list); var c := CellsNow().(a := boneA[..][o := unknowns]);
        Rep(t, c, ArenaNow(), shadow.(off := shadow.off + [o]))
      modifies this`shadow, boneA
      ensures shadow.off == old(shadow.off) + [o] && boneA[o] == unknowns
      ensures Rep(AddCheck(graph, list), CellsNow(), ArenaNow(), shadow)
    {
      ghost var c := CellsNow();
      boneA[o] := unknowns;
      shadow := shadow.(off := shadow.off + [o]);
      assert CellsNow() == c.(a := c.a[o := unknowns]);
    }

    /** Install a check block: returns its node number, or -1 when there is no room left. */
    method CheckBlock(list: seq<nat>) returns (node: int)
      requires Valid() && Within(list, 0, co)
      modifies this, vCount, top, boneA, boneB, upper, left, right
      ensures Valid() && nodes == old(nodes) + 1
      ensures node == -1 <==> old(nodes) >= nodeSpace || |list| + 2 + old(boneNext) >= boneA.Length
      ensures graph == if old(nodes) >= nodeSpace then old(graph)
                       else if node == -1 then AddHole(old(graph)) else AddCheck(old(graph), list)
      ensures node != -1 ==> node == old(nodes)
      ensures boneNext == old(boneNext) + if node == -1 then 0 else |list| + 2
    {
      node := nodes;
      nodes := nodes + 1;
      if node >= nodeSpace {
        return -1;
      }
      ghost var off := shadow.off;
      var bone := CheckBoneAt(node, list);
      if bone == NULL {
        NoteHole();
        return -1;
      }
      EnterCheck(node, bone, list, off);
    }

    /** The state between taking a node number and filling in the tables. */
    ghost predicate Entering(off: seq<int>)
      reads this, vCount, top, solution
    {
      && Separate() && m <= co <= nodeSpace && graph.m == m && graph.co == co && Inv(graph)
      && vCount.Length == top.Length == nodeSpace - m && m + |graph.bones| + 1 == nodes <= nodeSpace
      && pending == graph.pending && unsolved == graph.unsolved && done == graph.done
      && TablesKept(graph, off, vCount[..], top[..], solution[..])
    }

    ghost method NoteHole()
      requires Entering(shadow.off) && Rep(graph, CellsNow(), ArenaNow(), shadow)
      modifies this`graph, this`shadow
      ensures Valid() && graph == AddHole(old(graph))
    {
      HoleRep(graph, CellsNow(), ArenaNow(), shadow);
      HoleTables(graph, shadow.off, vCount[..], top[..], solution[..]);
      ArriveHole(graph, shadow.(off := shadow.off + [NULL]));
    }

    /** Enter the new bone in the tables, and the check block in the queue. */
    method EnterCheck(node: nat, bone: nat, list: seq<nat>, ghost off: seq<int>)
      requires Entering(off) && node == nodes - 1 && Within(list, 0, co) && shadow.off == off + [bone]
      requires bone < boneA.Length && boneA[bone] == |UnsolvedOf(graph.sol, list)|
      requires Rep(AddCheck(graph, list), CellsNow(), ArenaNow(), shadow)
      modifies this`graph, this`shadow, this`pending, vCount, top
      ensures Valid() && graph == AddCheck(old(graph), list)
    {
      CheckTables(graph, off, vCount[..], top[..], solution[..], list, bone);
      top[node - m] := bone;
      vCount[node - m] := boneA[bone];
      PushPending(node);
      ArriveCheck(graph, list, shadow);
    }

    /** The arrays hold graph t. */
    ghost predicate Holding(t: Graph, sh: Shadow)
      reads this, vCount, top, solution, boneA, boneB, upper, left, right
    {
      && Rep(t, CellsNow(), ArenaNow(), sh)
      && TablesKept(t, sh.off, vCount[..], top[..], solution[..])
    }

    /** The scalars, the arrays and the count of nodes are those of t. */
    ghost predicate Arriving(t: Graph, sh: Shadow)
      reads this, vCount, top, solution, boneA, boneB, upper, left, right
    {
      && vCount.Length == top.Length == nodeSpace - m && m + |t.bones| == nodes <= nodeSpace
      && pending == t.pending && unsolved == t.unsolved && done == t.done && Holding(t, sh)
    }

    ghost method ArriveHole(g: Graph, sh: Shadow)
      requires Separate() && m <= co <= nodeSpace && g.m == m && g.co == co && Inv(g) && Arriving(AddHole(g), sh)
      modifies this`graph, this`shadow
      ensures Valid() && graph == AddHole(g)
    {
      AddHoleKeeps(g);
      graph, shadow := AddHole(g), sh;
    }

    ghost method ArriveCheck(g: Graph, list: seq<nat>, sh: Shadow)
      requires Separate() && m <= co <= nodeSpace && g.m == m && g.co == co && Inv(g) && Within(list, 0, co)
      requires Arriving(AddCheck(g, list), sh)
      modifies this`graph, this`shadow
      ensures Valid() && graph == AddCheck(g, list)
    {
      AddCheckKeeps(g, list);
      graph, shadow := AddCheck(g, list), sh;
    }
  }

  lemma HoleTables(g: Graph, off: seq<int>, vc: seq<int>, top: seq<int>, solution: seq<int>)
    requires TablesKept(g, off, vc, top, solution) && |g.bones| < |vc| == |top| && g.co <= g.m + |g.bones|
    requires |g.sol| == g.co
    ensures TablesKept(AddHole(g), off + [NULL], vc, top, solution)
  {
    var k := |g.bones|;
    assert Clear(vc, k, 0) && Clear(top, k, NULL);
    assert vc[k := 0] == vc && top[k := NULL] == top;
    AppendedTables(g, off, vc, top, solution, AddHole(g), Bone(0, []), NULL, 0);
  }

  lemma CheckTables(g: Graph, off: seq<int>, vc: seq<int>, top: seq<int>, solution: seq<int>, list: seq<nat>, o: int)
    requires TablesKept(g, off, vc, top, solution) && |g.bones| < |vc| == |top| && g.co <= g.m + |g.bones|
    requires g.Shape() && Within(list, 0, g.co)
    ensures var k := |g.bones|;
      TablesKept(AddCheck(g, list), off + [o], vc[k := |UnsolvedOf(g.sol, list)|], top[k := o], solution)
  {
    var b := CheckBone(g.sol, list, g.m + |g.bones|);
    AppendedTables(g, off, vc, top, solution, AddCheck(g, list), b, o, b.unknowns);
  }

  /** oc_graph_init; it fails when the boneyard is too small. */
  method GraphInit(m: nat, ablocks: nat, checkSpace: nat, boneSpace: nat, edges: seq<Edge>) returns (r: OcGraph?)
    requires EdgesOk(m, m + ablocks, edges)
    ensures r != null <==> m >= 1 && ablocks >= 1 && |edges| + 3 * ablocks < boneSpace
    ensures r != null ==> fresh(r) && fresh(r.Arrays()) && r.Valid() && r.graph == Init(m, m + ablocks, edges)
    ensures r != null ==> r.m == m && r.nodes == r.co == m + ablocks && r.nodeSpace == m + ablocks + checkSpace
    ensures r != null ==> r.boneA.Length == boneSpace && r.boneNext == |edges| + 3 * ablocks
  {
    if m < 1 || ablocks < 1 {
      return null;
    }
    var g := new OcGraph.Allocate(m, ablocks, checkSpace, boneSpace);
    var ok := g.Register(edges);
    return if ok then g else null;
  }

  lemma InitTables(m: nat, co: nat, edges: seq<Edge>, off: seq<int>, vc: seq<int>, top: seq<int>, solution: seq<int>)
    requires m <= co && |off| == co - m && CountsAre(m, co, edges, |edges|, |edges|, vc)
    requires TopsSet(off, top) && |solution| == co && forall k :: 0 <= k < co ==> Clear(solution, k, NULL)
    ensures TablesKept(Init(m, co, edges), off, vc, top, solution)
  {
    var g := Init(m, co, edges);
    forall k | 0 <= k < |g.bones| ensures vc[k] == g.vcount[k] {
      assert CountIs(m, edges, |edges|, |edges|, vc, m + k);
    }
    assert vc[..|g.bones|] == g.vcount;
    forall u: nat | m <= u < m + |g.bones| ensures TopRight(g, off, top, u) {
      assert top[u - m] == top[..|off|][u - m];
    }
    forall x: nat | x < |g.sol| ensures SolutionRight(g, off, solution, x) {
      assert Clear(solution, x, NULL);
    }
  }

  /** Rows already made are in graph->top, the others are as calloc left them. */
  ghost predicate TopsSet(off: seq<int>, top: seq<int>) {
    |off| <= |top| && top[..|off|] == off && forall k :: |off| <= k < |top| ==> Clear(top, k, NULL)
  }

  lemma TopSet(off: seq<int>, top: seq<int>, o: int)
    requires TopsSet(off, top) && |off| < |top|
    ensures TopsSet(off + [o], top[|off| := o])
  {
    var top' := top[|off| := o];
    assert top'[..|off| + 1] == top[..|off|] + [o];
    forall k: nat | |off| + 1 <= k < |top| ensures Clear(top', k, NULL) {
      assert Clear(top, k, NULL);
    }
  }

  lemma CountAndSolution(g: Graph, off: seq<int>, vc: seq<int>, top: seq<int>, solution: seq<int>, u: nat)
    requires Inv(g) && !g.done && TablesKept(g, off, vc, top, solution) && g.Upper(u)
    ensures u - g.m < |vc| && vc[u - g.m] == g.vcount[u - g.m] >= 0
    ensures u < g.co ==> u < |solution| && (solution[u] == NULL <==> g.sol[u].None?)
  {
    assert CountRight(g.m, g.bones, g.vcount, g.sol, [], u);
    assert vc[u - g.m] == vc[..|g.bones|][u - g.m];
    if u < g.co {
      assert SolutionRight(g, off, solution, u);
    }
  }

  /** The cell at position i, counted from the head, leads on; its upper end is the next to visit. */
  lemma RingStep(ar: Arena, owner: seq<nat>, co: nat, x: nat, cells: seq<nat>, ups: seq<nat>, i: nat)
    requires RingHeld(ar, owner, co, x, cells, ups) && i <= |cells|
    ensures var s := [x] + cells; s[i] < |ar.right| && ar.right[s[i]] == After(s, i)
    ensures 0 < i ==> cells[i - 1] < |ar.upper| && ar.upper[cells[i - 1]] == ups[i - 1]
  {
    assert LinkedAt(ar.left, ar.right, [x] + cells, i);
    assert 0 < i ==> NamesUpper(ar.upper, cells, ups, i - 1);
  }

  lemma CascadeStep(g: Graph, ups: seq<nat>)
    requires CascadeReady(g, ups) && ups != []
    ensures CascadeReady(CascadeTurn(g, ups[0]), ups[1..])
    ensures Cascade(g, ups) == Cascade(CascadeTurn(g, ups[0]), ups[1..])
  {
    TurnCounts(g, ups);
    TurnMissed(g, ups);
  }

  lemma AuxStores(g: Graph, c: Cells, ar: Arena, sh: Shadow, vc: seq<int>, top: seq<int>, solution: seq<int>, a: nat,
                  i: nat)
    requires SolveReady(g, a, i) && Rep(g, c, ar, sh) && TablesKept(g, sh.off, vc, top, solution)
    requires g.bones[a - g.m].elems[i] == a
    ensures var o := sh.off[a - g.m]; 0 <= o && o + 1 + i < |c.a| == |c.b|
    ensures var o := sh.off[a - g.m]; var c' := Bubbled(c, o, i);
      && Rep(Solve(g, a, i), c', ar, sh)
      && TablesKept(Solve(g, a, i), sh.off, vc, top[a - g.m := NULL], solution[a := o])
      && c'.a[o] == 1 && c'.a[o + 1] == a && c'.b[o + 1] == c.b[o + 1 + i]
  {
    BubbledRep(g, c, ar, sh, a, i);
    AuxSolvedTables(g, sh.off, vc, top, solution, a, i);
    FrontOfBubbled(g, c, sh.off, a, i);
  }

  lemma ExtractStores(g: Graph, c: Cells, ar: Arena, sh: Shadow, from: nat, i: nat) returns (d: nat)
    requires StructureOf(g) && OneLink(g, from, i) && Rep(g, c, ar, sh)
    ensures var o := sh.off[from - g.m]; 0 <= o && o + 1 + i < |c.a| == |c.b|
    ensures var o := sh.off[from - g.m]; var c' := Bubbled(c, o, i); var x := g.bones[from - g.m].elems[i];
      && Rep(Solve(g, from, i), c', ar, sh) && c'.a[o + 1] == x
      && d < |sh.rings[x]| == |g.ring[x]| && c'.b[o + 1] == sh.rings[x][d] && d == IndexOf(g.ring[x], from)
      && RingHeld(ar, sh.owner, g.co, x, sh.rings[x], g.ring[x])
      && sh.rings[x][d] < |ar.upper| && ar.upper[sh.rings[x][d]] == from
  {
    d := LinkPlace(g, c, ar, sh, from, i);
    BubbledRep(g, c, ar, sh, from, i);
    FrontOfBubbled(g, c, sh.off, from, i);
  }

  /** What is left to do once an element has been taken out of its bone. */
  lemma PropagateIs(g: Graph, from: nat, i: nat, s: Graph, finished: bool)
    requires g.Shape() && g.Upper(from) && i < |g.bones[from - g.m].elems| && g.bones[from - g.m].elems[i] < g.co
    requires s == Propagated(g, from, i) && finished == (g.bones[from - g.m].elems[i] < g.m && s.unsolved == 0)
    ensures RingShape(s.m, s.bones, s.ring, g.bones[from - g.m].elems[i])
    ensures Propagate(g, from, i) == if finished then Finish(s, true)
      else Cascade(s, s.ring[g.bones[from - g.m].elems[i]])
  {
    assert RingShape(g.m, g.bones, g.ring, g.bones[from - g.m].elems[i]);
  }

  lemma TurnPropagates(g0: Graph, g: Graph, from: nat, i: nat)
    requires Going(g0) && Front(g0) == Propagation && from == g0.pending[0] && g == g0.(pending := g0.pending[1..])
    requires Popped(g, from) && OneLink(g, from, i)
    requires var b := g.bones[from - g.m]; b.unknowns <= |b.elems| && i == FirstUnsolved(g.sol, b.elems, b.unknowns)
    ensures Inv(Propagate(g, from, i))
    ensures ResolveLoop(g0) == Outcome(Propagate(g, from, i), Some(g.bones[from - g.m].elems[i]))
  {
    PropagationFound(g, from);
    PropagateKeeps(g, from, i);
  }

  function Finish(g: Graph, finished: bool): Graph {
    if finished then g.(done := true, pending := []) else g
  }

  lemma SameRep(g: Graph, r: Graph, c: Cells, ar: Arena, sh: Shadow)
    requires Rep(g, c, ar, sh) && r.m == g.m && r.co == g.co && r.bones == g.bones && r.ring == g.ring && r.sol == g.sol
    ensures Rep(r, c, ar, sh)
  {
  }

  lemma UnknownsAreLower(g: Graph, u: nat)
    requires StructureOf(g) && g.Upper(u)
    ensures var b := g.bones[u - g.m]; b.unknowns <= |b.elems|
    ensures var b := g.bones[u - g.m]; forall i :: 0 <= i < b.unknowns ==> b.elems[i] < |g.sol|
  {
    assert BoneShape(g.m, g.co, g.bones, u) && BoneFront(g.m, g.bones, g.sol, u);
  }

  lemma FrontOfBubbled(g: Graph, c: Cells, off: seq<int>, from: nat, i: nat)
    requires BonesStored(g.m, g.bones, off, c) && g.Upper(from) && i < |g.bones[from - g.m].elems|
    requires 0 <= off[from - g.m] && off[from - g.m] + 1 + i < |c.a|
    ensures var o := off[from - g.m]; var c' := Bubbled(c, o, i);
      c'.a[o + 1] == g.bones[from - g.m].elems[i] && c'.b[o + 1] == c.b[o + 1 + i]
  {
    assert BoneStored(g.m, g.bones, off, c, from);
  }

  lemma PropagatedTables(g: Graph, off: seq<int>, vc: seq<int>, vc': seq<int>, top: seq<int>, solution: seq<int>,
                         from: nat, i: nat)
    requires TablesKept(g, off, vc, top, solution) && OneLink(g, from, i) && 0 <= off[from - g.m] && |g.ring| == g.co
    requires from - g.m < |vc| && vc' == vc[from - g.m := vc[from - g.m] - 1]
    ensures TablesKept(Propagated(g, from, i), off, vc', top, solution[g.bones[from - g.m].elems[i] := off[from - g.m]])
    ensures solution[g.bones[from - g.m].elems[i]] == NULL
  {
    assert SolutionRight(g, off, solution, g.bones[from - g.m].elems[i]);
    var t := Propagated(g, from, i);
    assert vc[from - g.m] == vc[..|g.bones|][from - g.m];
    CountsUpdated(g, vc, from, vc[from - g.m] - 1, t);
    SolvedTables(g, off, vc', top, solution, from, i, t);
  }

  /** A bone with an unsolved element is not the solution of its own node. */
  lemma NotItself(g: Graph, from: nat, i: nat)
    requires StructureOf(g) && OneLink(g, from, i)
    ensures from < |g.sol| ==> g.sol[from] != Some(from)
  {
    if from < |g.sol| && g.sol[from].Some? {
      assert SolvedRight(g.m, g.co, g.bones, g.sol, from);
      NotYetUsed(g, from, i, from);
    }
  }

  /** The bone of an unsolved auxiliary node is still as it was made: all of it counts as unknown. */
  lemma AuxBoneWhole(g: Graph, c: Cells, sh: Shadow, ar: Arena, a: nat)
    requires StructureOf(g) && Rep(g, c, ar, sh) && g.Upper(a) && a < g.co && g.sol[a].None?
    ensures 0 <= sh.off[a - g.m] < |c.a|
    ensures c.a[sh.off[a - g.m]] == g.bones[a - g.m].unknowns == |g.bones[a - g.m].elems|
    ensures a in g.bones[a - g.m].elems && ElemsStored(c.a, sh.off[a - g.m], g.bones[a - g.m].elems)
  {
    assert BoneShape(g.m, g.co, g.bones, a) && BoneFront(g.m, g.bones, g.sol, a);
    assert BoneStored(g.m, g.bones, sh.off, c, a);
  }
}
