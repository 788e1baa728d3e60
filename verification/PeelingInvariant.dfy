/** What every step of the peeling decoder keeps. */
module PeelingInvariant {
  import opened Lists
  import opened Peeling

  // ----- counting lemmas

  lemma CountOpenZero(sol: seq<Option<nat>>, u: nat, s: seq<nat>)
    ensures CountOpen(sol, u, s) == 0 <==> forall i :: 0 <= i < |s| ==> !Open(sol, u, s[i])
  {
    if s != [] {
      CountOpenZero(sol, u, s[1..]);
      assert forall i :: 1 <= i < |s| ==> s[i] == s[1..][i - 1];
      if CountOpen(sol, u, s) == 0 {
        assert forall i :: 0 <= i < |s| ==> !Open(sol, u, s[i]);
      }
    }
  }

  lemma {:induction false} CountOpenRemove(sol: seq<Option<nat>>, u: nat, s: seq<nat>, k: nat)
    requires k < |s|
    ensures CountOpen(sol, u, s) == CountOpen(sol, u, RemoveAt(s, k)) + if Open(sol, u, s[k]) then 1 else 0
  {
    if k == 0 {
      assert RemoveAt(s, 0) == s[1..];
    } else {
      CountOpenRemove(sol, u, s[1..], k - 1);
      assert RemoveAt(s, k)[1..] == RemoveAt(s[1..], k - 1);
    }
  }

  /** The count depends on the elements only, not on their order. */
  lemma {:induction false} CountOpenPermuted(sol: seq<Option<nat>>, u: nat, s: seq<nat>, t: seq<nat>)
    requires multiset(s) == multiset(t)
    ensures CountOpen(sol, u, s) == CountOpen(sol, u, t)
    decreases |s|
  {
    if s == [] {
      assert |multiset(t)| == 0;
    } else {
      assert s[0] in multiset(t);
      var k := IndexOf(t, s[0]);
      SplitHead(s);
      RemoveAtMultiset(t, k);
      CountOpenPermuted(sol, u, s[1..], RemoveAt(t, k));
      CountOpenRemove(sol, u, t, k);
    }
  }

  lemma CountOpenSwap(sol: seq<Option<nat>>, u: nat, s: seq<nat>, i: nat, j: nat)
    requires i < |s| && j < |s|
    ensures CountOpen(sol, u, Swap(s, i, j)) == CountOpen(sol, u, s)
  {
    SwapKeepsMultiset(s, i, j);
    CountOpenPermuted(sol, u, s, Swap(s, i, j));
  }

  /** Solving x removes the occurrences of x from the count of every other node. */
  lemma {:induction false} CountOpenSolve(sol: seq<Option<nat>>, u: nat, s: seq<nat>, x: nat, w: nat)
    requires x < |sol| && sol[x].None?
    ensures CountOpen(sol[x := Some(w)], u, s)
         == CountOpen(sol, u, s) - if x == u then 0 else Count(s, x)
  {
    if s != [] {
      CountOpenSolve(sol, u, s[1..], x, w);
    }
  }

  /** With one open occurrence left, all the others are closed. */
  lemma {:induction false} CountOpenOne(sol: seq<Option<nat>>, u: nat, s: seq<nat>, k: nat)
    requires k < |s| && Open(sol, u, s[k]) && CountOpen(sol, u, s) == 1
    ensures forall i :: 0 <= i < |s| && i != k ==> !Open(sol, u, s[i])
    ensures Count(s, s[k]) == 1
  {
    CountOpenRemove(sol, u, s, k);
    var r := RemoveAt(s, k);
    CountOpenZero(sol, u, r);
    forall i | 0 <= i < |s| && i != k ensures !Open(sol, u, s[i]) {
      assert s[i] == r[if i < k then i else i - 1];
    }
    CountRemoveAt(s, k, s[k]);
    assert forall i :: 0 <= i < |r| ==> r[i] != s[k];
    CountPositive(r, s[k]);
  }

  function CountNone(sol: seq<Option<nat>>, n: nat): nat
    requires n <= |sol|
  {
    if n == 0 then 0 else CountNone(sol, n - 1) + if sol[n - 1].None? then 1 else 0
  }

  lemma {:induction false} CountNoneSolve(sol: seq<Option<nat>>, n: nat, x: nat, w: nat)
    requires n <= |sol| && x < |sol| && sol[x].None?
    ensures CountNone(sol[x := Some(w)], n) == CountNone(sol, n) - if x < n then 1 else 0
  {
    if n > 0 { CountNoneSolve(sol, n - 1, x, w); }
  }

  lemma {:induction false} CountNoneZero(sol: seq<Option<nat>>, n: nat)
    requires n <= |sol|
    ensures CountNone(sol, n) == 0 <==> forall x :: 0 <= x < n ==> sol[x].Some?
  {
    if n > 0 { CountNoneZero(sol, n - 1); }
  }

  // ----- the invariant

  /** How often node u, with bone b, has x as a lower neighbour. */
  ghost function Occurrences(u: nat, b: Bone, x: nat): nat {
    if u == x then 0 else Count(b.elems, x)
  }

  ghost predicate CountRight(m: nat, bones: seq<Bone>, vcount: seq<int>, sol: seq<Option<nat>>, ups: seq<nat>, u: nat)
    requires m <= u < m + |bones| && |vcount| == |bones|
  {
    vcount[u - m] == CountOpen(sol, u, bones[u - m].elems) + Count(ups, u)
  }

  /** v_count is the number of unsolved lower occurrences, plus what a cascade in progress still
      has to subtract. */
  ghost predicate CountsOwe(g: Graph, ups: seq<nat>) {
    |g.vcount| == |g.bones| &&
    forall u :: g.m <= u < g.m + |g.bones| ==> CountRight(g.m, g.bones, g.vcount, g.sol, ups, u)
  }

  ghost predicate BoneFront(m: nat, bones: seq<Bone>, sol: seq<Option<nat>>, u: nat)
    requires m <= u < m + |bones|
  {
    var b := bones[u - m];
    && (forall i :: b.unknowns <= i < |b.elems| ==> !Open(sol, u, b.elems[i]))
    && (u < |sol| && sol[u].None? ==> b.unknowns == |b.elems|)
    && (|sol| <= u ==> forall i :: 0 <= i < b.unknowns && i < |b.elems| ==> b.elems[i] < |sol|)
  }

  /** The unsolved elements of a bone are among its first `unknowns`, a check block is not, and the
      bone of an unsolved auxiliary node still counts all its elements as unknown. */
  ghost predicate OpenInFront(m: nat, bones: seq<Bone>, sol: seq<Option<nat>>) {
    forall u :: m <= u < m + |bones| ==> BoneFront(m, bones, sol, u)
  }

  ghost predicate RingRight(m: nat, bones: seq<Bone>, ring: seq<seq<nat>>, x: nat, u: nat)
    requires x < |ring| && m <= u < m + |bones|
  {
    Count(ring[x], u) == Occurrences(u, bones[u - m], x)
  }

  /** The ring of an unsolved node holds its upward edges, with multiplicity. */
  ghost predicate RingsOk(m: nat, bones: seq<Bone>, ring: seq<seq<nat>>, sol: seq<Option<nat>>) {
    |ring| == |sol| &&
    forall x, u :: 0 <= x < |sol| && sol[x].None? && m <= u < m + |bones| ==> RingRight(m, bones, ring, x, u)
  }

  ghost predicate Known(co: nat, sol: seq<Option<nat>>, u: nat, x: nat) {
    (x == u && co <= u) || (x < |sol| && sol[x].Some?)
  }

  /** A solution has its target in front and only solved nodes, or its check block, behind. */
  ghost predicate SolutionOk(co: nat, sol: seq<Option<nat>>, u: nat, b: Bone, x: nat) {
    && b.unknowns == 1 && b.elems != [] && b.elems[0] == x
    && (forall i :: 0 <= i < |b.elems| ==> Known(co, sol, u, b.elems[i]))
  }

  ghost predicate SolvedRight(m: nat, co: nat, bones: seq<Bone>, sol: seq<Option<nat>>, x: nat)
    requires x < |sol|
  {
    sol[x].Some? ==>
      var u := sol[x].value;
      m <= u < m + |bones| && SolutionOk(co, sol, u, bones[u - m], x)
  }

  ghost predicate SolvedOk(m: nat, co: nat, bones: seq<Bone>, sol: seq<Option<nat>>) {
    forall x :: 0 <= x < |sol| ==> SolvedRight(m, co, bones, sol, x)
  }

  /** A node that may wait in the queue. */
  ghost predicate Sensible(m: nat, co: nat, bones: seq<Bone>, sol: seq<Option<nat>>, u: nat) {
    && m <= u < m + |bones|
    && (co <= u || (u < |sol| && sol[u].Some?) || |bones[u - m].elems| > 1)
  }

  ghost predicate AllSensible(g: Graph, s: seq<nat>) {
    forall u {:trigger Sensible(g.m, g.co, g.bones, g.sol, u)} :: u in s ==> Sensible(g.m, g.co, g.bones, g.sol, u)
  }

  /** One of the two rules can fire at node u. */
  ghost predicate Actionable(g: Graph, u: nat)
    requires g.Upper(u) && |g.vcount| == |g.bones|
  {
    || (g.vcount[u - g.m] == 1 && g.IsCheckOrSolved(u))
    || (g.vcount[u - g.m] == 0 && !g.IsCheckOrSolved(u) && |g.bones[u - g.m].elems| > 1)
  }

  ghost predicate NotMissed(g: Graph, ups: seq<nat>, u: nat)
    requires g.Upper(u) && |g.vcount| == |g.bones|
  {
    Count(ups, u) == 0 && Actionable(g, u) ==> u in g.pending
  }

  /** Nodes where a rule can fire are queued, except those a cascade in progress will reach. */
  ghost predicate NothingMissed(g: Graph, ups: seq<nat>) {
    |g.vcount| == |g.bones| && forall u :: g.m <= u < g.m + |g.bones| ==> NotMissed(g, ups, u)
  }

  /** The part that does not depend on the queue or on the counters. */
  ghost predicate Structure(m: nat, co: nat, bones: seq<Bone>, ring: seq<seq<nat>>,
                            sol: seq<Option<nat>>, unsolved: int)
  {
    && NetShape(m, co, bones, ring, sol)
    && SolvedOk(m, co, bones, sol) && RingsOk(m, bones, ring, sol) && OpenInFront(m, bones, sol)
    && unsolved == CountNone(sol, m)
  }

  ghost predicate StructureOf(g: Graph) {
    Structure(g.m, g.co, g.bones, g.ring, g.sol, g.unsolved)
  }

  ghost predicate Inv(g: Graph) {
    && StructureOf(g)
    && Within(g.pending, g.m, g.m + |g.bones|)
    && AllSensible(g, g.pending) && |g.vcount| == |g.bones|
    && (g.done <==> g.unsolved == 0)
    && (!g.done ==> CountsOwe(g, []) && NothingMissed(g, []))
  }

  // ----- cascade

  ghost predicate CascadeReady(g: Graph, ups: seq<nat>) {
    && Within(g.pending, g.m, g.m + |g.bones|) && Within(ups, g.m, g.m + |g.bones|)
    && AllSensible(g, g.pending) && AllSensible(g, ups)
    && CountsOwe(g, ups) && NothingMissed(g, ups)
  }

  /** One turn of the loop in oc_cascade, for node u. */
  function CascadeTurn(g: Graph, u: nat): Graph
    requires g.Upper(u) && |g.vcount| == |g.bones|
  {
    var c := g.vcount[u - g.m] - 1;
    g.(vcount := g.vcount[u - g.m := c], pending := if c < 2 then g.pending + [u] else g.pending)
  }

  /** The counter is positive when the cascade reaches a node: `assert(g->v_count[to - mblocks])`. */
  lemma CascadeAssert(g: Graph, ups: seq<nat>)
    requires CascadeReady(g, ups) && ups != []
    ensures g.vcount[ups[0] - g.m] >= 1
  {
    assert CountRight(g.m, g.bones, g.vcount, g.sol, ups, ups[0]);
  }

  lemma TurnCounts(g: Graph, ups: seq<nat>)
    requires ups != [] && g.Upper(ups[0]) && CountsOwe(g, ups)
    ensures CountsOwe(CascadeTurn(g, ups[0]), ups[1..])
  {
    var g' := CascadeTurn(g, ups[0]);
    forall u | g.m <= u < g.m + |g.bones| ensures CountRight(g.m, g.bones, g'.vcount, g.sol, ups[1..], u) {
      assert CountRight(g.m, g.bones, g.vcount, g.sol, ups, u);
    }
  }

  lemma TurnMissed(g: Graph, ups: seq<nat>)
    requires ups != [] && g.Upper(ups[0]) && NothingMissed(g, ups)
    ensures NothingMissed(CascadeTurn(g, ups[0]), ups[1..])
  {
    var g' := CascadeTurn(g, ups[0]);
    forall u: nat | g.m <= u < g.m + |g.bones| ensures NotMissed(g', ups[1..], u) {
      assert NotMissed(g, ups, u);
    }
  }

  lemma {:induction false} CascadeKeeps(g: Graph, ups: seq<nat>)
    requires CascadeReady(g, ups)
    ensures CascadeReady(Cascade(g, ups), [])
    decreases |ups|
  {
    if ups != [] {
      var g' := CascadeTurn(g, ups[0]);
      assert Sensible(g.m, g.co, g.bones, g.sol, ups[0]);
      assert CountsOwe(g', ups[1..]) by { TurnCounts(g, ups); }
      assert NothingMissed(g', ups[1..]) by { TurnMissed(g, ups); }
      CascadeKeeps(g', ups[1..]);
    }
  }

  // ----- solving a node

  /** Element i of the bone of u is the only one that is not yet known. */
  ghost predicate SolveReady(g: Graph, u: nat, i: nat) {
    && |g.sol| == g.co && g.Upper(u)
    && var elems := g.bones[u - g.m].elems;
    && i < |elems| && elems[i] < g.co && g.sol[elems[i]].None?
    && (forall j :: 0 <= j < |elems| && j != i ==> Known(g.co, g.sol, u, elems[j]))
  }

  lemma SwapFits(m: nat, co: nat, u: nat, b: Bone, i: nat)
    requires BoneFits(m, co, u, b) && i < |b.elems|
    ensures BoneFits(m, co, u, Bone(1, Swap(b.elems, 0, i)))
  {
    var s := Swap(b.elems, 0, i);
    CountSwap(b.elems, 0, i, u);
    assert s[i] == b.elems[0] && s[0] == b.elems[i];
    assert forall j :: 0 < j < |s| && j != i ==> s[j] == b.elems[j];
  }

  lemma SolveShape(g: Graph, u: nat, i: nat)
    requires SolveReady(g, u, i) && NetShape(g.m, g.co, g.bones, g.ring, g.sol)
    ensures var s := Solve(g, u, i); NetShape(s.m, s.co, s.bones, s.ring, s.sol)
  {
    var s := Solve(g, u, i);
    forall w | s.m <= w < s.m + |s.bones| ensures BoneShape(s.m, s.co, s.bones, w) {
      assert BoneShape(g.m, g.co, g.bones, w);
      if w == u {
        SwapFits(g.m, g.co, u, g.bones[u - g.m], i);
      }
    }
    forall x | 0 <= x < s.co ensures RingShape(s.m, s.bones, s.ring, x) {
      assert RingShape(g.m, g.bones, g.ring, x);
    }
  }

  /** The bone used for a solution becomes a solution of its front element. */
  lemma SolveSolution(g: Graph, u: nat, i: nat)
    requires SolveReady(g, u, i)
    ensures var s := Solve(g, u, i);
            SolutionOk(g.co, s.sol, u, s.bones[u - g.m], g.bones[u - g.m].elems[i])
  {
    var elems := g.bones[u - g.m].elems;
    var s := Solve(g, u, i);
    forall j | 0 <= j < |elems| ensures Known(g.co, s.sol, u, Swap(elems, 0, i)[j]) {
      var j' := if j == i then 0 else j;
      if 0 < j {
        assert Known(g.co, g.sol, u, elems[j']) || j' == i;
      }
    }
  }

  /** A bone with an unsolved element is not a solution yet. */
  lemma NotYetUsed(g: Graph, u: nat, i: nat, y: nat)
    requires SolveReady(g, u, i) && y < |g.sol| && g.sol[y].Some? && SolvedRight(g.m, g.co, g.bones, g.sol, y)
    ensures g.sol[y].value != u && g.bones[u - g.m].elems[i] != y
  {
    var w := g.sol[y].value;
    var elems := g.bones[w - g.m].elems;
    assert forall l :: 0 <= l < |elems| ==> Known(g.co, g.sol, w, elems[l]);
  }

  lemma SolveSolvedOk(g: Graph, u: nat, i: nat)
    requires SolveReady(g, u, i) && SolvedOk(g.m, g.co, g.bones, g.sol)
    ensures var s := Solve(g, u, i); SolvedOk(s.m, s.co, s.bones, s.sol)
  {
    var s := Solve(g, u, i);
    SolveSolution(g, u, i);
    forall y | 0 <= y < |s.sol| ensures SolvedRight(s.m, s.co, s.bones, s.sol, y) {
      if s.sol[y].Some? && y != g.bones[u - g.m].elems[i] {
        assert SolvedRight(g.m, g.co, g.bones, g.sol, y);
        NotYetUsed(g, u, i, y);
      }
    }
  }

  lemma SolveOpenInFront(g: Graph, u: nat, i: nat)
    requires SolveReady(g, u, i) && OpenInFront(g.m, g.bones, g.sol) && BoneShape(g.m, g.co, g.bones, u)
    ensures var s := Solve(g, u, i); OpenInFront(s.m, s.bones, s.sol)
  {
    var s := Solve(g, u, i);
    SolveSolution(g, u, i);
    forall w | s.m <= w < s.m + |s.bones| ensures BoneFront(s.m, s.bones, s.sol, w) {
      assert BoneFront(g.m, g.bones, g.sol, w);
      if w == u && u < g.co {
        var j :| 0 <= j < |g.bones[u - g.m].elems| && g.bones[u - g.m].elems[j] == u;
        assert j == i || Known(g.co, g.sol, u, g.bones[u - g.m].elems[j]);
      }
    }
  }

  /** Solving x by any bone lowers the count of node w by its occurrences of x. */
  lemma SolveCount(g: Graph, u: nat, i: nat, w: nat)
    requires SolveReady(g, u, i) && g.Upper(w)
    ensures CountOpen(Solve(g, u, i).sol, w, Solve(g, u, i).bones[w - g.m].elems)
         == CountOpen(g.sol, w, g.bones[w - g.m].elems)
          - Occurrences(w, g.bones[w - g.m], g.bones[u - g.m].elems[i])
  {
    var elems := g.bones[u - g.m].elems;
    CountOpenSolve(g.sol, w, g.bones[w - g.m].elems, elems[i], u);
    if w == u {
      CountOpenSwap(g.sol[elems[i] := Some(u)], u, elems, 0, i);
    }
  }

  lemma SolveRings(g: Graph, u: nat, i: nat)
    requires SolveReady(g, u, i) && RingsOk(g.m, g.bones, g.ring, g.sol)
    ensures var s := Solve(g, u, i); RingsOk(s.m, s.bones, s.ring, s.sol)
  {
    var s := Solve(g, u, i);
    forall y: nat, w: nat | y < |s.sol| && s.sol[y].None? && s.m <= w < s.m + |s.bones|
      ensures RingRight(s.m, s.bones, s.ring, y, w)
    {
      assert RingRight(g.m, g.bones, g.ring, y, w);
      CountSwap(g.bones[u - g.m].elems, 0, i, y);
    }
  }

  lemma SolveStructure(g: Graph, u: nat, i: nat)
    requires StructureOf(g) && SolveReady(g, u, i)
    ensures StructureOf(Solve(g, u, i))
  {
    var s := Solve(g, u, i);
    assert NetShape(s.m, s.co, s.bones, s.ring, s.sol) by { SolveShape(g, u, i); }
    assert SolvedOk(s.m, s.co, s.bones, s.sol) by { SolveSolvedOk(g, u, i); }
    assert RingsOk(s.m, s.bones, s.ring, s.sol) by { SolveRings(g, u, i); }
    assert OpenInFront(s.m, s.bones, s.sol) by {
      assert BoneShape(g.m, g.co, g.bones, u);
      SolveOpenInFront(g, u, i);
    }
    assert s.unsolved == CountNone(s.sol, s.m) by {
      CountNoneSolve(g.sol, g.m, g.bones[u - g.m].elems[i], u);
    }
  }

  // ----- when a rule may fire

  /** Where the auxiliary rule applies, every element but the node itself is solved. */
  lemma OthersKnown(g: Graph, a: nat)
    requires |g.sol| == g.co && g.Upper(a) && a < g.co
    requires BoneShape(g.m, g.co, g.bones, a) && g.sol[a].None?
    requires CountOpen(g.sol, a, g.bones[a - g.m].elems) == 0
    ensures SolveReady(g, a, IndexOf(g.bones[a - g.m].elems, a))
  {
    var elems := g.bones[a - g.m].elems;
    CountOpenZero(g.sol, a, elems);
    forall j | 0 <= j < |elems| && j != IndexOf(elems, a) ensures Known(g.co, g.sol, a, elems[j]) {
      assert !Open(g.sol, a, elems[j]);
      if elems[j] == a {
        CountTwice(elems, IndexOf(elems, a), j);
      }
    }
  }

  /** Where the propagation rule applies, the scan finds the one unsolved element. */
  lemma OneLeft(g: Graph, u: nat)
    requires |g.sol| == g.co && g.m <= g.co && g.Upper(u) && g.IsCheckOrSolved(u)
    requires BoneShape(g.m, g.co, g.bones, u) && BoneFront(g.m, g.bones, g.sol, u)
    requires CountOpen(g.sol, u, g.bones[u - g.m].elems) == 1
    ensures var b := g.bones[u - g.m];
            var i := FirstUnsolved(g.sol, b.elems, b.unknowns);
            i < b.unknowns && SolveReady(g, u, i) && b.elems[i] != u
            && Count(b.elems, b.elems[i]) == 1
  {
    var b := g.bones[u - g.m];
    var i := FirstUnsolved(g.sol, b.elems, b.unknowns);
    CountOpenZero(g.sol, u, b.elems);
    var j :| 0 <= j < |b.elems| && Open(g.sol, u, b.elems[j]);
    CountOpenOne(g.sol, u, b.elems, i);
    forall l | 0 <= l < |b.elems| && l != i ensures Known(g.co, g.sol, u, b.elems[l]) {
      assert !Open(g.sol, u, b.elems[l]);
    }
  }

  // ----- the two rules

  /** Like NothingMissed, for the moment after `from` was taken off the queue. */
  ghost predicate NothingMissedBut(g: Graph, from: nat) {
    |g.vcount| == |g.bones| &&
    forall u :: g.m <= u < g.m + |g.bones| && u != from ==> NotMissed(g, [], u)
  }

  lemma SolveMissed(g: Graph, from: nat, i: nat, s: Graph, ups: seq<nat>)
    requires SolveReady(g, from, i) && NothingMissedBut(g, from)
    requires s == Solve(g, from, i).(vcount := s.vcount, ring := s.ring, pending := s.pending, unsolved := s.unsolved)
    requires s.vcount == g.vcount[from - g.m := 0] && s.IsCheckOrSolved(from)
    requires forall p :: p in g.pending ==> p in s.pending
    requires var x := g.bones[from - g.m].elems[i]; x == from || x < g.m || x in s.pending
    ensures NothingMissed(s, ups)
  {
    forall u: nat | s.m <= u < s.m + |s.bones| ensures NotMissed(s, ups, u) {
      if u != from && u != g.bones[from - g.m].elems[i] {
        assert NotMissed(g, [], u);
      }
    }
  }

  lemma SolveCounts(g: Graph, from: nat, i: nat, s: Graph, ups: seq<nat>)
    requires SolveReady(g, from, i) && CountsOwe(g, [])
    requires s == Solve(g, from, i).(vcount := s.vcount, ring := s.ring, pending := s.pending, unsolved := s.unsolved)
    requires |s.vcount| == |g.vcount|
    requires forall u :: g.m <= u < g.m + |g.bones| ==> Subtracts(g, from, i, s.vcount, ups, u)
    ensures CountsOwe(s, ups)
  {
    forall u: nat | s.m <= u < s.m + |s.bones| ensures CountRight(s.m, s.bones, s.vcount, s.sol, ups, u) {
      assert CountRight(g.m, g.bones, g.vcount, g.sol, [], u) && Subtracts(g, from, i, s.vcount, ups, u);
      SolveCount(g, from, i, u);
    }
  }

  /** What is left to subtract from the new counter of u accounts for the node just solved. */
  ghost predicate Subtracts(g: Graph, from: nat, i: nat, vcount: seq<int>, ups: seq<nat>, u: nat)
    requires SolveReady(g, from, i) && |vcount| == |g.vcount| == |g.bones| && g.Upper(u)
  {
    vcount[u - g.m] - Count(ups, u)
      == g.vcount[u - g.m] - Occurrences(u, g.bones[u - g.m], g.bones[from - g.m].elems[i])
  }

  /** Everything a rule needs to know about the graph when `from` is taken off the queue. */
  ghost predicate Popped(g: Graph, from: nat) {
    && StructureOf(g) && Within(g.pending, g.m, g.m + |g.bones|)
    && AllSensible(g, g.pending) && !g.done && 0 < g.unsolved
    && Sensible(g.m, g.co, g.bones, g.sol, from)
    && CountsOwe(g, []) && NothingMissedBut(g, from)
  }

  /** A finished cascade leaves the invariant in place. */
  lemma CascadeInv(g: Graph, ups: seq<nat>)
    requires StructureOf(g) && !g.done && 0 < g.unsolved && CascadeReady(g, ups)
    ensures Inv(Cascade(g, ups))
  {
    CascadeKeeps(g, ups);
  }

  /** Whatever is in the ring of an unsolved node lists that node besides itself. */
  lemma RingSensible(g: Graph, x: nat)
    requires NetShape(g.m, g.co, g.bones, g.ring, g.sol) && RingsOk(g.m, g.bones, g.ring, g.sol)
    requires x < g.co && g.sol[x].None?
    ensures AllSensible(g, g.ring[x])
  {
    assert RingShape(g.m, g.bones, g.ring, x);
    forall u | u in g.ring[x] ensures Sensible(g.m, g.co, g.bones, g.sol, u) {
      CountPositive(g.ring[x], u);
      assert RingRight(g.m, g.bones, g.ring, x, u);
      CountPositive(g.bones[u - g.m].elems, x);
      assert BoneShape(g.m, g.co, g.bones, u);
    }
  }

  lemma SolveSensible(g: Graph, from: nat, i: nat, s: Graph, ups: seq<nat>)
    requires SolveReady(g, from, i) && AllSensible(g, ups)
    requires s == Solve(g, from, i).(vcount := s.vcount, ring := s.ring, pending := s.pending)
    ensures AllSensible(s, ups)
  {
    forall u | u in ups ensures Sensible(s.m, s.co, s.bones, s.sol, u) {
      assert Sensible(g.m, g.co, g.bones, g.sol, u);
    }
  }

  lemma AuxRuleFound(g: Graph, a: nat)
    requires Popped(g, a) && a < g.co && g.sol[a].None? && g.vcount[a - g.m] == 0
    ensures SolveReady(g, a, IndexOf(g.bones[a - g.m].elems, a))
  {
    assert CountRight(g.m, g.bones, g.vcount, g.sol, [], a);
    assert BoneShape(g.m, g.co, g.bones, a);
    OthersKnown(g, a);
  }

  lemma AuxRuleReady(g: Graph, a: nat, i: nat)
    requires Popped(g, a) && a < g.co && g.sol[a].None? && g.vcount[a - g.m] == 0
    requires SolveReady(g, a, i) && g.bones[a - g.m].elems[i] == a
    ensures CascadeReady(Solve(g, a, i), g.ring[a])
  {
    var s := Solve(g, a, i);
    var ups := g.ring[a];
    assert CountsOwe(s, ups) by {
      forall u | g.m <= u < g.m + |g.bones| ensures Subtracts(g, a, i, s.vcount, ups, u) {
        assert RingRight(g.m, g.bones, g.ring, a, u);
      }
      SolveCounts(g, a, i, s, ups);
    }
    assert NothingMissed(s, ups) by { SolveMissed(g, a, i, s, ups); }
    assert AllSensible(s, ups) by {
      RingSensible(g, a);
      SolveSensible(g, a, i, s, ups);
    }
    assert AllSensible(s, s.pending) by { SolveSensible(g, a, i, s, g.pending); }
    assert RingShape(g.m, g.bones, g.ring, a);
  }

  lemma AuxRuleKeeps(g: Graph, a: nat)
    requires Popped(g, a) && a < g.co && g.sol[a].None? && g.vcount[a - g.m] == 0
    ensures Inv(AuxRule(g, a))
  {
    var i := IndexOf(g.bones[a - g.m].elems, a);
    AuxRuleFound(g, a);
    assert StructureOf(Solve(g, a, i)) by { SolveStructure(g, a, i); }
    AuxRuleReady(g, a, i);
    CascadeInv(Solve(g, a, i), g.ring[a]);
  }

  lemma WithoutFirstCount(s: seq<nat>, u: nat, x: nat)
    requires u in s
    ensures Count(WithoutFirst(s, u), x) == Count(s, x) - if x == u then 1 else 0
  {
    CountRemoveAt(s, IndexOf(s, u), x);
  }

  /** The bone of `from` and the ring of its one unsolved element hold each other once. */
  ghost predicate OneLink(g: Graph, from: nat, i: nat) {
    && SolveReady(g, from, i)
    && var elems := g.bones[from - g.m].elems;
    && elems[i] != from && Count(elems, elems[i]) == 1
  }

  lemma LinkInRing(g: Graph, from: nat, i: nat)
    requires OneLink(g, from, i) && StructureOf(g)
    ensures var ring := g.ring[g.bones[from - g.m].elems[i]]; from in ring && Count(ring, from) == 1
  {
    var x := g.bones[from - g.m].elems[i];
    assert RingRight(g.m, g.bones, g.ring, x, from);
    CountPositive(g.ring[x], from);
  }

  lemma PropagatedCounts(g: Graph, from: nat, i: nat)
    requires OneLink(g, from, i) && StructureOf(g) && CountsOwe(g, [])
    ensures var s := Propagated(g, from, i); CountsOwe(s, s.ring[g.bones[from - g.m].elems[i]])
  {
    var x := g.bones[from - g.m].elems[i];
    var s := Propagated(g, from, i);
    var ups := s.ring[x];
    LinkInRing(g, from, i);
    forall u | g.m <= u < g.m + |g.bones| ensures Subtracts(g, from, i, s.vcount, ups, u) {
      assert RingRight(g.m, g.bones, g.ring, x, u);
      WithoutFirstCount(g.ring[x], from, u);
    }
    SolveCounts(g, from, i, s, ups);
  }

  lemma PropagatedStructure(g: Graph, from: nat, i: nat)
    requires SolveReady(g, from, i) && StructureOf(g) && |g.vcount| == |g.bones|
    ensures StructureOf(Propagated(g, from, i))
  {
    var s := Solve(g, from, i);
    var p := Propagated(g, from, i);
    var x := g.bones[from - g.m].elems[i];
    assert StructureOf(s) by { SolveStructure(g, from, i); }
    assert RingShape(g.m, g.bones, g.ring, x);
    assert NetShape(p.m, p.co, p.bones, p.ring, p.sol) by {
      forall y | 0 <= y < p.co ensures RingShape(p.m, p.bones, p.ring, y) {
        assert RingShape(s.m, s.bones, s.ring, y);
      }
    }
    assert RingsOk(p.m, p.bones, p.ring, p.sol) by {
      forall y, u | 0 <= y < |p.sol| && p.sol[y].None? && p.m <= u < p.m + |p.bones|
        ensures RingRight(p.m, p.bones, p.ring, y, u)
      {
        assert RingRight(s.m, s.bones, s.ring, y, u);
      }
    }
  }

  lemma PropagatedSensible(g: Graph, from: nat, i: nat)
    requires SolveReady(g, from, i) && StructureOf(g) && AllSensible(g, g.pending) && |g.vcount| == |g.bones|
    requires Within(g.pending, g.m, g.m + |g.bones|)
    ensures var s := Propagated(g, from, i); var ups := s.ring[g.bones[from - g.m].elems[i]];
            && AllSensible(s, ups) && AllSensible(s, s.pending)
            && Within(ups, s.m, s.m + |s.bones|) && Within(s.pending, s.m, s.m + |s.bones|)
  {
    var s := Propagated(g, from, i);
    var x := g.bones[from - g.m].elems[i];
    var ups := s.ring[x];
    RingSensible(g, x);
    assert RingShape(g.m, g.bones, g.ring, x);
    SolveSensible(g, from, i, s, g.ring[x]);
    SolveSensible(g, from, i, s, g.pending);
    forall u | u in ups ensures Sensible(s.m, s.co, s.bones, s.sol, u) {
      assert u in g.ring[x];
    }
  }

  lemma PropagatedReady(g: Graph, from: nat, i: nat)
    requires Popped(g, from) && OneLink(g, from, i)
    requires g.IsCheckOrSolved(from) && g.vcount[from - g.m] == 1
    ensures var s := Propagated(g, from, i); CascadeReady(s, s.ring[g.bones[from - g.m].elems[i]])
  {
    var s := Propagated(g, from, i);
    var ups := s.ring[g.bones[from - g.m].elems[i]];
    assert CountsOwe(s, ups) by { PropagatedCounts(g, from, i); }
    assert NothingMissed(s, ups) by { SolveMissed(g, from, i, s, ups); }
    PropagatedSensible(g, from, i);
  }

  lemma PropagateKeeps(g: Graph, from: nat, i: nat)
    requires Popped(g, from) && OneLink(g, from, i)
    requires g.IsCheckOrSolved(from) && g.vcount[from - g.m] == 1
    ensures Inv(Propagate(g, from, i))
  {
    assert StructureOf(Propagated(g, from, i)) by { PropagatedStructure(g, from, i); }
    PropagatedReady(g, from, i);
    PropagateInv(g, from, i);
  }

  lemma PropagateInv(g: Graph, from: nat, i: nat)
    requires g.Shape() && SolveReady(g, from, i) && !g.done && 0 < g.unsolved
    requires StructureOf(Propagated(g, from, i))
    requires CascadeReady(Propagated(g, from, i), Propagated(g, from, i).ring[g.bones[from - g.m].elems[i]])
    ensures Inv(Propagate(g, from, i))
  {
    var s := Propagated(g, from, i);
    var x := g.bones[from - g.m].elems[i];
    assert s.unsolved == CountNone(s.sol, s.m);
    if x < g.m && s.unsolved == 0 {
      FinishedInv(s);
    } else {
      CascadeInv(s, s.ring[x]);
    }
  }

  lemma FinishedInv(s: Graph)
    requires StructureOf(s) && s.unsolved == 0 && |s.vcount| == |s.bones|
    ensures Inv(s.(done := true, pending := []))
  {
  }

  // ----- resolving

  lemma PopMissed(g: Graph)
    requires NothingMissed(g, []) && g.pending != []
    ensures NothingMissedBut(g.(pending := g.pending[1..]), g.pending[0])
  {
    var g' := g.(pending := g.pending[1..]);
    forall u: nat | g.m <= u < g.m + |g.bones| && u != g.pending[0] ensures NotMissed(g', [], u) {
      assert NotMissed(g, [], u);
      if u in g.pending {
        var j :| 0 <= j < |g.pending| && g.pending[j] == u;
        assert g'.pending[j - 1] == u;
      }
    }
  }

  lemma PopQueue(g: Graph)
    requires Inv(g) && !g.done && g.pending != []
    ensures Popped(g.(pending := g.pending[1..]), g.pending[0])
  {
    var g' := g.(pending := g.pending[1..]);
    assert NothingMissedBut(g', g.pending[0]) by { PopMissed(g); }
    assert 0 < g.unsolved by { assert g.unsolved == CountNone(g.sol, g.m); }
    assert Sensible(g.m, g.co, g.bones, g.sol, g.pending[0]);
    assert AllSensible(g', g'.pending);
  }

  /** A node where neither rule fires may be dropped from the queue. */
  lemma DiscardKeeps(g: Graph, from: nat)
    requires Popped(g, from) && !Actionable(g, from)
    ensures Inv(g)
  {
    assert NotMissed(g, [], from);
  }

  /** What the resolver finds at the front of the queue. */
  datatype Found = Aux | Propagation | Nothing

  ghost function Front(g: Graph): Found
    requires g.pending != [] && g.Upper(g.pending[0]) && |g.vcount| == |g.bones|
  {
    var from := g.pending[0];
    if g.vcount[from - g.m] == 0 && !g.IsCheckOrSolved(from) then Aux
    else if g.vcount[from - g.m] == 1 && g.IsCheckOrSolved(from) then Propagation
    else Nothing
  }

  ghost predicate Going(g: Graph) {
    Inv(g) && !g.done && g.pending != []
  }

  lemma AuxTurn(g: Graph)
    requires Going(g) && Front(g) == Aux
    ensures Inv(ResolveLoop(g).graph) && ResolveLoop(g).solved.Some?
  {
    PopQueue(g);
    AuxRuleKeeps(g.(pending := g.pending[1..]), g.pending[0]);
  }

  lemma PropagationFound(g: Graph, from: nat)
    requires Popped(g, from) && g.IsCheckOrSolved(from) && g.vcount[from - g.m] == 1
    ensures var b := g.bones[from - g.m];
            b.unknowns <= |b.elems| &&
            var i := FirstUnsolved(g.sol, b.elems, b.unknowns);
            i < b.unknowns && OneLink(g, from, i)
  {
    assert CountRight(g.m, g.bones, g.vcount, g.sol, [], from);
    assert BoneShape(g.m, g.co, g.bones, from) && BoneFront(g.m, g.bones, g.sol, from);
    OneLeft(g, from);
  }

  lemma PropagationTurn(g: Graph)
    requires Going(g) && Front(g) == Propagation
    ensures Inv(ResolveLoop(g).graph) && ResolveLoop(g).solved.Some?
  {
    var from := g.pending[0];
    var g' := g.(pending := g.pending[1..]);
    PopQueue(g);
    PropagationFound(g', from);
    PropagateKeeps(g', from, FirstUnsolved(g.sol, g.bones[from - g.m].elems, g.bones[from - g.m].unknowns));
  }

  lemma NothingTurn(g: Graph)
    requires Going(g) && Front(g) == Nothing
    ensures var g' := g.(pending := g.pending[1..]);
            Inv(g') && !g'.done && ResolveLoop(g) == ResolveLoop(g')
  {
    PopQueue(g);
    DiscardKeeps(g.(pending := g.pending[1..]), g.pending[0]);
  }

  lemma {:induction false} ResolveLoopKeeps(g: Graph)
    requires Inv(g) && !g.done
    ensures Inv(ResolveLoop(g).graph)
    ensures ResolveLoop(g).solved.None? ==> !ResolveLoop(g).graph.done && ResolveLoop(g).graph.pending == []
    decreases |g.pending|
  {
    if g.pending != [] {
      match Front(g)
      case Aux => AuxTurn(g);
      case Propagation => PropagationTurn(g);
      case Nothing =>
        NothingTurn(g);
        ResolveLoopKeeps(g.(pending := g.pending[1..]));
    }
  }

  lemma ResolveKeeps(g: Graph)
    requires Inv(g)
    ensures Inv(Resolve(g).graph)
    ensures Resolve(g).solved.None? ==> Resolve(g).graph.done || Resolve(g).graph.pending == []
  {
    if g.pending != [] && g.unsolved != 0 {
      ResolveLoopKeeps(g);
    }
  }
}
