/** Completeness and order independence of the peeling decoder. */
module PeelingTheorems {
  import opened Lists
  import opened Peeling
  import opened PeelingInvariant
  import opened PeelingRuns
  import opened PeelingEquations

  // ----- the peeling rules, on sets

  /** x occurs once in c and everything else in c is in S. */
  ghost predicate PeelsTo(c: seq<nat>, S: set<nat>, x: nat) {
    Count(c, x) == 1 && forall y :: y in c && y != x ==> y in S
  }

  ghost predicate Peeled(c: seq<nat>, S: set<nat>) {
    forall x :: PeelsTo(c, S, x) ==> x in S
  }

  ghost predicate AllIn(c: seq<nat>, S: set<nat>) {
    forall y :: y in c ==> y in S
  }

  ghost predicate AuxClosed(edges: seq<Edge>, a: nat, S: set<nat>) {
    && (a in S ==> Peeled(MessagesOf(edges, a), S))
    && (MessagesOf(edges, a) != [] && AllIn(MessagesOf(edges, a), S) ==> a in S)
  }

  ghost predicate ArrivalPeeled(arr: seq<Option<seq<nat>>>, i: nat, S: set<nat>)
    requires i < |arr|
  {
    arr[i].Some? ==> Peeled(arr[i].value, S)
  }

  /** S is closed under propagation from check blocks and solved auxiliary blocks, and under the
      auxiliary rule. */
  ghost predicate Closed(m: nat, co: nat, edges: seq<Edge>, arr: seq<Option<seq<nat>>>, S: set<nat>) {
    && (forall i :: 0 <= i < |arr| ==> ArrivalPeeled(arr, i, S))
    && (forall a :: m <= a < co ==> AuxClosed(edges, a, S))
  }

  function SolvedSet(g: Graph): set<nat> {
    set x: nat | x < |g.sol| && g.sol[x].Some?
  }

  // ----- whatever is solved is forced by the rules

  /** A bone with target x in front whose other elements are in S, or are u. */
  lemma FrontPeels(b: Bone, u: nat, c: seq<nat>, S: set<nat>, x: nat)
    requires Holds(b, u, c) && Count(b.elems, u) == 1 && b.elems != [] && b.elems[0] == x && x != u
    requires forall i :: 1 <= i < |b.elems| ==> b.elems[i] != x && (b.elems[i] == u || b.elems[i] in S)
    ensures PeelsTo(c, S, x)
  {
    CountPositive(b.elems[1..], x);
    HoldsCount(b, u, c, x);
    HoldsCount(b, u, c, u);
    CountPositive(c, u);
    forall y | y in c && y != x ensures y in S {
      HoldsMember(b, u, c, y);
      var i :| 0 <= i < |b.elems| && b.elems[i] == y;
    }
  }

  /** The rest of a solution was logged before its target. */
  lemma RestEarlier(g: Graph, log: seq<nat>, j: nat)
    requires LogOk(g, log) && j < |log| && SolvedOk(g.m, g.co, g.bones, g.sol)
    ensures LogEntryOk(g, log, j)
    ensures var u := g.sol[log[j]].value; var b := g.bones[u - g.m];
            && b.elems != [] && b.elems[0] == log[j]
            && forall i :: 1 <= i < |b.elems| ==> ((b.elems[i] == u && g.co <= u)
                 || (b.elems[i] != log[j] && exists l :: 0 <= l < j && log[l] == b.elems[i]))
  {
    assert LogEntryOk(g, log, j);
    var u := g.sol[log[j]].value;
    var b := g.bones[u - g.m];
    assert SolvedRight(g.m, g.co, g.bones, g.sol, log[j]);
    forall i | 1 <= i < |b.elems| && !(b.elems[i] == u && g.co <= u)
      ensures b.elems[i] != log[j] && exists l :: 0 <= l < j && log[l] == b.elems[i]
    {
      var l :| 0 <= l < |log[..j]| && log[..j][l] == b.elems[i];
      assert log[l] == b.elems[i];
    }
  }

  ghost predicate EarlierIn(log: seq<nat>, j: nat, S: set<nat>)
    requires j <= |log|
  {
    forall i :: 0 <= i < j ==> log[i] in S
  }

  lemma ForcedByCheck(g: Graph, log: seq<nat>, edges: seq<Edge>, arr: seq<Option<seq<nat>>>, S: set<nat>, j: nat)
    requires |g.sol| == g.co && SolvedOk(g.m, g.co, g.bones, g.sol) && LogOk(g, log) && EquationsOf(g, edges, arr)
    requires Closed(g.m, g.co, edges, arr, S) && j < |log| && EarlierIn(log, j, S)
    requires LogEntryOk(g, log, j) && g.co <= g.sol[log[j]].value
    requires var u := g.sol[log[j]].value; BoneShape(g.m, g.co, g.bones, u)
    ensures log[j] in S
  {
    RestEarlier(g, log, j);
    var u := g.sol[log[j]].value;
    var b := g.bones[u - g.m];
    assert EquationAt(g.m, g.co, g.bones, edges, arr, u);
    assert BoneShape(g.m, g.co, g.bones, u);
    var c := arr[u - g.co].value;
    assert ArrivalPeeled(arr, u - g.co, S);
    HoldsCount(b, u, c, u);
    FrontPeels(b, u, c, S, log[j]);
    assert Peeled(c, S);
  }

  lemma ForcedByAux(g: Graph, log: seq<nat>, edges: seq<Edge>, arr: seq<Option<seq<nat>>>, S: set<nat>, j: nat)
    requires |g.sol| == g.co && SolvedOk(g.m, g.co, g.bones, g.sol) && LogOk(g, log) && EquationsOf(g, edges, arr)
    requires Closed(g.m, g.co, edges, arr, S) && j < |log| && EarlierIn(log, j, S)
    requires LogEntryOk(g, log, j) && g.sol[log[j]].value < g.co
    requires var u := g.sol[log[j]].value; BoneShape(g.m, g.co, g.bones, u)
    ensures log[j] in S
  {
    RestEarlier(g, log, j);
    var u := g.sol[log[j]].value;
    var b := g.bones[u - g.m];
    var c := MessagesOf(edges, u);
    assert EquationAt(g.m, g.co, g.bones, edges, arr, u);
    assert BoneShape(g.m, g.co, g.bones, u);
    assert AuxClosed(edges, u, S);
    HoldsCount(b, u, c, u);
    HoldsMember(b, u, c, u);
    if u == log[j] {
      CountPositive(c, u);
      forall y | y in c ensures y in S {
        HoldsMember(b, u, c, y);
        var i :| 0 <= i < |b.elems| && b.elems[i] == y;
      }
    } else {
      FrontPeels(b, u, c, S, log[j]);
      var i :| 0 <= i < |b.elems| && b.elems[i] == u;
    }
  }

  /** Every logged node is in every closed set. */
  lemma {:induction false} SolvedIsForced(g: Graph, log: seq<nat>, edges: seq<Edge>, arr: seq<Option<seq<nat>>>,
                                          S: set<nat>, j: nat)
    requires StructureOf(g) && LogOk(g, log) && EquationsOf(g, edges, arr)
    requires Closed(g.m, g.co, edges, arr, S) && j < |log|
    ensures log[j] in S
    decreases j
  {
    assert EarlierIn(log, j, S) by {
      forall i | 0 <= i < j ensures log[i] in S {
        SolvedIsForced(g, log, edges, arr, S, i);
      }
    }
    assert LogEntryOk(g, log, j);
    var u := g.sol[log[j]].value;
    assert BoneShape(g.m, g.co, g.bones, u);
    if g.co <= g.sol[log[j]].value {
      ForcedByCheck(g, log, edges, arr, S, j);
    } else {
      ForcedByAux(g, log, edges, arr, S, j);
    }
  }

  // ----- when nothing is pending, the rules have nothing left to do

  lemma CountOpenSingle(sol: seq<Option<nat>>, u: nat, s: seq<nat>, x: nat)
    requires Open(sol, u, x) && Count(s, x) == 1
    requires forall y :: y in s && y != x ==> !Open(sol, u, y)
    ensures CountOpen(sol, u, s) == 1
  {
    CountPositive(s, x);
    var i := IndexOf(s, x);
    CountOpenRemove(sol, u, s, i);
    CountRemoveAt(s, i, x);
    var r := RemoveAt(s, i);
    CountPositive(r, x);
    CountOpenZero(sol, u, r);
    assert forall l :: 0 <= l < |r| ==> r[l] == s[if l < i then l else l + 1];
  }

  /** No rule can fire at u, whose bone is b. */
  ghost predicate QuietAt(g: Graph, u: nat, b: Bone) {
    && BoneFits(g.m, g.co, u, b)
    && (g.IsCheckOrSolved(u) ==> CountOpen(g.sol, u, b.elems) != 1)
    && (!g.IsCheckOrSolved(u) && |b.elems| > 1 ==> CountOpen(g.sol, u, b.elems) != 0)
  }

  ghost predicate Quiet(g: Graph) {
    |g.sol| == g.co && forall u {:trigger QuietNode(g, u)} :: g.Upper(u) ==> QuietNode(g, u)
  }

  ghost predicate QuietNode(g: Graph, u: nat)
    requires g.Upper(u)
  {
    QuietAt(g, u, g.bones[u - g.m])
  }

  lemma NothingPendingIsQuiet(g: Graph)
    requires Inv(g) && !g.done && g.pending == []
    ensures Quiet(g)
  {
    forall u | g.Upper(u) ensures QuietNode(g, u) {
      assert CountRight(g.m, g.bones, g.vcount, g.sol, [], u);
      assert BoneShape(g.m, g.co, g.bones, u);
      assert NotMissed(g, [], u);
    }
  }

  lemma QuietPeels(g: Graph, u: nat, b: Bone, c: seq<nat>, x: nat)
    requires |g.sol| == g.co && g.m <= g.co && QuietAt(g, u, b) && g.IsCheckOrSolved(u) && Holds(b, u, c)
    requires PeelsTo(c, SolvedSet(g), x)
    ensures x in SolvedSet(g)
  {
    CountPositive(c, x);
    HoldsMember(b, u, c, x);
    HoldsCount(b, u, c, x);
    HoldsCount(b, u, c, u);
    assert x != u;
    if x !in SolvedSet(g) {
      forall y | y in b.elems && y != x ensures !Open(g.sol, u, y) {
        HoldsMember(b, u, c, y);
      }
      CountOpenSingle(g.sol, u, b.elems, x);
    }
  }

  lemma QuietAux(g: Graph, a: nat, b: Bone, c: seq<nat>)
    requires |g.sol| == g.co && QuietAt(g, a, b) && a < g.co && Holds(b, a, c)
    requires c != [] && AllIn(c, SolvedSet(g))
    ensures a in SolvedSet(g)
  {
    CountOpenZero(g.sol, a, b.elems);
    HoldsCount(b, a, c, a);
    forall i | 0 <= i < |b.elems| ensures !Open(g.sol, a, b.elems[i]) {
      HoldsMember(b, a, c, b.elems[i]);
    }
  }

  lemma QuietCheck(g: Graph, edges: seq<Edge>, arr: seq<Option<seq<nat>>>, i: nat)
    requires Quiet(g) && EquationsOf(g, edges, arr) && i < |arr|
    ensures ArrivalPeeled(arr, i, SolvedSet(g))
  {
    var u := g.co + i;
    assert EquationAt(g.m, g.co, g.bones, edges, arr, u) && QuietNode(g, u);
    if arr[i].Some? {
      forall x | PeelsTo(arr[i].value, SolvedSet(g), x) ensures x in SolvedSet(g) {
        QuietPeels(g, u, g.bones[u - g.m], arr[i].value, x);
      }
    }
  }

  lemma QuietAuxClosed(g: Graph, edges: seq<Edge>, arr: seq<Option<seq<nat>>>, a: nat)
    requires Quiet(g) && EquationsOf(g, edges, arr) && g.m <= a < g.co
    ensures AuxClosed(edges, a, SolvedSet(g))
  {
    var S := SolvedSet(g);
    var c := MessagesOf(edges, a);
    assert EquationAt(g.m, g.co, g.bones, edges, arr, a) && QuietNode(g, a);
    if a in S {
      forall x | PeelsTo(c, S, x) ensures x in S {
        QuietPeels(g, a, g.bones[a - g.m], c, x);
      }
    }
    if c != [] && AllIn(c, S) {
      QuietAux(g, a, g.bones[a - g.m], c);
    }
  }

  lemma QuietClosed(g: Graph, edges: seq<Edge>, arr: seq<Option<seq<nat>>>)
    requires Quiet(g) && EquationsOf(g, edges, arr)
    ensures Closed(g.m, g.co, edges, arr, SolvedSet(g))
  {
    forall i: nat | i < |arr| ensures ArrivalPeeled(arr, i, SolvedSet(g)) {
      QuietCheck(g, edges, arr, i);
    }
    forall a: nat | g.m <= a < g.co ensures AuxClosed(edges, a, SolvedSet(g)) {
      QuietAuxClosed(g, edges, arr, a);
    }
  }

  // ----- main results

  ghost predicate LeastClosed(m: nat, co: nat, edges: seq<Edge>, arr: seq<Option<seq<nat>>>, S: set<nat>) {
    Closed(m, co, edges, arr, S) && forall T :: Closed(m, co, edges, arr, T) ==> S <= T
  }

  /** At every moment of every run, solved nodes are forced by the two rules. */
  lemma PeelingSound(m: nat, co: nat, edges: seq<Edge>, es: seq<Event>, T: set<nat>)
    requires 1 <= m <= co && EdgesOk(m, co, edges) && EventsOk(co, es)
    requires Closed(m, co, edges, Arrivals(es), T)
    ensures SolvedSet(Run(m, co, edges, es).graph) <= T
  {
    var r := Run(m, co, edges, es);
    RunEquations(m, co, edges, es);
    forall x | x in SolvedSet(r.graph) ensures x in T {
      var j :| 0 <= j < |r.log| && r.log[j] == x;
      SolvedIsForced(r.graph, r.log, edges, Arrivals(es), T, j);
    }
  }

  /** When a resolve call solves nothing and the decoder is not done, the solved nodes are exactly
      the least set closed under the rules. */
  lemma PeelingComplete(m: nat, co: nat, edges: seq<Edge>, es: seq<Event>)
    requires 1 <= m <= co && EdgesOk(m, co, edges) && EventsOk(co, es)
    requires var o := Resolve(Run(m, co, edges, es).graph); o.solved.None? && !o.graph.done
    ensures LeastClosed(m, co, edges, Arrivals(es), SolvedSet(Run(m, co, edges, es).graph))
  {
    var g := Run(m, co, edges, es).graph;
    var g' := Resolve(g).graph;
    ResolveKeeps(g);
    var u, i := ResolveEffect(g);
    RunEquations(m, co, edges, es);
    NothingPendingIsQuiet(g');
    QuietClosed(g', edges, Arrivals(es));
    assert SolvedSet(g') == SolvedSet(g);
    forall T | Closed(m, co, edges, Arrivals(es), T) ensures SolvedSet(g) <= T {
      PeelingSound(m, co, edges, es, T);
    }
  }

  /** Done means that every message block is solved. */
  lemma DoneMeansAllMessages(g: Graph)
    requires Inv(g)
    ensures g.done <==> forall x: nat :: x < g.m ==> x in SolvedSet(g)
  {
    assert g.unsolved == CountNone(g.sol, g.m);
    CountNoneZero(g.sol, g.m);
    assert forall x: nat :: x < g.m ==> (x in SolvedSet(g) <==> g.sol[x].Some?);
  }

  ghost predicate Settled(m: nat, co: nat, edges: seq<Edge>, es: seq<Event>)
    requires 1 <= m <= co && EdgesOk(m, co, edges) && EventsOk(co, es)
  {
    Resolve(Run(m, co, edges, es).graph).solved.None?
  }

  /** The same check lists were installed, in whatever order and however often. */
  ghost predicate SameLists(arr: seq<Option<seq<nat>>>, brr: seq<Option<seq<nat>>>) {
    forall c :: Some(c) in arr <==> Some(c) in brr
  }

  lemma SameClosed(m: nat, co: nat, edges: seq<Edge>, arr: seq<Option<seq<nat>>>, brr: seq<Option<seq<nat>>>,
                   S: set<nat>)
    requires SameLists(arr, brr) && Closed(m, co, edges, arr, S)
    ensures Closed(m, co, edges, brr, S)
  {
    forall i: nat | i < |brr| ensures ArrivalPeeled(brr, i, S) {
      if brr[i].Some? {
        assert Some(brr[i].value) in brr;
        var j: nat :| j < |arr| && arr[j] == Some(brr[i].value);
        assert ArrivalPeeled(arr, j, S);
      }
    }
  }

  /** Which messages are decoded depends on the check blocks received, not on the order of
      arrivals and resolve calls. */
  lemma OrderIndependent(m: nat, co: nat, edges: seq<Edge>, es: seq<Event>, fs: seq<Event>, x: nat)
    requires 1 <= m <= co && EdgesOk(m, co, edges) && EventsOk(co, es) && EventsOk(co, fs)
    requires SameLists(Arrivals(es), Arrivals(fs)) && Settled(m, co, edges, es) && Settled(m, co, edges, fs)
    requires x < m && x in SolvedSet(Run(m, co, edges, es).graph)
    ensures x in SolvedSet(Run(m, co, edges, fs).graph)
  {
    var g := Run(m, co, edges, fs).graph;
    if Resolve(g).graph.done {
      ResolveKeeps(g);
      var u, i := ResolveEffect(g);
      DoneMeansAllMessages(Resolve(g).graph);
    } else {
      PeelingComplete(m, co, edges, fs);
      SameClosed(m, co, edges, Arrivals(fs), Arrivals(es), SolvedSet(g));
      PeelingSound(m, co, edges, es, SolvedSet(g));
    }
  }
}
