/** Lazy expansion of solutions (Net-OnlineCode/C/decoder.c). */
module Expansion {
  import opened Lists
  import opened Blocks
  import opened Peeling
  import opened PeelingInvariant
  import opened PeelingRuns

  /** OC_EXPAND_MSG and OC_EXPAND_AUX. */
  datatype Flags = Flags(msg: bool, aux: bool)

  predicate Expandable(m: nat, co: nat, f: Flags, x: nat) {
    (f.msg && x < m) || (f.aux && m <= x < co)
  }

  /** The XOR list of solved node x: its bone without the count and without x itself. */
  function SolutionList(g: Graph, x: nat): seq<nat>
    requires x < |g.sol| && g.sol[x].Some? && g.Upper(g.sol[x].value)
    requires g.bones[g.sol[x].value - g.m].elems != []
  {
    g.bones[g.sol[x].value - g.m].elems[1..]
  }

  ghost predicate LogNode(g: Graph, log: seq<nat>, j: nat)
    requires j < |log|
  {
    && log[j] < |g.sol| && g.sol[log[j]].Some? && g.Upper(g.sol[log[j]].value)
    && g.bones[g.sol[log[j]].value - g.m].elems != []
    && Traced(g, log, SolutionList(g, log[j]), j)
  }

  /** Members of s are check blocks or among the first `bound` solved nodes. */
  ghost predicate Traced(g: Graph, log: seq<nat>, s: seq<nat>, bound: nat) {
    forall i :: 0 <= i < |s| ==> TracedNode(g, log, s[i], bound)
  }

  ghost predicate TracedNode(g: Graph, log: seq<nat>, x: nat, bound: nat) {
    (g.co <= x && g.Upper(x)) || (IndexOf(log, x) < bound && IndexOf(log, x) < |log| && x < g.co)
  }

  ghost predicate LogTraced(g: Graph, log: seq<nat>) {
    |g.sol| == g.co && forall j :: 0 <= j < |log| ==> LogNode(g, log, j)
  }

  lemma RunIsTraced(r: RunState)
    requires RunInv(r)
    ensures LogTraced(r.graph, r.log)
  {
    var g, log := r.graph, r.log;
    forall j: nat | j < |log| ensures LogNode(g, log, j) {
      assert LogEntryOk(g, log, j) && SolvedRight(g.m, g.co, g.bones, g.sol, log[j]);
      var u := g.sol[log[j]].value;
      var b := g.bones[u - g.m];
      forall i | 0 <= i < |b.elems| - 1 ensures TracedNode(g, log, b.elems[1..][i], j) {
        var x := b.elems[i + 1];
        if x in log[..j] {
          var l: nat :| l < j && log[..j][l] == x;
          assert log[l] == x && IndexOf(log, x) <= l;
          assert LogEntryOk(g, log, l);
        }
      }
    }
  }

  /** What the recursive part passes to its callback, in order. */
  ghost function Expand(g: Graph, log: seq<nat>, f: Flags, s: seq<nat>, bound: nat): (r: seq<nat>)
    requires LogTraced(g, log) && Traced(g, log, s, bound)
    decreases bound, |s|
  {
    if s == [] then [] else
      assert Traced(g, log, s[1..], bound) by { assert forall i :: 0 <= i < |s| - 1 ==> s[1..][i] == s[i + 1]; }
      ExpandNode(g, log, f, s[0], bound) + Expand(g, log, f, s[1..], bound)
  }

  ghost function ExpandNode(g: Graph, log: seq<nat>, f: Flags, x: nat, bound: nat): (r: seq<nat>)
    requires LogTraced(g, log) && TracedNode(g, log, x, bound)
    decreases bound, 0
  {
    if Expandable(g.m, g.co, f, x) && g.m <= g.co then
      var j := IndexOf(log, x);
      assert LogNode(g, log, j);
      Expand(g, log, f, SolutionList(g, x), j)
    else [x]
  }

  // ----- what the flags select

  /** Messages are replaced by the expansion of their XOR list exactly if f.msg is set, auxiliary blocks exactly if
      f.aux is; everything else stays in the list. */
  lemma NodeRule(g: Graph, log: seq<nat>, f: Flags, x: nat, bound: nat)
    requires LogTraced(g, log) && TracedNode(g, log, x, bound) && g.m <= g.co
    ensures x < g.m && !f.msg ==> ExpandNode(g, log, f, x, bound) == [x]
    ensures g.m <= x < g.co && !f.aux ==> ExpandNode(g, log, f, x, bound) == [x]
    ensures g.co <= x ==> ExpandNode(g, log, f, x, bound) == [x]
    ensures (x < g.m && f.msg) || (g.m <= x < g.co && f.aux) ==>
      var j := IndexOf(log, x);
      && j < bound && j < |log| && LogNode(g, log, j)
      && ExpandNode(g, log, f, x, bound) == Expand(g, log, f, SolutionList(g, x), j)
  {
    if x < g.co { assert LogNode(g, log, IndexOf(log, x)); }
  }

  /** The members of a list are expanded one after the other. */
  lemma ListRule(g: Graph, log: seq<nat>, f: Flags, s: seq<nat>, bound: nat)
    requires LogTraced(g, log) && Traced(g, log, s, bound)
    ensures s == [] ==> Expand(g, log, f, s, bound) == []
    ensures s != [] ==> TracedNode(g, log, s[0], bound) && Traced(g, log, s[1..], bound)
    ensures s != [] ==>
      Expand(g, log, f, s, bound) == ExpandNode(g, log, f, s[0], bound) + Expand(g, log, f, s[1..], bound)
  {
    if s != [] {
      assert TracedNode(g, log, s[0], bound);
      assert forall i :: 0 <= i < |s| - 1 ==> s[1..][i] == s[i + 1];
    }
  }

  /** The node is of a kind that the flags leave alone. */
  predicate Kept(m: nat, co: nat, f: Flags, x: nat) {
    x >= co || (x < m && !f.msg) || (m <= x && !f.aux)
  }

  /** A list of nodes that the flags leave alone is its own expansion. */
  lemma {:induction false} KeptList(g: Graph, log: seq<nat>, f: Flags, s: seq<nat>, bound: nat)
    requires LogTraced(g, log) && Traced(g, log, s, bound) && g.m <= g.co
    requires forall i :: 0 <= i < |s| ==> Kept(g.m, g.co, f, s[i])
    ensures Expand(g, log, f, s, bound) == s
    decreases |s|
  {
    ListRule(g, log, f, s, bound);
    if s != [] {
      NodeRule(g, log, f, s[0], bound);
      KeptList(g, log, f, s[1..], bound);
      assert s == [s[0]] + s[1..];
    }
  }

  /** Only nodes that the flags leave alone are left in an expansion. */
  lemma FinalKept(g: Graph, log: seq<nat>, f: Flags, x: nat, bound: nat)
    requires g.m <= g.co && Final(g, log, f, x, bound)
    ensures Kept(g.m, g.co, f, x)
  {
  }

  // ----- what an expansion contains

  /** A check block, or a node of a kind that is not expanded, solved before `bound`. */
  ghost predicate Final(g: Graph, log: seq<nat>, f: Flags, x: nat, bound: nat) {
    TracedNode(g, log, x, bound) && !Expandable(g.m, g.co, f, x)
  }

  ghost predicate AllFinal(g: Graph, log: seq<nat>, f: Flags, r: seq<nat>, bound: nat) {
    forall x {:trigger Final(g, log, f, x, bound)} :: x in r ==> Final(g, log, f, x, bound)
  }

  lemma {:induction false} ExpandFinal(g: Graph, log: seq<nat>, f: Flags, s: seq<nat>, bound: nat)
    requires LogTraced(g, log) && Traced(g, log, s, bound) && g.m <= g.co
    ensures AllFinal(g, log, f, Expand(g, log, f, s, bound), bound)
    decreases bound, |s|
  {
    if s != [] {
      var x, r := s[0], s[1..];
      assert TracedNode(g, log, s[0], bound);
      assert Traced(g, log, r, bound) by { assert forall i :: 0 <= i < |r| ==> r[i] == s[i + 1]; }
      ExpandFinal(g, log, f, r, bound);
      var head := ExpandNode(g, log, f, x, bound);
      assert AllFinal(g, log, f, head, bound) by {
        if Expandable(g.m, g.co, f, x) {
          var j := IndexOf(log, x);
          assert LogNode(g, log, j);
          ExpandFinal(g, log, f, SolutionList(g, x), j);
          forall y | y in head ensures Final(g, log, f, y, bound) {
            assert Final(g, log, f, y, j);
          }
        }
      }
      forall y | y in Expand(g, log, f, s, bound) ensures Final(g, log, f, y, bound) {
        assert y in head || y in Expand(g, log, f, r, bound);
      }
    }
  }

  /** Each solved node is the XOR of its solution list. */
  ghost predicate SolutionValue(g: Graph, log: seq<nat>, n: nat, val: nat -> Block, j: nat)
    requires j < |log| && LogNode(g, log, j)
  {
    && |val(log[j])| == n && SizedOn(n, val, SolutionList(g, log[j]))
    && val(log[j]) == XorSum(n, val, SolutionList(g, log[j]))
  }

  ghost predicate SolutionValues(g: Graph, log: seq<nat>, n: nat, val: nat -> Block)
    requires LogTraced(g, log)
  {
    forall j {:trigger SolutionValue(g, log, n, val, j)} :: 0 <= j < |log| ==>
      LogNode(g, log, j) && SolutionValue(g, log, n, val, j)
  }

  lemma {:induction false} ExpandValue(g: Graph, log: seq<nat>, f: Flags, s: seq<nat>, bound: nat, n: nat,
                                       val: nat -> Block)
    requires LogTraced(g, log) && Traced(g, log, s, bound) && g.m <= g.co
    requires SizedOn(n, val, s) && SolutionValues(g, log, n, val)
    ensures SizedOn(n, val, Expand(g, log, f, s, bound))
    ensures XorSum(n, val, Expand(g, log, f, s, bound)) == XorSum(n, val, s)
    decreases bound, |s|
  {
    if s != [] {
      var x := s[0];
      assert TracedNode(g, log, s[0], bound);
      assert Traced(g, log, s[1..], bound) by { assert forall i :: 0 <= i < |s| - 1 ==> s[1..][i] == s[i + 1]; }
      SizedMembers(n, val, s, s[1..]);
      ExpandValue(g, log, f, s[1..], bound, n, val);
      if Expandable(g.m, g.co, f, x) {
        var j := IndexOf(log, x);
        assert LogNode(g, log, j) && SolutionValue(g, log, n, val, j);
        ExpandValue(g, log, f, SolutionList(g, x), j, n, val);
      } else {
        XorSumOne(n, val, x);
      }
      XorSumConcat(n, val, ExpandNode(g, log, f, x, bound), Expand(g, log, f, s[1..], bound));
    }
  }

  // ----- cancelling pairs in a sorted list

  predicate Sorted(s: seq<nat>) {
    forall i, j :: 0 <= i < j < |s| ==> s[i] <= s[j]
  }

  predicate Ascending(s: seq<nat>) {
    forall i, j :: 0 <= i < j < |s| ==> s[i] < s[j]
  }

  /** Put x at the end, or cancel it against an x already there. */
  function Toggle(s: seq<nat>, x: nat): seq<nat> {
    if s != [] && s[|s| - 1] == x then s[..|s| - 1] else s + [x]
  }

  function Odds(s: seq<nat>): seq<nat> {
    if s == [] then [] else Toggle(Odds(s[..|s| - 1]), s[|s| - 1])
  }

  lemma {:induction false} OddsMembers(s: seq<nat>)
    ensures forall x :: x in Odds(s) ==> x in s
  {
    if s != [] {
      OddsMembers(s[..|s| - 1]);
      forall x | x in Odds(s) ensures x in s {
        assert x in Odds(s[..|s| - 1]) || x == s[|s| - 1];
      }
    }
  }

  /** Sorted lists cancel to the ascending list of the members with odd multiplicity. */
  lemma {:induction false} OddsAscending(s: seq<nat>)
    requires Sorted(s)
    ensures Ascending(Odds(s))
  {
    if s != [] {
      OddsAscending(s[..|s| - 1]);
      OddsMembers(s[..|s| - 1]);
      var o := Odds(s[..|s| - 1]);
      forall i | 0 <= i < |o| ensures o[i] <= s[|s| - 1] {
        assert o[i] in s[..|s| - 1];
      }
    }
  }

  lemma ToggleMember(o: seq<nat>, y: nat, x: nat)
    requires Ascending(o) && forall i :: 0 <= i < |o| ==> o[i] <= y
    ensures x in Toggle(o, y) <==> ((x in o) != (x == y))
  {
    if o != [] && o[|o| - 1] == y {
      var p := o[..|o| - 1];
      assert o == p + [y];
      assert forall i :: 0 <= i < |p| ==> p[i] != y;
    } else {
      assert forall i :: 0 <= i < |o| ==> o[i] != y;
    }
  }

  lemma OddsToggles(t: seq<nat>, y: nat, x: nat)
    requires Sorted(t + [y])
    ensures Sorted(t) && (x in Odds(t + [y]) <==> ((x in Odds(t)) != (x == y)))
  {
    var s := t + [y];
    assert s[..|s| - 1] == t;
    assert forall j :: 0 <= j < |t| ==> t[j] == s[j] && s[j] <= s[|t|];
    OddsAscending(t);
    OddsMembers(t);
    var o := Odds(t);
    forall i | 0 <= i < |o| ensures o[i] <= y {
      assert o[i] in t;
    }
    ToggleMember(o, y, x);
  }

  predicate OddIn(s: seq<nat>, x: nat) {
    Count(s, x) % 2 == 1
  }

  lemma OddInLast(t: seq<nat>, y: nat, x: nat)
    ensures OddIn(t + [y], x) <==> (OddIn(t, x) != (x == y))
  {
    CountConcat(t, [y], x);
  }

  lemma {:induction false} OddsParity(s: seq<nat>, x: nat)
    requires Sorted(s)
    ensures x in Odds(s) <==> OddIn(s, x)
  {
    if s != [] {
      var t, y := s[..|s| - 1], s[|s| - 1];
      assert s == t + [y];
      OddsToggles(t, y, x);
      OddInLast(t, y, x);
      OddsParity(t, x);
    }
  }

  lemma {:induction false} OddsValue(s: seq<nat>, n: nat, val: nat -> Block)
    requires SizedOn(n, val, s)
    ensures SizedOn(n, val, Odds(s)) && XorSum(n, val, Odds(s)) == XorSum(n, val, s)
  {
    OddsMembers(s);
    SizedMembers(n, val, s, Odds(s));
    if s != [] {
      var t, y := s[..|s| - 1], s[|s| - 1];
      assert s == t + [y];
      SizedMembers(n, val, s, t);
      OddsValue(t, n, val);
      SizedMembers(n, val, s, [y]);
      XorSumConcat(n, val, t, [y]);
      XorSumOne(n, val, y);
      var o := Odds(t);
      if o != [] && o[|o| - 1] == y {
        var p := o[..|o| - 1];
        assert o == p + [y];
        SizedMembers(n, val, o, p);
        XorSumConcat(n, val, p, [y]);
        XorAssoc(XorSum(n, val, p), val(y), val(y));
        XorSelf(val(y));
        XorZero(XorSum(n, val, p));
      } else {
        XorSumConcat(n, val, o, [y]);
      }
    }
  }

  // ----- sorting

  function Insert(s: seq<nat>, x: nat): (r: seq<nat>)
    requires Sorted(s)
    ensures Sorted(r) && |r| == |s| + 1
    ensures forall y :: y in r ==> y == x || y in s
  {
    if s == [] then [x]
    else if x <= s[0] then [x] + s
    else
      var r := Insert(s[1..], x);
      assert forall i :: 0 <= i < |r| ==> r[i] in r;
      [s[0]] + r
  }

  /** What qsort with compare_ascending computes: the members in ascending order. */
  function Sort(s: seq<nat>): (r: seq<nat>)
    ensures Sorted(r) && |r| == |s|
  {
    if s == [] then [] else Insert(Sort(s[1..]), s[0])
  }

  lemma {:induction false} InsertCount(s: seq<nat>, x: nat, y: nat)
    requires Sorted(s)
    ensures Count(Insert(s, x), y) == Count(s, y) + if x == y then 1 else 0
  {
    if s != [] && s[0] < x {
      InsertCount(s[1..], x, y);
      assert Insert(s, x)[1..] == Insert(s[1..], x);
    } else {
      assert Insert(s, x)[1..] == s;
    }
  }

  lemma {:induction false} SortRearranges(s: seq<nat>)
    ensures Rearranged(Sort(s), s)
  {
    if s != [] {
      SortRearranges(s[1..]);
      forall x: nat ensures SameCount(Sort(s), s, x) {
        assert SameCount(Sort(s[1..]), s[1..], x);
        InsertCount(Sort(s[1..]), s[0], x);
      }
    }
  }
}
