/** decoder.c: the recursive expansion with its two callbacks, and oc_expansion. */
module Decoder {
  import opened Lists
  import opened Blocks
  import opened Peeling
  import opened PeelingInvariant
  import opened Expansion
  import opened OcStore
  import opened OcGraphs

  datatype Callback = CountNodes | CopyNodes

  /** The decoder-local variables that the callbacks use. */
  class Expander {
    const decoder: OcGraph
    var callback: Callback
    var count: nat
    var dest: nat            // index of the next free cell of `out`
    var out: array<int>

    constructor (d: OcGraph)
      ensures decoder == d && count == 0 && callback == CountNodes && fresh(out)
    {
      decoder := d;
      callback := CountNodes;
      count := 0;
      dest := 0;
      out := new int[0];
    }

    /** Call back for one unexpanded node. */
    method Emit(node: nat)
      requires callback == CopyNodes ==> dest < out.Length
      modifies this`count, this`dest, out
      ensures CalledBack(callback, old(count), old(dest), old(out[..]), [node], count, dest, out[..])
    {
      match callback
      case CountNodes => count := count + 1;
      case CopyNodes =>
        out[dest] := node;
        dest := dest + 1;
    }

    /** expandr: walk over the XOR list in the bone that solves x, expanding nodes on the way. */
    method Expandr(ghost log: seq<nat>, f: Flags, bone: int, ghost x: nat)
      requires decoder.Valid() && LogTraced(decoder.graph, log) && x in log
      requires x < decoder.solution.Length && bone == decoder.solution[x]
      requires callback == CopyNodes ==> dest + |Expanded(decoder.graph, log, f, x)| <= out.Length
      requires out !in decoder.Arrays()
      modifies this`count, this`dest, out
      ensures CalledBack(callback, old(count), old(dest), old(out[..]), Expanded(decoder.graph, log, f, x), count, dest,
                         out[..])
      decreases IndexOf(log, x), 1
    {
      ghost var g, list, bound := decoder.graph, Solution(decoder.graph, log, x), IndexOf(log, x);
      SolutionStored(g, decoder.CellsNow(), decoder.shadow.off, decoder.solution[..], log, x);
      var size := decoder.boneB[bone] - 1;
      var i := 0;
      assert list[..0] == [];
      while i < size
        invariant i <= size == |list|
        invariant CalledBack(callback, old(count), old(dest), old(out[..]),
                             ExpandPrefix(g, log, f, list, bound, i), count, dest, out[..])
      {
        assert decoder.boneA[..][bone + 2 + i] == list[i];
        var node := decoder.boneA[bone + 2 + i];
        ghost var count1, dest1, out1 := count, dest, out[..];
        ghost var mine := ExpandNodeOf(g, log, f, list, bound, i);
        PrefixStep(g, log, f, list, bound, i);
        assert TracedNode(g, log, list[i], bound);
        Visit(log, f, node, bound);
        CalledBackTwice(callback, old(count), old(dest), old(out[..]), ExpandPrefix(g, log, f, list, bound, i),
                        count1, dest1, out1, mine, count, dest, out[..]);
        i := i + 1;
      }
      assert list[..|list|] == list;
    }

    /** One member of a list: expand it, or call back. */
    method Visit(ghost log: seq<nat>, f: Flags, node: nat, ghost bound: nat)
      requires decoder.Valid() && LogTraced(decoder.graph, log) && TracedNode(decoder.graph, log, node, bound)
      requires callback == CopyNodes ==> dest + |ExpandNode(decoder.graph, log, f, node, bound)| <= out.Length
      requires out !in decoder.Arrays()
      modifies this`count, this`dest, out
      ensures CalledBack(callback, old(count), old(dest), old(out[..]), ExpandNode(decoder.graph, log, f, node, bound),
                         count, dest, out[..])
      decreases bound, 0
    {
      if (f.msg && node < decoder.m) || (f.aux && node >= decoder.m && node < decoder.co) {
        assert LogNode(decoder.graph, log, IndexOf(log, node));
        SolutionStored(decoder.graph, decoder.CellsNow(), decoder.shadow.off, decoder.solution[..], log, node);
        Expandr(log, f, decoder.solution[node], node);
      } else {
        Emit(node);
      }
    }
  }

  /** The full expansion of solved node x. */
  ghost function Expanded(g: Graph, log: seq<nat>, f: Flags, x: nat): seq<nat>
    requires LogTraced(g, log) && x in log
  {
    Expand(g, log, f, Solution(g, log, x), IndexOf(log, x))
  }

  /** The bone behind graph->solution[x] holds x, and after it the XOR list. */
  lemma SolutionStored(g: Graph, c: Cells, off: seq<int>, solution: seq<int>, log: seq<nat>, x: nat)
    requires Inv(g) && LogTraced(g, log) && x in log
    requires BonesStored(g.m, g.bones, off, c) && SolutionsKept(g, off, solution)
    ensures x < |solution| && var o, list := solution[x], Solution(g, log, x);
      && 0 <= o && o + 1 + |list| < |c.a| == |c.b| && c.b[o] == |list| + 1
      && c.a[o + 1] == x && forall i :: 0 <= i < |list| ==> c.a[o + 2 + i] == list[i]
  {
    assert LogNode(g, log, IndexOf(log, x));
    var u := g.sol[x].value;
    assert SolutionRight(g, off, solution, x) && SolvedRight(g.m, g.co, g.bones, g.sol, x);
    assert BoneStored(g.m, g.bones, off, c, u);
    var b, o, list := g.bones[u - g.m], solution[x], SolutionList(g, x);
    assert c.a[o + 1 + 0] == b.elems[0];
    forall i | 0 <= i < |list| ensures c.a[o + 2 + i] == list[i] {
      assert c.a[o + 1 + (i + 1)] == b.elems[i + 1];
    }
  }

  /** The part of the expansion that comes from the first i members. */
  ghost function ExpandPrefix(g: Graph, log: seq<nat>, f: Flags, list: seq<nat>, bound: nat, i: nat): seq<nat>
    requires LogTraced(g, log) && Traced(g, log, list, bound) && i <= |list|
  {
    Expand(g, log, f, list[..i], bound)
  }

  ghost function ExpandNodeOf(g: Graph, log: seq<nat>, f: Flags, list: seq<nat>, bound: nat, i: nat): seq<nat>
    requires LogTraced(g, log) && Traced(g, log, list, bound) && i < |list|
  {
    assert TracedNode(g, log, list[i], bound);
    ExpandNode(g, log, f, list[i], bound)
  }

  /** w is v with the list s written from position at. */
  ghost predicate Written(v: seq<int>, at: nat, s: seq<nat>, w: seq<int>) {
    && |w| == |v| && at + |s| <= |v|
    && (forall i :: 0 <= i < |v| && !(at <= i < at + |s|) ==> w[i] == v[i])
    && (forall i :: 0 <= i < |s| ==> w[at + i] == s[i])
  }

  /** The effect of calling back for each node of s. */
  ghost predicate CalledBack(cb: Callback, count0: nat, dest0: nat, out0: seq<int>, s: seq<nat>,
                             count1: nat, dest1: nat, out1: seq<int>)
  {
    match cb
    case CountNodes => count1 == count0 + |s| && dest1 == dest0 && out1 == out0
    case CopyNodes => count1 == count0 && dest1 == dest0 + |s| && Written(out0, dest0, s, out1)
  }

  lemma CalledBackTwice(cb: Callback, count0: nat, dest0: nat, out0: seq<int>, s: seq<nat>,
                        count1: nat, dest1: nat, out1: seq<int>, t: seq<nat>, count2: nat, dest2: nat, out2: seq<int>)
    requires CalledBack(cb, count0, dest0, out0, s, count1, dest1, out1)
    requires CalledBack(cb, count1, dest1, out1, t, count2, dest2, out2)
    ensures CalledBack(cb, count0, dest0, out0, s + t, count2, dest2, out2)
  {
    if cb == CopyNodes {
      WrittenTwice(out0, dest0, s, out1, t, out2);
    }
  }

  lemma WrittenTwice(v: seq<int>, at: nat, s: seq<nat>, w: seq<int>, t: seq<nat>, x: seq<int>)
    requires Written(v, at, s, w) && Written(w, at + |s|, t, x)
    ensures Written(v, at, s + t, x)
  {
    forall i | 0 <= i < |s + t| ensures x[at + i] == (s + t)[i] {
      if i < |s| {
        assert w[at + i] == s[i];
      } else {
        assert x[at + |s| + (i - |s|)] == t[i - |s|];
      }
    }
  }

  lemma {:induction false} ExpandConcat(g: Graph, log: seq<nat>, f: Flags, s: seq<nat>, t: seq<nat>, bound: nat)
    requires LogTraced(g, log) && Traced(g, log, s, bound) && Traced(g, log, t, bound)
    ensures Traced(g, log, s + t, bound)
    ensures Expand(g, log, f, s + t, bound) == Expand(g, log, f, s, bound) + Expand(g, log, f, t, bound)
    decreases |s|
  {
    if s == [] {
      assert s + t == t;
    } else {
      var r := s[1..];
      assert forall i :: 0 <= i < |r| ==> r[i] == s[i + 1];
      assert (s + t)[1..] == r + t;
      ExpandConcat(g, log, f, r, t, bound);
    }
  }

  lemma PrefixStep(g: Graph, log: seq<nat>, f: Flags, list: seq<nat>, bound: nat, i: nat)
    requires LogTraced(g, log) && Traced(g, log, list, bound) && i < |list|
    ensures ExpandPrefix(g, log, f, list, bound, i + 1)
         == ExpandPrefix(g, log, f, list, bound, i) + ExpandNodeOf(g, log, f, list, bound, i)
    ensures |ExpandPrefix(g, log, f, list, bound, i + 1)| <= |Expand(g, log, f, list, bound)|
  {
    assert TracedNode(g, log, list[i], bound);
    var a, b, c := list[..i], [list[i]], list[i + 1..];
    assert list[..i + 1] == a + b && list == (a + b) + c;
    ExpandConcat(g, log, f, a, b, bound);
    ExpandConcat(g, log, f, a + b, c, bound);
  }

  // ----- oc_expansion

  /** The cells of a from position `at` hold the list s. */
  ghost predicate HoldsList(a: seq<int>, at: nat, s: seq<nat>) {
    at + |s| <= |a| && forall i :: 0 <= i < |s| ==> a[at + i] == s[i]
  }

  /** Library sort of the cells p[1..ic + 1], in ascending order. */
  method Qsort(p: array<int>, ic: nat, ghost list: seq<nat>)
    requires ic + 2 == p.Length && ic == |list| && HoldsList(p[..], 1, list)
    modifies p
    ensures HoldsList(p[..], 1, Sort(list))
    ensures p[0] == old(p[0]) && p[ic + 1] == old(p[ic + 1])
  {
    var a: seq<nat> := [];
    for i := 0 to ic
      invariant a == list[..i]
      invariant p[..] == old(p[..])
    {
      assert p[..][1 + i] == list[i];
      a := a + [p[1 + i]];
    }
    assert a == list;
    var b := Sort(a);
    forall i | 0 <= i < ic {
      p[1 + i] := b[i];
    }
  }

  /** What a scan knows after reading a prefix: `done` is out, the last run is still open. */
  ghost predicate ScanState(prefix: seq<nat>, done: seq<nat>, previous: int, runlength: nat) {
    if prefix == [] then done == [] && runlength == 0
    else
      && previous == prefix[|prefix| - 1]
      && Odds(prefix) == done + (if runlength % 2 == 1 then [prefix[|prefix| - 1]] else [])
      && (done != [] ==> done[|done| - 1] < previous)
  }

  lemma ScanSame(prefix: seq<nat>, done: seq<nat>, previous: int, runlength: nat, y: nat)
    requires ScanState(prefix, done, previous, runlength) && previous == y
    ensures ScanState(prefix + [y], done, previous, runlength + 1)
  {
    assert (prefix + [y])[..|prefix|] == prefix;
  }

  lemma ScanNext(prefix: seq<nat>, done: seq<nat>, previous: int, runlength: nat, y: nat)
    requires ScanState(prefix, done, previous, runlength) && prefix != [] && previous < y
    ensures ScanState(prefix + [y], Odds(prefix), y, 1)
  {
    var o := Odds(prefix);
    assert o == [] || o[|o| - 1] <= previous;
    assert (prefix + [y])[..|prefix|] == prefix;
  }

  lemma ToggleKeeps(o: seq<nat>, p: seq<nat>, x: nat)
    requires o <= p && (o != [] ==> o[|o| - 1] != x)
    ensures o <= Toggle(p, x)
  {
    if p != [] && p[|p| - 1] == x {
      assert |o| != |p|;
    }
  }

  lemma OddsNext(s: seq<nat>, k: nat)
    requires 0 < k <= |s|
    ensures Odds(s[..k]) == Toggle(Odds(s[..k - 1]), s[k - 1])
  {
    assert s[..k][..k - 1] == s[..k - 1];
  }

  lemma OddsBelow(s: seq<nat>, i: nat, k: nat)
    requires Sorted(s) && 0 < i < k <= |s| && s[i - 1] < s[i]
    ensures var o := Odds(s[..i]); o != [] ==> o[|o| - 1] != s[k - 1]
  {
    var o := Odds(s[..i]);
    OddsMembers(s[..i]);
    if o != [] {
      assert o[|o| - 1] in s[..i];
      assert o[|o| - 1] <= s[i - 1] < s[i] <= s[k - 1];
    }
  }

  /** What is finished when the value changes stays at the front of the result. */
  lemma {:induction false} OddsStable(s: seq<nat>, i: nat, k: nat)
    requires Sorted(s) && 0 < i <= k <= |s| && (i < |s| ==> s[i - 1] < s[i])
    ensures Odds(s[..i]) <= Odds(s[..k])
  {
    if i < k {
      OddsStable(s, i, k - 1);
      OddsNext(s, k);
      OddsBelow(s, i, k);
      ToggleKeeps(Odds(s[..i]), Odds(s[..k - 1]), s[k - 1]);
    }
  }

  /** Count, and in the second pass copy, the value of a run of odd length. */
  method CloseRun(out: array<int>, copy: bool, oc: nat, previous: int, runlength: nat,
                  ghost prefix: seq<nat>, ghost done: seq<nat>) returns (oc': nat)
    requires ScanState(prefix, done, previous, runlength) && prefix != [] && oc == |done|
    requires copy ==> |Odds(prefix)| < out.Length && HoldsList(out[..], 1, done)
    modifies if copy then {out} else {}
    ensures oc' == |Odds(prefix)|
    ensures copy ==> HoldsList(out[..], 1, Odds(prefix)) && out[0] == old(out[0])
  {
    oc' := oc;
    if runlength % 2 == 1 {
      oc' := oc + 1;
      if copy {
        out[oc'] := previous;

      }
    }
  }

  /** The scan looks at one more element of the list. */
  method ScanOne(out: array<int>, copy: bool, oc: nat, previous: int, runlength: nat, current: int,
                 ghost s: seq<nat>, ghost i: nat, ghost done: seq<nat>)
    returns (oc': nat, previous': int, runlength': nat, ghost done': seq<nat>)
    requires i < |s| && Sorted(s) && current == s[i] && (i == 0 ==> previous == current)
    requires ScanState(s[..i], done, previous, runlength) && oc == |done|
    requires copy ==> out.Length == |Odds(s)| + 1 && HoldsList(out[..], 1, done)
    modifies if copy then {out} else {}
    ensures ScanState(s[..i + 1], done', previous', runlength') && oc' == |done'|
    ensures copy ==> HoldsList(out[..], 1, done') && out[0] == old(out[0])
  {
    assert s[..i + 1] == s[..i] + [s[i]];
    oc', done' := oc, done;
    if current == previous {
      ScanSame(s[..i], done, previous, runlength, s[i]);
      previous', runlength' := previous, runlength + 1;
    } else {
      assert previous == s[i - 1] < s[i];
      assert |Odds(s[..i])| <= |Odds(s)| by {
        OddsStable(s, i, |s|);
        assert s[..|s|] == s;
      }
      ScanNext(s[..i], done, previous, runlength, s[i]);
      oc' := CloseRun(out, copy, oc, previous, runlength, s[..i], done);
      done', previous', runlength' := Odds(s[..i]), current, 1;
    }
  }

  /** One of the two passes over the sorted list and its sentinel.  The first only counts; the
      second also copies the survivors to out[1..]. */
  method Scan(p: array<int>, ic: nat, out: array<int>, copy: bool, ghost s: seq<nat>) returns (oc: nat)
    requires p.Length == ic + 2 && |s| == ic && Sorted(s) && HoldsList(p[..], 1, s) && p[ic + 1] == -1
    requires p != out && (copy ==> out.Length == |Odds(s)| + 1)
    modifies if copy then {out} else {}
    ensures oc == |Odds(s)|
    ensures copy ==> HoldsList(out[..], 1, Odds(s)) && out[0] == old(out[0])
  {
    oc := 0;
    var previous := p[1];
    var runlength := 0;
    ghost var done: seq<nat> := [];
    var i := 0;
    assert s[..0] == [];
    while i < ic
      invariant i <= ic && p[..] == old(p[..])
      invariant ScanState(s[..i], done, previous, runlength) && oc == |done|
      invariant i == 0 ==> previous == p[1]
      invariant copy ==> HoldsList(out[..], 1, done) && out[0] == old(out[0])
    {
      assert p[..][1 + i] == s[i];
      oc, previous, runlength, done := ScanOne(out, copy, oc, previous, runlength, p[1 + i], s, i, done);
      i := i + 1;
    }
    assert s[..ic] == s;
    // the sentinel closes the last run, unless there is nothing but the sentinel
    if p[1 + ic] != previous {
      oc := CloseRun(out, copy, oc, previous, runlength, s, done);
    }
  }

  /** First stage of oc_expansion: expand into a list with duplicates, between its length and a
      sentinel. */
  method Flatten(decoder: OcGraph, ghost log: seq<nat>, f: Flags, node: nat) returns (p: array<int>, ic: nat)
    requires decoder.Valid() && LogTraced(decoder.graph, log) && node in log
    ensures var list := Expanded(decoder.graph, log, f, node);
      && fresh(p) && ic == |list| && p.Length == ic + 2 && p[ic + 1] == -1 && HoldsList(p[..], 1, list)
  {
    ic := CountNodes(decoder, log, f, node);
    p := new int[ic + 2];
    p[0] := ic;
    p[ic + 1] := -1;
    CopyList(decoder, log, f, node, p);
  }

  lemma SolutionInside(decoder: OcGraph, log: seq<nat>, node: nat)
    requires decoder.Valid() && LogTraced(decoder.graph, log) && node in log
    ensures node < decoder.solution.Length
  {
    SolutionStored(decoder.graph, decoder.CellsNow(), decoder.shadow.off, decoder.solution[..], log, node);
  }

  method CountNodes(decoder: OcGraph, ghost log: seq<nat>, f: Flags, node: nat) returns (ic: nat)
    requires decoder.Valid() && LogTraced(decoder.graph, log) && node in log
    ensures ic == |Expanded(decoder.graph, log, f, node)|
  {
    SolutionInside(decoder, log, node);
    var d := new Expander(decoder);
    d.Expandr(log, f, decoder.solution[node], node);
    ic := d.count;
  }

  method CopyList(decoder: OcGraph, ghost log: seq<nat>, f: Flags, node: nat, p: array<int>)
    requires decoder.Valid() && LogTraced(decoder.graph, log) && node in log && p !in decoder.Arrays()
    requires p.Length == |Expanded(decoder.graph, log, f, node)| + 2
    modifies p
    ensures HoldsList(p[..], 1, Expanded(decoder.graph, log, f, node))
    ensures p[p.Length - 1] == old(p[p.Length - 1])
  {
    SolutionInside(decoder, log, node);
    var d := new Expander(decoder);
    d.callback, d.dest, d.out := CopyNodes, 1, p;
    d.Expandr(log, f, decoder.solution[node], node);
  }

  /** oc_expansion: the nodes that make up a solved node, in ascending order, after the flags are
      applied and pairs have cancelled.  Element 0 of the result is their number. */
  method OcExpansion(decoder: OcGraph, ghost log: seq<nat>, f: Flags, node: nat) returns (r: array<int>)
    requires decoder.Valid() && LogTraced(decoder.graph, log) && node in log
    ensures var odds := Odds(Sort(Expanded(decoder.graph, log, f, node)));
      && fresh(r) && r.Length == |odds| + 1 && r[0] == |odds| && HoldsList(r[..], 1, odds)
  {
    ghost var list := Expanded(decoder.graph, log, f, node);
    var p, ic := Flatten(decoder, log, f, node);

    // second stage: sort
    Qsort(p, ic, list);

    // third stage: remove what occurs an even number of times
    var unused := new int[0];
    var oc := Scan(p, ic, unused, false, Sort(list));
    r := new int[oc + 1];
    r[0] := oc;
    oc := Scan(p, ic, r, true, Sort(list));
  }

  ghost function Solution(g: Graph, log: seq<nat>, node: nat): seq<nat>
    requires LogTraced(g, log) && node in log
    ensures Traced(g, log, Solution(g, log, node), IndexOf(log, node))
  {
    assert LogNode(g, log, IndexOf(log, node));
    SolutionList(g, node)
  }

  /** What the list returned by oc_expansion means, for every flag setting. */
  lemma ExpansionMeaning(g: Graph, log: seq<nat>, f: Flags, node: nat, n: nat, val: nat -> Block)
    requires LogTraced(g, log) && g.m <= g.co && node in log && SolutionValues(g, log, n, val)
    ensures var bound := IndexOf(log, node);
      var all := Expanded(g, log, f, node);
      var odds := Odds(Sort(all));
      && Ascending(odds)
      && (forall x :: x in odds <==> OddIn(all, x))
      && (forall x :: x in odds ==> Final(g, log, f, x, bound) && Kept(g.m, g.co, f, x))
      && SizedOn(n, val, odds) && XorSum(n, val, odds) == val(node)
  {
    var bound := IndexOf(log, node);
    var list := Solution(g, log, node);
    var all := Expand(g, log, f, list, bound);
    var sorted := Sort(all);
    SortRearranges(all);
    OddsAscending(sorted);
    assert LogNode(g, log, bound) && SolutionValue(g, log, n, val, bound);
    ExpandValue(g, log, f, list, bound, n, val);
    XorSumRearrangedBack(n, val, sorted, all);
    OddsValue(sorted, n, val);
    forall x: nat ensures x in Odds(sorted) <==> OddIn(all, x) {
      OddsParity(sorted, x);
      assert SameCount(sorted, all, x);
    }
    forall x | x in Odds(sorted) ensures Final(g, log, f, x, bound) && Kept(g.m, g.co, f, x) {
      assert OddIn(all, x);
      CountPositive(all, x);
      ExpandFinal(g, log, f, list, bound);
    }
  }

  /** With no flags set, oc_expansion has the XOR list of the node itself to work on. */
  lemma UnexpandedList(g: Graph, log: seq<nat>, f: Flags, node: nat)
    requires LogTraced(g, log) && g.m <= g.co && node in log && !f.msg && !f.aux
    ensures node < |g.sol| && g.sol[node].Some? && g.Upper(g.sol[node].value)
    ensures var elems := g.bones[g.sol[node].value - g.m].elems;
      elems != [] && Expanded(g, log, f, node) == elems[1..]
  {
    assert LogNode(g, log, IndexOf(log, node));
    KeptList(g, log, f, Solution(g, log, node), IndexOf(log, node));
  }

  lemma XorSumRearrangedBack(n: nat, val: nat -> Block, s: seq<nat>, t: seq<nat>)
    requires Rearranged(s, t) && SizedOn(n, val, t)
    ensures SizedOn(n, val, s) && XorSum(n, val, s) == XorSum(n, val, t)
  {
    forall x: nat ensures SameCount(t, s, x) { assert SameCount(s, t, x); }
    XorSumRearranged(n, val, t, s);
  }
}
