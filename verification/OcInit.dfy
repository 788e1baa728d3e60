/** oc_graph_init: the three passes that register the auxiliary map, on the contents of the arrays. */
module OcInit {
  import opened Lists
  import opened Peeling
  import opened PeelingInput
  import opened OcRings
  import opened OcStore
  import opened OcInsert

  /** How many messages the map attaches to node a. */
  function Kids(edges: seq<Edge>, a: nat): nat {
    |AuxLowers(edges, |edges|, a)|
  }

  lemma {:induction false} LowersGrow(edges: seq<Edge>, n: nat, k: nat, a: nat)
    requires n <= k <= |edges|
    ensures |AuxLowers(edges, n, a)| <= |AuxLowers(edges, k, a)|
  {
    if n < k { LowersGrow(edges, n, k - 1, a); }
  }

  /** Number of the first n entries that lead to a node below hi. */
  function EdgesBelow(edges: seq<Edge>, n: nat, hi: nat): nat
    requires n <= |edges|
  {
    if n == 0 then 0 else EdgesBelow(edges, n - 1, hi) + if edges[n - 1].aux < hi then 1 else 0
  }

  lemma {:induction false} EdgesBelowNext(edges: seq<Edge>, n: nat, a: nat)
    requires n <= |edges|
    ensures EdgesBelow(edges, n, a + 1) == EdgesBelow(edges, n, a) + |AuxLowers(edges, n, a)|
  {
    if n > 0 { EdgesBelowNext(edges, n - 1, a); }
  }

  lemma {:induction false} EdgesBelowEnds(m: nat, co: nat, edges: seq<Edge>, n: nat)
    requires n <= |edges| && EdgesOk(m, co, edges)
    ensures EdgesBelow(edges, n, m) == 0 && EdgesBelow(edges, n, co) == n
  {
    if n > 0 { EdgesBelowEnds(m, co, edges, n - 1); }
  }

  lemma {:induction false} EdgesBelowMonotone(edges: seq<Edge>, n: nat, lo: nat, hi: nat)
    requires n <= |edges| && lo <= hi
    ensures EdgesBelow(edges, n, lo) <= EdgesBelow(edges, n, hi)
  {
    if n > 0 { EdgesBelowMonotone(edges, n - 1, lo, hi); }
  }

  // ----- the counts: 2 for each entry in the first pass, less 1 for each in the third

  ghost predicate CountIs(m: nat, edges: seq<Edge>, twice: nat, once: nat, vc: seq<int>, a: nat)
    requires twice <= |edges| && once <= |edges|
  {
    m <= a < m + |vc| && vc[a - m] == 2 * |AuxLowers(edges, twice, a)| - |AuxLowers(edges, once, a)|
  }

  ghost predicate CountsAre(m: nat, co: nat, edges: seq<Edge>, twice: nat, once: nat, vc: seq<int>)
    requires twice <= |edges| && once <= |edges|
  {
    && m <= co <= m + |vc|
    && (forall a :: m <= a < co ==> CountIs(m, edges, twice, once, vc, a))
    && (forall k :: co - m <= k < |vc| ==> Clear(vc, k, 0))
  }

  lemma CountTwo(m: nat, co: nat, edges: seq<Edge>, n: nat, vc: seq<int>)
    requires n < |edges| && EdgesOk(m, co, edges) && CountsAre(m, co, edges, n, 0, vc)
    ensures var k := edges[n].aux - m; k < |vc| && CountsAre(m, co, edges, n + 1, 0, vc[k := vc[k] + 2])
  {
    var k, n' := edges[n].aux - m, n + 1;
    assert CountIs(m, edges, n, 0, vc, edges[n].aux);
    var vc' := vc[k := vc[k] + 2];
    forall a: nat | m <= a < co ensures CountIs(m, edges, n', 0, vc', a) { assert CountIs(m, edges, n, 0, vc, a); }
    forall i: nat | co - m <= i < |vc| ensures Clear(vc', i, 0) { assert Clear(vc, i, 0); }
  }

  lemma CountOne(m: nat, co: nat, edges: seq<Edge>, n: nat, vc: seq<int>)
    requires n < |edges| && EdgesOk(m, co, edges) && CountsAre(m, co, edges, |edges|, n, vc)
    ensures var k := edges[n].aux - m; k < |vc| && CountsAre(m, co, edges, |edges|, n + 1, vc[k := vc[k] - 1])
  {
    var k, n' := edges[n].aux - m, n + 1;
    assert CountIs(m, edges, |edges|, n, vc, edges[n].aux);
    var vc' := vc[k := vc[k] - 1];
    forall a: nat | m <= a < co ensures CountIs(m, edges, |edges|, n', vc', a) {
      assert CountIs(m, edges, |edges|, n, vc, a);
    }
    forall i: nat | co - m <= i < |vc| ensures Clear(vc', i, 0) { assert Clear(vc, i, 0); }
  }

  // ----- the bones

  /** The messages filled in so far lie just before cell `last`; this is the i-th, and its link. */
  ghost predicate AuxFilled(co: nat, c: Cells, ar: Arena, rings: seq<seq<nat>>, last: nat, a: nat, low: seq<nat>,
                            i: nat)
    requires i < |low| <= last
  {
    var at := last - |low| + i;
    at < |c.a| == |c.b| && c.a[at] == low[i] && LinkCell(co, c.b, ar, rings, at, a, low[i])
  }

  /** The bone of auxiliary node a; the first n entries are filled in, from the right. */
  ghost predicate AuxCells(m: nat, co: nat, edges: seq<Edge>, n: nat, c: Cells, ar: Arena, sh: Shadow, a: nat)
    requires n <= |edges|
  {
    var k, low := Kids(edges, a), AuxLowers(edges, n, a);
    && m <= a < m + |sh.off| && |low| <= k
    && var o := sh.off[a - m];
    && 0 <= o && o + k + 1 < c.next <= |c.a| == |c.b|
    && c.a[o] == k + 1 == c.b[o] && c.a[o + k + 1] == a && c.b[o + k + 1] == NULL
    && AllFilled(co, c, ar, sh.rings, o + k + 1, a, low)
  }

  ghost predicate AllFilled(co: nat, c: Cells, ar: Arena, rings: seq<seq<nat>>, last: nat, a: nat, low: seq<nat>)
    requires |low| <= last
  {
    forall i :: 0 <= i < |low| ==> AuxFilled(co, c, ar, rings, last, a, low, i)
  }

  ghost predicate AuxApart(m: nat, edges: seq<Edge>, off: seq<int>, a: nat, b: nat)
    requires m <= a < m + |off| && m <= b < m + |off|
  {
    a < b ==> off[a - m] + Kids(edges, a) + 1 < off[b - m]
  }

  ghost predicate AuxBones(m: nat, co: nat, edges: seq<Edge>, n: nat, c: Cells, ar: Arena, sh: Shadow)
    requires n <= |edges|
  {
    && c.next <= |c.a| == |c.b|
    && (forall a :: m <= a < m + |sh.off| ==> AuxCells(m, co, edges, n, c, ar, sh, a))
    && (forall a, b :: m <= a < m + |sh.off| && m <= b < m + |sh.off| ==> AuxApart(m, edges, sh.off, a, b))
  }

  /** The bone that the second pass makes at o. */
  function NewAuxCells(c: Cells, o: nat, k: nat, a: nat): Cells
    requires o + k + 1 < |c.a| == |c.b|
  {
    Cells(c.a[o := k + 1][o + k + 1 := a], c.b[o := k + 1][o + k + 1 := NULL], o + k + 3)
  }

  lemma MadeBone(m: nat, co: nat, edges: seq<Edge>, c: Cells, ar: Arena, sh: Shadow)
    requires AuxBones(m, co, edges, 0, c, ar, sh)
    requires c.next + Kids(edges, m + |sh.off|) + 3 <= |c.a|
    ensures var a := m + |sh.off|;
      AuxBones(m, co, edges, 0, NewAuxCells(c, c.next, Kids(edges, a), a), ar, sh.(off := sh.off + [c.next]))
  {
    var a := m + |sh.off|;
    var k := Kids(edges, a);
    var c' := NewAuxCells(c, c.next, k, a);
    var off' := sh.off + [c.next as int];
    var sh' := sh.(off := off');
    forall b: nat | m <= b < m + |off'| ensures AuxCells(m, co, edges, 0, c', ar, sh', b) {
      if b < a { assert AuxCells(m, co, edges, 0, c, ar, sh, b); }
    }
    forall b: nat, d: nat | m <= b < m + |off'| && m <= d < m + |off'| ensures AuxApart(m, edges, off', b, d) {
      if b < a {
        assert AuxCells(m, co, edges, 0, c, ar, sh, b);
        if d < a { assert AuxApart(m, edges, sh.off, b, d); }
      }
    }
  }

  /** Where the third pass puts entry n. */
  function Place(m: nat, edges: seq<Edge>, n: nat, off: seq<int>): int
    requires n < |edges| && m <= edges[n].aux < m + |off|
  {
    off[edges[n].aux - m] + Kids(edges, edges[n].aux) - |AuxLowers(edges, n, edges[n].aux)|
  }

  /** The third pass after one more entry. */
  function FilledCells(m: nat, co: nat, edges: seq<Edge>, n: nat, c: Cells, ar: Arena, off: seq<int>): Cells
    requires n < |edges| && m <= edges[n].aux < m + |off| && 0 <= Place(m, edges, n, off) < |c.a| == |c.b|
  {
    var at := Place(m, edges, n, off);
    c.(a := c.a[at := edges[n].msg], b := c.b[at := co + ar.next])
  }

  ghost predicate FillReady(m: nat, co: nat, edges: seq<Edge>, n: nat, c: Cells, ar: Arena, sh: Shadow) {
    && n < |edges| && EdgesOk(m, co, edges) && |sh.off| == co - m
    && c.next <= |c.a| == |c.b| && 0 <= Place(m, edges, n, sh.off) < |c.a|
    && |ar.upper| == |ar.left| == |ar.right| && co + ar.next < |ar.left|
    && 0 <= ar.left[edges[n].msg] < |ar.left| && |sh.rings| == co && |sh.owner| == ar.next
  }

  function FilledArena(m: nat, co: nat, edges: seq<Edge>, n: nat, c: Cells, ar: Arena, sh: Shadow): Arena
    requires FillReady(m, co, edges, n, c, ar, sh)
  {
    Pushed(ar, co, edges[n].msg, edges[n].aux)
  }

  function FilledShadow(m: nat, co: nat, edges: seq<Edge>, n: nat, c: Cells, ar: Arena, sh: Shadow): Shadow
    requires FillReady(m, co, edges, n, c, ar, sh)
  {
    PushedShadow(sh, co, edges[n].msg, co + ar.next)
  }

  lemma RoomLeft(edges: seq<Edge>, n: nat)
    requires n < |edges|
    ensures |AuxLowers(edges, n, edges[n].aux)| < Kids(edges, edges[n].aux)
  {
    LowersGrow(edges, n + 1, |edges|, edges[n].aux);
  }

  lemma FillOwn(m: nat, co: nat, edges: seq<Edge>, n: nat, c: Cells, ar: Arena, sh: Shadow)
    requires FillReady(m, co, edges, n, c, ar, sh) && AuxCells(m, co, edges, n, c, ar, sh, edges[n].aux)
    ensures AuxCells(m, co, edges, n + 1, FilledCells(m, co, edges, n, c, ar, sh.off),
                     FilledArena(m, co, edges, n, c, ar, sh),
                     FilledShadow(m, co, edges, n, c, ar, sh), edges[n].aux)
  {
    RoomLeft(edges, n);
    var x, a := edges[n].msg, edges[n].aux;
    var last := sh.off[a - m] + Kids(edges, a) + 1;
    var c', ar' := FilledCells(m, co, edges, n, c, ar, sh.off), FilledArena(m, co, edges, n, c, ar, sh);
    var rings' := FilledShadow(m, co, edges, n, c, ar, sh).rings;
    var low, low' := AuxLowers(edges, n, a), AuxLowers(edges, n + 1, a);
    assert low' == [x] + low;
    forall i: nat | i < |low'| ensures AuxFilled(co, c', ar', rings', last, a, low', i) {
      if i == 0 {
        assert rings'[x][|sh.rings[x]|] == co + ar.next;
      } else {
        assert AuxFilled(co, c, ar, sh.rings, last, a, low, i - 1);
        PushedCell(co, c.b, ar, sh, last - |low'| + i, a, low[i - 1], x, a);
      }
    }
  }

  lemma FillOther(m: nat, co: nat, edges: seq<Edge>, n: nat, c: Cells, ar: Arena, sh: Shadow, b: nat)
    requires FillReady(m, co, edges, n, c, ar, sh) && AuxCells(m, co, edges, n, c, ar, sh, b) && b != edges[n].aux
    requires var o := sh.off[b - m]; !(o <= Place(m, edges, n, sh.off) <= o + Kids(edges, b) + 1)
    ensures AuxCells(m, co, edges, n + 1, FilledCells(m, co, edges, n, c, ar, sh.off),
                     FilledArena(m, co, edges, n, c, ar, sh),
                     FilledShadow(m, co, edges, n, c, ar, sh), b)
  {
    var last := sh.off[b - m] + Kids(edges, b) + 1;
    var c', ar' := FilledCells(m, co, edges, n, c, ar, sh.off), FilledArena(m, co, edges, n, c, ar, sh);
    var rings' := FilledShadow(m, co, edges, n, c, ar, sh).rings;
    var low := AuxLowers(edges, n, b);
    forall i: nat | i < |low| ensures AuxFilled(co, c', ar', rings', last, b, low, i) {
      assert AuxFilled(co, c, ar, sh.rings, last, b, low, i);
      PushedCell(co, c.b, ar, sh, last - |low| + i, b, low[i], edges[n].msg, edges[n].aux);
    }
  }

  lemma FillBones(m: nat, co: nat, edges: seq<Edge>, n: nat, c: Cells, ar: Arena, sh: Shadow)
    requires FillReady(m, co, edges, n, c, ar, sh) && AuxBones(m, co, edges, n, c, ar, sh)
    ensures AuxBones(m, co, edges, n + 1, FilledCells(m, co, edges, n, c, ar, sh.off),
                     FilledArena(m, co, edges, n, c, ar, sh),
                     FilledShadow(m, co, edges, n, c, ar, sh))
  {
    var a, n' := edges[n].aux, n + 1;
    var c', ar' := FilledCells(m, co, edges, n, c, ar, sh.off), FilledArena(m, co, edges, n, c, ar, sh);
    var sh' := FilledShadow(m, co, edges, n, c, ar, sh);
    assert AuxCells(m, co, edges, n, c, ar, sh, a);
    RoomLeft(edges, n);
    forall b: nat | m <= b < m + |sh.off| ensures AuxCells(m, co, edges, n', c', ar', sh', b) {
      assert AuxCells(m, co, edges, n, c, ar, sh, b);
      if b == a {
        FillOwn(m, co, edges, n, c, ar, sh);
      } else {
        assert AuxApart(m, edges, sh.off, a, b) && AuxApart(m, edges, sh.off, b, a);
        FillOther(m, co, edges, n, c, ar, sh, b);
      }
    }
    forall b: nat, d: nat | m <= b < m + |sh.off| && m <= d < m + |sh.off| ensures AuxApart(m, edges, sh'.off, b, d) {
      assert AuxApart(m, edges, sh.off, b, d);
    }
  }

  // ----- the rings

  function UppersSoFar(co: nat, edges: seq<Edge>, n: nat): seq<seq<nat>>
    requires n <= |edges|
  {
    seq(co, x requires 0 <= x => MsgUppers(edges, n, x))
  }

  function Unknown(co: nat): seq<Option<nat>> {
    seq(co, x => None)
  }

  ghost predicate HeadAlone(ar: Arena, x: nat) {
    x < |ar.left| == |ar.right| && ar.left[x] == x == ar.right[x]
  }

  function NoRings(co: nat): seq<seq<nat>> {
    seq(co, x => [])
  }

  lemma EmptyRings(co: nat, edges: seq<Edge>, ar: Arena, off: seq<int>)
    requires forall x :: 0 <= x < co ==> HeadAlone(ar, x)
    ensures RingsStored(co, UppersSoFar(co, edges, 0), Unknown(co), ar, Shadow(off, NoRings(co), []))
  {
    var sh := Shadow(off, NoRings(co), []);
    forall x: nat | x < co ensures RingStored(co, UppersSoFar(co, edges, 0), Unknown(co), ar, sh, x) {
      assert HeadAlone(ar, x);
      assert [x] + sh.rings[x] == [x];
      assert LinkedAt(ar.left, ar.right, [x], 0);
    }
  }

  lemma FillLeft(co: nat, edges: seq<Edge>, n: nat, ar: Arena, sh: Shadow, x: nat)
    requires n < |edges| && x < co && RingsStored(co, UppersSoFar(co, edges, n), Unknown(co), ar, sh)
    ensures x < |ar.left| == |ar.right| && 0 <= ar.left[x] < |ar.left|
  {
    var ring := UppersSoFar(co, edges, n);
    assert RingStored(co, ring, Unknown(co), ar, sh, x);
    HeadLeft(ar, sh.owner, co, x, sh.rings[x], ring[x]);
  }

  lemma FillRings(m: nat, co: nat, edges: seq<Edge>, n: nat, c: Cells, ar: Arena, sh: Shadow)
    requires FillReady(m, co, edges, n, c, ar, sh) && RingsStored(co, UppersSoFar(co, edges, n), Unknown(co), ar, sh)
    ensures RingsStored(co, UppersSoFar(co, edges, n + 1), Unknown(co), FilledArena(m, co, edges, n, c, ar, sh),
                        FilledShadow(m, co, edges, n, c, ar, sh))
  {
    var x, a := edges[n].msg, edges[n].aux;
    var ring := UppersSoFar(co, edges, n);
    PushedRings(co, ring, Unknown(co), ar, sh, x, a);
    assert UppersSoFar(co, edges, n + 1) == ring[x := ring[x] + [a]];
  }

  // ----- all three passes done

  lemma DoneBone(m: nat, co: nat, edges: seq<Edge>, c: Cells, ar: Arena, sh: Shadow, a: nat)
    requires m <= a < co && |sh.off| == co - m && AuxCells(m, co, edges, |edges|, c, ar, sh, a)
    ensures var g := Init(m, co, edges); BoneStored(m, g.bones, sh.off, c, a)
  {
    var g := Init(m, co, edges);
    var o, b := sh.off[a - m], g.bones[a - m];
    var low := AuxLowers(edges, |edges|, a);
    assert b == AuxBone(edges, a);
    forall i: nat | i < |b.elems| ensures c.a[o + 1 + i] == b.elems[i] {
      if i < |low| { assert AuxFilled(co, c, ar, sh.rings, o + 1 + |low|, a, low, i); }
    }
  }

  lemma DoneLink(m: nat, co: nat, edges: seq<Edge>, c: Cells, ar: Arena, sh: Shadow, a: nat, i: nat)
    requires m <= a < co && |sh.off| == co - m && AuxCells(m, co, edges, |edges|, c, ar, sh, a)
    requires i <= Kids(edges, a)
    ensures var g := Init(m, co, edges);
      && i < |g.bones[a - m].elems|
      && LinkAt(m, g.bones, sh.off, g.sol, c.b, ar.upper, sh.rings, a, i)
      && (g.bones[a - m].elems[i] < m ==> SelfUnlinked(m, g.bones, sh.off, g.sol, c.b, a, i))
      && (i == Kids(edges, a) ==> SelfUnlinked(m, g.bones, sh.off, g.sol, c.b, a, i))
  {
    var g := Init(m, co, edges);
    var low := AuxLowers(edges, |edges|, a);
    assert g.bones[a - m] == AuxBone(edges, a);
    if i < |low| { assert AuxFilled(co, c, ar, sh.rings, sh.off[a - m] + 1 + |low|, a, low, i); }
  }

  lemma DoneBones(m: nat, co: nat, edges: seq<Edge>, c: Cells, ar: Arena, sh: Shadow)
    requires m <= co && |sh.off| == co - m && AuxBones(m, co, edges, |edges|, c, ar, sh)
    ensures BonesStored(m, Init(m, co, edges).bones, sh.off, c)
  {
    var g := Init(m, co, edges);
    forall a: nat | m <= a < m + |g.bones| ensures BoneStored(m, g.bones, sh.off, c, a) {
      assert AuxCells(m, co, edges, |edges|, c, ar, sh, a);
      DoneBone(m, co, edges, c, ar, sh, a);
    }
    forall a: nat, b: nat | m <= a < m + |g.bones| && m <= b < m + |g.bones| ensures Apart(m, g.bones, sh.off, a, b) {
      assert AuxApart(m, edges, sh.off, a, b);
      assert g.bones[a - m] == AuxBone(edges, a);
    }
  }

  lemma DoneRep(m: nat, co: nat, edges: seq<Edge>, c: Cells, ar: Arena, sh: Shadow)
    requires m <= co && EdgesOk(m, co, edges) && |sh.off| == co - m && AuxBones(m, co, edges, |edges|, c, ar, sh)
    requires RingsStored(co, UppersSoFar(co, edges, |edges|), Unknown(co), ar, sh)
    requires ArenaOk(co, c, ar, sh)
    ensures Rep(Init(m, co, edges), c, ar, sh)
  {
    var g := Init(m, co, edges);
    assert BonesStored(m, g.bones, sh.off, c) by { DoneBones(m, co, edges, c, ar, sh); }
    forall a: nat, i: nat | m <= a < m + |g.bones| && i < |g.bones[a - m].elems|
      ensures LinkAt(m, g.bones, sh.off, g.sol, c.b, ar.upper, sh.rings, a, i)
      ensures SelfUnlinked(m, g.bones, sh.off, g.sol, c.b, a, i)
    {
      assert AuxCells(m, co, edges, |edges|, c, ar, sh, a);
      assert g.bones[a - m] == AuxBone(edges, a);
      InitEnds(m, co, edges, |edges|, a);
      DoneLink(m, co, edges, c, ar, sh, a, i);
    }
    assert g.ring == UppersSoFar(co, edges, |edges|) && g.sol == Unknown(co);
  }
}
