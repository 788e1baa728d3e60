/** How the arrays of oc_graph represent the decoder state of module Peeling. */
module OcStore {
  import opened Lists
  import opened Peeling
  import opened PeelingInvariant
  import opened OcRings

  const NULL: int := -1

  /** The boneyard: `a` holds unknowns and nodes, `b` sizes and links (the two unions of oc_bone). */
  datatype Cells = Cells(a: seq<int>, b: seq<int>, next: nat)

  /** Ring heads and ring fence. */
  datatype Arena = Arena(upper: seq<int>, left: seq<int>, right: seq<int>, next: nat)

  /** Where things are: the offset of each bone, the cells of each ring, and the ring that each
      ring-fence cell was made for. */
  datatype Shadow = Shadow(off: seq<int>, rings: seq<seq<nat>>, owner: seq<nat>)

  /** Entry k is as calloc left it. */
  ghost predicate Clear(table: seq<int>, k: nat, zero: int)
    requires k < |table|
  {
    table[k] == zero
  }

  // ----- bones

  ghost predicate ElemsStored(a: seq<int>, o: nat, elems: seq<nat>) {
    o + |elems| < |a| && forall i :: 0 <= i < |elems| ==> a[o + 1 + i] == elems[i]
  }

  ghost predicate BoneStored(m: nat, bones: seq<Bone>, off: seq<int>, c: Cells, u: nat)
    requires m <= u < m + |bones| && |off| == |bones|
  {
    var b, o := bones[u - m], off[u - m];
    if o == NULL then b == Bone(0, [])
    else
      && 0 <= o && b.elems != [] && o + |b.elems| < c.next <= |c.a| && |c.b| == |c.a|
      && c.a[o] == b.unknowns && c.b[o] == |b.elems| && ElemsStored(c.a, o, b.elems)
  }

  /** Later bones lie above earlier ones. */
  ghost predicate Apart(m: nat, bones: seq<Bone>, off: seq<int>, u: nat, w: nat)
    requires m <= u < m + |bones| && m <= w < m + |bones| && |off| == |bones|
  {
    off[u - m] != NULL && off[w - m] != NULL && u < w ==> off[u - m] + |bones[u - m].elems| < off[w - m]
  }

  ghost predicate BonesStored(m: nat, bones: seq<Bone>, off: seq<int>, c: Cells) {
    && |off| == |bones| && c.next <= |c.a| && |c.b| == |c.a|
    && (forall u :: m <= u < m + |bones| ==> BoneStored(m, bones, off, c, u))
    && (forall u, w :: m <= u < m + |bones| && m <= w < m + |bones| ==> Apart(m, bones, off, u, w))
  }

  // ----- links from bones into rings

  /** The link of an unsolved element leads to a cell of its ring that points back. */
  ghost predicate LinkAt(m: nat, bones: seq<Bone>, off: seq<int>, sol: seq<Option<nat>>, cb: seq<int>,
                         upper: seq<int>, rings: seq<seq<nat>>, u: nat, i: nat)
    requires m <= u < m + |bones| && |off| == |bones| && i < |bones[u - m].elems|
  {
    var x := bones[u - m].elems[i];
    var o := off[u - m];
    i < bones[u - m].unknowns && Open(sol, u, x) ==>
      && 0 <= o && o + 1 + i < |cb| && x < |rings|
      && 0 <= cb[o + 1 + i] < |upper| && upper[cb[o + 1 + i]] == u && cb[o + 1 + i] in rings[x]
  }

  ghost predicate LinksStored(m: nat, bones: seq<Bone>, off: seq<int>, sol: seq<Option<nat>>, cb: seq<int>,
                              upper: seq<int>, rings: seq<seq<nat>>)
  {
    |off| == |bones| &&
    forall u, i :: m <= u < m + |bones| && 0 <= i < |bones[u - m].elems| ==>
      LinkAt(m, bones, off, sol, cb, upper, rings, u, i)
  }

  /** The element that stands for an unsolved auxiliary node itself has no link. */
  ghost predicate SelfUnlinked(m: nat, bones: seq<Bone>, off: seq<int>, sol: seq<Option<nat>>, cb: seq<int>, u: nat,
                               i: nat)
    requires m <= u < m + |bones| && |off| == |bones| && i < |bones[u - m].elems|
  {
    u < |sol| && sol[u].None? && bones[u - m].elems[i] == u ==>
      0 <= off[u - m] && off[u - m] + 1 + i < |cb| && cb[off[u - m] + 1 + i] == NULL
  }

  ghost predicate SelvesUnlinked(m: nat, bones: seq<Bone>, off: seq<int>, sol: seq<Option<nat>>, cb: seq<int>) {
    |off| == |bones| &&
    forall u, i :: m <= u < m + |bones| && 0 <= i < |bones[u - m].elems| ==>
      SelfUnlinked(m, bones, off, sol, cb, u, i)
  }

  // ----- rings

  ghost predicate UppersStored(upper: seq<int>, cells: seq<nat>, ups: seq<nat>) {
    |cells| == |ups| && forall i :: 0 <= i < |cells| ==> NamesUpper(upper, cells, ups, i)
  }

  ghost predicate NamesUpper(upper: seq<int>, cells: seq<nat>, ups: seq<nat>, i: nat)
    requires i < |cells| == |ups|
  {
    cells[i] < |upper| && upper[cells[i]] == ups[i]
  }

  lemma UppersPlain(upper: seq<int>, cells: seq<nat>, ups: seq<nat>)
    requires UppersStored(upper, cells, ups)
    ensures forall i :: 0 <= i < |cells| ==> cells[i] < |upper| && upper[cells[i]] == ups[i]
  {
    forall i | 0 <= i < |cells| ensures cells[i] < |upper| && upper[cells[i]] == ups[i] {
      assert NamesUpper(upper, cells, ups, i);
    }
  }

  lemma HeldPlain(ar: Arena, owner: seq<nat>, co: nat, x: nat, cells: seq<nat>, ups: seq<nat>)
    requires RingHeld(ar, owner, co, x, cells, ups)
    ensures forall i :: 0 <= i < |cells| ==> co <= cells[i] < co + |owner| && owner[cells[i] - co] == x
    ensures forall i :: 0 <= i < |cells| ==> cells[i] < |ar.upper| && ar.upper[cells[i]] == ups[i]
  {
    OwnedPlain(owner, co, x, cells);
    UppersPlain(ar.upper, cells, ups);
  }

  /** The ring of x holds the given cells, which name the nodes ups. */
  ghost predicate RingHeld(ar: Arena, owner: seq<nat>, co: nat, x: nat, cells: seq<nat>, ups: seq<nat>) {
    RingOf(ar.left, ar.right, owner, co, x, cells) && UppersStored(ar.upper, cells, ups)
  }

  ghost predicate RingStored(co: nat, ring: seq<seq<nat>>, sol: seq<Option<nat>>, ar: Arena, sh: Shadow, x: nat)
    requires x < |ring| == |sol| == |sh.rings|
  {
    sol[x].None? ==> RingHeld(ar, sh.owner, co, x, sh.rings[x], ring[x])
  }

  ghost predicate RingsStored(co: nat, ring: seq<seq<nat>>, sol: seq<Option<nat>>, ar: Arena, sh: Shadow) {
    && |ring| == |sol| == |sh.rings| == co
    && forall x :: 0 <= x < co ==> RingStored(co, ring, sol, ar, sh, x)
  }

  /** The ring fence is never fuller than the boneyard and has the same size, so it cannot overflow. */
  ghost predicate ArenaOk(co: nat, c: Cells, ar: Arena, sh: Shadow) {
    && |ar.upper| == |ar.left| == |ar.right| == co + |c.a|
    && ar.next <= c.next <= |c.a| && |sh.owner| == ar.next
  }

  /** Everything together. */
  ghost predicate Rep(g: Graph, c: Cells, ar: Arena, sh: Shadow) {
    && BonesStored(g.m, g.bones, sh.off, c)
    && LinksStored(g.m, g.bones, sh.off, g.sol, c.b, ar.upper, sh.rings)
    && SelvesUnlinked(g.m, g.bones, sh.off, g.sol, c.b)
    && RingsStored(g.co, g.ring, g.sol, ar, sh)
    && ArenaOk(g.co, c, ar, sh)
  }

  // ----- oc_bubble_unsolved, and recording the solution

  /** The boneyard after element i of the bone at o moved to the front and unknowns became 1. */
  function Bubbled(c: Cells, o: nat, i: nat): Cells
    requires o + 1 + i < |c.a| == |c.b|
  {
    Cells(Exchanged(c.a, o + 1, o + 1 + i)[o := 1], Exchanged(c.b, o + 1, o + 1 + i), c.next)
  }

  lemma BubbledBones(g: Graph, c: Cells, off: seq<int>, u: nat, i: nat)
    requires SolveReady(g, u, i) && BonesStored(g.m, g.bones, off, c)
    ensures var o := off[u - g.m]; 0 <= o && o + 1 + i < |c.a| == |c.b|
    ensures BonesStored(g.m, Solve(g, u, i).bones, off, Bubbled(c, off[u - g.m], i))
  {
    assert BoneStored(g.m, g.bones, off, c, u);
    var s := Solve(g, u, i);
    var c' := Bubbled(c, off[u - g.m], i);
    forall w: nat | g.m <= w < g.m + |s.bones| ensures BoneStored(g.m, s.bones, off, c', w) {
      assert BoneStored(g.m, g.bones, off, c, w);
      assert Apart(g.m, g.bones, off, u, w) && Apart(g.m, g.bones, off, w, u);
    }
    forall w: nat, v: nat | g.m <= w < g.m + |s.bones| && g.m <= v < g.m + |s.bones|
      ensures Apart(g.m, s.bones, off, w, v)
    {
      assert Apart(g.m, g.bones, off, w, v);
    }
  }

  lemma BubbledLinks(g: Graph, c: Cells, ar: Arena, sh: Shadow, u: nat, i: nat)
    requires SolveReady(g, u, i) && Rep(g, c, ar, sh)
    requires 0 <= sh.off[u - g.m] && sh.off[u - g.m] + 1 + i < |c.a|
    ensures var s := Solve(g, u, i); var c' := Bubbled(c, sh.off[u - g.m], i);
      && LinksStored(g.m, s.bones, sh.off, s.sol, c'.b, ar.upper, sh.rings)
      && SelvesUnlinked(g.m, s.bones, sh.off, s.sol, c'.b)
  {
    var s := Solve(g, u, i);
    var c' := Bubbled(c, sh.off[u - g.m], i);
    SolveSolution(g, u, i);
    assert BoneStored(g.m, g.bones, sh.off, c, u);
    forall w: nat, j: nat | g.m <= w < g.m + |s.bones| && j < |s.bones[w - g.m].elems|
      ensures LinkAt(g.m, s.bones, sh.off, s.sol, c'.b, ar.upper, sh.rings, w, j)
    {
      if w != u {
        assert LinkAt(g.m, g.bones, sh.off, g.sol, c.b, ar.upper, sh.rings, w, j);
        BubbledElsewhere(g, c, sh.off, u, i, w, j);
      }
    }
    forall w: nat, j: nat | g.m <= w < g.m + |s.bones| && j < |s.bones[w - g.m].elems|
      ensures SelfUnlinked(g.m, s.bones, sh.off, s.sol, c'.b, w, j)
    {
      if w != u {
        assert SelfUnlinked(g.m, g.bones, sh.off, g.sol, c.b, w, j);
        BubbledElsewhere(g, c, sh.off, u, i, w, j);
      } else {
        assert Known(g.co, s.sol, u, s.bones[u - g.m].elems[j]);
      }
    }
  }

  /** Bubbling does not touch the link cells of other bones. */
  lemma BubbledElsewhere(g: Graph, c: Cells, off: seq<int>, u: nat, i: nat, w: nat, j: nat)
    requires SolveReady(g, u, i) && BonesStored(g.m, g.bones, off, c)
    requires g.Upper(w) && w != u && j < |g.bones[w - g.m].elems|
    requires 0 <= off[u - g.m] && off[u - g.m] + 1 + i < |c.a|
    ensures 0 <= off[w - g.m] && off[w - g.m] + 1 + j < |c.b|
    ensures Bubbled(c, off[u - g.m], i).b[off[w - g.m] + 1 + j] == c.b[off[w - g.m] + 1 + j]
  {
    assert BoneStored(g.m, g.bones, off, c, w) && BoneStored(g.m, g.bones, off, c, u);
    assert Apart(g.m, g.bones, off, u, w) && Apart(g.m, g.bones, off, w, u);
  }

  lemma BubbledRep(g: Graph, c: Cells, ar: Arena, sh: Shadow, u: nat, i: nat)
    requires SolveReady(g, u, i) && Rep(g, c, ar, sh)
    ensures var o := sh.off[u - g.m]; 0 <= o && o + 1 + i < |c.a| == |c.b|
    ensures Rep(Solve(g, u, i), Bubbled(c, sh.off[u - g.m], i), ar, sh)
  {
    BubbledBones(g, c, sh.off, u, i);
    BubbledLinks(g, c, ar, sh, u, i);
    var s := Solve(g, u, i);
    forall x: nat | x < g.co ensures RingStored(g.co, s.ring, s.sol, ar, sh, x) {
      assert RingStored(g.co, g.ring, g.sol, ar, sh, x);
    }
  }

  // ----- oc_delete_lower_end

  /** The arena after the cell p of the ring of x is unlinked. */
  function Unlinked(ar: Arena, x: nat, p: nat): Arena
    requires x < |ar.upper| && p < |ar.left| == |ar.right| && 0 <= ar.left[p] < |ar.left|
    requires 0 <= ar.right[p] < |ar.left|
  {
    ar.(upper := ar.upper[x := 0], left := ar.left[ar.right[p] := ar.left[p]],
        right := ar.right[ar.left[p] := ar.right[p]])
  }

  lemma RemoveBelow(x: nat, cells: seq<nat>, d: nat)
    requires d < |cells|
    ensures RemoveAt([x] + cells, d + 1) == [x] + RemoveAt(cells, d)
  {
    var s := [x] + cells;
    var a, b := RemoveAt(s, d + 1), [x] + RemoveAt(cells, d);
    forall k | 0 <= k < |cells| ensures a[k] == b[k] {
      assert a[k] == s[if k < d + 1 then k else k + 1];
    }
  }

  lemma UnlinkedRing(ar: Arena, owner: seq<nat>, co: nat, x: nat, cells: seq<nat>, ups: seq<nat>, d: nat)
    requires RingHeld(ar, owner, co, x, cells, ups) && d < |cells| && co <= |ar.upper|
    ensures var p := cells[d];
      && p < |ar.left| == |ar.right| && 0 <= ar.left[p] < |ar.left| && 0 <= ar.right[p] < |ar.left|
    ensures RingHeld(Unlinked(ar, x, cells[d]), owner, co, x, RemoveAt(cells, d), RemoveAt(ups, d))
  {
    HeldPlain(ar, owner, co, x, cells, ups);
    var s := [x] + cells;
    CircleCells(ar.left, ar.right, s, d + 1);
    assert LinkedAt(ar.left, ar.right, s, d + 1) && LinkedAt(ar.left, ar.right, s, d);
    var ar' := Unlinked(ar, x, cells[d]);
    assert Circle(ar'.left, ar'.right, [x] + RemoveAt(cells, d)) by {
      TakeOut(ar.left, ar.right, s, d + 1, ar'.left, ar'.right);
      RemoveBelow(x, cells, d);
    }
    var r := RemoveAt(cells, d);
    assert forall j :: 0 <= j < |r| ==> r[j] == cells[if j < d then j else j + 1];
  }

  /** Unlinking a cell of one ring leaves the other rings alone. */
  lemma UnlinkedElsewhere(ar: Arena, owner: seq<nat>, co: nat, x: nat, cells: seq<nat>, ups: seq<nat>, d: nat,
                          y: nat, cells': seq<nat>, ups': seq<nat>)
    requires RingHeld(ar, owner, co, x, cells, ups) && d < |cells| && co <= |ar.upper|
    requires RingHeld(ar, owner, co, y, cells', ups') && x != y
    requires var p := cells[d];
      && p < |ar.left| == |ar.right| && 0 <= ar.left[p] < |ar.left| && 0 <= ar.right[p] < |ar.left|
    ensures RingHeld(Unlinked(ar, x, cells[d]), owner, co, y, cells', ups')
  {
    HeldPlain(ar, owner, co, x, cells, ups);
    HeldPlain(ar, owner, co, y, cells', ups');
    var s, t := [x] + cells, [y] + cells';
    var ar' := Unlinked(ar, x, cells[d]);
    var p := cells[d];
    assert LinkedAt(ar.left, ar.right, s, d + 1) && LinkedAt(ar.left, ar.right, s, d);
    assert s[d + 1] == p && ar.left[p] == s[d] && ar.right[p] == After(s, d + 1);
    forall i | 0 <= i < |t|
      ensures t[i] < |ar.left| && ar'.left[t[i]] == ar.left[t[i]] && ar'.right[t[i]] == ar.right[t[i]]
    {
      CircleCells(ar.left, ar.right, t, i);
      OtherRing(owner, co, x, cells, d, y, cells', i);
      if d + 2 < |s| {
        OtherRing(owner, co, x, cells, d + 2, y, cells', i);
      } else {
        OtherRing(owner, co, x, cells, 0, y, cells', i);
      }
    }
    CircleFrame(ar.left, ar.right, t, ar'.left, ar'.right);
  }

  /** Cells of different rings are different; i and j count from the heads. */
  lemma OtherRing(owner: seq<nat>, co: nat, x: nat, cells: seq<nat>, i: nat, y: nat, cells': seq<nat>, j: nat)
    requires x < co && y < co && x != y && i <= |cells| && j <= |cells'|
    requires forall l :: 0 <= l < |cells| ==> co <= cells[l] < co + |owner| && owner[cells[l] - co] == x
    requires forall l :: 0 <= l < |cells'| ==> co <= cells'[l] < co + |owner| && owner[cells'[l] - co] == y
    ensures ([x] + cells)[i] != ([y] + cells')[j]
  {
    if i > 0 { assert ([x] + cells)[i] == cells[i - 1]; }
    if j > 0 { assert ([y] + cells')[j] == cells'[j - 1]; }
  }

  /** The state after the propagation rule, for the arrays. */
  lemma PropagatedRep(g: Graph, c: Cells, ar: Arena, sh: Shadow, from: nat, i: nat, d: nat)
    requires SolveReady(g, from, i) && |g.vcount| == |g.bones| && |g.ring| == g.co
    requires Rep(Solve(g, from, i), c, ar, sh)
    requires var x := g.bones[from - g.m].elems[i];
      RingHeld(ar, sh.owner, g.co, x, sh.rings[x], g.ring[x]) && d < |sh.rings[x]|
    requires var p := sh.rings[g.bones[from - g.m].elems[i]][d];
      p < |ar.left| && 0 <= ar.left[p] < |ar.left| && 0 <= ar.right[p] < |ar.left|
    ensures var x := g.bones[from - g.m].elems[i];
      Rep(Propagated(g, from, i), c, Unlinked(ar, x, sh.rings[x][d]), sh)
  {
    var s := Solve(g, from, i);
    var t := Propagated(g, from, i);
    var x := g.bones[from - g.m].elems[i];
    var ar' := Unlinked(ar, x, sh.rings[x][d]);
    forall y: nat | y < g.co ensures RingStored(g.co, t.ring, t.sol, ar', sh, y) {
      assert RingStored(g.co, s.ring, s.sol, ar, sh, y);
      if y != x && s.sol[y].None? {
        UnlinkedElsewhere(ar, sh.owner, g.co, x, sh.rings[x], g.ring[x], d, y, sh.rings[y], s.ring[y]);
      }
    }
    forall u: nat, j: nat | g.m <= u < g.m + |t.bones| && j < |t.bones[u - g.m].elems|
      ensures LinkAt(g.m, t.bones, sh.off, t.sol, c.b, ar'.upper, sh.rings, u, j)
    {
      assert LinkAt(g.m, s.bones, sh.off, s.sol, c.b, ar.upper, sh.rings, u, j);
      if j < s.bones[u - g.m].unknowns && Open(s.sol, u, s.bones[u - g.m].elems[j]) {
        LinkNotHead(s, c, ar, sh, u, j);
      }
    }
  }

  /** A link of an unsolved element never leads to a ring head. */
  lemma LinkNotHead(g: Graph, c: Cells, ar: Arena, sh: Shadow, u: nat, i: nat)
    requires Rep(g, c, ar, sh) && g.Upper(u) && i < |g.bones[u - g.m].elems|
    requires i < g.bones[u - g.m].unknowns && Open(g.sol, u, g.bones[u - g.m].elems[i])
    ensures 0 <= sh.off[u - g.m] && sh.off[u - g.m] + 1 + i < |c.b| && c.b[sh.off[u - g.m] + 1 + i] >= g.co
  {
    assert LinkAt(g.m, g.bones, sh.off, g.sol, c.b, ar.upper, sh.rings, u, i);
    var x := g.bones[u - g.m].elems[i];
    assert RingStored(g.co, g.ring, g.sol, ar, sh, x);
    OwnedPlain(sh.owner, g.co, x, sh.rings[x]);
  }

  /** The link that the propagation rule deletes is in its ring, at the place of the one entry that
      names `from`. */
  lemma LinkPlace(g: Graph, c: Cells, ar: Arena, sh: Shadow, from: nat, i: nat) returns (d: nat)
    requires StructureOf(g) && Rep(g, c, ar, sh) && OneLink(g, from, i)
    ensures var x := g.bones[from - g.m].elems[i]; var o := sh.off[from - g.m];
      && 0 <= o && o + 1 + i < |c.b| && d < |sh.rings[x]| == |g.ring[x]|
      && c.b[o + 1 + i] == sh.rings[x][d] && d == IndexOf(g.ring[x], from)
      && RingHeld(ar, sh.owner, g.co, x, sh.rings[x], g.ring[x])
      && sh.rings[x][d] < |ar.upper| && ar.upper[sh.rings[x][d]] == from
  {
    var b := g.bones[from - g.m];
    var x := b.elems[i];
    assert BoneFront(g.m, g.bones, g.sol, from);
    assert LinkAt(g.m, g.bones, sh.off, g.sol, c.b, ar.upper, sh.rings, from, i);
    assert RingStored(g.co, g.ring, g.sol, ar, sh, x);
    d :| 0 <= d < |sh.rings[x]| && sh.rings[x][d] == c.b[sh.off[from - g.m] + 1 + i];
    LinkInRing(g, from, i);
    assert NamesUpper(ar.upper, sh.rings[x], g.ring[x], d);
    assert g.ring[x][d] == from;
    if d != IndexOf(g.ring[x], from) {
      CountTwice(g.ring[x], d, IndexOf(g.ring[x], from));
    }
  }
}
