/** New edges and new bones in the arrays of oc_graph. */
module OcInsert {
  import opened Lists
  import opened Peeling
  import opened OcRings
  import opened OcStore

  // ----- oc_create_n_edge

  /** The arena after a new cell that names u was pushed to the left of head x. */
  function Pushed(ar: Arena, co: nat, x: nat, u: nat): Arena
    requires |ar.upper| == |ar.left| == |ar.right| && x < co && co + ar.next < |ar.left|
    requires 0 <= ar.left[x] < |ar.left|
  {
    var p := co + ar.next;
    Arena(ar.upper[x := 0][p := u], ar.left[p := ar.left[x]][x := p], ar.right[p := x][ar.left[x] := p], ar.next + 1)
  }

  function PushedShadow(sh: Shadow, co: nat, x: nat, p: nat): Shadow
    requires x < |sh.rings|
  {
    sh.(rings := sh.rings[x := sh.rings[x] + [p]], owner := sh.owner + [x])
  }

  lemma HeadLeft(ar: Arena, owner: seq<nat>, co: nat, x: nat, cells: seq<nat>, ups: seq<nat>)
    requires RingHeld(ar, owner, co, x, cells, ups)
    ensures x < |ar.left| == |ar.right| && 0 <= ar.left[x] < |ar.left|
    ensures ar.left[x] == ([x] + cells)[|cells|]
  {
    var s := [x] + cells;
    CircleCells(ar.left, ar.right, s, |cells|);
    assert LinkedAt(ar.left, ar.right, s, |cells|);
  }

  lemma PushedRing(ar: Arena, owner: seq<nat>, co: nat, x: nat, cells: seq<nat>, ups: seq<nat>, u: nat)
    requires RingHeld(ar, owner, co, x, cells, ups) && |owner| == ar.next
    requires |ar.upper| == |ar.left| == |ar.right| && co + ar.next < |ar.left| && 0 <= ar.left[x] < |ar.left|
    ensures RingHeld(Pushed(ar, co, x, u), owner + [x], co, x, cells + [co + ar.next], ups + [u])
  {
    HeldPlain(ar, owner, co, x, cells, ups);
    var p := co + ar.next;
    var s := [x] + cells;
    var ar' := Pushed(ar, co, x, u);
    HeadLeft(ar, owner, co, x, cells, ups);
    assert p !in s;
    assert s + [p] == [x] + (cells + [p]);
    PushLeft(ar.left, ar.right, s, p, ar'.left, ar'.right);
  }

  lemma PushedElsewhere(ar: Arena, owner: seq<nat>, co: nat, x: nat, cells: seq<nat>, ups: seq<nat>, u: nat,
                        y: nat, cells': seq<nat>, ups': seq<nat>)
    requires RingHeld(ar, owner, co, x, cells, ups) && |owner| == ar.next
    requires RingHeld(ar, owner, co, y, cells', ups') && x != y
    requires |ar.upper| == |ar.left| == |ar.right| && co + ar.next < |ar.left| && 0 <= ar.left[x] < |ar.left|
    ensures RingHeld(Pushed(ar, co, x, u), owner + [x], co, y, cells', ups')
  {
    HeldPlain(ar, owner, co, x, cells, ups);
    HeldPlain(ar, owner, co, y, cells', ups');
    var t := [y] + cells';
    var ar' := Pushed(ar, co, x, u);
    HeadLeft(ar, owner, co, x, cells, ups);
    forall i | 0 <= i < |t|
      ensures t[i] < |ar.left| && ar'.left[t[i]] == ar.left[t[i]] && ar'.right[t[i]] == ar.right[t[i]]
    {
      CircleCells(ar.left, ar.right, t, i);
      OtherRing(owner, co, x, cells, |cells|, y, cells', i);
      OtherRing(owner, co, x, cells, 0, y, cells', i);
    }
    CircleFrame(ar.left, ar.right, t, ar'.left, ar'.right);
  }

  lemma PushedRings(co: nat, ring: seq<seq<nat>>, sol: seq<Option<nat>>, ar: Arena, sh: Shadow, x: nat, u: nat)
    requires RingsStored(co, ring, sol, ar, sh) && x < co && sol[x].None? && |sh.owner| == ar.next
    requires |ar.upper| == |ar.left| == |ar.right| && co + ar.next < |ar.left|
    ensures 0 <= ar.left[x] < |ar.left|
    ensures RingsStored(co, ring[x := ring[x] + [u]], sol, Pushed(ar, co, x, u), PushedShadow(sh, co, x, co + ar.next))
  {
    assert RingStored(co, ring, sol, ar, sh, x);
    HeadLeft(ar, sh.owner, co, x, sh.rings[x], ring[x]);
    var ar', sh' := Pushed(ar, co, x, u), PushedShadow(sh, co, x, co + ar.next);
    var ring' := ring[x := ring[x] + [u]];
    forall y: nat | y < co ensures RingStored(co, ring', sol, ar', sh', y) {
      assert RingStored(co, ring, sol, ar, sh, y);
      if y == x {
        PushedRing(ar, sh.owner, co, x, sh.rings[x], ring[x], u);
      } else if sol[y].None? {
        PushedElsewhere(ar, sh.owner, co, x, sh.rings[x], ring[x], u, y, sh.rings[y], ring[y]);
      }
    }
  }

  /** A link of an unsolved element leads to a ring-fence cell that is in use. */
  ghost predicate LinkCell(co: nat, cb: seq<int>, ar: Arena, rings: seq<seq<nat>>, at: nat, u: nat, x: nat) {
    && at < |cb| && x < |rings| && co <= cb[at] < co + ar.next && co + ar.next <= |ar.upper|
    && ar.upper[cb[at]] == u && cb[at] in rings[x]
  }

  lemma LinkIsCell(m: nat, co: nat, bones: seq<Bone>, off: seq<int>, sol: seq<Option<nat>>, ring: seq<seq<nat>>,
                   cb: seq<int>, ar: Arena, sh: Shadow, u: nat, i: nat)
    requires m <= u < m + |bones| && |off| == |bones| && i < |bones[u - m].elems|
    requires LinkAt(m, bones, off, sol, cb, ar.upper, sh.rings, u, i)
    requires RingsStored(co, ring, sol, ar, sh) && |sh.owner| == ar.next && co + ar.next <= |ar.upper|
    requires i < bones[u - m].unknowns && Open(sol, u, bones[u - m].elems[i])
    ensures 0 <= off[u - m] && LinkCell(co, cb, ar, sh.rings, off[u - m] + 1 + i, u, bones[u - m].elems[i])
  {
    var x := bones[u - m].elems[i];
    assert RingStored(co, ring, sol, ar, sh, x);
    OwnedPlain(sh.owner, co, x, sh.rings[x]);
  }

  lemma PushedCell(co: nat, cb: seq<int>, ar: Arena, sh: Shadow, at: nat, u: nat, x: nat, y: nat, w: nat)
    requires LinkCell(co, cb, ar, sh.rings, at, u, x) && y < |sh.rings|
    requires |ar.upper| == |ar.left| == |ar.right| && y < co && co + ar.next < |ar.left| && 0 <= ar.left[y] < |ar.left|
    ensures LinkCell(co, cb, Pushed(ar, co, y, w), PushedShadow(sh, co, y, co + ar.next).rings, at, u, x)
  {
    assert y == x ==> forall p :: p in sh.rings[x] ==> p in sh.rings[x] + [co + ar.next];
  }

  lemma PushedLinks(m: nat, co: nat, bones: seq<Bone>, off: seq<int>, sol: seq<Option<nat>>, ring: seq<seq<nat>>,
                    cb: seq<int>, ar: Arena, sh: Shadow, y: nat, w: nat)
    requires LinksStored(m, bones, off, sol, cb, ar.upper, sh.rings)
    requires RingsStored(co, ring, sol, ar, sh) && |sh.owner| == ar.next
    requires |ar.upper| == |ar.left| == |ar.right| && y < co && co + ar.next < |ar.left| && 0 <= ar.left[y] < |ar.left|
    ensures LinksStored(m, bones, off, sol, cb, Pushed(ar, co, y, w).upper, PushedShadow(sh, co, y, co + ar.next).rings)
  {
    var ar', sh' := Pushed(ar, co, y, w), PushedShadow(sh, co, y, co + ar.next);
    forall u: nat, i: nat | m <= u < m + |bones| && i < |bones[u - m].elems|
      ensures LinkAt(m, bones, off, sol, cb, ar'.upper, sh'.rings, u, i)
    {
      assert LinkAt(m, bones, off, sol, cb, ar.upper, sh.rings, u, i);
      if i < bones[u - m].unknowns && Open(sol, u, bones[u - m].elems[i]) {
        LinkIsCell(m, co, bones, off, sol, ring, cb, ar, sh, u, i);
        PushedCell(co, cb, ar, sh, off[u - m] + 1 + i, u, bones[u - m].elems[i], y, w);
      }
    }
  }

  // ----- oc_check_bone

  ghost predicate UnknownPlaced(co: nat, c: Cells, ar: Arena, sh: Shadow, u: nat, o: nat, unk: seq<nat>, i: nat)
    requires i < |unk|
  {
    o + 1 + i < |c.a| && c.a[o + 1 + i] == unk[i] && LinkCell(co, c.b, ar, sh.rings, o + 1 + i, u, unk[i])
  }

  ghost predicate KnownPlaced(c: Cells, o: nat, size: nat, kn: seq<nat>, i: nat)
    requires i < |kn| <= size
  {
    o + 1 + size - |kn| + i < |c.a| && c.a[o + 1 + size - |kn| + i] == kn[i]
  }

  /** The bone under construction at o for check node u, with room for `size` members: the unknown
      members so far on the left, the known ones on the right, the node itself at the end. */
  ghost predicate Growing(co: nat, c: Cells, ar: Arena, sh: Shadow, u: nat, o: nat, size: nat, unk: seq<nat>,
                          kn: seq<nat>) {
    && |unk| + |kn| <= size && o + size + 1 < c.next <= |c.a| == |c.b|
    && c.b[o] == size + 1 && c.a[o + size + 1] == u
    && (forall i :: 0 <= i < |unk| ==> UnknownPlaced(co, c, ar, sh, u, o, unk, i))
    && (forall i :: 0 <= i < |kn| ==> KnownPlaced(c, o, size, kn, i))
  }

  /** What oc_check_bone keeps about the rest of the graph. */
  ghost predicate Around(g: Graph, ring: seq<seq<nat>>, c0: Cells, c: Cells, ar: Arena, sh: Shadow) {
    && BonesStored(g.m, g.bones, sh.off, c0)
    && LinksStored(g.m, g.bones, sh.off, g.sol, c0.b, ar.upper, sh.rings)
    && SelvesUnlinked(g.m, g.bones, sh.off, g.sol, c0.b)
    && RingsStored(g.co, ring, g.sol, ar, sh)
    && |sh.owner| == ar.next && |ar.upper| == |ar.left| == |ar.right| == g.co + |c.a|
    && c0.next <= |c0.a| == |c.a| == |c0.b| == |c.b|
    && c.a[..c0.next] == c0.a[..c0.next] && c.b[..c0.next] == c0.b[..c0.next]
  }

  lemma GrowUnknown(g: Graph, ring: seq<seq<nat>>, c0: Cells, c: Cells, ar: Arena, sh: Shadow,
                    u: nat, size: nat, unk: seq<nat>, kn: seq<nat>, x: nat)
    requires Around(g, ring, c0, c, ar, sh) && Growing(g.co, c, ar, sh, u, c0.next, size, unk, kn)
    requires |unk| + |kn| < size && x < g.co && g.sol[x].None? && ar.next <= c0.next + |unk|
    ensures 0 <= ar.left[x] < |ar.left|
    ensures var o, p := c0.next, g.co + ar.next;
      var c' := c.(a := c.a[o + 1 + |unk| := x], b := c.b[o + 1 + |unk| := p]);
      var ar', sh' := Pushed(ar, g.co, x, u), PushedShadow(sh, g.co, x, p);
      && Around(g, ring[x := ring[x] + [u]], c0, c', ar', sh')
      && Growing(g.co, c', ar', sh', u, o, size, unk + [x], kn)
  {
    PushedRings(g.co, ring, g.sol, ar, sh, x, u);
    PushedLinks(g.m, g.co, g.bones, sh.off, g.sol, ring, c0.b, ar, sh, x, u);
    var o, p := c0.next, g.co + ar.next;
    var c' := c.(a := c.a[o + 1 + |unk| := x], b := c.b[o + 1 + |unk| := p]);
    var ar', sh' := Pushed(ar, g.co, x, u), PushedShadow(sh, g.co, x, p);
    var unk' := unk + [x];
    forall i: nat | i < |unk'| ensures UnknownPlaced(g.co, c', ar', sh', u, o, unk', i) {
      if i < |unk| {
        assert UnknownPlaced(g.co, c, ar, sh, u, o, unk, i);
        PushedCell(g.co, c.b, ar, sh, o + 1 + i, u, unk[i], x, u);
      } else {
        assert sh'.rings[x][|sh.rings[x]|] == p;
      }
    }
    forall i: nat | i < |kn| ensures KnownPlaced(c', o, size, kn, i) {
      assert KnownPlaced(c, o, size, kn, i);
    }
  }

  lemma GrowKnown(g: Graph, ring: seq<seq<nat>>, c0: Cells, c: Cells, ar: Arena, sh: Shadow,
                  u: nat, size: nat, unk: seq<nat>, kn: seq<nat>, x: nat)
    requires Around(g, ring, c0, c, ar, sh) && Growing(g.co, c, ar, sh, u, c0.next, size, unk, kn)
    requires |unk| + |kn| < size
    ensures var at := c0.next + size - |kn|;
      var c' := c.(a := c.a[at := x], b := c.b[at := NULL]);
      Around(g, ring, c0, c', ar, sh) && Growing(g.co, c', ar, sh, u, c0.next, size, unk, [x] + kn)
  {
    var o := c0.next;
    var at := o + size - |kn|;
    var c' := c.(a := c.a[at := x], b := c.b[at := NULL]);
    var kn' := [x] + kn;
    forall i: nat | i < |unk| ensures UnknownPlaced(g.co, c', ar, sh, u, o, unk, i) {
      assert UnknownPlaced(g.co, c, ar, sh, u, o, unk, i);
    }
    forall i: nat | i < |kn'| ensures KnownPlaced(c', o, size, kn', i) {
      if 0 < i {
        assert KnownPlaced(c, o, size, kn, i - 1);
      }
    }
  }

  lemma BonesFrame(m: nat, bones: seq<Bone>, off: seq<int>, c0: Cells, c: Cells)
    requires BonesStored(m, bones, off, c0) && c0.next <= c.next <= |c.a| == |c.b| == |c0.a|
    requires c.a[..c0.next] == c0.a[..c0.next] && c.b[..c0.next] == c0.b[..c0.next]
    ensures BonesStored(m, bones, off, c)
  {
    assert forall i :: 0 <= i < c0.next ==> c.a[i] == c.a[..c0.next][i] && c.b[i] == c.b[..c0.next][i];
    forall u: nat | m <= u < m + |bones| ensures BoneStored(m, bones, off, c, u) {
      assert BoneStored(m, bones, off, c0, u);
    }
  }

  /** The finished bone becomes the bone of the next node. */
  lemma GrownBones(m: nat, bones: seq<Bone>, off: seq<int>, c0: Cells, c: Cells, b: Bone)
    requires BonesStored(m, bones, off, c0) && BonesStored(m, bones, off, c)
    requires b.elems != [] && c0.next + |b.elems| < c.next
    requires c.a[c0.next] == b.unknowns && c.b[c0.next] == |b.elems| && ElemsStored(c.a, c0.next, b.elems)
    ensures BonesStored(m, bones + [b], off + [c0.next], c)
  {
    var bones', off' := bones + [b], off + [c0.next as int];
    forall u: nat | m <= u < m + |bones'| ensures BoneStored(m, bones', off', c, u) {
      if u < m + |bones| { assert BoneStored(m, bones, off, c, u); }
    }
    forall u: nat, w: nat | m <= u < m + |bones'| && m <= w < m + |bones'| ensures Apart(m, bones', off', u, w) {
      if u < m + |bones| {
        assert BoneStored(m, bones, off, c0, u);
        if w < m + |bones| { assert Apart(m, bones, off, u, w); }
      }
    }
  }

  lemma GrownElems(co: nat, c: Cells, ar: Arena, sh: Shadow, u: nat, o: nat, size: nat, unk: seq<nat>, kn: seq<nat>)
    requires Growing(co, c, ar, sh, u, o, size, unk, kn) && |unk| + |kn| == size
    ensures ElemsStored(c.a, o, unk + kn + [u])
  {
    var elems := unk + kn + [u];
    forall i: nat | i < |elems| ensures c.a[o + 1 + i] == elems[i] {
      if i < |unk| {
        assert UnknownPlaced(co, c, ar, sh, u, o, unk, i);
      } else if i < |unk| + |kn| {
        assert KnownPlaced(c, o, size, kn, i - |unk|);
      }
    }
  }

  lemma GrownLinks(g: Graph, ring: seq<seq<nat>>, c0: Cells, c: Cells, ar: Arena, sh: Shadow, u: nat,
                   size: nat, unk: seq<nat>, kn: seq<nat>)
    requires Around(g, ring, c0, c, ar, sh) && Growing(g.co, c, ar, sh, u, c0.next, size, unk, kn)
    requires u == g.m + |g.bones| && g.co <= u
    ensures var b := Bone(|unk|, unk + kn + [u]);
      && LinksStored(g.m, g.bones + [b], sh.off + [c0.next], g.sol, c.b, ar.upper, sh.rings)
      && SelvesUnlinked(g.m, g.bones + [b], sh.off + [c0.next], g.sol, c.b)
  {
    var b := Bone(|unk|, unk + kn + [u]);
    var bones', off' := g.bones + [b], sh.off + [c0.next as int];
    assert forall i :: 0 <= i < c0.next ==> c.b[i] == c.b[..c0.next][i] && c0.b[i] == c0.b[..c0.next][i];
    forall w: nat, i: nat | g.m <= w < g.m + |bones'| && i < |bones'[w - g.m].elems|
      ensures LinkAt(g.m, bones', off', g.sol, c.b, ar.upper, sh.rings, w, i)
      ensures SelfUnlinked(g.m, bones', off', g.sol, c.b, w, i)
    {
      if w < u {
        OldLinks(g, c0, c, ar, sh, w, i);
      } else if i < |unk| {
        assert UnknownPlaced(g.co, c, ar, sh, u, c0.next, unk, i);
      }
    }
  }

  lemma OldLinks(g: Graph, c0: Cells, c: Cells, ar: Arena, sh: Shadow, w: nat, i: nat)
    requires BonesStored(g.m, g.bones, sh.off, c0)
    requires LinksStored(g.m, g.bones, sh.off, g.sol, c0.b, ar.upper, sh.rings)
    requires SelvesUnlinked(g.m, g.bones, sh.off, g.sol, c0.b)
    requires |c0.b| == |c.b| && forall j :: 0 <= j < c0.next ==> c.b[j] == c0.b[j]
    requires g.Upper(w) && i < |g.bones[w - g.m].elems|
    ensures LinkAt(g.m, g.bones, sh.off, g.sol, c.b, ar.upper, sh.rings, w, i)
    ensures SelfUnlinked(g.m, g.bones, sh.off, g.sol, c.b, w, i)
  {
    assert BoneStored(g.m, g.bones, sh.off, c0, w);
    assert LinkAt(g.m, g.bones, sh.off, g.sol, c0.b, ar.upper, sh.rings, w, i);
    assert SelfUnlinked(g.m, g.bones, sh.off, g.sol, c0.b, w, i);
  }

  lemma GrownHeader(g: Graph, c0: Cells, c: Cells, ar: Arena, sh: Shadow, ring: seq<seq<nat>>, u: nat, size: nat,
                    unk: seq<nat>, kn: seq<nat>)
    requires Around(g, ring, c0, c, ar, sh) && Growing(g.co, c, ar, sh, u, c0.next, size, unk, kn)
    requires |unk| + |kn| == size && u == g.m + |g.bones|
    ensures BonesStored(g.m, g.bones + [Bone(|unk|, unk + kn + [u])], sh.off + [c0.next],
                        c.(a := c.a[c0.next := |unk|]))
  {
    var o := c0.next;
    var c' := c.(a := c.a[o := |unk|]);
    assert ElemsStored(c.a, o, unk + kn + [u]) by { GrownElems(g.co, c, ar, sh, u, o, size, unk, kn); }
    assert ElemsStored(c'.a, o, unk + kn + [u]);
    assert BonesStored(g.m, g.bones, sh.off, c') by {
      assert c'.a[..o] == c.a[..o];
      BonesFrame(g.m, g.bones, sh.off, c0, c');
    }
    GrownBones(g.m, g.bones, sh.off, c0, c', Bone(|unk|, unk + kn + [u]));
  }

  lemma SameRings(co: nat, ring: seq<seq<nat>>, sol: seq<Option<nat>>, ar: Arena, sh: Shadow, off: seq<int>)
    requires RingsStored(co, ring, sol, ar, sh)
    ensures RingsStored(co, ring, sol, ar, sh.(off := off))
  {
    forall x: nat | x < co ensures RingStored(co, ring, sol, ar, sh.(off := off), x) {
      assert RingStored(co, ring, sol, ar, sh, x);
    }
  }

  /** r is g with the finished bone of the next node added. */
  ghost predicate GrownInto(g: Graph, r: Graph, ring: seq<seq<nat>>, unk: seq<nat>, kn: seq<nat>) {
    && r.m == g.m && r.co == g.co && r.sol == g.sol && r.ring == ring
    && r.bones == g.bones + [Bone(|unk|, unk + kn + [g.m + |g.bones|])]
  }

  lemma GrownRep(g: Graph, r: Graph, c0: Cells, c: Cells, ar: Arena, sh: Shadow, ring: seq<seq<nat>>, size: nat,
                 unk: seq<nat>, kn: seq<nat>)
    requires g.co <= g.m + |g.bones| && Around(g, ring, c0, c, ar, sh) && GrownInto(g, r, ring, unk, kn)
    requires Growing(g.co, c, ar, sh, g.m + |g.bones|, c0.next, size, unk, kn)
    requires ar.next <= c0.next + |unk| && |unk| + |kn| == size
    ensures Rep(r, c.(a := c.a[c0.next := |unk|]), ar, sh.(off := sh.off + [c0.next]))
  {
    var u := g.m + |g.bones|;
    var c' := c.(a := c.a[c0.next := |unk|]);
    var sh' := sh.(off := sh.off + [c0.next]);
    assert BonesStored(r.m, r.bones, sh'.off, c') by { GrownHeader(g, c0, c, ar, sh, ring, u, size, unk, kn); }
    assert LinksStored(r.m, r.bones, sh'.off, r.sol, c'.b, ar.upper, sh'.rings)
        && SelvesUnlinked(r.m, r.bones, sh'.off, r.sol, c'.b) by {
      GrownLinks(g, ring, c0, c, ar, sh, u, size, unk, kn);
    }
    assert RingsStored(r.co, r.ring, r.sol, ar, sh') by { SameRings(g.co, ring, g.sol, ar, sh, sh'.off); }
  }

  lemma {:induction false} AddEdgesLast(ring: seq<seq<nat>>, s: seq<nat>, x: nat, u: nat)
    requires Within(s, 0, |ring|) && x < |ring|
    ensures Within(s + [x], 0, |ring|)
    ensures AddEdges(ring, s + [x], u) == AddEdges(ring, s, u)[x := AddEdges(ring, s, u)[x] + [u]]
    decreases |s|
  {
    if s == [] {
      assert s + [x] == [x];
    } else {
      assert (s + [x])[1..] == s[1..] + [x];
      AddEdgesLast(ring[s[0] := ring[s[0]] + [u]], s[1..], x, u);
    }
  }

  lemma {:induction false} UnsolvedLast(sol: seq<Option<nat>>, s: seq<nat>, x: nat)
    requires Within(s, 0, |sol|) && x < |sol|
    ensures Within(s + [x], 0, |sol|)
    ensures UnsolvedOf(sol, s + [x]) == UnsolvedOf(sol, s) + (if sol[x].None? then [x] else [])
  {
    var t := s + [x];
    if s != [] {
      var r := s[1..];
      assert t[1..] == r + [x];
      UnsolvedLast(sol, r, x);
    }
  }

  lemma {:induction false} SolvedLast(sol: seq<Option<nat>>, s: seq<nat>, x: nat)
    requires Within(s, 0, |sol|) && x < |sol|
    ensures Within(s + [x], 0, |sol|)
    ensures SolvedOf(sol, s + [x]) == (if sol[x].Some? then [x] else []) + SolvedOf(sol, s)
  {
    var t := s + [x];
    if s != [] {
      var r := s[1..];
      assert t[1..] == r + [x];
      SolvedLast(sol, r, x);
    }
  }

  lemma {:induction false} PartsLength(sol: seq<Option<nat>>, s: seq<nat>)
    requires Within(s, 0, |sol|)
    ensures |UnsolvedOf(sol, s)| + |SolvedOf(sol, s)| == |s|
  {
    if s != [] {
      PartsLength(sol, s[1..]);
    }
  }

  // ----- the loop of oc_check_bone

  /** The loop has read the list `seen`; the bone of node u is growing at c0.next. */
  ghost predicate Reading(g: Graph, c0: Cells, c: Cells, ar: Arena, sh: Shadow, u: nat, size: nat, seen: seq<nat>)
    requires |g.ring| == |g.sol| && Within(seen, 0, |g.sol|)
  {
    var unk, kn := UnsolvedOf(g.sol, seen), SolvedOf(g.sol, seen);
    && |g.sol| == g.co && |unk| + |kn| == |seen| && ar.next <= c0.next + |unk|
    && Around(g, AddEdges(g.ring, unk, u), c0, c, ar, sh)
    && Growing(g.co, c, ar, sh, u, c0.next, size, unk, kn)
  }

  lemma ReadUnknown(g: Graph, c0: Cells, c: Cells, ar: Arena, sh: Shadow, u: nat, size: nat, seen: seq<nat>, x: nat)
    requires |g.ring| == |g.sol| && Within(seen, 0, |g.sol|) && Reading(g, c0, c, ar, sh, u, size, seen)
    requires |seen| < size && x < g.co && g.sol[x].None?
    ensures Within(seen + [x], 0, |g.sol|) && 0 <= ar.left[x] < |ar.left| && g.co + ar.next < |ar.left|
    ensures var at, p := c0.next + 1 + |UnsolvedOf(g.sol, seen)|, g.co + ar.next;
      && at < |c.a| == |c.b|
      && Reading(g, c0, c.(a := c.a[at := x], b := c.b[at := p]), Pushed(ar, g.co, x, u), PushedShadow(sh, g.co, x, p),
                 u, size, seen + [x])
  {
    var unk, kn := UnsolvedOf(g.sol, seen), SolvedOf(g.sol, seen);
    GrowUnknown(g, AddEdges(g.ring, unk, u), c0, c, ar, sh, u, size, unk, kn, x);
    AddEdgesLast(g.ring, unk, x, u);
    UnsolvedLast(g.sol, seen, x);
    SolvedLast(g.sol, seen, x);
    assert [] + kn == kn;
  }

  lemma ReadKnown(g: Graph, c0: Cells, c: Cells, ar: Arena, sh: Shadow, u: nat, size: nat, seen: seq<nat>, x: nat)
    requires |g.ring| == |g.sol| && Within(seen, 0, |g.sol|) && Reading(g, c0, c, ar, sh, u, size, seen)
    requires |seen| < size && x < g.co && g.sol[x].Some?
    ensures Within(seen + [x], 0, |g.sol|)
    ensures var at := c0.next + size - |SolvedOf(g.sol, seen)|;
      && 0 <= at < |c.a| == |c.b|
      && Reading(g, c0, c.(a := c.a[at := x], b := c.b[at := NULL]), ar, sh, u, size, seen + [x])
  {
    var unk, kn := UnsolvedOf(g.sol, seen), SolvedOf(g.sol, seen);
    GrowKnown(g, AddEdges(g.ring, unk, u), c0, c, ar, sh, u, size, unk, kn, x);
    UnsolvedLast(g.sol, seen, x);
    SolvedLast(g.sol, seen, x);
    assert unk + [] == unk;
  }

  // ----- a check block that found no room

  lemma HoleBones(m: nat, bones: seq<Bone>, off: seq<int>, c: Cells)
    requires BonesStored(m, bones, off, c)
    ensures BonesStored(m, bones + [Bone(0, [])], off + [NULL], c)
  {
    var bones', off' := bones + [Bone(0, [])], off + [NULL];
    forall u: nat | m <= u < m + |bones'| ensures BoneStored(m, bones', off', c, u) {
      if u < m + |bones| { assert BoneStored(m, bones, off, c, u); }
    }
    forall u: nat, w: nat | m <= u < m + |bones'| && m <= w < m + |bones'| ensures Apart(m, bones', off', u, w) {
      if u < m + |bones| && w < m + |bones| { assert Apart(m, bones, off, u, w); }
    }
  }

  lemma HoleRep(g: Graph, c: Cells, ar: Arena, sh: Shadow)
    requires Rep(g, c, ar, sh)
    ensures Rep(AddHole(g), c, ar, sh.(off := sh.off + [NULL]))
  {
    var r, off' := AddHole(g), sh.off + [NULL];
    assert BonesStored(r.m, r.bones, off', c) by { HoleBones(g.m, g.bones, sh.off, c); }
    assert RingsStored(g.co, g.ring, g.sol, ar, sh.(off := off')) by { SameRings(g.co, g.ring, g.sol, ar, sh, off'); }
    forall w: nat, i: nat | g.m <= w < g.m + |r.bones| && i < |r.bones[w - g.m].elems|
      ensures LinkAt(g.m, r.bones, off', g.sol, c.b, ar.upper, sh.rings, w, i)
      ensures SelfUnlinked(g.m, r.bones, off', g.sol, c.b, w, i)
    {
      assert LinkAt(g.m, g.bones, sh.off, g.sol, c.b, ar.upper, sh.rings, w, i);
      assert SelfUnlinked(g.m, g.bones, sh.off, g.sol, c.b, w, i);
    }
  }
}
