/** The doubly linked rings of reciprocal edges, on the contents of the arena arrays.

    Cells 0 .. co - 1 are the ring heads in graph->bottom; cells from co on are carved out of
    graph->ringfence in order. */
module OcRings {
  import opened Lists

  /** The cell after position i, going right around the ring. */
  function After(s: seq<nat>, i: nat): nat
    requires i < |s|
  {
    if i + 1 < |s| then s[i + 1] else s[0]
  }

  ghost predicate LinkedAt(left: seq<int>, right: seq<int>, s: seq<nat>, i: nat)
    requires i < |s|
  {
    && s[i] < |right| && After(s, i) < |left|
    && right[s[i]] == After(s, i) && left[After(s, i)] == s[i]
  }

  /** s lists a ring once around, head first. */
  ghost predicate Circle(left: seq<int>, right: seq<int>, s: seq<nat>) {
    && |left| == |right| && s != []
    && (forall i :: 0 <= i < |s| ==> LinkedAt(left, right, s, i))
    && (forall i, j :: 0 <= i < |s| && 0 <= j < |s| && i != j ==> Differ(s, i, j))
  }

  ghost predicate Differ(s: seq<nat>, i: nat, j: nat)
    requires i < |s| && j < |s|
  {
    s[i] != s[j]
  }

  /** Ring cell i was made for x. */
  ghost predicate Owned(owner: seq<nat>, co: nat, x: nat, ring: seq<nat>, i: nat)
    requires i < |ring|
  {
    co <= ring[i] < co + |owner| && owner[ring[i] - co] == x
  }

  /** The ring of head x holds the cells of ring, each owned by x. */
  ghost predicate RingOf(left: seq<int>, right: seq<int>, owner: seq<nat>, co: nat, x: nat, ring: seq<nat>) {
    && x < co && Circle(left, right, [x] + ring)
    && (forall i :: 0 <= i < |ring| ==> Owned(owner, co, x, ring, i))
  }

  lemma CirclePlain(left: seq<int>, right: seq<int>, s: seq<nat>)
    requires Circle(left, right, s)
    ensures forall i, j :: 0 <= i < j < |s| ==> s[i] != s[j]
  {
    forall i, j | 0 <= i < j < |s| ensures s[i] != s[j] { assert Differ(s, i, j); }
  }

  lemma OwnedPlain(owner: seq<nat>, co: nat, x: nat, ring: seq<nat>)
    requires forall i :: 0 <= i < |ring| ==> Owned(owner, co, x, ring, i)
    ensures forall i :: 0 <= i < |ring| ==> co <= ring[i] < co + |owner| && owner[ring[i] - co] == x
  {
    forall i | 0 <= i < |ring| ensures co <= ring[i] < co + |owner| && owner[ring[i] - co] == x {
      assert Owned(owner, co, x, ring, i);
    }
  }

  lemma CircleCells(left: seq<int>, right: seq<int>, s: seq<nat>, i: nat)
    requires Circle(left, right, s) && i < |s|
    ensures s[i] < |left|
  {
    assert LinkedAt(left, right, s, i);
  }

  /** oc_create_n_edge pushes the new cell p to the left of the head. */
  lemma PushLeft(left: seq<int>, right: seq<int>, s: seq<nat>, p: nat, left': seq<int>, right': seq<int>)
    requires Circle(left, right, s) && p < |left| && p !in s && s[0] < |left|
    requires 0 <= left[s[0]] < |left|
    requires left' == left[p := left[s[0]]][s[0] := p]
    requires right' == right[p := s[0]][left[s[0]] := p]
    ensures Circle(left', right', s + [p])
  {
    var n := |s|;
    var t := s + [p];
    CirclePlain(left, right, s);
    assert LinkedAt(left, right, s, n - 1);
    assert left[s[0]] == s[n - 1];
    forall i | 0 <= i < |t| ensures LinkedAt(left', right', t, i) {
      if i < n {
        assert LinkedAt(left, right, s, i);
      }
    }
  }

  /** oc_delete_lower_end takes out the cell at position d. */
  lemma TakeOut(left: seq<int>, right: seq<int>, s: seq<nat>, d: nat, left': seq<int>, right': seq<int>)
    requires Circle(left, right, s) && 0 < d < |s| && s[d] < |left|
    requires 0 <= left[s[d]] < |left| && 0 <= right[s[d]] < |left|
    requires left' == left[right[s[d]] := left[s[d]]]
    requires right' == right[left[s[d]] := right[s[d]]]
    ensures Circle(left', right', RemoveAt(s, d))
  {
    var t := RemoveAt(s, d);
    CirclePlain(left, right, s);
    assert LinkedAt(left, right, s, d) && LinkedAt(left, right, s, d - 1);
    assert left[s[d]] == s[d - 1] && right[s[d]] == After(s, d);
    assert forall j :: 0 <= j < |t| ==> t[j] == s[if j < d then j else j + 1];
    forall i | 0 <= i < |t| ensures LinkedAt(left', right', t, i) {
      var j := if i < d then i else i + 1;
      assert LinkedAt(left, right, s, j);
      if i == d - 1 {
        assert After(t, i) == After(s, d);
      } else {
        assert After(t, i) == After(s, j);
        assert s[j] != s[d - 1];
        AfterInjective(s, j, d);
      }
    }
  }

  lemma AfterInjective(s: seq<nat>, i: nat, j: nat)
    requires i < |s| && j < |s| && i != j && forall a, b :: 0 <= a < b < |s| ==> s[a] != s[b]
    ensures After(s, i) != After(s, j)
  {
  }

  /** Rings do not notice writes to cells that are not theirs. */
  lemma CircleFrame(left: seq<int>, right: seq<int>, s: seq<nat>, left': seq<int>, right': seq<int>)
    requires Circle(left, right, s) && |left'| == |right'| && |left'| >= |left|
    requires forall i :: 0 <= i < |s| ==> s[i] < |left| && left'[s[i]] == left[s[i]] && right'[s[i]] == right[s[i]]
    ensures Circle(left', right', s)
  {
    CirclePlain(left, right, s);
    forall i | 0 <= i < |s| ensures LinkedAt(left', right', s, i) {
      assert LinkedAt(left, right, s, i);
      var j := if i + 1 < |s| then i + 1 else 0;
      assert After(s, i) == s[j];
    }
  }
}
