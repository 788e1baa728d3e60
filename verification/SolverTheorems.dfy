/** perpetual.c, the solver as a whole: when it recovers the message. */
module SolverTheorems {
  import opened Counters
  import opened Fields
  import opened Vectors
  import opened Perpetual
  import opened SolverRows
  import opened BackSubstitution

  // ----- forward propagation, the square matrix and back-substitution together

  ghost predicate SquareRowOk<T(!new)>(o: Ops<T>, z: Shape, u: seq<seq<T>>, us: seq<seq<T>>, r: nat) {
    && r < |u| && r < |us| && |u[r]| == z.alpha && In(o, u[r]) && |us[r]| == z.width && In(o, us[r])
    && UnitUpper(o, u[r], r)
  }

  /** A unit upper triangular matrix of the last alpha elements, with its symbols. */
  ghost predicate SquareOk<T(!new)>(o: Ops<T>, z: Shape, u: seq<seq<T>>, us: seq<seq<T>>) {
    |u| == |us| == z.alpha && forall r: nat :: r < z.alpha ==> SquareRowOk(o, z, u, us, r)
  }

  /** The last alpha rows of the decoder replaced by the square matrix. */
  function Rebuilt<T(!new)>(o: Ops<T>, z: Shape, d: Decoder<T>, u: seq<seq<T>>, us: seq<seq<T>>): (e: Decoder<T>)
    requires ShapeOk(z) && |d.coding| == |d.symbol| == z.gen && |u| == |us| == z.alpha
    requires forall r :: 0 <= r < z.alpha ==> |u[r]| == z.alpha
    ensures |e.coding| == |e.symbol| == z.gen
  {
    var p := z.gen - z.alpha;
    Decoder(d.filled, d.coding[..p] + seq(z.alpha, (r: nat) requires r < z.alpha && r < |u| && |u[r]| == z.alpha =>
                                                     Restored(o, z, r, u[r])),
            d.symbol[..p] + us)
  }

  lemma SquareLengths<T(!new)>(o: Ops<T>, z: Shape, u: seq<seq<T>>, us: seq<seq<T>>)
    requires SquareOk(o, z, u, us)
    ensures forall r :: 0 <= r < z.alpha ==> |u[r]| == z.alpha
  {
    forall r | 0 <= r < z.alpha ensures |u[r]| == z.alpha { assert SquareRowOk(o, z, u, us, r); }
  }

  lemma RebuiltOk<T(!new)>(o: Ops<T>, z: Shape, d: Decoder<T>, u: seq<seq<T>>, us: seq<seq<T>>)
    requires IsField(o) && ShapeOk(z) && DecoderOk(o, z, d) && AllFilled(d) && SquareOk(o, z, u, us)
    ensures forall r :: 0 <= r < z.alpha ==> |u[r]| == z.alpha
    ensures Triangular(o, z, Rebuilt(o, z, d, u, us))
  {
    SquareLengths(o, z, u, us);
    var e, p := Rebuilt(o, z, d, u, us), z.gen - z.alpha;
    forall i | 0 <= i < z.gen ensures RowAtOk(o, z, e, i) && Below(o, e.coding[i], i, z.gen) {
      if i < p {
        assert RowAtOk(o, z, d, i);
        Short(o, z, e.coding[i], i);
      } else {
        assert SquareRowOk(o, z, u, us, i - p);
        RestoredBelow(o, z, i - p, u[i - p]);
        assert In(o, Restored(o, z, i - p, u[i - p])) by { RestoredMeans(o, z, i - p, u[i - p], Zeros(o, z.gen)); }
      }
    }
  }

  /** Row r of the square matrix and the decoder's row that it is written back to. */
  lemma RebuiltRow<T(!new)>(o: Ops<T>, z: Shape, ms: seq<seq<T>>, d: Decoder<T>, u: seq<seq<T>>, us: seq<seq<T>>,
                            r: nat)
    requires IsField(o) && ShapeOk(z) && MessageOk(o, z, ms) && DecoderOk(o, z, d) && AllFilled(d)
    requires SquareOk(o, z, u, us) && r < z.alpha && SquareRowOk(o, z, u, us, r)
    requires forall k :: 0 <= k < z.alpha ==> |u[k]| == z.alpha
    requires DecoderOk(o, z, Rebuilt(o, z, d, u, us))
    ensures RowHolds(o, z, ms, Rebuilt(o, z, d, u, us), z.gen - z.alpha + r) <==> SolvesSquare(o, z, ms, u[r], us[r])
  {
    var e, i := Rebuilt(o, z, d, u, us), z.gen - z.alpha + r;
    assert RowAtOk(o, z, e, i);
    forall b | 0 <= b < z.width
      ensures HoldsAt(o, z, ms, i, e.coding[i], e.symbol[i], b) <==> SolvesSquareAt(o, z, ms, u[r], us[r], b)
    {
      assert ColumnAtOk(o, z, ms, b);
      RestoredMeans(o, z, r, u[r], ms[b]);
    }
  }

  ghost predicate SquareSolved<T(!new)>(o: Ops<T>, z: Shape, ms: seq<seq<T>>, u: seq<seq<T>>, us: seq<seq<T>>)
    requires IsField(o) && ShapeOk(z) && MessageOk(o, z, ms) && SquareOk(o, z, u, us)
  {
    forall r: nat :: r < z.alpha ==> SquareRowSolved(o, z, ms, u, us, r)
  }

  ghost predicate SquareRowSolved<T(!new)>(o: Ops<T>, z: Shape, ms: seq<seq<T>>, u: seq<seq<T>>, us: seq<seq<T>>,
                                           r: nat)
    requires IsField(o) && ShapeOk(z) && MessageOk(o, z, ms) && SquareOk(o, z, u, us) && r < z.alpha
  {
    assert SquareRowOk(o, z, u, us, r);
    SolvesSquare(o, z, ms, u[r], us[r])
  }

  /** Row j of the reduced matrix: the part of the swept row that is not zero. */
  ghost predicate ReducedRowSolved<T(!new)>(o: Ops<T>, z: Shape, ms: seq<seq<T>>, d: Decoder<T>, j: nat)
    requires IsField(o) && ShapeOk(z) && MessageOk(o, z, ms) && Sized(z, d)
  {
    && j < z.alpha
    && var w := SweptRow(o, z, d, j);
    && In(o, w.row[z.gen - z.alpha..]) && SolvesSquare(o, z, ms, w.row[z.gen - z.alpha..], w.sym)
  }

  ghost predicate ReducedSolved<T(!new)>(o: Ops<T>, z: Shape, ms: seq<seq<T>>, d: Decoder<T>)
    requires IsField(o) && ShapeOk(z) && MessageOk(o, z, ms) && Sized(z, d)
  {
    forall j: nat :: j < z.alpha ==> ReducedRowSolved(o, z, ms, d, j)
  }

  ghost predicate HeadHolds<T(!new)>(o: Ops<T>, z: Shape, ms: seq<seq<T>>, d: Decoder<T>)
    requires IsField(o) && ShapeOk(z) && MessageOk(o, z, ms) && DecoderOk(o, z, d)
  {
    forall i :: 0 <= i < z.gen - z.alpha ==> RowHolds(o, z, ms, d, i)
  }

  /** The decoder's system splits into its first rows and the reduced matrix. */
  lemma ReducedSplits<T(!new)>(o: Ops<T>, z: Shape, ms: seq<seq<T>>, d: Decoder<T>)
    requires IsField(o) && ShapeOk(z) && MessageOk(o, z, ms) && DecoderOk(o, z, d) && AllFilled(d)
    ensures Sized(z, d)
    ensures Solves(o, z, ms, d) <==> HeadHolds(o, z, ms, d) && ReducedSolved(o, z, ms, d)
  {
    Lengths(o, z, d);
    var p := z.gen - z.alpha;
    if HeadHolds(o, z, ms, d) {
      forall j: nat | j < z.alpha ensures ReducedRowSolved(o, z, ms, d, j) <==> RowHolds(o, z, ms, d, p + j) {
        ReducedMeans(o, z, ms, d, j);
      }
      if ReducedSolved(o, z, ms, d) {
        forall i | 0 <= i < z.gen ensures RowHolds(o, z, ms, d, i) {
          if i >= p { assert ReducedRowSolved(o, z, ms, d, i - p); }
        }
      }
      if Solves(o, z, ms, d) {
        forall j: nat | j < z.alpha ensures ReducedRowSolved(o, z, ms, d, j) { assert RowHolds(o, z, ms, d, p + j); }
      }
    }
  }

  lemma RebuiltSplits<T(!new)>(o: Ops<T>, z: Shape, ms: seq<seq<T>>, d: Decoder<T>, u: seq<seq<T>>, us: seq<seq<T>>)
    requires IsField(o) && ShapeOk(z) && MessageOk(o, z, ms) && DecoderOk(o, z, d) && AllFilled(d)
    requires SquareOk(o, z, u, us)
    requires forall r :: 0 <= r < z.alpha ==> |u[r]| == z.alpha
    requires DecoderOk(o, z, Rebuilt(o, z, d, u, us))
    ensures Solves(o, z, ms, Rebuilt(o, z, d, u, us)) <==> HeadHolds(o, z, ms, d) && SquareSolved(o, z, ms, u, us)
  {
    var e, p := Rebuilt(o, z, d, u, us), z.gen - z.alpha;
    forall i | 0 <= i < p ensures RowHolds(o, z, ms, e, i) <==> RowHolds(o, z, ms, d, i) {
      assert RowAtOk(o, z, d, i) && RowAtOk(o, z, e, i);
    }
    forall r: nat | r < z.alpha ensures SquareRowSolved(o, z, ms, u, us, r) <==> RowHolds(o, z, ms, e, p + r) {
      assert SquareRowOk(o, z, u, us, r);
      RebuiltRow(o, z, ms, d, u, us, r);
    }
    if HeadHolds(o, z, ms, d) && SquareSolved(o, z, ms, u, us) {
      forall i | 0 <= i < z.gen ensures RowHolds(o, z, ms, e, i) {
        if i >= p { assert SquareRowSolved(o, z, ms, u, us, i - p); }
      }
    }
    if Solves(o, z, ms, e) {
      forall r: nat | r < z.alpha ensures SquareRowSolved(o, z, ms, u, us, r) { assert RowHolds(o, z, ms, e, p + r); }
      forall i | 0 <= i < p ensures RowHolds(o, z, ms, d, i) { assert RowHolds(o, z, ms, e, i); }
    }
  }

  /** A complete decoder's rows are satisfied by one message only, the one that the solver leaves in the
      symbols, provided that the square matrix it goes on with has the solutions of the reduced one. */
  lemma SolverRecovers<T(!new)>(o: Ops<T>, z: Shape, ms: seq<seq<T>>, limit: nat, d: Decoder<T>,
                                u: seq<seq<T>>, us: seq<seq<T>>)
    requires IsField(o) && ShapeOk(z) && MessageOk(o, z, ms) && DecoderOk(o, z, d) && AllFilled(d)
    requires SquareOk(o, z, u, us) && z.alpha <= limit && Sized(z, d)
    requires SquareSolved(o, z, ms, u, us) <==> ReducedSolved(o, z, ms, d)
    ensures (forall r :: 0 <= r < z.alpha ==> |u[r]| == z.alpha) && Sized(z, Rebuilt(o, z, d, u, us))
    ensures Solves(o, z, ms, d) <==> Spells(z, ms, Back(o, z, limit, Rebuilt(o, z, d, u, us), 1).symbol)
  {
    RebuiltOk(o, z, d, u, us);
    ReducedSplits(o, z, ms, d);
    RebuiltSplits(o, z, ms, d, u, us);
    BackSolves(o, z, ms, limit, Rebuilt(o, z, d, u, us));
  }

  // ----- the counter of back-substitution

  /** No coefficient that a counter of limit values reaches. */
  ghost predicate Unreached<T(!new)>(o: Ops<T>, z: Shape, limit: nat, d: Decoder<T>)
    requires Sized(z, d)
  {
    forall i :: 0 <= i < z.gen ==> UnreachedIn(o, limit, d.coding[i])
  }

  ghost predicate UnreachedIn<T(!new)>(o: Ops<T>, limit: nat, code: seq<T>) {
    forall t :: 0 <= t < |code| && t < limit ==> code[t] == o.zero
  }

  lemma StepIdle<T(!new)>(o: Ops<T>, z: Shape, limit: nat, d: Decoder<T>, diag: nat, t: nat)
    requires t < z.alpha && t < diag < z.gen && 0 < limit && Sized(z, d) && Unreached(o, z, limit, d)
    ensures BackStep(o, z, limit, d, diag, t) == d
  {
    var i, slot := diag - 1 - t, Counter(t, limit);
    assert UnreachedIn(o, limit, d.coding[i]) && slot <= t;
    assert d.coding[i][slot] == o.zero;
  }

  lemma {:induction false} StepsIdle<T(!new)>(o: Ops<T>, z: Shape, limit: nat, d: Decoder<T>, diag: nat, n: nat)
    requires n <= Reach(z, diag) && diag < z.gen && 0 < limit && Sized(z, d) && Unreached(o, z, limit, d)
    ensures BackSteps(o, z, limit, d, diag, n) == d
  {
    if n > 0 {
      StepsIdle(o, z, limit, d, diag, n - 1);
      StepIdle(o, z, limit, d, diag, n - 1);
    }
  }

  lemma {:induction false} BackIdle<T(!new)>(o: Ops<T>, z: Shape, limit: nat, d: Decoder<T>, diag: nat)
    requires diag <= z.gen && 0 < limit && Sized(z, d) && Unreached(o, z, limit, d)
    ensures Back(o, z, limit, d, diag) == d
    decreases z.gen - diag
  {
    if diag < z.gen {
      BackIdle(o, z, limit, d, diag + 1);
      StepsIdle(o, z, limit, d, diag, Reach(z, diag));
    }
  }

  /** A message that is zero but for its last element, and rows of which one mentions that element, with the
      coefficient that comes after the counter's last value. */
  function LastOnly<T(!new)>(o: Ops<T>, z: Shape): seq<seq<T>>
    requires ShapeOk(z)
  {
    seq(z.width, (b: nat) => Zeros(o, z.gen)[z.gen - 1 := o.one])
  }

  function FarRow<T(!new)>(o: Ops<T>, z: Shape, limit: nat): (d: Decoder<T>)
    requires ShapeOk(z) && limit < z.alpha
    ensures Sized(z, d)
  {
    var far, ones := z.gen - 2 - limit, seq(z.width, (b: nat) => o.one);
    Decoder(seq(z.gen, (i: nat) => true),
            seq(z.gen, (i: nat) => Zeros(o, z.alpha))[far := Zeros(o, z.alpha)[limit := o.one]],
            seq(z.gen, (i: nat) => Zeros(o, z.width))[far := ones][z.gen - 1 := ones])
  }

  lemma FarRowOk<T(!new)>(o: Ops<T>, z: Shape, limit: nat)
    requires IsField(o) && ShapeOk(z) && limit < z.alpha
    ensures Triangular(o, z, FarRow(o, z, limit)) && MessageOk(o, z, LastOnly(o, z))
    ensures Unreached(o, z, limit, FarRow(o, z, limit))
  {
    var d, ms := FarRow(o, z, limit), LastOnly(o, z);
    forall i | 0 <= i < z.gen ensures RowAtOk(o, z, d, i) && Below(o, d.coding[i], i, z.gen) {}
    forall b | 0 <= b < z.width ensures ColumnAtOk(o, z, ms, b) {}
  }

  lemma FarRowHolds<T(!new)>(o: Ops<T>, z: Shape, limit: nat, i: nat, b: nat)
    requires IsField(o) && ShapeOk(z) && limit < z.alpha && i < z.gen && b < z.width
    requires DecoderOk(o, z, FarRow(o, z, limit)) && MessageOk(o, z, LastOnly(o, z))
    requires RowAtOk(o, z, FarRow(o, z, limit), i)
    ensures var d := FarRow(o, z, limit); HoldsAt(o, z, LastOnly(o, z), i, d.coding[i], d.symbol[i], b)
  {
    var d, m := FarRow(o, z, limit), LastOnly(o, z)[b];
    assert ColumnAtOk(o, z, LastOnly(o, z), b);
    if i == z.gen - 2 - limit {
      StepCode(o, z, i, limit, d.coding[i], m);
      BareRow(o, z, i, d.coding[i][limit := o.zero], m);
      Laws(o, o.one, o.zero, o.zero);
    } else {
      BareRow(o, z, i, d.coding[i], m);
    }
  }

  /** This message, this system and this counter: the row stays as it was. */
  lemma FarRowLost<T(!new)>(o: Ops<T>, z: Shape, limit: nat)
    requires IsField(o) && ShapeOk(z) && 0 < limit < z.alpha && 0 < z.width
    ensures !Recovers(o, z, limit, FarRow(o, z, limit), LastOnly(o, z))
  {
    var d, ms := FarRow(o, z, limit), LastOnly(o, z);
    FarRowOk(o, z, limit);
    forall i | 0 <= i < z.gen ensures RowHolds(o, z, ms, d, i) {
      assert RowAtOk(o, z, d, i);
      forall b | 0 <= b < z.width ensures HoldsAt(o, z, ms, i, d.coding[i], d.symbol[i], b) {
        FarRowHolds(o, z, limit, i, b);
      }
    }
    BackIdle(o, z, limit, d, 1);
    var far := z.gen - 2 - limit;
    assert d.symbol[far][0] == o.one && ms[0][far] == o.zero;
    assert !SpellsAt(z, ms, d.symbol, far);
  }

  /** If the message satisfies the triangular rows, back-substitution ends with it. */
  ghost predicate Recovers<T(!new)>(o: Ops<T>, z: Shape, limit: nat, d: Decoder<T>, ms: seq<seq<T>>)
    requires IsField(o) && ShapeOk(z) && 0 < limit
  {
    Triangular(o, z, d) && Sized(z, d) && MessageOk(o, z, ms) && Solves(o, z, ms, d)
    ==> Spells(z, ms, Back(o, z, limit, d, 1).symbol)
  }

  /** Back-substitution is right for all systems exactly when its counter can count to alpha: in the 8-bit
      field, when alpha is at most 256. */
  lemma CounterSuffices<T(!new)>(o: Ops<T>, z: Shape, limit: nat)
    requires IsField(o) && ShapeOk(z) && 0 < limit && 0 < z.width
    ensures (forall d: Decoder<T>, ms: seq<seq<T>> :: Recovers(o, z, limit, d, ms)) <==> z.alpha <= limit
  {
    if z.alpha <= limit {
      forall d: Decoder<T>, ms: seq<seq<T>> ensures Recovers(o, z, limit, d, ms) {
        if Triangular(o, z, d) && Sized(z, d) && MessageOk(o, z, ms) && Solves(o, z, ms, d) {
          BackSolves(o, z, ms, limit, d);
        }
      }
    } else {
      FarRowLost(o, z, limit);
    }
  }
}
