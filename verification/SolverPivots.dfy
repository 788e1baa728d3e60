/** perpetual.c, step 2 of the solver, and what it means for the solver as a whole.  The loop over the diagonal is
    closed before the normalisation and the elimination that come after it: it exchanges rows until no coefficient
    on the diagonal is zero, and nothing below or on the diagonal is changed. */
module SolverPivots {
  import opened Fields
  import opened Lists
  import opened Vectors
  import opened Perpetual
  import opened SolverRows
  import opened BackSubstitution
  import opened SolverTheorems

  /** The reduced matrix and its symbols: alpha equations in the last alpha elements. */
  datatype Square<!T(!new)> = Square(rows: seq<seq<T>>, syms: seq<seq<T>>)

  /** How step 2 ends: at a column without a pivot the program exits; if the last coefficient on the diagonal is
      not 1, a symbol is multiplied that lies beyond the last one; otherwise the solver goes on. */
  datatype StepTwo<!T(!new)> = ZeroColumn(diag: nat) | BeyondTheLast | Pivoted(q: Square<T>)

  predicate AlphaSquare<T(!new)>(z: Shape, rows: seq<seq<T>>) {
    |rows| == z.alpha && forall r :: 0 <= r < z.alpha ==> |rows[r]| == z.alpha
  }

  predicate SquareSized<T(!new)>(z: Shape, q: Square<T>) {
    AlphaSquare(z, q.rows) && |q.syms| == z.alpha && forall r :: 0 <= r < z.alpha ==> |q.syms[r]| == z.width
  }

  /** The first row from row i on with a coefficient in the column; |rows| if there is none. */
  function FirstWith<T(!new, ==)>(o: Ops<T>, z: Shape, rows: seq<seq<T>>, col: nat, i: nat): (r: nat)
    requires AlphaSquare(z, rows) && col < z.alpha && i <= z.alpha
    ensures i <= r <= z.alpha && (r < z.alpha ==> rows[r][col] != o.zero)
    ensures forall k :: i <= k < r ==> rows[k][col] == o.zero
    decreases z.alpha - i
  {
    if i == z.alpha || rows[i][col] != o.zero then i else FirstWith(o, z, rows, col, i + 1)
  }

  lemma {:induction false} FirstIs<T(!new)>(o: Ops<T>, z: Shape, rows: seq<seq<T>>, col: nat, i: nat, r: nat)
    requires AlphaSquare(z, rows) && col < z.alpha && i <= r <= z.alpha && (r < z.alpha ==> rows[r][col] != o.zero)
    requires forall k :: i <= k < r ==> rows[k][col] == o.zero
    ensures FirstWith(o, z, rows, col, i) == r
    decreases r - i
  {
    if i < r { FirstIs(o, z, rows, col, i + 1, r); }
  }

  /** One turn of the loop over the diagonal. */
  function PivotAt<T(!new, ==)>(o: Ops<T>, z: Shape, q: Square<T>, diag: nat): (s: StepTwo<T>)
    requires SquareSized(z, q) && diag < z.alpha
    ensures s.Pivoted? ==> SquareSized(z, s.q)
  {
    var r := FirstWith(o, z, q.rows, diag, diag);
    if r == z.alpha then ZeroColumn(diag) else Pivoted(Square(Exchanged(q.rows, diag, r), Exchanged(q.syms, diag, r)))
  }

  /** The turns from diag on. */
  function Pivots<T(!new, ==)>(o: Ops<T>, z: Shape, q: Square<T>, diag: nat): (s: StepTwo<T>)
    requires SquareSized(z, q) && diag <= z.alpha
    ensures s.Pivoted? ==> SquareSized(z, s.q)
    decreases z.alpha - diag
  {
    if diag == z.alpha then Pivoted(q) else
      match PivotAt(o, z, q, diag)
      case Pivoted(p) => Pivots(o, z, p, diag + 1)
      case other => other
  }

  function SecondStep<T(!new, ==)>(o: Ops<T>, z: Shape, q: Square<T>): (s: StepTwo<T>)
    requires ShapeOk(z) && SquareSized(z, q)
    ensures s.Pivoted? ==> SquareSized(z, s.q)
  {
    match Pivots(o, z, q, 0)
    case Pivoted(p) => if p.rows[z.alpha - 1][z.alpha - 1] == o.one then Pivoted(p) else BeyondTheLast
    case other => other
  }

  /** The matrix that forward propagation and compaction leave. */
  function ReducedSquare<T(!new, ==)>(o: Ops<T>, z: Shape, d: Decoder<T>): (q: Square<T>)
    requires ShapeOk(z) && Sized(z, d)
    ensures SquareSized(z, q)
  {
    Square(seq(z.alpha, (j: nat) requires j < z.alpha && ShapeOk(z) && Sized(z, d) =>
                 SweptRow(o, z, d, j).row[z.gen - z.alpha..]),
           seq(z.alpha, (j: nat) requires j < z.alpha && ShapeOk(z) && Sized(z, d) => SweptRow(o, z, d, j).sym))
  }

  /** The symbols that the solver ends with, if it does not end before. */
  function Solution<T(!new, ==)>(o: Ops<T>, z: Shape, limit: nat, d: Decoder<T>, q: Square<T>): seq<seq<T>>
    requires ShapeOk(z) && Sized(z, d) && 0 < limit && SquareSized(z, q)
  {
    Back(o, z, limit, Rebuilt(o, z, d, q.rows, q.syms), 1).symbol
  }

  /** The solver runs to its end and leaves the message in the symbols. */
  ghost predicate Solved<T(!new)>(o: Ops<T>, z: Shape, limit: nat, d: Decoder<T>, ms: seq<seq<T>>)
    requires ShapeOk(z) && Sized(z, d) && 0 < limit
  {
    match SecondStep(o, z, ReducedSquare(o, z, d))
    case Pivoted(q) => Spells(z, ms, Solution(o, z, limit, d, q))
    case _ => false
  }

  // ----- the exchanges keep the equations

  ghost predicate EquationHolds<T(!new)>(o: Ops<T>, z: Shape, ms: seq<seq<T>>, row: seq<T>, sym: seq<T>)
    requires IsField(o) && ShapeOk(z) && MessageOk(o, z, ms)
  {
    && |row| == z.alpha && In(o, row) && |sym| == z.width && In(o, sym)
    && SolvesSquare(o, z, ms, row, sym)
  }

  ghost predicate EquationsHold<T(!new)>(o: Ops<T>, z: Shape, ms: seq<seq<T>>, q: Square<T>)
    requires IsField(o) && ShapeOk(z) && MessageOk(o, z, ms)
  {
    SquareSized(z, q) && forall r :: 0 <= r < z.alpha ==> EquationHolds(o, z, ms, q.rows[r], q.syms[r])
  }

  lemma PivotHolds<T(!new)>(o: Ops<T>, z: Shape, ms: seq<seq<T>>, q: Square<T>, diag: nat)
    requires IsField(o) && ShapeOk(z) && MessageOk(o, z, ms) && EquationsHold(o, z, ms, q) && diag < z.alpha
    ensures var s := PivotAt(o, z, q, diag); s.Pivoted? ==> EquationsHold(o, z, ms, s.q)
  {
    var s := PivotAt(o, z, q, diag);
    if s.Pivoted? {
      var a := FirstWith(o, z, q.rows, diag, diag);
      forall r | 0 <= r < z.alpha ensures EquationHolds(o, z, ms, s.q.rows[r], s.q.syms[r]) {
        var was := if r == diag then a else if r == a then diag else r;
        assert EquationHolds(o, z, ms, q.rows[was], q.syms[was]);
      }
    }
  }

  lemma {:induction false} PivotsHold<T(!new)>(o: Ops<T>, z: Shape, ms: seq<seq<T>>, q: Square<T>, diag: nat)
    requires IsField(o) && ShapeOk(z) && MessageOk(o, z, ms) && EquationsHold(o, z, ms, q) && diag <= z.alpha
    ensures var s := Pivots(o, z, q, diag); s.Pivoted? ==> EquationsHold(o, z, ms, s.q)
    decreases z.alpha - diag
  {
    if diag < z.alpha {
      PivotHolds(o, z, ms, q, diag);
      var s := PivotAt(o, z, q, diag);
      if s.Pivoted? { PivotsHold(o, z, ms, s.q, diag + 1); }
    }
  }

  lemma SweptIn<T(!new)>(o: Ops<T>, z: Shape, ms: seq<seq<T>>, d: Decoder<T>, j: nat)
    requires IsField(o) && ShapeOk(z) && MessageOk(o, z, ms) && DecoderOk(o, z, d) && AllFilled(d)
    requires Solves(o, z, ms, d) && j < z.alpha && Sized(z, d)
    ensures WideOk(o, z, SweptRow(o, z, d, j))
  {
    var p := z.gen - z.alpha;
    assert RowAtOk(o, z, d, p + j);
    UnfoldedRowMeans(o, z, ms, j, d.coding[p + j], d.symbol[p + j]);
    SweptMeans(o, z, ms, d, p, WideRow(o, z, d, j));
  }

  lemma ReducedHolds<T(!new)>(o: Ops<T>, z: Shape, ms: seq<seq<T>>, d: Decoder<T>)
    requires IsField(o) && ShapeOk(z) && MessageOk(o, z, ms) && DecoderOk(o, z, d) && AllFilled(d)
    requires Solves(o, z, ms, d)
    ensures Sized(z, d) && EquationsHold(o, z, ms, ReducedSquare(o, z, d))
  {
    Lengths(o, z, d);
    var q := ReducedSquare(o, z, d);
    forall r | 0 <= r < z.alpha ensures EquationHolds(o, z, ms, q.rows[r], q.syms[r]) {
      assert RowHolds(o, z, ms, d, z.gen - z.alpha + r);
      ReducedMeans(o, z, ms, d, r);
      SweptIn(o, z, ms, d, r);
    }
  }

  // ----- what the code that follows makes of a row

  /** It takes the row to have zeros before the diagonal and a 1 on it. */
  function Upper<T(!new)>(o: Ops<T>, z: Shape, row: seq<T>, r: nat): (u: seq<T>)
    requires r < z.alpha == |row|
    ensures |u| == z.alpha
  {
    Zeros(o, r) + [o.one] + row[r + 1..]
  }

  /** What it forgets of the row. */
  function Forgotten<T(!new)>(o: Ops<T>, z: Shape, row: seq<T>, r: nat): (u: seq<T>)
    requires r < z.alpha == |row|
    ensures |u| == z.alpha
  {
    row[..r] + [o.add(row[r], o.one)] + Zeros(o, z.alpha - r - 1)
  }

  lemma UpperIs<T(!new)>(o: Ops<T>, z: Shape, row: seq<T>, r: nat)
    requires IsField(o) && r < z.alpha == |row| && In(o, row)
    ensures In(o, Forgotten(o, z, row, r)) && In(o, Upper(o, z, row, r)) && UnitUpper(o, Upper(o, z, row, r), r)
    ensures Upper(o, z, row, r) == Plus(o, row, Forgotten(o, z, row, r))
  {
    var u, f := Upper(o, z, row, r), Forgotten(o, z, row, r);
    Laws(o, row[r], o.one, row[r]);
    Laws(o, row[r], row[r], o.one);
    forall c | 0 <= c < z.alpha ensures f[c] in o.carrier && u[c] in o.carrier && u[c] == o.add(row[c], f[c]) {
      Laws(o, row[c], o.zero, o.one);
    }
  }

  /** Nothing that is forgotten matters for this component of the message. */
  ghost predicate NoMatterAt<T(!new)>(o: Ops<T>, z: Shape, ms: seq<seq<T>>, row: seq<T>, r: nat, b: nat)
    requires IsField(o) && ShapeOk(z) && MessageOk(o, z, ms) && r < z.alpha == |row| && In(o, row) && b < z.width
  {
    UpperIs(o, z, row, r);
    assert ColumnAtOk(o, z, ms, b);
    Dot(o, Forgotten(o, z, row, r), ms[b], z.gen - z.alpha) == o.zero
  }

  ghost predicate NoMatter<T(!new)>(o: Ops<T>, z: Shape, ms: seq<seq<T>>, row: seq<T>, r: nat)
    requires IsField(o) && ShapeOk(z) && MessageOk(o, z, ms)
  {
    r < z.alpha == |row| && In(o, row) && forall b :: 0 <= b < z.width ==> NoMatterAt(o, z, ms, row, r, b)
  }

  lemma UpperHolds<T(!new)>(o: Ops<T>, z: Shape, ms: seq<seq<T>>, row: seq<T>, sym: seq<T>, r: nat)
    requires IsField(o) && ShapeOk(z) && MessageOk(o, z, ms) && EquationHolds(o, z, ms, row, sym) && r < z.alpha
    ensures In(o, Upper(o, z, row, r))
    ensures SolvesSquare(o, z, ms, Upper(o, z, row, r), sym) <==> NoMatter(o, z, ms, row, r)
  {
    var u, f := Upper(o, z, row, r), Forgotten(o, z, row, r);
    UpperIs(o, z, row, r);
    forall b | 0 <= b < z.width
      ensures SolvesSquareAt(o, z, ms, u, sym, b) <==> NoMatterAt(o, z, ms, row, r, b)
    {
      assert ColumnAtOk(o, z, ms, b) && SolvesSquareAt(o, z, ms, row, sym, b);
      DotPlus(o, row, f, ms[b], z.gen - z.alpha);
      SumIs(o, Dot(o, row, ms[b], z.gen - z.alpha), Dot(o, f, ms[b], z.gen - z.alpha));
    }
  }

  lemma SumIs<T(!new)>(o: Ops<T>, x: T, f: T)
    requires IsField(o) && x in o.carrier && f in o.carrier
    ensures o.add(x, f) == x <==> f == o.zero
  {
    Laws(o, x, x, f);
    Laws(o, f, x, o.zero);
  }

  /** Of no row anything is forgotten that matters for the message. */
  ghost predicate NothingLost<T(!new)>(o: Ops<T>, z: Shape, ms: seq<seq<T>>, rows: seq<seq<T>>)
    requires IsField(o) && ShapeOk(z) && MessageOk(o, z, ms)
  {
    |rows| == z.alpha && forall r :: 0 <= r < z.alpha ==> NoMatter(o, z, ms, rows[r], r)
  }

  function Uppers<T(!new)>(o: Ops<T>, z: Shape, rows: seq<seq<T>>): (u: seq<seq<T>>)
    requires AlphaSquare(z, rows)
    ensures |u| == z.alpha && forall r :: 0 <= r < z.alpha ==> |u[r]| == z.alpha && u[r] == Upper(o, z, rows[r], r)
  {
    seq(z.alpha, (r: nat) requires AlphaSquare(z, rows) && r < z.alpha => Upper(o, z, rows[r], r))
  }

  lemma UppersRebuilt<T(!new)>(o: Ops<T>, z: Shape, d: Decoder<T>, q: Square<T>)
    requires ShapeOk(z) && Sized(z, d) && SquareSized(z, q)
    ensures Rebuilt(o, z, d, Uppers(o, z, q.rows), q.syms) == Rebuilt(o, z, d, q.rows, q.syms)
  {
    var u := Uppers(o, z, q.rows);
    var e, f, p := Rebuilt(o, z, d, u, q.syms), Rebuilt(o, z, d, q.rows, q.syms), z.gen - z.alpha;
    forall i | 0 <= i < z.gen ensures e.coding[i] == f.coding[i] {
      if i >= p {
        var r := i - p;
        assert u[r][r + 1..] == q.rows[r][r + 1..];
        assert Restored(o, z, r, u[r]) == Restored(o, z, r, q.rows[r]);
      }
    }
    assert e.coding == f.coding;
  }

  lemma UppersOk<T(!new)>(o: Ops<T>, z: Shape, ms: seq<seq<T>>, q: Square<T>)
    requires IsField(o) && ShapeOk(z) && MessageOk(o, z, ms) && EquationsHold(o, z, ms, q)
    ensures SquareOk(o, z, Uppers(o, z, q.rows), q.syms)
    ensures SquareSolved(o, z, ms, Uppers(o, z, q.rows), q.syms) <==> NothingLost(o, z, ms, q.rows)
  {
    var u := Uppers(o, z, q.rows);
    forall r: nat | r < z.alpha ensures SquareRowOk(o, z, u, q.syms, r) {
      assert EquationHolds(o, z, ms, q.rows[r], q.syms[r]);
      UpperIs(o, z, q.rows[r], r);
    }
    forall r: nat | r < z.alpha
      ensures SquareRowSolved(o, z, ms, u, q.syms, r) <==> NoMatter(o, z, ms, q.rows[r], r)
    {
      assert EquationHolds(o, z, ms, q.rows[r], q.syms[r]);
      UpperHolds(o, z, ms, q.rows[r], q.syms[r], r);
    }
  }

  /** A complete decoder and a message that satisfies its rows: the solver recovers this message exactly if step 2
      ends well and the part of the matrix before the diagonal, and what the diagonal differs from 1, do not
      matter for it. */
  lemma SolverRight<T(!new)>(o: Ops<T>, z: Shape, ms: seq<seq<T>>, limit: nat, d: Decoder<T>)
    requires IsField(o) && ShapeOk(z) && MessageOk(o, z, ms) && DecoderOk(o, z, d) && AllFilled(d)
    requires Solves(o, z, ms, d) && z.alpha <= limit
    ensures Sized(z, d)
    ensures var s := SecondStep(o, z, ReducedSquare(o, z, d));
      Solved(o, z, limit, d, ms) <==> s.Pivoted? && NothingLost(o, z, ms, s.q.rows)
  {
    ReducedHolds(o, z, ms, d);
    PivotsHold(o, z, ms, ReducedSquare(o, z, d), 0);
    var s := SecondStep(o, z, ReducedSquare(o, z, d));
    if s.Pivoted? { PivotedRight(o, z, ms, limit, d, s.q); }
  }

  lemma PivotedRight<T(!new)>(o: Ops<T>, z: Shape, ms: seq<seq<T>>, limit: nat, d: Decoder<T>, q: Square<T>)
    requires IsField(o) && ShapeOk(z) && MessageOk(o, z, ms) && DecoderOk(o, z, d) && AllFilled(d)
    requires Solves(o, z, ms, d) && z.alpha <= limit && Sized(z, d) && EquationsHold(o, z, ms, q)
    ensures Spells(z, ms, Solution(o, z, limit, d, q)) <==> NothingLost(o, z, ms, q.rows)
  {
    var u := Uppers(o, z, q.rows);
    UppersOk(o, z, ms, q);
    UppersRebuilt(o, z, d, q);
    RebuiltOk(o, z, d, u, q.syms);
    RebuiltSplits(o, z, ms, d, u, q.syms);
    BackSolves(o, z, ms, limit, Rebuilt(o, z, d, u, q.syms));
  }

  // ----- which matrices are right for every message

  ghost predicate AllUnitUpper<T(!new)>(o: Ops<T>, z: Shape, rows: seq<seq<T>>) {
    |rows| == z.alpha && forall r :: 0 <= r < z.alpha ==> UnitUpper(o, rows[r], r)
  }

  ghost predicate Arranges<T(!new)>(o: Ops<T>, z: Shape, rows: seq<seq<T>>, u: seq<seq<T>>) {
    multiset(u) == multiset(rows) && AllUnitUpper(o, z, u)
  }

  /** The rows can be put into an order in which they are unit upper triangular. */
  ghost predicate Arrangeable<T(!new)>(o: Ops<T>, z: Shape, rows: seq<seq<T>>) {
    exists u :: Arranges(o, z, rows, u)
  }

  lemma PivotKeepsRows<T(!new)>(o: Ops<T>, z: Shape, q: Square<T>, diag: nat)
    requires SquareSized(z, q) && diag < z.alpha
    ensures var s := PivotAt(o, z, q, diag); s.Pivoted? ==> multiset(s.q.rows) == multiset(q.rows)
  {
    var r := FirstWith(o, z, q.rows, diag, diag);
    if r < z.alpha { ExchangedKeeps(q.rows, diag, r); }
  }

  lemma {:induction false} PivotsKeepRows<T(!new)>(o: Ops<T>, z: Shape, q: Square<T>, diag: nat, rows: seq<seq<T>>)
    requires SquareSized(z, q) && diag <= z.alpha && multiset(q.rows) == multiset(rows)
    ensures var s := Pivots(o, z, q, diag); s.Pivoted? ==> multiset(s.q.rows) == multiset(rows)
    decreases z.alpha - diag
  {
    if diag < z.alpha {
      PivotKeepsRows(o, z, q, diag);
      var s := PivotAt(o, z, q, diag);
      if s.Pivoted? { PivotsKeepRows(o, z, s.q, diag + 1, rows); }
    }
  }

  /** What is left of two arrangements of the same rows that begin in the same way. */
  lemma SameRest<X>(a: seq<X>, b: seq<X>, n: nat)
    requires |a| == |b| && n <= |a| && multiset(a) == multiset(b) && a[..n] == b[..n]
    ensures multiset(a[n..]) == multiset(b[n..])
  {
    assert a == a[..n] + a[n..] && b == b[..n] + b[n..];
    assert multiset(a[n..]) == multiset(a) - multiset(a[..n]);
    assert multiset(b[n..]) == multiset(b) - multiset(b[..n]);
  }

  lemma InRest<X>(a: seq<X>, b: seq<X>, n: nat, i: nat) returns (j: nat)
    requires |a| == |b| && n <= i < |a| && multiset(a[n..]) == multiset(b[n..])
    ensures n <= j < |b| && b[j] == a[i]
  {
    assert a[n..][i - n] in multiset(a[n..]);
    assert a[i] in b[n..];
    var k :| 0 <= k < |b[n..]| && b[n..][k] == a[i];
    j := n + k;
  }

  /** The pivot of the next column is the next row of the arrangement. */
  lemma NextPivot<T(!new)>(o: Ops<T>, z: Shape, q: Square<T>, u: seq<seq<T>>, n: nat)
    requires IsField(o) && SquareSized(z, q) && n < z.alpha && Arranges(o, z, q.rows, u) && q.rows[..n] == u[..n]
    ensures var r := FirstWith(o, z, q.rows, n, n); r < z.alpha && q.rows[r] == u[n]
  {
    SameRest(q.rows, u, n);
    var at := InRest(u, q.rows, n, n);
    assert UnitUpper(o, u[n], n);
    var r := FirstWith(o, z, q.rows, n, n);
    assert r <= at;
    var j := InRest(q.rows, u, n, r);
    assert UnitUpper(o, u[j], j);
  }

  /** The first n rows are those of the arrangement. */
  ghost predicate Arranged<T(!new)>(o: Ops<T>, z: Shape, q: Square<T>, u: seq<seq<T>>, n: nat) {
    SquareSized(z, q) && n <= z.alpha && Arranges(o, z, q.rows, u) && q.rows[..n] == u[..n]
  }

  lemma NextArranged<T(!new)>(o: Ops<T>, z: Shape, q: Square<T>, u: seq<seq<T>>, n: nat)
    requires IsField(o) && n < z.alpha && Arranged(o, z, q, u, n)
    ensures var s := PivotAt(o, z, q, n); s.Pivoted? && Arranged(o, z, s.q, u, n + 1)
  {
    NextPivot(o, z, q, u, n);
    var r := FirstWith(o, z, q.rows, n, n);
    var rows := Exchanged(q.rows, n, r);
    ExchangedKeeps(q.rows, n, r);
    assert rows[..n] == q.rows[..n];
    assert rows[..n + 1] == rows[..n] + [u[n]];
    assert u[..n + 1] == u[..n] + [u[n]];
  }

  lemma {:induction false} PivotsArrange<T(!new)>(o: Ops<T>, z: Shape, q: Square<T>, u: seq<seq<T>>, n: nat)
    requires IsField(o) && Arranged(o, z, q, u, n)
    ensures var s := Pivots(o, z, q, n); s.Pivoted? && s.q.rows == u
    decreases z.alpha - n
  {
    if n < z.alpha {
      NextArranged(o, z, q, u, n);
      PivotsArrange(o, z, PivotAt(o, z, q, n).q, u, n + 1);
    } else {
      assert q.rows == q.rows[..n] && u == u[..n];
    }
  }

  /** Step 2 ends with a unit upper triangular matrix exactly if the rows can be arranged to be one. */
  lemma ArrangeIff<T(!new)>(o: Ops<T>, z: Shape, q: Square<T>)
    requires IsField(o) && ShapeOk(z) && SquareSized(z, q)
    ensures var s := SecondStep(o, z, q);
      s.Pivoted? && AllUnitUpper(o, z, s.q.rows) <==> Arrangeable(o, z, q.rows)
  {
    var s := SecondStep(o, z, q);
    if s.Pivoted? && AllUnitUpper(o, z, s.q.rows) {
      PivotsKeepRows(o, z, q, 0, q.rows);
      assert Arranges(o, z, q.rows, s.q.rows);
    }
    if Arrangeable(o, z, q.rows) {
      var u :| Arranges(o, z, q.rows, u);
      PivotsArrange(o, z, q, u, 0);
      assert UnitUpper(o, u[z.alpha - 1], z.alpha - 1);
    }
  }

  lemma {:induction false} PivotsSameRows<T(!new)>(o: Ops<T>, z: Shape, p: Square<T>, q: Square<T>, diag: nat)
    requires SquareSized(z, p) && SquareSized(z, q) && p.rows == q.rows && diag <= z.alpha
    ensures var s, t := Pivots(o, z, p, diag), Pivots(o, z, q, diag);
      (s.Pivoted? <==> t.Pivoted?) && (s.Pivoted? ==> s.q.rows == t.q.rows)
    decreases z.alpha - diag
  {
    if diag < z.alpha {
      var s, t := PivotAt(o, z, p, diag), PivotAt(o, z, q, diag);
      if s.Pivoted? { PivotsSameRows(o, z, s.q, t.q, diag + 1); }
    }
  }

  // ----- decoders with the same rows

  ghost predicate SameCodes<T(!new)>(o: Ops<T>, z: Shape, d: Decoder<T>, e: Decoder<T>) {
    DecoderOk(o, z, e) && AllFilled(e) && e.coding == d.coding
  }

  lemma {:induction false} SweptSame<T(!new)>(o: Ops<T>, z: Shape, d: Decoder<T>, e: Decoder<T>, n: nat, w: Wide<T>,
                                              v: Wide<T>)
    requires n + z.alpha <= z.gen && Sized(z, d) && Sized(z, e) && d.coding == e.coding
    requires w.row == v.row && |w.row| == z.gen && |w.sym| == |v.sym| == z.width
    ensures Swept(o, z, d, n, w).row == Swept(o, z, e, n, v).row
    decreases n
  {
    if n > 0 { SweptSame(o, z, d, e, n - 1, w, v); }
  }

  lemma ReducedSame<T(!new)>(o: Ops<T>, z: Shape, d: Decoder<T>, e: Decoder<T>)
    requires ShapeOk(z) && Sized(z, d) && Sized(z, e) && d.coding == e.coding
    ensures ReducedSquare(o, z, d).rows == ReducedSquare(o, z, e).rows
  {
    var a, b := ReducedSquare(o, z, d).rows, ReducedSquare(o, z, e).rows;
    forall j | 0 <= j < z.alpha ensures a[j] == b[j] {
      SweptSame(o, z, d, e, z.gen - z.alpha, WideRow(o, z, d, j), WideRow(o, z, e, j));
    }
  }

  /** The symbols that make a message satisfy these rows. */
  ghost function Encoded<T(!new)>(o: Ops<T>, z: Shape, d: Decoder<T>, ms: seq<seq<T>>): (e: Decoder<T>)
    requires IsField(o) && ShapeOk(z) && MessageOk(o, z, ms) && DecoderOk(o, z, d)
    ensures SameCodes(o, z, d, e) && Solves(o, z, ms, e)
  {
    var syms := seq(z.gen, (i: nat) requires i < z.gen => EncodedAt(o, z, d, ms, i));
    var e := Decoder(seq(z.gen, (i: nat) => true), d.coding, syms);
    assert forall i {:trigger RowAtOk(o, z, e, i)} :: 0 <= i < z.gen ==> RowAtOk(o, z, d, i) && RowAtOk(o, z, e, i);
    e
  }

  ghost function EncodedAt<T(!new)>(o: Ops<T>, z: Shape, d: Decoder<T>, ms: seq<seq<T>>, i: nat): (sym: seq<T>)
    requires IsField(o) && ShapeOk(z) && MessageOk(o, z, ms) && DecoderOk(o, z, d) && i < z.gen
    ensures RowAtOk(o, z, d, i) && RowOk(o, z, d.coding[i], sym) && Holds(o, z, ms, i, d.coding[i], sym)
  {
    assert RowAtOk(o, z, d, i);
    assert forall b {:trigger ms[b]} :: 0 <= b < z.width ==> ColumnAtOk(o, z, ms, b);
    seq(z.width, (b: nat) requires b < z.width && b < |ms| && ColumnOk(o, z, ms[b]) =>
          Combined(o, z, i, d.coding[i], ms[b]))
  }

  /** For these rows and this message, the solver is right. */
  ghost predicate RightFor<T(!new)>(o: Ops<T>, z: Shape, limit: nat, d: Decoder<T>, e: Decoder<T>, ms: seq<seq<T>>)
    requires IsField(o) && ShapeOk(z) && 0 < limit
  {
    SameCodes(o, z, d, e) && MessageOk(o, z, ms) && Solves(o, z, ms, e) ==> Sized(z, e) && Solved(o, z, limit, e, ms)
  }

  lemma UnitNothing<T(!new)>(o: Ops<T>, z: Shape, ms: seq<seq<T>>, row: seq<T>, r: nat)
    requires IsField(o) && ShapeOk(z) && MessageOk(o, z, ms) && r < z.alpha == |row| && In(o, row)
    requires UnitUpper(o, row, r)
    ensures NoMatter(o, z, ms, row, r)
  {
    var f := Forgotten(o, z, row, r);
    UpperIs(o, z, row, r);
    Laws(o, o.one, o.one, o.one);
    forall b | 0 <= b < z.width ensures NoMatterAt(o, z, ms, row, r, b) {
      assert ColumnAtOk(o, z, ms, b);
      DotZeros(o, f, ms[b], z.gen - z.alpha);
    }
  }

  lemma ArrangedRight<T(!new)>(o: Ops<T>, z: Shape, limit: nat, d: Decoder<T>, e: Decoder<T>, ms: seq<seq<T>>)
    requires IsField(o) && ShapeOk(z) && z.alpha <= limit && Sized(z, d)
    requires Arrangeable(o, z, ReducedSquare(o, z, d).rows)
    ensures RightFor(o, z, limit, d, e, ms)
  {
    if SameCodes(o, z, d, e) && MessageOk(o, z, ms) && Solves(o, z, ms, e) {
      SolverRight(o, z, ms, limit, e);
      ReducedSame(o, z, d, e);
      ArrangeIff(o, z, ReducedSquare(o, z, e));
      var q := SecondStep(o, z, ReducedSquare(o, z, e)).q;
      ReducedHolds(o, z, ms, e);
      PivotsHold(o, z, ms, ReducedSquare(o, z, e), 0);
      forall r | 0 <= r < z.alpha ensures NoMatter(o, z, ms, q.rows[r], r) {
        assert EquationHolds(o, z, ms, q.rows[r], q.syms[r]);
        UnitNothing(o, z, ms, q.rows[r], r);
      }
    }
  }

  // ----- a message for which something is lost

  lemma {:induction false} DotNothing<T(!new)>(o: Ops<T>, c: seq<T>, m: seq<T>, at: nat)
    requires IsField(o) && In(o, c) && In(o, m) && at < |m| && at + |c| <= |m|
    requires forall k :: at <= k < at + |c| ==> m[k] == o.zero
    ensures Dot(o, c, m, at) == o.zero
    decreases |c|
  {
    if c != [] {
      if |c| > 1 { DotNothing(o, c[1..], m, at + 1); }
      Laws(o, c[0], o.zero, o.zero);
    }
  }

  lemma {:induction false} DotUnit<T(!new)>(o: Ops<T>, f: seq<T>, m: seq<T>, at: nat, c: nat)
    requires IsField(o) && In(o, f) && In(o, m) && at + |f| <= |m| && c < |f| && m[at + c] == o.one
    requires forall k :: at <= k < at + |f| && k != at + c ==> m[k] == o.zero
    ensures Dot(o, f, m, at) == f[c]
    decreases c
  {
    var next, rest := Next(at, |m|), f[1..];
    Laws(o, f[0], f[c], o.zero);
    if c == 0 {
      if rest != [] { DotNothing(o, rest, m, at + 1); }
    } else {
      DotUnit(o, rest, m, at + 1, c - 1);
    }
  }

  /** The message whose only element is number k. */
  function Single<T(!new)>(o: Ops<T>, z: Shape, k: nat): seq<seq<T>>
    requires k < z.gen
  {
    seq(z.width, (b: nat) requires k < z.gen => Zeros(o, z.gen)[k := o.one])
  }

  lemma SingleOk<T(!new)>(o: Ops<T>, z: Shape, k: nat)
    requires IsField(o) && ShapeOk(z) && k < z.gen
    ensures MessageOk(o, z, Single(o, z, k))
  {
    forall b | 0 <= b < z.width ensures ColumnAtOk(o, z, Single(o, z, k), b) {}
  }

  lemma NotUnit<T(!new)>(o: Ops<T>, z: Shape, row: seq<T>, r: nat) returns (c: nat)
    requires IsField(o) && ShapeOk(z) && r < z.alpha == |row| && In(o, row) && !UnitUpper(o, row, r) && z.width > 0
    ensures c < z.alpha && MessageOk(o, z, Single(o, z, z.gen - z.alpha + c))
    ensures !NoMatter(o, z, Single(o, z, z.gen - z.alpha + c), row, r)
  {
    var p, f := z.gen - z.alpha, Forgotten(o, z, row, r);
    UpperIs(o, z, row, r);
    if row[r] != o.one {
      c := r;
      Laws(o, row[r], o.one, o.one);
      Laws(o, o.one, o.zero, row[r]);
    } else {
      c :| 0 <= c < r && row[c] != o.zero;
    }
    var ms := Single(o, z, p + c);
    SingleOk(o, z, p + c);
    assert f[c] != o.zero;
    assert ColumnAtOk(o, z, ms, 0);
    DotUnit(o, f, ms[0], p, c);
    assert !NoMatterAt(o, z, ms, row, r, 0);
  }

  lemma WrongFor<T(!new)>(o: Ops<T>, z: Shape, limit: nat, d: Decoder<T>) returns (e: Decoder<T>, ms: seq<seq<T>>)
    requires IsField(o) && ShapeOk(z) && z.alpha <= limit && 0 < z.width && DecoderOk(o, z, d) && Sized(z, d)
    requires !Arrangeable(o, z, ReducedSquare(o, z, d).rows)
    ensures !RightFor(o, z, limit, d, e, ms)
  {
    var q := ReducedSquare(o, z, d);
    var s := SecondStep(o, z, q);
    SingleOk(o, z, 0);
    ms := Single(o, z, 0);
    if s.Pivoted? {
      ArrangeIff(o, z, q);
      var r :| 0 <= r < z.alpha && !UnitUpper(o, s.q.rows[r], r);
      e := Encoded(o, z, d, ms);
      FinalRows(o, z, d, e, ms);
      var c := NotUnit(o, z, s.q.rows[r], r);
      ms := Single(o, z, z.gen - z.alpha + c);
      e := Encoded(o, z, d, ms);
      FinalRows(o, z, d, e, ms);
      SolverRight(o, z, ms, limit, e);
      assert !NothingLost(o, z, ms, s.q.rows);
    } else {
      e := Encoded(o, z, d, ms);
      FinalRows(o, z, d, e, ms);
      SolverRight(o, z, ms, limit, e);
    }
  }

  /** Step 2 does the same to the rows, whatever the symbols; what it leaves are rows over the field. */
  lemma FinalRows<T(!new)>(o: Ops<T>, z: Shape, d: Decoder<T>, e: Decoder<T>, ms: seq<seq<T>>)
    requires IsField(o) && ShapeOk(z) && MessageOk(o, z, ms) && Sized(z, d) && SameCodes(o, z, d, e)
    requires Solves(o, z, ms, e)
    ensures Sized(z, e)
    ensures var s, t := SecondStep(o, z, ReducedSquare(o, z, d)), SecondStep(o, z, ReducedSquare(o, z, e));
      && (s.Pivoted? <==> t.Pivoted?)
      && (s.Pivoted? ==> s.q.rows == t.q.rows && forall r :: 0 <= r < z.alpha ==> In(o, s.q.rows[r]))
  {
    Lengths(o, z, e);
    ReducedSame(o, z, d, e);
    PivotsSameRows(o, z, ReducedSquare(o, z, d), ReducedSquare(o, z, e), 0);
    ReducedHolds(o, z, ms, e);
    PivotsHold(o, z, ms, ReducedSquare(o, z, e), 0);
    var t := SecondStep(o, z, ReducedSquare(o, z, e));
    if t.Pivoted? {
      forall r | 0 <= r < z.alpha ensures In(o, t.q.rows[r]) {
        assert EquationHolds(o, z, ms, t.q.rows[r], t.q.syms[r]);
      }
    }
  }

  /** With the rows of a complete decoder the solver recovers every message exactly if the rows of the reduced
      matrix can be put into an order in which they are unit upper triangular. */
  lemma SolverAlwaysRight<T(!new)>(o: Ops<T>, z: Shape, limit: nat, d: Decoder<T>)
    requires IsField(o) && ShapeOk(z) && z.alpha <= limit && 0 < z.width && DecoderOk(o, z, d)
    ensures Sized(z, d)
    ensures (forall e: Decoder<T>, ms: seq<seq<T>> :: RightFor(o, z, limit, d, e, ms))
       <==> Arrangeable(o, z, ReducedSquare(o, z, d).rows)
  {
    Lengths(o, z, d);
    if Arrangeable(o, z, ReducedSquare(o, z, d).rows) {
      forall e: Decoder<T>, ms: seq<seq<T>> ensures RightFor(o, z, limit, d, e, ms) {
        ArrangedRight(o, z, limit, d, e, ms);
      }
    } else {
      var e, ms := WrongFor(o, z, limit, d);
    }
  }

  // ----- the solver as a decision

  ghost predicate EquationFine<T(!new)>(o: Ops<T>, z: Shape, q: Square<T>, r: nat)
    requires SquareSized(z, q) && r < z.alpha
  {
    In(o, q.rows[r]) && In(o, q.syms[r])
  }

  ghost predicate EquationsFine<T(!new)>(o: Ops<T>, z: Shape, q: Square<T>) {
    SquareSized(z, q) && forall r: nat :: r < z.alpha ==> EquationFine(o, z, q, r)
  }

  lemma {:induction false} PivotsFine<T(!new)>(o: Ops<T>, z: Shape, q: Square<T>, diag: nat)
    requires EquationsFine(o, z, q) && diag <= z.alpha
    ensures var s := Pivots(o, z, q, diag); s.Pivoted? ==> EquationsFine(o, z, s.q)
    decreases z.alpha - diag
  {
    if diag < z.alpha {
      var s, a := PivotAt(o, z, q, diag), FirstWith(o, z, q.rows, diag, diag);
      if s.Pivoted? {
        forall r: nat | r < z.alpha ensures EquationFine(o, z, s.q, r) {
          assert EquationFine(o, z, q, if r == diag then a else if r == a then diag else r);
        }
        PivotsFine(o, z, s.q, diag + 1);
      }
    }
  }

  lemma PivotBack<T(!new)>(o: Ops<T>, z: Shape, ms: seq<seq<T>>, q: Square<T>, diag: nat)
    requires IsField(o) && ShapeOk(z) && MessageOk(o, z, ms) && SquareSized(z, q) && diag < z.alpha
    requires var s := PivotAt(o, z, q, diag); s.Pivoted? && EquationsHold(o, z, ms, s.q)
    ensures EquationsHold(o, z, ms, q)
  {
    var s, a := PivotAt(o, z, q, diag), FirstWith(o, z, q.rows, diag, diag);
    forall r | 0 <= r < z.alpha ensures EquationHolds(o, z, ms, q.rows[r], q.syms[r]) {
      var at := if r == diag then a else if r == a then diag else r;
      assert EquationHolds(o, z, ms, s.q.rows[at], s.q.syms[at]);
    }
  }

  lemma {:induction false} PivotsBack<T(!new)>(o: Ops<T>, z: Shape, ms: seq<seq<T>>, q: Square<T>, diag: nat)
    requires IsField(o) && ShapeOk(z) && MessageOk(o, z, ms) && SquareSized(z, q) && diag <= z.alpha
    requires var s := Pivots(o, z, q, diag); s.Pivoted? && EquationsHold(o, z, ms, s.q)
    ensures EquationsHold(o, z, ms, q)
    decreases z.alpha - diag
  {
    if diag < z.alpha {
      PivotsBack(o, z, ms, PivotAt(o, z, q, diag).q, diag + 1);
      PivotBack(o, z, ms, q, diag);
    }
  }

  lemma {:induction false} SweptFine<T(!new)>(o: Ops<T>, z: Shape, d: Decoder<T>, n: nat, w: Wide<T>)
    requires IsField(o) && ShapeOk(z) && DecoderOk(o, z, d) && Sized(z, d) && WideOk(o, z, w) && n + z.alpha <= z.gen
    ensures WideOk(o, z, Swept(o, z, d, n, w))
    decreases n
  {
    if n > 0 {
      SweptFine(o, z, d, n - 1, w);
      assert RowAtOk(o, z, d, n - 1);
      SweepOk(o, z, n - 1, d.coding[n - 1], d.symbol[n - 1], Swept(o, z, d, n - 1, w));
    }
  }

  lemma ReducedFine<T(!new)>(o: Ops<T>, z: Shape, d: Decoder<T>)
    requires IsField(o) && ShapeOk(z) && DecoderOk(o, z, d) && Sized(z, d)
    ensures EquationsFine(o, z, ReducedSquare(o, z, d))
  {
    var q, p := ReducedSquare(o, z, d), z.gen - z.alpha;
    forall r: nat | r < z.alpha ensures EquationFine(o, z, q, r) {
      assert RowAtOk(o, z, d, p + r);
      UnfoldedMeans(o, z, r, d.coding[p + r], Zeros(o, z.gen));
      SweptFine(o, z, d, p, WideRow(o, z, d, r));
    }
  }

  lemma ReducedEquations<T(!new)>(o: Ops<T>, z: Shape, ms: seq<seq<T>>, d: Decoder<T>)
    requires IsField(o) && ShapeOk(z) && MessageOk(o, z, ms) && DecoderOk(o, z, d) && Sized(z, d)
    ensures ReducedSolved(o, z, ms, d) <==> EquationsHold(o, z, ms, ReducedSquare(o, z, d))
  {
    var q := ReducedSquare(o, z, d);
    ReducedFine(o, z, d);
    forall r: nat | r < z.alpha
      ensures ReducedRowSolved(o, z, ms, d, r) <==> EquationHolds(o, z, ms, q.rows[r], q.syms[r])
    {
      assert EquationFine(o, z, q, r);
    }
  }

  lemma UpperEquations<T(!new)>(o: Ops<T>, z: Shape, ms: seq<seq<T>>, q: Square<T>)
    requires IsField(o) && ShapeOk(z) && MessageOk(o, z, ms) && EquationsFine(o, z, q) && AllUnitUpper(o, z, q.rows)
    ensures SquareOk(o, z, q.rows, q.syms)
    ensures SquareSolved(o, z, ms, q.rows, q.syms) <==> EquationsHold(o, z, ms, q)
  {
    forall r: nat | r < z.alpha ensures SquareRowOk(o, z, q.rows, q.syms, r) { assert EquationFine(o, z, q, r); }
    forall r: nat | r < z.alpha
      ensures SquareRowSolved(o, z, ms, q.rows, q.syms, r) <==> EquationHolds(o, z, ms, q.rows[r], q.syms[r])
    {
      assert EquationFine(o, z, q, r);
    }
  }

  lemma PivotsEquations<T(!new)>(o: Ops<T>, z: Shape, ms: seq<seq<T>>, q: Square<T>)
    requires IsField(o) && ShapeOk(z) && MessageOk(o, z, ms) && SquareSized(z, q) && SecondStep(o, z, q).Pivoted?
    ensures EquationsHold(o, z, ms, SecondStep(o, z, q).q) <==> EquationsHold(o, z, ms, q)
  {
    if EquationsHold(o, z, ms, q) { PivotsHold(o, z, ms, q, 0); }
    if EquationsHold(o, z, ms, SecondStep(o, z, q).q) { PivotsBack(o, z, ms, q, 0); }
  }

  /** If the rows of the reduced matrix can be arranged, the solver runs to its end, and a message satisfies all
      rows of the complete decoder exactly if it is the one that the solver leaves. */
  lemma SolverDecides<T(!new)>(o: Ops<T>, z: Shape, ms: seq<seq<T>>, limit: nat, d: Decoder<T>)
    requires IsField(o) && ShapeOk(z) && MessageOk(o, z, ms) && DecoderOk(o, z, d) && AllFilled(d) && Sized(z, d)
    requires z.alpha <= limit && Arrangeable(o, z, ReducedSquare(o, z, d).rows)
    ensures SecondStep(o, z, ReducedSquare(o, z, d)).Pivoted?
    ensures Solves(o, z, ms, d) <==> Solved(o, z, limit, d, ms)
  {
    var q := ReducedSquare(o, z, d);
    ArrangeIff(o, z, q);
    var p := SecondStep(o, z, q).q;
    ReducedFine(o, z, d);
    PivotsFine(o, z, q, 0);
    ReducedEquations(o, z, ms, d);
    PivotsEquations(o, z, ms, q);
    UpperEquations(o, z, ms, p);
    SolverRecovers(o, z, ms, limit, d, p.rows, p.syms);
  }
}
