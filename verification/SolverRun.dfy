/** perpetual.c: step 2 of the solver on its buffers, and the solver from beginning to end. */
module SolverRun {
  import opened Fields
  import opened Lists
  import opened VecOps
  import opened Perpetual
  import opened PerpetualDecoder
  import opened BackSubstitution
  import opened SolverPivots
  import opened SolverEndings
  import opened PerpetualSolver

  /** The two exits that are not a return, and the return. */
  datatype Ending = Exits(diag: nat) | Overruns | Returns

  // ----- rows of the square matrix, with the scratch row behind them

  /** The square matrix and one more row fit into the buffer, since alpha is below gen. */
  lemma ScratchFits(z: Shape, i: nat)
    requires ShapeOk(z) && i <= z.alpha
    ensures Base(i, z.alpha) + z.alpha <= Base(z.alpha, z.gen)
  {
    if i < z.alpha { RowBounds(i, z.alpha, z.alpha); }
    BaseGrows(z.alpha, z.alpha + 1, z.gen);
    WiderBase(z.alpha, z.alpha);
  }

  lemma {:induction false} WiderBase(i: nat, w: nat)
    ensures Base(i, w + 1) == Base(i, w) + i
  {
    if i > 0 { WiderBase(i - 1, w); }
  }

  /** memcpy within the buffer. */
  method CopyCells<T>(a: array<T>, at: nat, from: nat, n: nat)
    requires at + n <= a.Length && from + n <= a.Length && (at + n <= from || from + n <= at)
    modifies a
    ensures a[at..at + n] == old(a[from..from + n])
    ensures forall k :: 0 <= k < a.Length && !(at <= k < at + n) ==> a[k] == old(a[k])
  {
    ghost var run := a[from..from + n];
    for i := 0 to n
      invariant forall k :: 0 <= k < i ==> a[at + k] == run[k]
      invariant forall k :: 0 <= k < a.Length && !(at <= k < at + i) ==> a[k] == old(a[k])
      modifies a
    {
      assert run[i] == a[from + i];
      a[at + i] := a[from + i];
    }
  }

  /** Row r, after the row `to` has become row `from`. */
  ghost predicate CopiedAt<T>(z: Shape, was: seq<T>, mat: seq<T>, to: nat, from: nat, r: nat) {
    && ShapeOk(z) && |was| == |mat| == Base(z.alpha, z.gen) && r <= z.alpha && to <= z.alpha && from <= z.alpha
    && CellsAt(z, mat, r) == CellsAt(z, was, if r == to then from else r)
  }

  /** Row r, or the scratch row. */
  ghost function CellsAt<T>(z: Shape, mat: seq<T>, r: nat): (row: seq<T>)
    requires ShapeOk(z) && |mat| == Base(z.alpha, z.gen) && r <= z.alpha
    ensures Base(r, z.alpha) + z.alpha <= |mat| && row == SquareRow(z, mat, r)
  {
    ScratchFits(z, r);
    SquareRow(z, mat, r)
  }

  lemma RowsApart(z: Shape, i: nat, j: nat)
    requires i != j
    ensures Base(i, z.alpha) + z.alpha <= Base(j, z.alpha) || Base(j, z.alpha) + z.alpha <= Base(i, z.alpha)
  {
    if i < j { RowBounds(i, j, z.alpha); } else { RowBounds(j, i, z.alpha); }
  }

  method CopyRow<T>(z: Shape, mat: array<T>, to: nat, from: nat)
    requires ShapeOk(z) && mat.Length == Base(z.alpha, z.gen) && to <= z.alpha && from <= z.alpha && to != from
    modifies mat
    ensures forall r: nat :: r <= z.alpha ==> CopiedAt(z, old(mat[..]), mat[..], to, from, r)
  {
    ghost var was := mat[..];
    ScratchFits(z, to);
    ScratchFits(z, from);
    RowsApart(z, to, from);
    CopyCells(mat, Base(to, z.alpha), Base(from, z.alpha), z.alpha);
    forall r: nat | r <= z.alpha ensures CopiedAt(z, was, mat[..], to, from, r) {
      CopiedRow(z, was, mat[..], to, from, r);
    }
  }

  lemma CopiedRow<T>(z: Shape, was: seq<T>, mat: seq<T>, to: nat, from: nat, r: nat)
    requires ShapeOk(z) && |was| == |mat| == Base(z.alpha, z.gen) && r <= z.alpha && to <= z.alpha && from <= z.alpha
    requires CellsAt(z, mat, to) == CellsAt(z, was, from)
    requires forall k :: 0 <= k < |mat| && !(Base(to, z.alpha) <= k < Base(to, z.alpha) + z.alpha) ==> mat[k] == was[k]
    ensures CopiedAt(z, was, mat, to, from, r)
  {
    if r != to {
      ScratchFits(z, r);
      RowsApart(z, r, to);
      SliceKept(was, mat, Base(r, z.alpha), Base(r, z.alpha) + z.alpha);
    }
  }

  /** Rows a and b change places by way of the scratch row. */
  method SwapRows<T>(z: Shape, mat: array<T>, a: nat, b: nat, ghost rows: seq<seq<T>>)
    requires a < z.alpha && b < z.alpha && a != b && RowsHeld(z, mat[..], rows)
    modifies mat
    ensures RowsHeld(z, mat[..], Exchanged(rows, a, b))
  {
    ghost var m0 := mat[..];
    CopyRow(z, mat, z.alpha, b);
    ghost var m1 := mat[..];
    CopyRow(z, mat, b, a);
    ghost var m2 := mat[..];
    CopyRow(z, mat, a, z.alpha);
    SwappedRows(z, m0, m1, m2, mat[..], a, b, rows);
  }

  lemma SwappedRows<T>(z: Shape, m0: seq<T>, m1: seq<T>, m2: seq<T>, m3: seq<T>, a: nat, b: nat, rows: seq<seq<T>>)
    requires a < z.alpha && b < z.alpha && a != b && RowsHeld(z, m0, rows)
    requires |m1| == |m2| == |m3| == |m0|
    requires forall r: nat :: r <= z.alpha ==> CopiedAt(z, m0, m1, z.alpha, b, r)
    requires forall r: nat :: r <= z.alpha ==> CopiedAt(z, m1, m2, b, a, r)
    requires forall r: nat :: r <= z.alpha ==> CopiedAt(z, m2, m3, a, z.alpha, r)
    ensures RowsHeld(z, m3, Exchanged(rows, a, b))
  {
    forall r: nat | r < z.alpha ensures RowHeld(z, m3, Exchanged(rows, a, b), r) {
      var r2 := if r == a then z.alpha else r;
      var r1 := if r2 == b then a else r2;
      var r0 := if r1 == z.alpha then b else r1;
      assert CopiedAt(z, m2, m3, a, z.alpha, r) && CopiedAt(z, m1, m2, b, a, r2) && CopiedAt(z, m0, m1, z.alpha, b, r1);
      assert RowHeld(z, m0, rows, r0);
    }
  }

  ghost predicate RowHeld<T>(z: Shape, mat: seq<T>, rows: seq<seq<T>>, r: nat)
    requires ShapeOk(z) && |mat| == Base(z.alpha, z.gen) && |rows| == z.alpha && r < z.alpha
  {
    CellsAt(z, mat, r) == rows[r]
  }

  /** The front of the buffer holds these rows. */
  ghost predicate RowsHeld<T>(z: Shape, mat: seq<T>, rows: seq<seq<T>>) {
    && ShapeOk(z) && |mat| == Base(z.alpha, z.gen) && |rows| == z.alpha
    && forall r: nat :: r < z.alpha ==> RowHeld(z, mat, rows, r)
  }

  // ----- symbols

  /** Two symbols change places, element by element. */
  method SwapRuns<T>(s: array<T>, x: nat, y: nat, n: nat)
    requires x + n <= s.Length && y + n <= s.Length && (x + n <= y || y + n <= x)
    modifies s
    ensures s[x..x + n] == old(s[y..y + n]) && s[y..y + n] == old(s[x..x + n])
    ensures forall k :: 0 <= k < s.Length && !(x <= k < x + n) && !(y <= k < y + n) ==> s[k] == old(s[k])
  {
    ghost var a, b := s[x..x + n], s[y..y + n];
    var cp, rp := x, y;
    while cp < x + n
      invariant x <= cp <= x + n && rp == y + (cp - x)
      invariant forall k :: 0 <= k < cp - x ==> s[x + k] == b[k] && s[y + k] == a[k]
      invariant forall k :: cp - x <= k < n ==> s[x + k] == a[k] && s[y + k] == b[k]
      invariant forall k :: 0 <= k < s.Length && !(x <= k < x + n) && !(y <= k < y + n) ==> s[k] == old(s[k])
      modifies s
    {
      var temp := s[cp];
      s[cp] := s[rp];
      s[rp] := temp;
      cp, rp := cp + 1, rp + 1;
    }
  }

  lemma SplicedTwice<T>(was: seq<T>, now: seq<T>, x: nat, y: nat, a: seq<T>, b: seq<T>)
    requires |a| == |b| && x + |a| <= |was| == |now| && y + |a| <= |was| && (x + |a| <= y || y + |a| <= x)
    requires now[x..x + |a|] == b && now[y..y + |a|] == a
    requires forall k :: 0 <= k < |was| && !(x <= k < x + |a|) && !(y <= k < y + |a|) ==> now[k] == was[k]
    ensures now == Splice(Splice(was, x, b), y, a)
  {
    var mid := Splice(was, x, b);
    forall k | 0 <= k < |a| ensures now[y + k] == a[k] { assert now[y..y + |a|][k] == now[y + k]; }
    forall k | 0 <= k < |was| && !(y <= k < y + |a|) ensures now[k] == mid[k] {
      if x <= k < x + |a| { assert now[x..x + |a|][k - x] == now[k]; }
    }
    SpliceIs(mid, now, y, a);
  }

  method SwapSymbols<T>(s: array<T>, n: nat, w: nat, a: nat, b: nat)
    requires s.Length == Base(n, w) && a < n && b < n && a != b
    modifies s
    ensures Rows(s[..], n, w) == Exchanged(old(Rows(s[..], n, w)), a, b)
  {
    ghost var was, rows := s[..], Rows(s[..], n, w);
    RowPlace(was, a, n, w);
    RowPlace(was, b, n, w);
    if a < b { RowBounds(a, b, w); } else { RowBounds(b, a, w); }
    SwapRuns(s, Base(a, w), Base(b, w), w);
    SplicedTwice(was, s[..], Base(a, w), Base(b, w), rows[a], rows[b]);
    RowsSpliced(was, n, w, a, rows[b]);
    RowsSpliced(Splice(was, Base(a, w), rows[b]), n, w, b, rows[a]);
  }

  // ----- the loop over the diagonal

  /** The buffers hold the square matrix and, behind the symbols `head`, its symbols. */
  ghost predicate Held<T(!new)>(z: Shape, mat: seq<T>, symbol: seq<seq<T>>, head: seq<seq<T>>, q: Square<T>) {
    && SquareSized(z, q) && RowsHeld(z, mat, q.rows)
    && |head| == z.gen - z.alpha && symbol == head + q.syms
  }

  /** A coefficient of the square matrix. */
  method Coefficient<T(!new)>(z: Shape, mat: array<T>, ghost rows: seq<seq<T>>, i: nat, j: nat) returns (k: T)
    requires RowsHeld(z, mat[..], rows) && i < z.alpha && j < z.alpha
    ensures |rows[i]| == z.alpha && k == rows[i][j]
  {
    assert RowHeld(z, mat[..], rows, i);
    ScratchFits(z, i);
    k := mat[Base(i, z.alpha) + j];
  }

  /** The first row below the diagonal to change places with; diag itself if there is none. */
  method FindRow<T(!new, ==)>(o: Ops<T>, z: Shape, mat: array<T>, diag: nat, ghost rows: seq<seq<T>>)
    returns (swapRow: nat)
    requires RowsHeld(z, mat[..], rows) && AlphaSquare(z, rows) && diag < z.alpha && rows[diag][diag] == o.zero
    ensures var r := FirstWith(o, z, rows, diag, diag); swapRow == if r == z.alpha then diag else r
  {
    swapRow := diag;
    var i := diag + 1;
    while i < z.alpha
      invariant diag < i <= z.alpha && swapRow == diag
      invariant forall k :: diag <= k < i ==> rows[k][diag] == o.zero
    {
      var k := Coefficient(z, mat, rows, i, diag);
      if k != o.zero {
        FirstIs(o, z, rows, diag, diag, i);
        return i;
      }
      i := i + 1;
    }
    FirstIs(o, z, rows, diag, diag, z.alpha);
  }

  /** One turn: k is the coefficient on the diagonal, which is zero only if there is no row to change places with. */
  method PivotTurn<T(!new, ==)>(o: Ops<T>, z: Shape, mat: array<T>, symbol: array<T>, diag: nat,
                                ghost head: seq<seq<T>>, ghost q: Square<T>)
    returns (k: T, ghost next: Square<T>)
    requires mat != symbol && symbol.Length == Base(z.gen, z.width) && diag < z.alpha
    requires Held(z, mat[..], Rows(symbol[..], z.gen, z.width), head, q)
    modifies mat, symbol
    ensures k == o.zero ==> PivotAt(o, z, q, diag) == ZeroColumn(diag)
    ensures k != o.zero ==> PivotAt(o, z, q, diag) == Pivoted(next) && k == next.rows[diag][diag]
    ensures k != o.zero ==> Held(z, mat[..], Rows(symbol[..], z.gen, z.width), head, next)
  {
    next := q;
    k := Coefficient(z, mat, q.rows, diag, diag);
    if k != o.zero {
      FirstIs(o, z, q.rows, diag, diag, diag);
      assert Exchanged(q.rows, diag, diag) == q.rows && Exchanged(q.syms, diag, diag) == q.syms;
      return;
    }
    var swapRow := FindRow(o, z, mat, diag, q.rows);
    if swapRow == diag { return; }
    SwapRows(z, mat, diag, swapRow, q.rows);
    SwapSymbols(symbol, z.gen, z.width, z.gen - z.alpha + diag, z.gen - z.alpha + swapRow);
    next := Square(Exchanged(q.rows, diag, swapRow), Exchanged(q.syms, diag, swapRow));
    assert Rows(symbol[..], z.gen, z.width) == head + next.syms;
    k := Coefficient(z, mat, next.rows, diag, diag);
  }

  /** The diagonal, and what comes after its loop: with diag == alpha the normalisation multiplies the scratch row
      and a symbol that is not there, and no row is left to propagate down to. */
  method MakeDiagonal<T(!new, ==)>(o: Ops<T>, z: Shape, mat: array<T>, symbol: array<T>, ghost head: seq<seq<T>>,
                                   ghost q: Square<T>)
    returns (end: Ending, ghost now: Square<T>)
    requires mat != symbol && symbol.Length == Base(z.gen, z.width)
    requires Held(z, mat[..], Rows(symbol[..], z.gen, z.width), head, q)
    modifies mat, symbol
    ensures Ends(o, z, q, end, now) && EndsAs(o, z, q, end, now)
    ensures end.Returns? ==> Held(z, mat[..], Rows(symbol[..], z.gen, z.width), head, now)
  {
    now := q;
    var k := o.zero;
    for diag := 0 to z.alpha
      invariant Held(z, mat[..], Rows(symbol[..], z.gen, z.width), head, now)
      invariant Pivots(o, z, q, 0) == Pivots(o, z, now, diag)
      invariant diag > 0 ==> k == now.rows[diag - 1][diag - 1]
      modifies mat, symbol
    {
      ghost var was := now;
      k, now := PivotTurn(o, z, mat, symbol, diag, head, now);
      PivotsNext(o, z, was, diag);
      if k == o.zero {
        EndsTwoWays(o, z, q, Exits(diag), now);
        return Exits(diag), now;
      }
    }
    end := if k == o.one then Returns else Overruns;
    EndsTwoWays(o, z, q, end, now);
  }

  lemma PivotsNext<T(!new)>(o: Ops<T>, z: Shape, q: Square<T>, diag: nat)
    requires SquareSized(z, q) && diag < z.alpha
    ensures var s := PivotAt(o, z, q, diag);
      Pivots(o, z, q, diag) == if s.Pivoted? then Pivots(o, z, s.q, diag + 1) else s
  {
  }

  /** The ending is that of the model's second step. */
  ghost predicate Ends<T(!new)>(o: Ops<T>, z: Shape, q: Square<T>, end: Ending, now: Square<T>)
    requires ShapeOk(z) && SquareSized(z, q)
  {
    SecondStep(o, z, q) == match end
      case Exits(diag) => ZeroColumn(diag)
      case Overruns => BeyondTheLast
      case Returns => Pivoted(now)
  }

  /** The ending, by the matrices that the loop goes through. */
  ghost predicate EndsAs<T(!new)>(o: Ops<T>, z: Shape, q: Square<T>, end: Ending, now: Square<T>) {
    && (end.Returns? <==> exists p :: EndsPivoted(o, z, q, p)) && (end.Returns? ==> EndsPivoted(o, z, q, now))
    && (end.Overruns? <==> exists p :: EndsBeyond(o, z, q, p))
    && (forall k :: end == Exits(k) <==> exists p :: EndsAtColumn(o, z, q, k, p))
  }

  lemma EndsTwoWays<T(!new)>(o: Ops<T>, z: Shape, q: Square<T>, end: Ending, now: Square<T>)
    requires ShapeOk(z) && SquareSized(z, q) && Ends(o, z, q, end, now)
    ensures EndsAs(o, z, q, end, now)
  {
    Endings(o, z, q);
    var s := SecondStep(o, z, q);
    forall p | EndsPivoted(o, z, q, p) ensures end.Returns? { assert s == Pivoted(p); }
    forall k ensures end == Exits(k) <==> exists p :: EndsAtColumn(o, z, q, k, p) {
      assert s == ZeroColumn(k) <==> end == Exits(k);
    }
    assert end.Returns? ==> EndsPivoted(o, z, q, now);
  }

  // ----- the solver

  lemma ReducedHeld<T(!new)>(o: Ops<T>, z: Shape, d: Decoder<T>, mat: seq<T>, symbol: seq<seq<T>>)
    requires ShapeOk(z) && Sized(z, d) && |mat| == Base(z.alpha, z.gen) && |symbol| == z.gen
    requires symbol[..z.gen - z.alpha] == d.symbol[..z.gen - z.alpha]
    requires forall j: nat :: j < z.alpha ==> ReducedAt(o, z, d, mat, symbol, j)
    ensures Held(z, mat, symbol, d.symbol[..z.gen - z.alpha], ReducedSquare(o, z, d))
  {
    var q, p := ReducedSquare(o, z, d), z.gen - z.alpha;
    forall r: nat | r < z.alpha ensures RowHeld(z, mat, q.rows, r) { assert ReducedAt(o, z, d, mat, symbol, r); }
    forall r: nat | r < z.alpha ensures symbol[p + r] == q.syms[r] { assert ReducedAt(o, z, d, mat, symbol, r); }
    assert symbol == symbol[..p] + q.syms;
  }

  lemma HeldTriangulated<T(!new)>(z: Shape, coding: seq<seq<T>>, symbol: seq<seq<T>>, mat: seq<T>, d: Decoder<T>,
                                  q: Square<T>)
    requires ShapeOk(z) && Sized(z, d) && coding == d.coding && |mat| == Base(z.alpha, z.gen)
    requires Held(z, mat, symbol, d.symbol[..z.gen - z.alpha], q)
    ensures Triangulated(z, coding, symbol, mat, d, q.rows, q.syms)
  {
    forall r: nat | r < z.alpha
      ensures Base(r, z.alpha) + z.alpha <= |mat| && q.rows[r] == SquareRow(z, mat, r)
    {
      assert RowHeld(z, mat, q.rows, r);
    }
  }

  /** solve_gf8 and solve_gf16: the end that it comes to, and the symbols if it returns. */
  method Solve<T(!new, ==)>(o: Ops<T>, z: Shape, coding: array<T>, symbol: array<T>, mat: array<T>, limit: nat,
                            ghost d: Decoder<T>)
    returns (end: Ending, ghost q: Square<T>)
    requires Buffers(z, coding, symbol, mat) && Sized(z, d) && 0 < limit
    requires Rows(coding[..], z.gen, z.alpha) == d.coding && Rows(symbol[..], z.gen, z.width) == d.symbol
    modifies coding, symbol, mat
    ensures Ends(o, z, ReducedSquare(o, z, d), end, q) && EndsAs(o, z, ReducedSquare(o, z, d), end, q)
    ensures end.Returns? ==> SquareSized(z, q) && Rows(symbol[..], z.gen, z.width) == Solution(o, z, limit, d, q)
    ensures forall ms :: Solved(o, z, limit, d, ms) <==> end.Returns? && Spells(z, ms, Rows(symbol[..], z.gen, z.width))
  {
    Reduce(o, z, coding, symbol, mat, d);
    ReducedHeld(o, z, d, mat[..], Rows(symbol[..], z.gen, z.width));
    end, q := MakeDiagonal(o, z, mat, symbol, d.symbol[..z.gen - z.alpha], ReducedSquare(o, z, d));
    if end.Returns? {
      HeldTriangulated(z, Rows(coding[..], z.gen, z.alpha), Rows(symbol[..], z.gen, z.width), mat[..], d, q);
      Finish(o, z, coding, symbol, mat, limit, d, q.rows, q.syms);
    }
  }
}
