/** perpetual.c: the solver on the decoder's buffers, up to the reduced matrix and from the triangular one on. */
module PerpetualSolver {
  import opened Counters
  import opened Fields
  import opened Vectors
  import opened VecOps
  import opened Perpetual
  import opened PerpetualDecoder
  import opened SolverRows
  import opened BackSubstitution
  import opened SolverTheorems

  // ----- runs of cells

  lemma SliceKept<T>(a: seq<T>, b: seq<T>, lo: nat, hi: nat)
    requires lo <= hi <= |a| == |b| && forall k :: lo <= k < hi ==> b[k] == a[k]
    ensures b[lo..hi] == a[lo..hi]
  {
  }

  lemma SliceOfSlice<T>(a: seq<T>, lo: nat, hi: nat, from: nat, to: nat)
    requires lo <= hi <= |a| && from <= to <= hi - lo
    ensures a[lo..hi][from..to] == a[lo + from..lo + to]
  {
    var x, y := a[lo..hi][from..to], a[lo + from..lo + to];
    forall k | 0 <= k < to - from ensures x[k] == y[k] {}
  }

  method CopyRun<T>(a: array<T>, at: nat, b: array<T>, from: nat, n: nat)
    requires a != b && at + n <= a.Length && from + n <= b.Length
    modifies a
    ensures a[at..at + n] == b[from..from + n]
    ensures forall k :: 0 <= k < a.Length && !(at <= k < at + n) ==> a[k] == old(a[k])
  {
    ghost var run := b[from..from + n];
    for i := 0 to n
      invariant forall k :: 0 <= k < i ==> a[at + k] == run[k]
      invariant forall k :: 0 <= k < a.Length && !(at <= k < at + i) ==> a[k] == old(a[k])
      modifies a
    {
      assert run[i] == b[from + i];
      a[at + i] := b[from + i];
    }
  }

  method FillRun<T>(a: array<T>, at: nat, n: nat, v: T)
    requires at + n <= a.Length
    modifies a
    ensures forall k :: at <= k < at + n ==> a[k] == v
    ensures forall k :: 0 <= k < a.Length && !(at <= k < at + n) ==> a[k] == old(a[k])
  {
    for i := 0 to n
      invariant forall k :: at <= k < at + i ==> a[k] == v
      invariant forall k :: 0 <= k < a.Length && !(at <= k < at + i) ==> a[k] == old(a[k])
      modifies a
    {
      a[at + i] := v;
    }
  }

  /** Copy cells towards the front of the same buffer. */
  method MoveDown<T>(a: array<T>, at: nat, from: nat, n: nat)
    requires at <= from && from + n <= a.Length
    modifies a
    ensures a[at..at + n] == old(a[from..from + n])
    ensures forall k :: 0 <= k < a.Length && !(at <= k < at + n) ==> a[k] == old(a[k])
  {
    ghost var run := a[from..from + n];
    for i := 0 to n
      invariant forall k :: 0 <= k < i ==> a[at + k] == run[k]
      invariant forall k :: 0 <= k < a.Length && !(at <= k < at + i) ==> a[k] == old(a[k])
      modifies a
    {
      assert run[i] == old(a[from + i]);
      a[at + i] := a[from + i];
    }
  }

  /** Fused multiply and add: another stretch of cells, times val, is added to one. */
  method VecFma<T(!new)>(o: Ops<T>, d: array<T>, at: nat, s: array<T>, from: nat, val: T, n: nat)
    requires at + n <= d.Length && from + n <= s.Length && (d != s || at + n <= from || from + n <= at)
    modifies d
    ensures d[..] == Splice(old(d[..]), at, Plus(o, old(d[at..at + n]), Scale(o, val, old(s[from..from + n]))))
  {
    ghost var was, row := d[at..at + n], s[from..from + n];
    for i := 0 to n
      invariant forall k :: 0 <= k < i ==> d[at + k] == o.add(was[k], o.mul(val, row[k]))
      invariant forall k :: i <= k < n ==> d[at + k] == was[k]
      invariant forall k :: 0 <= k < d.Length && !(at <= k < at + i) ==> d[k] == old(d[k])
      invariant s[from..from + n] == row
      modifies d
    {
      assert s[from..from + n][i] == s[from + i];
      d[at + i] := o.add(d[at + i], o.mul(val, s[from + i]));
    }
    SpliceIs(old(d[..]), d[..], at, Plus(o, was, Scale(o, val, row)));
  }

  /** One symbol is added to another of the same buffer. */
  method XorRun<T(!new)>(o: Ops<T>, d: array<T>, at: nat, from: nat, n: nat)
    requires at + n <= d.Length && from + n <= d.Length && (at + n <= from || from + n <= at)
    modifies d
    ensures d[..] == Splice(old(d[..]), at, Plus(o, old(d[at..at + n]), old(d[from..from + n])))
  {
    ghost var was, row := d[at..at + n], d[from..from + n];
    for i := 0 to n
      invariant forall k :: 0 <= k < i ==> d[at + k] == o.add(was[k], row[k])
      invariant forall k :: i <= k < n ==> d[at + k] == was[k]
      invariant forall k :: 0 <= k < d.Length && !(at <= k < at + i) ==> d[k] == old(d[k])
      modifies d
    {
      assert d[from + i] == row[i];
      d[at + i] := o.add(d[at + i], d[from + i]);
    }
    SpliceIs(old(d[..]), d[..], at, Plus(o, was, row));
  }

  // ----- unfolding

  /** The left part of a row of the solver's matrix: the coefficients that wrap round, zeros, the 1. */
  method UnfoldHead<T(!new)>(o: Ops<T>, z: Shape, coding: array<T>, cp: nat, mat: array<T>, rp: nat, j: nat)
    requires ShapeOk(z) && j < z.alpha && mat != coding && cp + z.alpha <= coding.Length && rp + z.gen <= mat.Length
    modifies mat
    ensures mat[rp..rp + j + 1 + z.gen - z.alpha]
         == coding[cp..cp + z.alpha][z.alpha - (j + 1)..] + Zeros(o, z.gen - z.alpha - 1) + [o.one]
    ensures forall k :: 0 <= k < mat.Length && !(rp <= k < rp + j + 1 + z.gen - z.alpha) ==> mat[k] == old(mat[k])
  {
    var one, rest := rp + j + z.gen - z.alpha, z.alpha - (j + 1);
    ghost var code := coding[cp..cp + z.alpha];
    CopyRun(mat, rp, coding, cp + rest, j + 1);
    SliceOfSlice(coding[..], cp, cp + z.alpha, rest, z.alpha);
    FillRun(mat, rp + j + 1, z.gen - z.alpha - 1, o.zero);
    mat[one] := o.one;
    assert mat[rp..rp + j + 1] == code[rest..];
    Joined(mat[..], rp, rp + j + 1, one, code[rest..], Zeros(o, z.gen - z.alpha - 1));
    Joined(mat[..], rp, one, one + 1, code[rest..] + Zeros(o, z.gen - z.alpha - 1), [o.one]);
  }

  /** The cells of one row of the solver's matrix. */
  method UnfoldCells<T(!new)>(o: Ops<T>, z: Shape, coding: array<T>, cp: nat, mat: array<T>, rp: nat, j: nat)
    requires ShapeOk(z) && j < z.alpha && mat != coding && cp + z.alpha <= coding.Length && rp + z.gen <= mat.Length
    modifies mat
    ensures mat[rp..rp + z.gen] == Unfolded(o, z, j, coding[cp..cp + z.alpha])
    ensures forall k :: 0 <= k < mat.Length && !(rp <= k < rp + z.gen) ==> mat[k] == old(mat[k])
  {
    var at, rest := rp + j + 1 + z.gen - z.alpha, z.alpha - (j + 1);
    ghost var code := coding[cp..cp + z.alpha];
    ghost var head := code[rest..] + Zeros(o, z.gen - z.alpha - 1) + [o.one];
    UnfoldHead(o, z, coding, cp, mat, rp, j);
    CopyRun(mat, at, coding, cp, rest);
    SliceOfSlice(coding[..], cp, cp + z.alpha, 0, rest);
    assert mat[rp..at] == head;
    Joined(mat[..], rp, at, rp + z.gen, head, code[..rest]);
  }

  lemma Joined<T>(s: seq<T>, lo: nat, mid: nat, hi: nat, a: seq<T>, b: seq<T>)
    requires lo <= mid <= hi <= |s| && s[lo..mid] == a && s[mid..hi] == b
    ensures s[lo..hi] == a + b
  {
    assert s[lo..hi] == s[lo..mid] + s[mid..hi];
  }

  /** One row of the solver's matrix, from one of the decoder's. */
  method UnfoldRow<T(!new)>(o: Ops<T>, z: Shape, coding: array<T>, mat: array<T>, rp: nat, j: nat) returns (next: nat)
    requires ShapeOk(z) && j < z.alpha && rp == Base(j, z.gen) && mat != coding
    requires coding.Length == Base(z.gen, z.alpha) && mat.Length == Base(z.alpha, z.gen)
    modifies mat
    ensures next == Base(j + 1, z.gen)
    ensures Rows(mat[..], z.alpha, z.gen)
         == old(Rows(mat[..], z.alpha, z.gen))[j := Unfolded(o, z, j,
                                                             Rows(coding[..], z.gen, z.alpha)[z.gen - z.alpha + j])]
  {
    var cp := Base(z.gen - z.alpha + j, z.alpha);
    RowPlace(coding[..], z.gen - z.alpha + j, z.gen, z.alpha);
    ghost var r := Unfolded(o, z, j, coding[cp..cp + z.alpha]);
    RowsSpliced(mat[..], z.alpha, z.gen, j, r);
    UnfoldCells(o, z, coding, cp, mat, rp, j);
    SpliceFrom(old(mat[..]), mat[..], rp, r);
    next := rp + z.gen;
  }

  lemma SpliceFrom<T>(a: seq<T>, b: seq<T>, at: nat, x: seq<T>)
    requires at + |x| <= |a| == |b| && b[at..at + |x|] == x
    requires forall k :: 0 <= k < |a| && !(at <= k < at + |x|) ==> b[k] == a[k]
    ensures b == Splice(a, at, x)
  {
    forall k | 0 <= k < |x| ensures b[at + k] == x[k] { assert b[at..at + |x|][k] == b[at + k]; }
    SpliceIs(a, b, at, x);
  }

  method Unfold<T(!new)>(o: Ops<T>, z: Shape, coding: array<T>, mat: array<T>)
    requires ShapeOk(z) && mat != coding
    requires coding.Length == Base(z.gen, z.alpha) && mat.Length == Base(z.alpha, z.gen)
    modifies mat
    ensures forall j :: 0 <= j < z.alpha ==>
      Rows(mat[..], z.alpha, z.gen)[j] == Unfolded(o, z, j, Rows(coding[..], z.gen, z.alpha)[z.gen - z.alpha + j])
  {
    var rp := 0;
    for j := 0 to z.alpha
      invariant rp == Base(j, z.gen)
      invariant forall i :: 0 <= i < j ==>
        Rows(mat[..], z.alpha, z.gen)[i] == Unfolded(o, z, i, Rows(coding[..], z.gen, z.alpha)[z.gen - z.alpha + i])
      modifies mat
    {
      rp := UnfoldRow(o, z, coding, mat, rp, j);
    }
  }

  // ----- forward propagation

  /** The three buffers: rows of the decoder, their symbols, and the solver's rows of full width. */
  ghost predicate Buffers<T>(z: Shape, coding: array<T>, symbol: array<T>, mat: array<T>) {
    && ShapeOk(z) && mat != coding && mat != symbol && coding != symbol
    && coding.Length == Base(z.gen, z.alpha) && symbol.Length == Base(z.gen, z.width)
    && mat.Length == Base(z.alpha, z.gen)
  }

  /** Row j of the matrix and its symbol. */
  function WideAt<T(!new)>(z: Shape, mat: seq<seq<T>>, symbol: seq<seq<T>>, j: nat): Wide<T>
    requires ShapeOk(z) && |mat| == z.alpha && |symbol| == z.gen && j < z.alpha
  {
    Wide(mat[j], symbol[z.gen - z.alpha + j])
  }

  /** Add k times row i of one buffer to the cells from position at on of another. */
  method FmaRow<T(!new)>(o: Ops<T>, d: array<T>, at: nat, s: array<T>, n: nat, w: nat, i: nat, k: T,
                         ghost part: seq<T>, ghost row: seq<T>)
    requires d != s && s.Length == Base(n, w) && i < n && at + w <= d.Length
    requires part == d[..][at..at + w] && row == Rows(s[..], n, w)[i]
    modifies d
    ensures d[..] == Splice(old(d[..]), at, Plus(o, part, Scale(o, k, row)))
  {
    RowPlace(s[..], i, n, w);
    assert s[Base(i, w)..Base(i, w) + w] == row && d[at..at + w] == part;
    VecFma(o, d, at, s, Base(i, w), k, w);
  }

  /** The same for two rows of one buffer. */
  method FmaWithin<T(!new)>(o: Ops<T>, s: array<T>, n: nat, w: nat, to: nat, i: nat, k: T)
    requires s.Length == Base(n, w) && i < n && to < n && i != to
    modifies s
    ensures var rows := old(Rows(s[..], n, w));
      Rows(s[..], n, w) == rows[to := Plus(o, rows[to], Scale(o, k, rows[i]))]
  {
    ghost var rows, was := Rows(s[..], n, w), s[..];
    RowPlace(was, i, n, w);
    RowPlace(was, to, n, w);
    if i < to { RowBounds(i, to, w); } else { RowBounds(to, i, w); }
    VecFma(o, s, Base(to, w), s, Base(i, w), k, w);
    FmaRows(o, was, s[..], n, w, to, i, k);
  }

  lemma FmaRows<T(!new)>(o: Ops<T>, a: seq<T>, b: seq<T>, n: nat, w: nat, to: nat, i: nat, k: T)
    requires |a| == Base(n, w) && i < n && to < n && Base(i, w) + w <= |a| && Base(to, w) + w <= |a|
    requires var x, y := a[Base(to, w)..Base(to, w) + w], a[Base(i, w)..Base(i, w) + w];
      b == Splice(a, Base(to, w), Plus(o, x, Scale(o, k, y)))
    ensures |b| == |a|
    ensures Rows(b, n, w) == Rows(a, n, w)[to := Plus(o, Rows(a, n, w)[to], Scale(o, k, Rows(a, n, w)[i]))]
  {
    RowPlace(a, i, n, w);
    RowPlace(a, to, n, w);
    RowsSpliced(a, n, w, to, Plus(o, Rows(a, n, w)[to], Scale(o, k, Rows(a, n, w)[i])));
  }

  /** The matrix row of a sweep: column diag is set to zero, the alpha columns after it take the decoder's row. */
  method SweepCells<T(!new)>(o: Ops<T>, z: Shape, coding: array<T>, mat: array<T>, j: nat, diag: nat, k: T,
                             ghost row: seq<T>, ghost code: seq<T>)
    requires ShapeOk(z) && j < z.alpha && diag + z.alpha < z.gen && mat != coding
    requires coding.Length == Base(z.gen, z.alpha) && mat.Length == Base(z.alpha, z.gen)
    requires row == Rows(mat[..], z.alpha, z.gen)[j] && code == Rows(coding[..], z.gen, z.alpha)[diag]
    modifies mat
    ensures Rows(mat[..], z.alpha, z.gen)
         == old(Rows(mat[..], z.alpha, z.gen))[j := row[..diag] + [o.zero]
              + Plus(o, row[diag + 1..diag + 1 + z.alpha], Scale(o, k, code)) + row[diag + 1 + z.alpha..]]
  {
    ghost var was, part := mat[..], row[diag + 1..diag + 1 + z.alpha];
    SweptRows(was, z, j, row, diag, o.zero, Plus(o, part, Scale(o, k, code)));
    var rp := Base(j, z.gen);
    UnsweptCells(was, rp, row, diag, o.zero, z.alpha);
    mat[rp + diag] := o.zero;
    assert mat[..] == was[rp + diag := o.zero];
    FmaRow(o, mat, rp + diag + 1, coding, z.gen, z.alpha, diag, k, part, code);
  }

  lemma SweptRows<T>(was: seq<T>, z: Shape, j: nat, row: seq<T>, diag: nat, v: T, sum: seq<T>)
    requires |was| == Base(z.alpha, z.gen) && j < z.alpha && row == Rows(was, z.alpha, z.gen)[j]
    requires diag + z.alpha < z.gen && |sum| == z.alpha
    ensures Base(j, z.gen) + z.gen <= |was|
    ensures var s := Splice(was[Base(j, z.gen) + diag := v], Base(j, z.gen) + diag + 1, sum);
      && |s| == |was|
      && Rows(s, z.alpha, z.gen)
      == Rows(was, z.alpha, z.gen)[j := row[..diag] + [v] + sum + row[diag + 1 + z.alpha..]]
  {
    RowPlace(was, j, z.alpha, z.gen);
    RowsSpliced(was, z.alpha, z.gen, j, row[..diag] + [v] + sum + row[diag + 1 + z.alpha..]);
    SweptCells(was, Base(j, z.gen), row, diag, v, sum);
  }

  lemma UnsweptCells<T>(was: seq<T>, rp: nat, row: seq<T>, diag: nat, v: T, n: nat)
    requires rp + |row| <= |was| && was[rp..rp + |row|] == row && diag + 1 + n <= |row|
    ensures was[rp + diag := v][rp + diag + 1..rp + diag + 1 + n] == row[diag + 1..diag + 1 + n]
  {
    SliceOfSlice(was, rp, rp + |row|, diag + 1, diag + 1 + n);
    SliceKept(was, was[rp + diag := v], rp + diag + 1, rp + diag + 1 + n);
  }

  lemma SweptCells<T>(was: seq<T>, rp: nat, row: seq<T>, diag: nat, v: T, sum: seq<T>)
    requires rp + |row| <= |was| && was[rp..rp + |row|] == row && diag + 1 + |sum| <= |row|
    ensures Splice(was[rp + diag := v], rp + diag + 1, sum)
         == Splice(was, rp, row[..diag] + [v] + sum + row[diag + 1 + |sum|..])
  {
    var next := row[..diag] + [v] + sum + row[diag + 1 + |sum|..];
    var s := Splice(was[rp + diag := v], rp + diag + 1, sum);
    forall k | 0 <= k < |next| ensures s[rp + k] == next[k] {
      assert was[rp..rp + |row|][k] == was[rp + k];
    }
    SpliceIs(was, s, rp, next);
  }

  /** The row's column diag is cleared. */
  method SweepRow<T(!new, ==)>(o: Ops<T>, z: Shape, coding: array<T>, symbol: array<T>, mat: array<T>, rp: nat, j: nat,
                               diag: nat)
    requires Buffers(z, coding, symbol, mat) && j < z.alpha && diag + z.alpha < z.gen && rp == Base(j, z.gen) + diag
    modifies mat, symbol
    ensures var rows, syms := old(Rows(mat[..], z.alpha, z.gen)), old(Rows(symbol[..], z.gen, z.width));
      && var r := Sweep(o, z, diag, Rows(coding[..], z.gen, z.alpha)[diag], syms[diag], WideAt(z, rows, syms, j));
      && Rows(mat[..], z.alpha, z.gen) == rows[j := r.row]
      && Rows(symbol[..], z.gen, z.width) == syms[z.gen - z.alpha + j := r.sym]
  {
    ghost var rows, syms := Rows(mat[..], z.alpha, z.gen), Rows(symbol[..], z.gen, z.width);
    RowPlace(mat[..], j, z.alpha, z.gen);
    var k := mat[rp];
    assert k == rows[j][diag];
    if k == o.zero {
      assert rows[j := rows[j]] == rows && syms[z.gen - z.alpha + j := syms[z.gen - z.alpha + j]] == syms;
      return;
    }
    SweepCells(o, z, coding, mat, j, diag, k, rows[j], Rows(coding[..], z.gen, z.alpha)[diag]);
    FmaWithin(o, symbol, z.gen, z.width, z.gen - z.alpha + j, diag, k);
  }

  ghost predicate SweptAt<T(!new)>(o: Ops<T>, z: Shape, d: Decoder<T>, n: nat, mat: seq<seq<T>>, symbol: seq<seq<T>>,
                                   j: nat)
    requires ShapeOk(z) && Sized(z, d) && n + z.alpha <= z.gen && |mat| == z.alpha && |symbol| == z.gen && j < z.alpha
  {
    WideAt(z, mat, symbol, j) == Swept(o, z, d, n, WideRow(o, z, d, j))
  }

  /** Rows before j have been swept with column diag, the others with those before it only. */
  ghost predicate SweptTo<T(!new)>(o: Ops<T>, z: Shape, d: Decoder<T>, diag: nat, j: nat, mat: seq<seq<T>>,
                                   symbol: seq<seq<T>>)
  {
    && ShapeOk(z) && Sized(z, d) && diag + z.alpha < z.gen && |mat| == z.alpha && |symbol| == z.gen
    && symbol[..z.gen - z.alpha] == d.symbol[..z.gen - z.alpha]
    && forall i :: 0 <= i < z.alpha ==> SweptUnder(o, z, d, diag, j, mat, symbol, i)
  }

  ghost predicate SweptUnder<T(!new)>(o: Ops<T>, z: Shape, d: Decoder<T>, diag: nat, j: nat, mat: seq<seq<T>>,
                                      symbol: seq<seq<T>>, i: nat)
    requires ShapeOk(z) && Sized(z, d) && diag + z.alpha < z.gen && |mat| == z.alpha && |symbol| == z.gen && i < z.alpha
  {
    SweptAt(o, z, d, if i < j then diag + 1 else diag, mat, symbol, i)
  }

  lemma SweptOne<T(!new)>(o: Ops<T>, z: Shape, d: Decoder<T>, diag: nat, j: nat, mat: seq<seq<T>>, symbol: seq<seq<T>>)
    requires SweptTo(o, z, d, diag, j, mat, symbol) && j < z.alpha
    ensures |mat[j]| == z.gen && |symbol[z.gen - z.alpha + j]| == z.width && symbol[diag] == d.symbol[diag]
    ensures var r := Sweep(o, z, diag, d.coding[diag], d.symbol[diag], WideAt(z, mat, symbol, j));
      SweptTo(o, z, d, diag, j + 1, mat[j := r.row], symbol[z.gen - z.alpha + j := r.sym])
  {
    var p := z.gen - z.alpha;
    assert SweptUnder(o, z, d, diag, j, mat, symbol, j);
    assert symbol[diag] == symbol[..p][diag] == d.symbol[..p][diag];
    var r := Sweep(o, z, diag, d.coding[diag], d.symbol[diag], WideAt(z, mat, symbol, j));
    var mat', symbol', next := mat[j := r.row], symbol[p + j := r.sym], j + 1;
    forall i | 0 <= i < z.alpha ensures SweptUnder(o, z, d, diag, next, mat', symbol', i) {
      assert SweptUnder(o, z, d, diag, j, mat, symbol, i);
    }
  }

  /** The solver's rows, and the symbols, after the first n columns. */
  ghost predicate AllSwept<T(!new)>(o: Ops<T>, z: Shape, d: Decoder<T>, n: nat, mat: seq<seq<T>>, symbol: seq<seq<T>>) {
    && ShapeOk(z) && Sized(z, d) && n + z.alpha <= z.gen && |mat| == z.alpha && |symbol| == z.gen
    && symbol[..z.gen - z.alpha] == d.symbol[..z.gen - z.alpha]
    && forall i :: 0 <= i < z.alpha ==> SweptAt(o, z, d, n, mat, symbol, i)
  }

  lemma ColumnBegins<T(!new)>(o: Ops<T>, z: Shape, d: Decoder<T>, diag: nat, mat: seq<seq<T>>, symbol: seq<seq<T>>)
    requires AllSwept(o, z, d, diag, mat, symbol) && diag + z.alpha < z.gen
    ensures SweptTo(o, z, d, diag, 0, mat, symbol)
  {
    forall i | 0 <= i < z.alpha ensures SweptUnder(o, z, d, diag, 0, mat, symbol, i) {
      assert SweptAt(o, z, d, diag, mat, symbol, i);
    }
  }

  lemma ColumnEnds<T(!new)>(o: Ops<T>, z: Shape, d: Decoder<T>, diag: nat, mat: seq<seq<T>>, symbol: seq<seq<T>>)
    requires SweptTo(o, z, d, diag, z.alpha, mat, symbol)
    ensures AllSwept(o, z, d, diag + 1, mat, symbol)
  {
    var n := diag + 1;
    forall i | 0 <= i < z.alpha ensures SweptAt(o, z, d, n, mat, symbol, i) {
      assert SweptUnder(o, z, d, diag, z.alpha, mat, symbol, i);
    }
  }

  /** Work down column diag. */
  method SweepColumn<T(!new, ==)>(o: Ops<T>, z: Shape, coding: array<T>, symbol: array<T>, mat: array<T>, diag: nat,
                                  ghost d: Decoder<T>)
    requires Buffers(z, coding, symbol, mat) && diag + z.alpha < z.gen
    requires Rows(coding[..], z.gen, z.alpha) == d.coding
    requires AllSwept(o, z, d, diag, Rows(mat[..], z.alpha, z.gen), Rows(symbol[..], z.gen, z.width))
    modifies mat, symbol
    ensures AllSwept(o, z, d, diag + 1, Rows(mat[..], z.alpha, z.gen), Rows(symbol[..], z.gen, z.width))
  {
    var rp := diag;
    ColumnBegins(o, z, d, diag, Rows(mat[..], z.alpha, z.gen), Rows(symbol[..], z.gen, z.width));
    for j := 0 to z.alpha
      invariant rp == Base(j, z.gen) + diag
      invariant SweptTo(o, z, d, diag, j, Rows(mat[..], z.alpha, z.gen), Rows(symbol[..], z.gen, z.width))
      modifies mat, symbol
    {
      SweptOne(o, z, d, diag, j, Rows(mat[..], z.alpha, z.gen), Rows(symbol[..], z.gen, z.width));
      SweepRow(o, z, coding, symbol, mat, rp, j, diag);
      rp := rp + z.gen;
    }
    ColumnEnds(o, z, d, diag, Rows(mat[..], z.alpha, z.gen), Rows(symbol[..], z.gen, z.width));
  }

  method Forward<T(!new, ==)>(o: Ops<T>, z: Shape, coding: array<T>, symbol: array<T>, mat: array<T>,
                              ghost d: Decoder<T>)
    requires Buffers(z, coding, symbol, mat) && Rows(coding[..], z.gen, z.alpha) == d.coding
    requires AllSwept(o, z, d, 0, Rows(mat[..], z.alpha, z.gen), Rows(symbol[..], z.gen, z.width))
    modifies mat, symbol
    ensures AllSwept(o, z, d, z.gen - z.alpha, Rows(mat[..], z.alpha, z.gen), Rows(symbol[..], z.gen, z.width))
  {
    for diag := 0 to z.gen - z.alpha
      invariant AllSwept(o, z, d, diag, Rows(mat[..], z.alpha, z.gen), Rows(symbol[..], z.gen, z.width))
      modifies mat, symbol
    {
      SweepColumn(o, z, coding, symbol, mat, diag, d);
    }
  }

  // ----- compaction

  lemma {:induction false} BaseGrows(i: nat, v: nat, w: nat)
    requires v <= w
    ensures Base(i, v) <= Base(i, w)
  {
    if i > 0 { BaseGrows(i - 1, v, w); }
  }

  ghost predicate CompactAt<T>(z: Shape, was: seq<T>, mat: seq<T>, r: nat) {
    && Base(r, z.gen) + z.gen <= |was| && Base(r, z.alpha) + z.alpha <= |mat| && z.alpha <= z.gen
    && mat[Base(r, z.alpha)..Base(r, z.alpha) + z.alpha]
      == was[Base(r, z.gen) + z.gen - z.alpha..Base(r, z.gen) + z.gen]
  }

  /** The last alpha columns move to the front of the buffer. */
  method Compact<T>(z: Shape, mat: array<T>)
    requires ShapeOk(z) && mat.Length == Base(z.alpha, z.gen)
    modifies mat
    ensures forall r: nat :: r < z.alpha ==> CompactAt(z, old(mat[..]), mat[..], r)
  {
    var rp, cp := 0, z.gen - z.alpha;
    ghost var was := mat[..];
    for i := 0 to z.alpha
      invariant rp == Base(i, z.alpha) && cp == Base(i, z.gen) + z.gen - z.alpha
      invariant forall r: nat :: r < i ==> CompactAt(z, was, mat[..], r)
      invariant rp <= mat.Length && mat[rp..] == was[rp..]
      modifies mat
    {
      RowBounds(i, z.alpha, z.gen);
      BaseGrows(i, z.alpha, z.gen);
      ghost var old1 := mat[..];
      MoveDown(mat, rp, cp, z.alpha);
      Kept(z, was, old1, mat[..], i);
      rp, cp := rp + z.alpha, cp + z.gen;
    }
  }

  lemma Kept<T>(z: Shape, was: seq<T>, a: seq<T>, b: seq<T>, i: nat)
    requires ShapeOk(z) && i < z.alpha && |was| == |a| == |b| == Base(z.alpha, z.gen)
    requires Base(i, z.gen) + z.gen <= |a| && Base(i, z.alpha) <= Base(i, z.gen)
    requires a[Base(i, z.alpha)..] == was[Base(i, z.alpha)..]
    requires forall r: nat :: r < i ==> CompactAt(z, was, a, r)
    requires b[Base(i, z.alpha)..Base(i, z.alpha) + z.alpha]
      == a[Base(i, z.gen) + z.gen - z.alpha..Base(i, z.gen) + z.gen]
    requires forall k :: 0 <= k < |a| && !(Base(i, z.alpha) <= k < Base(i, z.alpha) + z.alpha) ==> b[k] == a[k]
    ensures forall r: nat :: r < i + 1 ==> CompactAt(z, was, b, r)
    ensures b[Base(i, z.alpha) + z.alpha..] == was[Base(i, z.alpha) + z.alpha..]
  {
    var at, n := Base(i, z.alpha), i + 1;
    TailKept(was, a, at, Base(i, z.gen) + z.gen - z.alpha, Base(i, z.gen) + z.gen);
    assert CompactAt(z, was, b, i);
    forall r: nat | r < i ensures CompactAt(z, was, b, r) { KeptRow(z, was, a, b, i, r); }
    forall r: nat | r < n ensures CompactAt(z, was, b, r) {}
    SliceKept(a, b, at + z.alpha, |a|);
    TailKept(was, a, at, at + z.alpha, |a|);
  }

  lemma KeptRow<T>(z: Shape, was: seq<T>, a: seq<T>, b: seq<T>, i: nat, r: nat)
    requires CompactAt(z, was, a, r) && r < i && |a| == |b|
    requires forall k :: 0 <= k < |a| && !(Base(i, z.alpha) <= k < Base(i, z.alpha) + z.alpha) ==> b[k] == a[k]
    ensures CompactAt(z, was, b, r)
  {
    RowBounds(r, i, z.alpha);
    SliceKept(a, b, Base(r, z.alpha), Base(r, z.alpha) + z.alpha);
  }

  lemma TailKept<T>(a: seq<T>, b: seq<T>, at: nat, lo: nat, hi: nat)
    requires at <= lo <= hi <= |a| == |b| && a[at..] == b[at..]
    ensures b[lo..hi] == a[lo..hi]
  {
    assert a[lo..hi] == a[at..][lo - at..hi - at];
  }

  // ----- up to the reduced matrix

  /** Row r of the square matrix at the front of the buffer. */
  ghost function SquareRow<T>(z: Shape, mat: seq<T>, r: nat): (row: seq<T>)
    requires Base(r, z.alpha) + z.alpha <= |mat|
    ensures |row| == z.alpha
  {
    mat[Base(r, z.alpha)..Base(r, z.alpha) + z.alpha]
  }

  ghost predicate ReducedAt<T(!new)>(o: Ops<T>, z: Shape, d: Decoder<T>, mat: seq<T>, symbol: seq<seq<T>>, j: nat)
    requires ShapeOk(z) && Sized(z, d) && |symbol| == z.gen && j < z.alpha
  {
    && Base(j, z.alpha) + z.alpha <= |mat|
    && SquareRow(z, mat, j) == SweptRow(o, z, d, j).row[z.gen - z.alpha..]
    && symbol[z.gen - z.alpha + j] == SweptRow(o, z, d, j).sym
  }

  lemma CompactedRow<T(!new)>(o: Ops<T>, z: Shape, d: Decoder<T>, was: seq<T>, mat: seq<T>, symbol: seq<seq<T>>, j: nat)
    requires ShapeOk(z) && |was| == Base(z.alpha, z.gen) && |symbol| == z.gen && j < z.alpha
    requires AllSwept(o, z, d, z.gen - z.alpha, Rows(was, z.alpha, z.gen), symbol) && CompactAt(z, was, mat, j)
    ensures ReducedAt(o, z, d, mat, symbol, j)
  {
    var p := z.gen - z.alpha;
    assert SweptAt(o, z, d, p, Rows(was, z.alpha, z.gen), symbol, j);
    RowPlace(was, j, z.alpha, z.gen);
    var x := Base(j, z.gen);
    assert was[x..x + z.gen][p..] == was[x + p..x + z.gen];
  }

  /** Unfold, propagate forward, and compact: row j of the square matrix, with its symbol, is what is left of
      row gen - alpha + j. */
  method Reduce<T(!new, ==)>(o: Ops<T>, z: Shape, coding: array<T>, symbol: array<T>, mat: array<T>,
                             ghost d: Decoder<T>)
    requires Buffers(z, coding, symbol, mat) && Sized(z, d)
    requires Rows(coding[..], z.gen, z.alpha) == d.coding && Rows(symbol[..], z.gen, z.width) == d.symbol
    modifies mat, symbol
    ensures var symbols := Rows(symbol[..], z.gen, z.width);
      && symbols[..z.gen - z.alpha] == d.symbol[..z.gen - z.alpha]
      && forall j: nat :: j < z.alpha ==> ReducedAt(o, z, d, mat[..], symbols, j)
  {
    Unfold(o, z, coding, mat);
    forall i | 0 <= i < z.alpha
      ensures SweptAt(o, z, d, 0, Rows(mat[..], z.alpha, z.gen), Rows(symbol[..], z.gen, z.width), i) {}
    Forward(o, z, coding, symbol, mat, d);
    ghost var was := mat[..];
    Compact(z, mat);
    forall j: nat | j < z.alpha ensures ReducedAt(o, z, d, mat[..], Rows(symbol[..], z.gen, z.width), j) {
      CompactedRow(o, z, d, was, mat[..], Rows(symbol[..], z.gen, z.width), j);
    }
  }

  // ----- back to the decoder's form

  method RestoreRow<T(!new)>(o: Ops<T>, z: Shape, coding: array<T>, mat: array<T>, rp: nat, r: nat)
    requires ShapeOk(z) && r < z.alpha && coding != mat && coding.Length == Base(z.gen, z.alpha)
    requires Base(r, z.alpha) + z.alpha <= mat.Length && rp == Base(r, z.alpha) + r + 1
    modifies coding
    ensures var rows := old(Rows(coding[..], z.gen, z.alpha));
      Rows(coding[..], z.gen, z.alpha) == rows[z.gen - z.alpha + r := Restored(o, z, r, SquareRow(z, mat[..], r))]
  {
    var i := z.gen - z.alpha + r;
    var cp := Base(i, z.alpha);
    ghost var was, row := coding[..], SquareRow(z, mat[..], r);
    RowPlace(was, i, z.gen, z.alpha);
    RowsSpliced(was, z.gen, z.alpha, i, Restored(o, z, r, row));
    var n := z.alpha - (r + 1);
    CopyRun(coding, cp, mat, rp, n);
    assert mat[rp..rp + n] == row[r + 1..];
    FillRun(coding, cp + n, r + 1, o.zero);
    assert coding[cp..cp + n] == row[r + 1..] && coding[cp + n..cp + z.alpha] == Zeros(o, r + 1);
    assert coding[cp..cp + z.alpha] == coding[cp..cp + n] + coding[cp + n..cp + z.alpha];
    SpliceFrom(was, coding[..], cp, Restored(o, z, r, row));
  }

  ghost predicate RestoredAt<T(!new)>(o: Ops<T>, z: Shape, mat: seq<T>, coding: seq<seq<T>>, r: nat)
    requires ShapeOk(z) && |coding| == z.gen && r < z.alpha
  {
    Base(r, z.alpha) + z.alpha <= |mat| && coding[z.gen - z.alpha + r] == Restored(o, z, r, SquareRow(z, mat, r))
  }

  /** Write the square matrix back over the last rows. */
  method Restore<T(!new)>(o: Ops<T>, z: Shape, coding: array<T>, mat: array<T>)
    requires ShapeOk(z) && coding != mat && coding.Length == Base(z.gen, z.alpha) && mat.Length == Base(z.alpha, z.gen)
    modifies coding
    ensures var rows := Rows(coding[..], z.gen, z.alpha);
      && rows[..z.gen - z.alpha] == old(Rows(coding[..], z.gen, z.alpha))[..z.gen - z.alpha]
      && forall r :: 0 <= r < z.alpha ==> RestoredAt(o, z, mat[..], rows, r)
  {
    BaseGrows(z.alpha, z.alpha, z.gen);
    var rp := 1;
    for r := 0 to z.alpha
      invariant rp == Base(r, z.alpha) + r + 1
      invariant var rows := Rows(coding[..], z.gen, z.alpha);
        && rows[..z.gen - z.alpha] == old(Rows(coding[..], z.gen, z.alpha))[..z.gen - z.alpha]
        && forall i :: 0 <= i < r ==> RestoredAt(o, z, mat[..], rows, i)
      modifies coding
    {
      RowBounds(r, z.alpha, z.alpha);
      ghost var rows := Rows(coding[..], z.gen, z.alpha);
      RestoreRow(o, z, coding, mat, rp, r);
      ghost var now := Rows(coding[..], z.gen, z.alpha);
      forall i | 0 <= i < r ensures RestoredAt(o, z, mat[..], now, i) { assert RestoredAt(o, z, mat[..], rows, i); }
      rp := rp + (z.alpha - (r + 1)) + (r + 1) + 1;
    }
  }

  // ----- back-substitution

  method XorWithin<T(!new)>(o: Ops<T>, s: array<T>, n: nat, w: nat, to: nat, i: nat)
    requires s.Length == Base(n, w) && i < n && to < n && i != to
    modifies s
    ensures var rows := old(Rows(s[..], n, w)); Rows(s[..], n, w) == rows[to := Plus(o, rows[to], rows[i])]
  {
    ghost var was := s[..];
    RowPlace(was, i, n, w);
    RowPlace(was, to, n, w);
    if i < to { RowBounds(i, to, w); } else { RowBounds(to, i, w); }
    XorRun(o, s, Base(to, w), Base(i, w), w);
    XorRows(o, was, s[..], n, w, to, i);
  }

  lemma XorRows<T(!new)>(o: Ops<T>, a: seq<T>, b: seq<T>, n: nat, w: nat, to: nat, i: nat)
    requires |a| == Base(n, w) && i < n && to < n && Base(i, w) + w <= |a| && Base(to, w) + w <= |a|
    requires var x, y := a[Base(to, w)..Base(to, w) + w], a[Base(i, w)..Base(i, w) + w];
      b == Splice(a, Base(to, w), Plus(o, x, y))
    ensures |b| == |a| && Rows(b, n, w) == Rows(a, n, w)[to := Plus(o, Rows(a, n, w)[to], Rows(a, n, w)[i])]
  {
    RowPlace(a, i, n, w);
    RowPlace(a, to, n, w);
    RowsSpliced(a, n, w, to, Plus(o, Rows(a, n, w)[to], Rows(a, n, w)[i]));
  }

  /** One cell of a row. */
  lemma CellSet<T>(a: seq<T>, n: nat, w: nat, i: nat, t: nat, v: T)
    requires |a| == Base(n, w) && i < n && t < w
    ensures Base(i, w) + t < |a| && a[Base(i, w) + t] == Rows(a, n, w)[i][t]
    ensures Rows(a[Base(i, w) + t := v], n, w) == Rows(a, n, w)[i := Rows(a, n, w)[i][t := v]]
  {
    RowPlace(a, i, n, w);
    var at, row := Base(i, w), Rows(a, n, w)[i];
    RowsSpliced(a, n, w, i, row[t := v]);
    SpliceFrom(a, a[at + t := v], at, row[t := v]);
  }

  /** The step's change of the symbols, whether the coefficient is 1 or not. */
  method BackSymbol<T(!new, ==)>(o: Ops<T>, z: Shape, symbol: array<T>, diag: nat, i: nat, k: T)
    requires i < diag < z.gen && symbol.Length == Base(z.gen, z.width)
    modifies symbol
    ensures var syms := old(Rows(symbol[..], z.gen, z.width));
      Rows(symbol[..], z.gen, z.width)
      == syms[i := Plus(o, syms[i], if k == o.one then syms[diag] else Scale(o, k, syms[diag]))]
  {
    if k == o.one {
      XorWithin(o, symbol, z.gen, z.width, i, diag);
    } else {
      FmaWithin(o, symbol, z.gen, z.width, i, diag, k);
    }
  }

  /** The buffers hold these rows and symbols. */
  ghost predicate Holding<T(!new)>(z: Shape, coding: seq<T>, symbol: seq<T>, d: Decoder<T>) {
    && |coding| == Base(z.gen, z.alpha) && |symbol| == Base(z.gen, z.width)
    && Rows(coding, z.gen, z.alpha) == d.coding && Rows(symbol, z.gen, z.width) == d.symbol
  }

  lemma BackStepIs<T(!new)>(o: Ops<T>, z: Shape, limit: nat, d: Decoder<T>, diag: nat, t: nat, k: T,
                            coding: seq<T>, symbol: seq<T>)
    requires t < z.alpha && t < diag < z.gen && 0 < limit && Sized(z, d) && Counter(t, limit) < z.alpha
    requires k == d.coding[diag - 1 - t][Counter(t, limit)] && k != o.zero
    requires |coding| == Base(z.gen, z.alpha) && |symbol| == Base(z.gen, z.width)
    requires var i := diag - 1 - t;
      && Rows(coding, z.gen, z.alpha) == d.coding[i := d.coding[i][Counter(t, limit) := o.zero]]
      && Rows(symbol, z.gen, z.width)
      == d.symbol[i := Plus(o, d.symbol[i], if k == o.one then d.symbol[diag] else Scale(o, k, d.symbol[diag]))]
    ensures Holding(z, coding, symbol, BackStep(o, z, limit, d, diag, t))
  {
  }

  /** Use element diag up on row i. */
  method BackOne<T(!new, ==)>(o: Ops<T>, z: Shape, coding: array<T>, symbol: array<T>, diag: nat, i: nat, temp: nat,
                              ghost limit: nat, ghost t: nat, ghost d: Decoder<T>)
    requires t < z.alpha && t < diag < z.gen && i == diag - 1 - t && 0 < limit && temp == Counter(t, limit) && temp <= t
    requires coding != symbol && Sized(z, d) && Holding(z, coding[..], symbol[..], d)
    modifies coding, symbol
    ensures Holding(z, coding[..], symbol[..], BackStep(o, z, limit, d, diag, t))
  {
    CellSet(coding[..], z.gen, z.alpha, i, temp, o.zero);
    var k := coding[Base(i, z.alpha) + temp];
    if k != o.zero {
      BackSymbol(o, z, symbol, diag, i, k);
      ghost var was := coding[..];
      coding[Base(i, z.alpha) + temp] := o.zero;
      assert coding[..] == was[Base(i, z.alpha) + temp := o.zero];
      BackStepIs(o, z, limit, d, diag, t, k, coding[..], symbol[..]);
    }
  }

  /** One column, from the row above the diagonal up. */
  method BackColumn<T(!new, ==)>(o: Ops<T>, z: Shape, coding: array<T>, symbol: array<T>, diag: nat, limit: nat,
                                 ghost d: Decoder<T>)
    requires ShapeOk(z) && 0 < diag < z.gen && 0 < limit && coding != symbol && Sized(z, d)
    requires Holding(z, coding[..], symbol[..], d)
    modifies coding, symbol
    ensures Holding(z, coding[..], symbol[..], BackSteps(o, z, limit, d, diag, Reach(z, diag)))
  {
    var j: nat := if z.alpha < diag then z.alpha else diag;
    var i: nat, temp: nat := diag - 1, 0;
    ghost var t: nat, e := 0, d;
    while j > 0
      invariant t + j == Reach(z, diag)
      invariant j > 0 ==> i == diag - 1 - t
      invariant temp == Counter(t, limit)
      invariant e == BackSteps(o, z, limit, d, diag, t)
      invariant Holding(z, coding[..], symbol[..], e)
      modifies coding, symbol
    {
      BackOne(o, z, coding, symbol, diag, i, temp, limit, t, e);
      e := BackStep(o, z, limit, e, diag, t);
      CounterNext(t, limit);
      temp := Bumped(temp, limit);
      t, j := t + 1, j - 1;
      if j > 0 { i := i - 1; }
    }
    assert t == Reach(z, diag);
  }

  method BackSubstitute<T(!new, ==)>(o: Ops<T>, z: Shape, coding: array<T>, symbol: array<T>, limit: nat,
                                     ghost d: Decoder<T>)
    requires ShapeOk(z) && 0 < limit && coding != symbol && Sized(z, d) && Holding(z, coding[..], symbol[..], d)
    modifies coding, symbol
    ensures Holding(z, coding[..], symbol[..], Back(o, z, limit, d, 1))
  {
    var diag := z.gen - 1;
    ghost var e := d;
    while diag > 0
      invariant 0 <= diag < z.gen
      invariant e == Back(o, z, limit, d, diag + 1)
      invariant Holding(z, coding[..], symbol[..], e)
      modifies coding, symbol
    {
      BackColumn(o, z, coding, symbol, diag, limit, e);
      e := BackSteps(o, z, limit, e, diag, Reach(z, diag));
      diag := diag - 1;
    }
  }

  /** What is in the buffers between the two halves: the decoder's rows d, except that the last symbols are us,
      and the rows u of a square matrix. */
  ghost predicate Triangulated<T(!new)>(z: Shape, coding: seq<seq<T>>, symbol: seq<seq<T>>, mat: seq<T>, d: Decoder<T>,
                                        u: seq<seq<T>>, us: seq<seq<T>>)
  {
    && ShapeOk(z) && Sized(z, d) && coding == d.coding && |u| == |us| == z.alpha
    && symbol == d.symbol[..z.gen - z.alpha] + us
    && (forall r :: 0 <= r < z.alpha ==> |us[r]| == z.width)
    && (forall r: nat :: r < z.alpha ==> Base(r, z.alpha) + z.alpha <= |mat| && u[r] == SquareRow(z, mat, r))
  }

  lemma RestoredIs<T(!new)>(o: Ops<T>, z: Shape, coding: seq<seq<T>>, symbol: seq<seq<T>>, mat: seq<T>, d: Decoder<T>,
                            u: seq<seq<T>>, us: seq<seq<T>>, now: seq<seq<T>>)
    requires Triangulated(z, coding, symbol, mat, d, u, us)
    requires |now| == z.gen && now[..z.gen - z.alpha] == coding[..z.gen - z.alpha]
    requires forall r :: 0 <= r < z.alpha ==> RestoredAt(o, z, mat, now, r)
    ensures forall r :: 0 <= r < z.alpha ==> |u[r]| == z.alpha
    ensures var e := Rebuilt(o, z, d, u, us); Sized(z, e) && e.coding == now && e.symbol == symbol
  {
    var p := z.gen - z.alpha;
    forall r | 0 <= r < z.alpha ensures |u[r]| == z.alpha { assert u[r] == SquareRow(z, mat, r); }
    var e := Rebuilt(o, z, d, u, us);
    forall i | 0 <= i < z.gen ensures e.coding[i] == now[i] {
      if i >= p {
        assert RestoredAt(o, z, mat, now, i - p) && u[i - p] == SquareRow(z, mat, i - p);
      } else {
        assert now[..p][i] == coding[..p][i];
      }
    }
  }

  /** From the triangular matrix to the message. */
  method Finish<T(!new, ==)>(o: Ops<T>, z: Shape, coding: array<T>, symbol: array<T>, mat: array<T>, limit: nat,
                             ghost d: Decoder<T>, ghost u: seq<seq<T>>, ghost us: seq<seq<T>>)
    requires Buffers(z, coding, symbol, mat) && 0 < limit
    requires Triangulated(z, Rows(coding[..], z.gen, z.alpha), Rows(symbol[..], z.gen, z.width), mat[..], d, u, us)
    modifies coding, symbol
    ensures forall r :: 0 <= r < z.alpha ==> |u[r]| == z.alpha
    ensures Sized(z, Rebuilt(o, z, d, u, us))
    ensures Rows(symbol[..], z.gen, z.width) == Back(o, z, limit, Rebuilt(o, z, d, u, us), 1).symbol
  {
    ghost var was := Rows(coding[..], z.gen, z.alpha);
    Restore(o, z, coding, mat);
    ghost var now := Rows(coding[..], z.gen, z.alpha);
    RestoredIs(o, z, was, Rows(symbol[..], z.gen, z.width), mat[..], d, u, us, now);
    BackSubstitute(o, z, coding, symbol, limit, Rebuilt(o, z, d, u, us));
  }
}
