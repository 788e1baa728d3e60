/** perpetual.c, the solver up to its reduced matrix: the last alpha rows are unfolded to full width, and the
    other rows are used up on them, which leaves alpha equations in the last alpha elements. */
module SolverRows {
  import opened Fields
  import opened Vectors
  import opened Perpetual

  lemma {:induction false} DotConcat<T(!new)>(o: Ops<T>, a: seq<T>, b: seq<T>, m: seq<T>, at: nat)
    requires IsField(o) && In(o, a) && In(o, b) && In(o, m) && at < |m| && |a| <= |m|
    ensures In(o, a + b) && Ahead(at, |a|, |m|) < |m|
    ensures Dot(o, a + b, m, at) == o.add(Dot(o, a, m, at), Dot(o, b, m, Ahead(at, |a|, |m|)))
    decreases |a|
  {
    if a == [] {
      assert a + b == b;
      Laws(o, Dot(o, b, m, at), o.zero, o.zero);
    } else {
      var next := Next(at, |m|);
      assert (a + b)[1..] == a[1..] + b;
      DotConcat(o, a[1..], b, m, next);
      Laws(o, a[0], m[at], o.zero);
      Laws(o, o.mul(a[0], m[at]), Dot(o, a[1..], m, next), Dot(o, b, m, Ahead(at, |a|, |m|)));
    }
  }

  /** The implicit 1 and the coefficients after it. */
  lemma DotOne<T(!new)>(o: Ops<T>, code: seq<T>, m: seq<T>, at: nat)
    requires IsField(o) && In(o, code) && In(o, m) && at < |m|
    ensures In(o, [o.one] + code)
    ensures Dot(o, [o.one] + code, m, at) == o.add(m[at], Dot(o, code, m, Next(at, |m|)))
  {
    var c := [o.one] + code;
    assert c[1..] == code;
    Laws(o, m[at], o.one, o.zero);
  }

  // ----- rows at full width

  /** Row gen - alpha + j of the decoder as a row of gen coefficients: its last j + 1 wrap round to the front. */
  function Unfolded<T(!new)>(o: Ops<T>, z: Shape, j: nat, code: seq<T>): (r: seq<T>)
    requires ShapeOk(z) && j < z.alpha == |code|
    ensures |r| == z.gen
  {
    code[z.alpha - 1 - j..] + Zeros(o, z.gen - z.alpha - 1) + [o.one] + code[..z.alpha - 1 - j]
  }

  /** The unfolded row says the same. */
  lemma UnfoldedMeans<T(!new)>(o: Ops<T>, z: Shape, j: nat, code: seq<T>, m: seq<T>)
    requires IsField(o) && ShapeOk(z) && j < z.alpha == |code| && In(o, code) && ColumnOk(o, z, m)
    ensures In(o, Unfolded(o, z, j, code))
    ensures Dot(o, Unfolded(o, z, j, code), m, 0) == Combined(o, z, z.gen - z.alpha + j, code, m)
  {
    var i := z.gen - z.alpha + j;
    var left, wrapped, gap := code[..z.alpha - 1 - j], code[z.alpha - 1 - j..], Zeros(o, z.gen - z.alpha - 1);
    assert code == left + wrapped;
    var whole := [o.one] + left;
    assert Unfolded(o, z, j, code) == (wrapped + gap) + whole;
    DotOne(o, left, m, i);
    DotPadded(o, wrapped, |gap|, m, 0);
    DotConcat(o, wrapped + gap, whole, m, 0);
    DotConcat(o, left, wrapped, m, Next(i, z.gen));
    Laws(o, m[i], Dot(o, left, m, Next(i, z.gen)), Dot(o, wrapped, m, 0));
    Laws(o, Dot(o, wrapped, m, 0), o.add(m[i], Dot(o, left, m, Next(i, z.gen))), o.zero);
  }

  /** A row that does not wrap, at full width. */
  function Spread<T(!new)>(o: Ops<T>, z: Shape, i: nat, code: seq<T>): (r: seq<T>)
    requires i + z.alpha < z.gen && |code| == z.alpha
    ensures |r| == z.gen
  {
    Zeros(o, i) + ([o.one] + code) + Zeros(o, z.gen - 1 - i - z.alpha)
  }

  lemma SpreadMeans<T(!new)>(o: Ops<T>, z: Shape, i: nat, code: seq<T>, m: seq<T>)
    requires IsField(o) && ShapeOk(z) && i + z.alpha < z.gen && |code| == z.alpha && In(o, code) && ColumnOk(o, z, m)
    ensures In(o, Spread(o, z, i, code)) && Dot(o, Spread(o, z, i, code), m, 0) == Combined(o, z, i, code, m)
  {
    var front, whole := Zeros(o, i), [o.one] + code;
    DotOne(o, code, m, i);
    DotConcat(o, front, whole, m, 0);
    DotZeros(o, front, m, 0);
    DotPadded(o, front + whole, z.gen - 1 - i - z.alpha, m, 0);
    Laws(o, Dot(o, whole, m, i), o.zero, o.zero);
  }

  // ----- forward propagation

  /** A row of full width with its symbol. */
  datatype Wide<!T(!new)> = Wide(row: seq<T>, sym: seq<T>)

  ghost predicate WideOk<T(!new)>(o: Ops<T>, z: Shape, w: Wide<T>) {
    |w.row| == z.gen && |w.sym| == z.width && In(o, w.row) && In(o, w.sym)
  }

  /** The row's column diag is cleared with the row at diag, whose 1 is implicit. */
  function Sweep<T(!new, ==)>(o: Ops<T>, z: Shape, diag: nat, code: seq<T>, sym: seq<T>, w: Wide<T>): (r: Wide<T>)
    requires diag + z.alpha < z.gen == |w.row| && |code| == z.alpha && |sym| == |w.sym| == z.width
    ensures |r.row| == z.gen && |r.sym| == z.width
  {
    var k := w.row[diag];
    if k == o.zero then w else
      var to := diag + 1;
      Wide(w.row[..diag] + [o.zero] + Plus(o, w.row[to..to + z.alpha], Scale(o, k, code)) + w.row[to + z.alpha..],
           Plus(o, w.sym, Scale(o, k, sym)))
  }

  lemma SweepAdds<T(!new)>(o: Ops<T>, z: Shape, diag: nat, code: seq<T>, sym: seq<T>, w: Wide<T>)
    requires IsField(o) && ShapeOk(z) && diag + z.alpha < z.gen && RowOk(o, z, code, sym) && WideOk(o, z, w)
    ensures Sweep(o, z, diag, code, sym, w).row == Plus(o, w.row, Scale(o, w.row[diag], Spread(o, z, diag, code)))
    ensures Sweep(o, z, diag, code, sym, w).sym == Plus(o, w.sym, Scale(o, w.row[diag], sym))
  {
    var k, e := w.row[diag], Spread(o, z, diag, code);
    var r, s := Sweep(o, z, diag, code, sym, w), Plus(o, w.row, Scale(o, k, e));
    forall c | 0 <= c < z.gen ensures r.row[c] == s[c] {
      Laws(o, w.row[c], o.one, k);
      if diag < c <= diag + z.alpha {
        assert e[c] == code[c - diag - 1];
        Laws(o, code[c - diag - 1], k, o.zero);
      } else if c != diag {
        assert e[c] == o.zero;
        Laws(o, k, o.zero, o.zero);
      }
    }
    forall b | 0 <= b < z.width ensures r.sym[b] == o.add(w.sym[b], o.mul(k, sym[b])) {
      Laws(o, w.sym[b], sym[b], k);
    }
  }

  lemma SweepOk<T(!new)>(o: Ops<T>, z: Shape, diag: nat, code: seq<T>, sym: seq<T>, w: Wide<T>)
    requires IsField(o) && ShapeOk(z) && diag + z.alpha < z.gen && RowOk(o, z, code, sym) && WideOk(o, z, w)
    ensures WideOk(o, z, Sweep(o, z, diag, code, sym, w)) && In(o, Spread(o, z, diag, code))
  {
    var k, e := w.row[diag], Spread(o, z, diag, code);
    assert forall c :: 0 <= c < |e| ==> e[c] == o.zero || e[c] == o.one || e[c] in code;
    SweepAdds(o, z, diag, code, sym, w);
    ScaleIn(o, k, e);
    PlusIn(o, w.row, Scale(o, k, e));
    ScaleIn(o, k, sym);
    PlusIn(o, w.sym, Scale(o, k, sym));
  }

  /** Component b of the message satisfies a row of full width. */
  ghost predicate MeetsAt<T(!new)>(o: Ops<T>, z: Shape, ms: seq<seq<T>>, w: Wide<T>, b: nat)
    requires IsField(o) && ShapeOk(z) && MessageOk(o, z, ms) && WideOk(o, z, w) && b < z.width
  {
    assert ColumnAtOk(o, z, ms, b);
    Dot(o, w.row, ms[b], 0) == w.sym[b]
  }

  ghost predicate Meets<T(!new)>(o: Ops<T>, z: Shape, ms: seq<seq<T>>, w: Wide<T>)
    requires IsField(o) && ShapeOk(z) && MessageOk(o, z, ms) && WideOk(o, z, w)
  {
    forall b :: 0 <= b < z.width ==> MeetsAt(o, z, ms, w, b)
  }

  /** Adding the same to both sides. */
  lemma SameSides<T(!new)>(o: Ops<T>, x: T, y: T, d: T)
    requires IsField(o) && x in o.carrier && y in o.carrier && d in o.carrier
    ensures o.add(x, d) == o.add(y, d) <==> x == y
  {
    Laws(o, x, d, d);
    Laws(o, y, d, d);
  }

  /** A message that satisfies the row at diag satisfies the swept row exactly when it satisfied the old one. */
  lemma SweepMeans<T(!new)>(o: Ops<T>, z: Shape, ms: seq<seq<T>>, diag: nat, code: seq<T>, sym: seq<T>, w: Wide<T>)
    requires IsField(o) && ShapeOk(z) && MessageOk(o, z, ms) && diag + z.alpha < z.gen
    requires RowOk(o, z, code, sym) && WideOk(o, z, w) && Holds(o, z, ms, diag, code, sym)
    ensures WideOk(o, z, Sweep(o, z, diag, code, sym, w))
    ensures Meets(o, z, ms, Sweep(o, z, diag, code, sym, w)) <==> Meets(o, z, ms, w)
  {
    SweepOk(o, z, diag, code, sym, w);
    forall b | 0 <= b < z.width
      ensures MeetsAt(o, z, ms, Sweep(o, z, diag, code, sym, w), b) <==> MeetsAt(o, z, ms, w, b)
    {
      SweepMeansAt(o, z, ms, diag, code, sym, w, b);
    }
  }

  lemma SweepMeansAt<T(!new)>(o: Ops<T>, z: Shape, ms: seq<seq<T>>, diag: nat, code: seq<T>, sym: seq<T>, w: Wide<T>,
                              b: nat)
    requires IsField(o) && ShapeOk(z) && MessageOk(o, z, ms) && diag + z.alpha < z.gen && b < z.width
    requires RowOk(o, z, code, sym) && WideOk(o, z, w) && Holds(o, z, ms, diag, code, sym)
    requires WideOk(o, z, Sweep(o, z, diag, code, sym, w))
    ensures MeetsAt(o, z, ms, Sweep(o, z, diag, code, sym, w), b) <==> MeetsAt(o, z, ms, w, b)
  {
    assert ColumnAtOk(o, z, ms, b) && HoldsAt(o, z, ms, diag, code, sym, b);
    var m, k, e := ms[b], w.row[diag], Spread(o, z, diag, code);
    SpreadMeans(o, z, diag, code, m);
    SweepAdds(o, z, diag, code, sym, w);
    DotScale(o, k, e, m, 0);
    DotPlus(o, w.row, Scale(o, k, e), m, 0);
    Laws(o, k, sym[b], o.zero);
    SameSides(o, Dot(o, w.row, m, 0), w.sym[b], o.mul(k, sym[b]));
  }

  /** The row after columns 0 to n - 1. */
  function Swept<T(!new, ==)>(o: Ops<T>, z: Shape, d: Decoder<T>, n: nat, w: Wide<T>): (r: Wide<T>)
    requires n + z.alpha <= z.gen == |d.coding| == |d.symbol| == |w.row| && |w.sym| == z.width
    requires forall i :: 0 <= i < n ==> |d.coding[i]| == z.alpha && |d.symbol[i]| == z.width
    ensures |r.row| == z.gen && |r.sym| == z.width
  {
    if n == 0 then w
    else Sweep(o, z, n - 1, d.coding[n - 1], d.symbol[n - 1], Swept(o, z, d, n - 1, w))
  }

  lemma Lengths<T(!new)>(o: Ops<T>, z: Shape, d: Decoder<T>)
    requires DecoderOk(o, z, d)
    ensures forall i :: 0 <= i < z.gen ==> |d.coding[i]| == z.alpha && |d.symbol[i]| == z.width
  {
    forall i | 0 <= i < z.gen ensures |d.coding[i]| == z.alpha && |d.symbol[i]| == z.width {
      assert RowAtOk(o, z, d, i);
    }
  }

  lemma {:induction false} SweptClears<T(!new)>(o: Ops<T>, z: Shape, d: Decoder<T>, n: nat, w: Wide<T>, c: nat)
    requires n + z.alpha <= z.gen == |d.coding| == |d.symbol| == |w.row| && |w.sym| == z.width && c < n
    requires forall i :: 0 <= i < n ==> |d.coding[i]| == z.alpha && |d.symbol[i]| == z.width
    ensures Swept(o, z, d, n, w).row[c] == o.zero
  {
    if c < n - 1 { SweptClears(o, z, d, n - 1, w, c); }
  }

  lemma {:induction false} SweptMeans<T(!new)>(o: Ops<T>, z: Shape, ms: seq<seq<T>>, d: Decoder<T>, n: nat, w: Wide<T>)
    requires IsField(o) && ShapeOk(z) && MessageOk(o, z, ms) && DecoderOk(o, z, d) && WideOk(o, z, w)
    requires n + z.alpha <= z.gen && (forall i :: 0 <= i < n ==> d.filled[i] && RowHolds(o, z, ms, d, i))
    ensures forall i :: 0 <= i < n ==> |d.coding[i]| == z.alpha && |d.symbol[i]| == z.width
    ensures WideOk(o, z, Swept(o, z, d, n, w)) && (Meets(o, z, ms, Swept(o, z, d, n, w)) <==> Meets(o, z, ms, w))
    decreases n
  {
    Lengths(o, z, d);
    if n > 0 {
      SweptMeans(o, z, ms, d, n - 1, w);
      assert RowAtOk(o, z, d, n - 1) && RowHolds(o, z, ms, d, n - 1);
      SweepMeans(o, z, ms, n - 1, d.coding[n - 1], d.symbol[n - 1], Swept(o, z, d, n - 1, w));
    }
  }

  // ----- the reduced matrix

  /** Row j of the solver's matrix before anything is done to it. */
  function WideRow<T(!new)>(o: Ops<T>, z: Shape, d: Decoder<T>, j: nat): (w: Wide<T>)
    requires ShapeOk(z) && j < z.alpha && |d.coding| == |d.symbol| == z.gen
    requires forall i :: 0 <= i < z.gen ==> |d.coding[i]| == z.alpha && |d.symbol[i]| == z.width
    ensures |w.row| == z.gen && |w.sym| == z.width
  {
    Wide(Unfolded(o, z, j, d.coding[z.gen - z.alpha + j]), d.symbol[z.gen - z.alpha + j])
  }

  /** Row j after forward propagation. */
  function SweptRow<T(!new, ==)>(o: Ops<T>, z: Shape, d: Decoder<T>, j: nat): (w: Wide<T>)
    requires ShapeOk(z) && j < z.alpha && |d.coding| == |d.symbol| == z.gen
    requires forall i :: 0 <= i < z.gen ==> |d.coding[i]| == z.alpha && |d.symbol[i]| == z.width
    ensures |w.row| == z.gen && |w.sym| == z.width
  {
    Swept(o, z, d, z.gen - z.alpha, WideRow(o, z, d, j))
  }

  /** Component b of the last alpha elements satisfies row j of a square matrix. */
  ghost predicate SolvesSquareAt<T(!new)>(o: Ops<T>, z: Shape, ms: seq<seq<T>>, row: seq<T>, sym: seq<T>, b: nat)
    requires IsField(o) && ShapeOk(z) && MessageOk(o, z, ms) && |row| == z.alpha && In(o, row)
    requires |sym| == z.width && b < z.width
  {
    assert ColumnAtOk(o, z, ms, b);
    Dot(o, row, ms[b], z.gen - z.alpha) == sym[b]
  }

  ghost predicate SolvesSquare<T(!new)>(o: Ops<T>, z: Shape, ms: seq<seq<T>>, row: seq<T>, sym: seq<T>)
    requires IsField(o) && ShapeOk(z) && MessageOk(o, z, ms) && |row| == z.alpha && In(o, row) && |sym| == z.width
  {
    forall b :: 0 <= b < z.width ==> SolvesSquareAt(o, z, ms, row, sym, b)
  }

  lemma UnfoldedRowMeans<T(!new)>(o: Ops<T>, z: Shape, ms: seq<seq<T>>, j: nat, code: seq<T>, sym: seq<T>)
    requires IsField(o) && ShapeOk(z) && MessageOk(o, z, ms) && RowOk(o, z, code, sym) && j < z.alpha
    ensures WideOk(o, z, Wide(Unfolded(o, z, j, code), sym))
    ensures Meets(o, z, ms, Wide(Unfolded(o, z, j, code), sym)) <==> Holds(o, z, ms, z.gen - z.alpha + j, code, sym)
  {
    var w, i := Wide(Unfolded(o, z, j, code), sym), z.gen - z.alpha + j;
    assert In(o, w.row) by { UnfoldedMeans(o, z, j, code, Zeros(o, z.gen)); }
    forall b | 0 <= b < z.width ensures MeetsAt(o, z, ms, w, b) <==> HoldsAt(o, z, ms, i, code, sym, b) {
      assert ColumnAtOk(o, z, ms, b);
      UnfoldedMeans(o, z, j, code, ms[b]);
    }
  }

  /** The first columns being clear, the rest of the row is an equation in the last alpha elements. */
  lemma ClearedMeans<T(!new)>(o: Ops<T>, z: Shape, ms: seq<seq<T>>, w: Wide<T>)
    requires IsField(o) && ShapeOk(z) && MessageOk(o, z, ms) && WideOk(o, z, w)
    requires forall c :: 0 <= c < z.gen - z.alpha ==> w.row[c] == o.zero
    ensures In(o, w.row[z.gen - z.alpha..])
    ensures Meets(o, z, ms, w) <==> SolvesSquare(o, z, ms, w.row[z.gen - z.alpha..], w.sym)
  {
    var p := z.gen - z.alpha;
    forall b | 0 <= b < z.width
      ensures MeetsAt(o, z, ms, w, b) <==> SolvesSquareAt(o, z, ms, w.row[p..], w.sym, b)
    {
      assert ColumnAtOk(o, z, ms, b);
      DotSkips(o, w.row, p, ms[b], 0);
    }
  }

  /** Given the rows that forward propagation uses, row gen - alpha + j of the decoder and row j of the reduced
      matrix are satisfied by the same messages. */
  lemma ReducedMeans<T(!new)>(o: Ops<T>, z: Shape, ms: seq<seq<T>>, d: Decoder<T>, j: nat)
    requires IsField(o) && ShapeOk(z) && MessageOk(o, z, ms) && DecoderOk(o, z, d) && j < z.alpha
    requires forall i :: 0 <= i < z.gen - z.alpha ==> d.filled[i] && RowHolds(o, z, ms, d, i)
    requires d.filled[z.gen - z.alpha + j]
    ensures forall i :: 0 <= i < z.gen ==> |d.coding[i]| == z.alpha && |d.symbol[i]| == z.width
    ensures var w := SweptRow(o, z, d, j);
      && In(o, w.row[z.gen - z.alpha..])
      && (forall c :: 0 <= c < z.gen - z.alpha ==> w.row[c] == o.zero)
      && (SolvesSquare(o, z, ms, w.row[z.gen - z.alpha..], w.sym) <==> RowHolds(o, z, ms, d, z.gen - z.alpha + j))
  {
    Lengths(o, z, d);
    var p := z.gen - z.alpha;
    assert RowAtOk(o, z, d, p + j);
    UnfoldedRowMeans(o, z, ms, j, d.coding[p + j], d.symbol[p + j]);
    SweptMeans(o, z, ms, d, p, WideRow(o, z, d, j));
    forall c: nat | c < p
      ensures SweptRow(o, z, d, j).row[c] == o.zero
    {
      SweptClears(o, z, d, p, WideRow(o, z, d, j), c);
    }
    ClearedMeans(o, z, ms, SweptRow(o, z, d, j));
  }
}
