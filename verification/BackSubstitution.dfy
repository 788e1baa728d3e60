/** perpetual.c, the end of the solver: a unit upper triangular matrix is written back as rows of the decoder,
    and back-substitution leaves each element of the message in its symbol. */
module BackSubstitution {
  import opened Counters
  import opened Fields
  import opened Vectors
  import opened Perpetual
  import opened SolverRows

  // ----- the square matrix, back in the decoder's form

  predicate UnitUpper<T(!new, ==)>(o: Ops<T>, row: seq<T>, r: nat) {
    r < |row| && row[r] == o.one && forall c :: 0 <= c < r ==> row[c] == o.zero
  }

  /** What follows the 1 on the diagonal; the 1 is implicit again. */
  function Restored<T(!new)>(o: Ops<T>, z: Shape, r: nat, row: seq<T>): (code: seq<T>)
    requires r < z.alpha == |row|
    ensures |code| == z.alpha
  {
    row[r + 1..] + Zeros(o, r + 1)
  }

  lemma RestoredMeans<T(!new)>(o: Ops<T>, z: Shape, r: nat, row: seq<T>, m: seq<T>)
    requires IsField(o) && ShapeOk(z) && r < z.alpha == |row| && In(o, row) && ColumnOk(o, z, m) && UnitUpper(o, row, r)
    ensures In(o, Restored(o, z, r, row))
    ensures Combined(o, z, z.gen - z.alpha + r, Restored(o, z, r, row), m) == Dot(o, row, m, z.gen - z.alpha)
  {
    var i, rest := z.gen - z.alpha + r, row[r + 1..];
    DotSkips(o, row, r, m, z.gen - z.alpha);
    assert row[r..] == [o.one] + rest;
    DotOne(o, rest, m, i);
    DotPadded(o, rest, r + 1, m, Next(i, z.gen));
  }

  // ----- a triangular system

  /** The row has no coefficient for element n or a later one. */
  predicate Below<T(!new, ==)>(o: Ops<T>, code: seq<T>, i: nat, n: nat) {
    forall t :: 0 <= t < |code| && i + 1 + t >= n ==> code[t] == o.zero
  }

  ghost predicate Cleared<T(!new)>(o: Ops<T>, d: Decoder<T>, n: nat) {
    forall i :: 0 <= i < |d.coding| ==> Below(o, d.coding[i], i, n)
  }

  ghost predicate AllFilled<T(!new)>(d: Decoder<T>) {
    forall i :: 0 <= i < |d.filled| ==> d.filled[i]
  }

  /** Complete rows of which none wraps round. */
  ghost predicate Triangular<T(!new)>(o: Ops<T>, z: Shape, d: Decoder<T>) {
    DecoderOk(o, z, d) && AllFilled(d) && Cleared(o, d, z.gen)
  }

  lemma Short<T(!new)>(o: Ops<T>, z: Shape, code: seq<T>, i: nat)
    requires |code| == z.alpha && i + z.alpha < z.gen
    ensures Below(o, code, i, z.gen)
  {
  }

  lemma RestoredBelow<T(!new)>(o: Ops<T>, z: Shape, r: nat, row: seq<T>)
    requires ShapeOk(z) && r < z.alpha == |row|
    ensures Below(o, Restored(o, z, r, row), z.gen - z.alpha + r, z.gen)
  {
  }

  // ----- back-substitution

  /** Element diag is used up on row diag - 1 - t.  The code counts t in a field element, which has limit
      values. */
  function BackStep<T(!new, ==)>(o: Ops<T>, z: Shape, limit: nat, d: Decoder<T>, diag: nat, t: nat): (e: Decoder<T>)
    requires t < z.alpha && t < diag < z.gen && 0 < limit && Sized(z, d)
    ensures Sized(z, e) && e.filled == d.filled
  {
    var i, slot := diag - 1 - t, Counter(t, limit);
    var k := d.coding[i][slot];
    if k == o.zero then d else
      var change := if k == o.one then d.symbol[diag] else Scale(o, k, d.symbol[diag]);
      Decoder(d.filled, d.coding[i := d.coding[i][slot := o.zero]], d.symbol[i := Plus(o, d.symbol[i], change)])
  }

  predicate Sized<T(!new)>(z: Shape, d: Decoder<T>) {
    && |d.coding| == |d.symbol| == z.gen
    && forall i :: 0 <= i < z.gen ==> |d.coding[i]| == z.alpha && |d.symbol[i]| == z.width
  }

  function Reach(z: Shape, diag: nat): nat {
    if z.alpha < diag then z.alpha else diag
  }

  /** n steps up from the diagonal. */
  function BackSteps<T(!new, ==)>(o: Ops<T>, z: Shape, limit: nat, d: Decoder<T>, diag: nat, n: nat): (e: Decoder<T>)
    requires n <= Reach(z, diag) && diag < z.gen && 0 < limit && Sized(z, d)
    ensures Sized(z, e) && e.filled == d.filled
  {
    if n == 0 then d else BackStep(o, z, limit, BackSteps(o, z, limit, d, diag, n - 1), diag, n - 1)
  }

  /** The elements from the last one down to diag have been used up. */
  function Back<T(!new, ==)>(o: Ops<T>, z: Shape, limit: nat, d: Decoder<T>, diag: nat): (e: Decoder<T>)
    requires diag <= z.gen && 0 < limit && Sized(z, d)
    ensures Sized(z, e) && e.filled == d.filled
    decreases z.gen - diag
  {
    if diag == z.gen then d
    else BackSteps(o, z, limit, Back(o, z, limit, d, diag + 1), diag, Reach(z, diag))
  }

  // ----- what a step does to the equations

  lemma {:induction false} DotWithout<T(!new)>(o: Ops<T>, c: seq<T>, t: nat, m: seq<T>, at: nat)
    requires IsField(o) && In(o, c) && In(o, m) && at < |m| && t < |c| <= |m|
    ensures In(o, c[t := o.zero]) && Ahead(at, t, |m|) < |m|
    ensures Dot(o, c, m, at) == o.add(Dot(o, c[t := o.zero], m, at), o.mul(c[t], m[Ahead(at, t, |m|)]))
    decreases t
  {
    var d, next := c[t := o.zero], Next(at, |m|);
    var x := m[Ahead(at, t, |m|)];
    Laws(o, c[t], x, o.zero);
    if t == 0 {
      assert d[1..] == c[1..];
      var rest := Dot(o, c[1..], m, next);
      Laws(o, x, rest, o.zero);
      Laws(o, o.mul(c[0], x), rest, o.zero);
    } else {
      assert d[1..] == c[1..][t - 1 := o.zero];
      DotWithout(o, c[1..], t - 1, m, next);
      Laws(o, c[0], m[at], o.zero);
      Laws(o, o.mul(c[0], m[at]), Dot(o, d[1..], m, next), o.mul(c[t], x));
    }
  }

  /** A row with no coefficients left says what its element is. */
  lemma BareRow<T(!new)>(o: Ops<T>, z: Shape, i: nat, code: seq<T>, m: seq<T>)
    requires IsField(o) && ShapeOk(z) && In(o, code) && ColumnOk(o, z, m) && i < z.gen && AllZero(o, code)
    ensures Combined(o, z, i, code, m) == m[i]
  {
    DotZeros(o, code, m, Next(i, z.gen));
    Laws(o, m[i], o.zero, o.zero);
  }

  lemma StepCode<T(!new)>(o: Ops<T>, z: Shape, i: nat, t: nat, code: seq<T>, m: seq<T>)
    requires IsField(o) && ShapeOk(z) && In(o, code) && ColumnOk(o, z, m) && t < z.alpha == |code| && i + 1 + t < z.gen
    ensures In(o, code[t := o.zero])
    ensures Combined(o, z, i, code, m) == o.add(Combined(o, z, i, code[t := o.zero], m), o.mul(code[t], m[i + 1 + t]))
  {
    DotWithout(o, code, t, m, i + 1);
    Laws(o, code[t], m[i + 1 + t], o.zero);
    Laws(o, m[i], Dot(o, code[t := o.zero], m, i + 1), o.mul(code[t], m[i + 1 + t]));
  }

  /** The equation of the row that a step changes, in one component. */
  lemma StepAt<T(!new)>(o: Ops<T>, z: Shape, i: nat, t: nat, code: seq<T>, m: seq<T>, sym: T, symDiag: T)
    requires IsField(o) && ShapeOk(z) && In(o, code) && ColumnOk(o, z, m) && t < z.alpha == |code| && i + 1 + t < z.gen
    requires sym in o.carrier && symDiag == m[i + 1 + t]
    ensures In(o, code[t := o.zero])
    ensures Combined(o, z, i, code[t := o.zero], m) == o.add(sym, o.mul(code[t], symDiag))
       <==> Combined(o, z, i, code, m) == sym
  {
    StepCode(o, z, i, t, code, m);
    var x, p := Combined(o, z, i, code[t := o.zero], m), o.mul(code[t], symDiag);
    Laws(o, code[t], symDiag, o.zero);
    Laws(o, x, p, p);
    Laws(o, sym, p, p);
  }

  lemma StepSym<T(!new)>(o: Ops<T>, k: T, s: T)
    requires IsField(o) && k in o.carrier && s in o.carrier
    ensures o.mul(o.one, s) == s
  {
    Laws(o, s, o.one, k);
  }

  lemma StepOk<T(!new)>(o: Ops<T>, z: Shape, limit: nat, d: Decoder<T>, diag: nat, t: nat)
    requires IsField(o) && DecoderOk(o, z, d) && t < z.alpha && t < diag < z.gen && 0 < limit
    ensures Sized(z, d) && DecoderOk(o, z, BackStep(o, z, limit, d, diag, t))
  {
    Lengths(o, z, d);
    var e, i, slot := BackStep(o, z, limit, d, diag, t), diag - 1 - t, Counter(t, limit);
    assert RowAtOk(o, z, d, i) && RowAtOk(o, z, d, diag) && slot <= t;
    var k := d.coding[i][slot];
    ScaleIn(o, k, d.symbol[diag]);
    PlusIn(o, d.symbol[i], Scale(o, k, d.symbol[diag]));
    PlusIn(o, d.symbol[i], d.symbol[diag]);
    forall j | 0 <= j < z.gen ensures RowAtOk(o, z, e, j) { assert RowAtOk(o, z, d, j); }
  }

  /** The changed row is satisfied by the same messages, once row diag has no coefficients left. */
  lemma StepRow<T(!new)>(o: Ops<T>, z: Shape, ms: seq<seq<T>>, limit: nat, d: Decoder<T>, diag: nat, t: nat)
    requires IsField(o) && ShapeOk(z) && MessageOk(o, z, ms) && DecoderOk(o, z, d) && AllFilled(d)
    requires t < z.alpha <= limit && t < diag < z.gen && AllZero(o, d.coding[diag]) && RowHolds(o, z, ms, d, diag)
    ensures Sized(z, d) && DecoderOk(o, z, BackStep(o, z, limit, d, diag, t))
    ensures RowHolds(o, z, ms, BackStep(o, z, limit, d, diag, t), diag - 1 - t) <==> RowHolds(o, z, ms, d, diag - 1 - t)
  {
    StepOk(o, z, limit, d, diag, t);
    var i, e := diag - 1 - t, BackStep(o, z, limit, d, diag, t);
    assert RowAtOk(o, z, d, i) && RowAtOk(o, z, d, diag) && RowAtOk(o, z, e, i) && Counter(t, limit) == t;
    var code, k := d.coding[i], d.coding[i][t];
    if k != o.zero {
      forall b | 0 <= b < z.width
        ensures HoldsAt(o, z, ms, i, e.coding[i], e.symbol[i], b) <==> HoldsAt(o, z, ms, i, code, d.symbol[i], b)
      {
        assert ColumnAtOk(o, z, ms, b) && HoldsAt(o, z, ms, diag, d.coding[diag], d.symbol[diag], b);
        BareRow(o, z, diag, d.coding[diag], ms[b]);
        StepAt(o, z, i, t, code, ms[b], d.symbol[i][b], d.symbol[diag][b]);
        StepSym(o, k, d.symbol[diag][b]);
      }
    }
  }

  lemma StepMeans<T(!new)>(o: Ops<T>, z: Shape, ms: seq<seq<T>>, limit: nat, d: Decoder<T>, diag: nat, t: nat)
    requires IsField(o) && ShapeOk(z) && MessageOk(o, z, ms) && DecoderOk(o, z, d) && AllFilled(d)
    requires t < z.alpha <= limit && t < diag < z.gen && AllZero(o, d.coding[diag])
    ensures Sized(z, d) && DecoderOk(o, z, BackStep(o, z, limit, d, diag, t))
    ensures Solves(o, z, ms, BackStep(o, z, limit, d, diag, t)) <==> Solves(o, z, ms, d)
  {
    StepOk(o, z, limit, d, diag, t);
    var i, e := diag - 1 - t, BackStep(o, z, limit, d, diag, t);
    forall j | 0 <= j < z.gen && j != i ensures RowHolds(o, z, ms, e, j) <==> RowHolds(o, z, ms, d, j) {
      assert RowAtOk(o, z, d, j) && RowAtOk(o, z, e, j);
    }
    if RowHolds(o, z, ms, d, diag) {
      StepRow(o, z, ms, limit, d, diag, t);
    }
    assert RowHolds(o, z, ms, d, i) ==> RowHolds(o, z, ms, d, diag) ==> RowHolds(o, z, ms, e, i);
    assert Solves(o, z, ms, d) ==> RowHolds(o, z, ms, d, i) && RowHolds(o, z, ms, d, diag);
    assert Solves(o, z, ms, e) ==> RowHolds(o, z, ms, e, i) && RowHolds(o, z, ms, e, diag);
  }

  // ----- what has been cleared

  ghost predicate ClearAt<T(!new)>(o: Ops<T>, d: Decoder<T>, diag: nat, t: nat) {
    t < diag <= |d.coding| && t < |d.coding[diag - 1 - t]| && d.coding[diag - 1 - t][t] == o.zero
  }

  /** The coefficients of element diag in the rows up to n above it are gone. */
  ghost predicate ColumnClear<T(!new)>(o: Ops<T>, d: Decoder<T>, diag: nat, n: nat) {
    forall t: nat :: t < n ==> ClearAt(o, d, diag, t)
  }

  lemma StepColumn<T(!new)>(o: Ops<T>, z: Shape, limit: nat, d: Decoder<T>, diag: nat, t: nat)
    requires t < Reach(z, diag) && diag < z.gen && z.alpha <= limit && Sized(z, d) && ColumnClear(o, d, diag, t)
    ensures ColumnClear(o, BackStep(o, z, limit, d, diag, t), diag, t + 1)
  {
    var e := BackStep(o, z, limit, d, diag, t);
    assert Counter(t, limit) == t;
    forall u: nat | u < t + 1 ensures ClearAt(o, e, diag, u) {
      if u < t { assert ClearAt(o, d, diag, u); }
    }
  }

  lemma StepClears<T(!new)>(o: Ops<T>, z: Shape, limit: nat, d: Decoder<T>, diag: nat, t: nat, n: nat)
    requires t < Reach(z, diag) && diag < z.gen && z.alpha <= limit && Sized(z, d) && Cleared(o, d, n)
    ensures Cleared(o, BackStep(o, z, limit, d, diag, t), n)
  {
    var e := BackStep(o, z, limit, d, diag, t);
    forall i | 0 <= i < z.gen ensures Below(o, e.coding[i], i, n) { assert Below(o, d.coding[i], i, n); }
  }

  lemma Nothing<T(!new)>(o: Ops<T>, z: Shape, d: Decoder<T>, diag: nat)
    requires diag < z.gen && Sized(z, d) && Cleared(o, d, diag + 1)
    ensures AllZero(o, d.coding[diag])
  {
    assert Below(o, d.coding[diag], diag, diag + 1);
  }

  lemma {:induction false} StepsMean<T(!new)>(o: Ops<T>, z: Shape, ms: seq<seq<T>>, limit: nat, d: Decoder<T>,
                                              diag: nat,
                                             n: nat)
    requires IsField(o) && ShapeOk(z) && MessageOk(o, z, ms) && DecoderOk(o, z, d) && AllFilled(d)
    requires z.alpha <= limit && diag < z.gen && n <= Reach(z, diag) && Cleared(o, d, diag + 1)
    ensures Sized(z, d)
    ensures var e := BackSteps(o, z, limit, d, diag, n);
      && DecoderOk(o, z, e) && AllFilled(e) && Cleared(o, e, diag + 1) && ColumnClear(o, e, diag, n)
      && (Solves(o, z, ms, e) <==> Solves(o, z, ms, d))
    decreases n
  {
    Lengths(o, z, d);
    if n > 0 {
      StepsMean(o, z, ms, limit, d, diag, n - 1);
      var e := BackSteps(o, z, limit, d, diag, n - 1);
      Nothing(o, z, e, diag);
      StepMeans(o, z, ms, limit, e, diag, n - 1);
      StepClears(o, z, limit, e, diag, n - 1, diag + 1);
      StepColumn(o, z, limit, e, diag, n - 1);
    }
  }

  lemma ColumnCleared<T(!new)>(o: Ops<T>, z: Shape, d: Decoder<T>, diag: nat)
    requires diag < z.gen && Sized(z, d) && Cleared(o, d, diag + 1) && ColumnClear(o, d, diag, Reach(z, diag))
    ensures Cleared(o, d, diag)
  {
    forall i | 0 <= i < z.gen ensures Below(o, d.coding[i], i, diag) {
      assert Below(o, d.coding[i], i, diag + 1);
      forall t | 0 <= t < z.alpha && i + 1 + t >= diag ensures d.coding[i][t] == o.zero {
        if i + 1 + t == diag { assert ClearAt(o, d, diag, t); }
      }
    }
  }

  lemma {:induction false} BackMeans<T(!new)>(o: Ops<T>, z: Shape, ms: seq<seq<T>>, limit: nat, d: Decoder<T>,
                                              diag: nat)
    requires IsField(o) && ShapeOk(z) && MessageOk(o, z, ms) && Triangular(o, z, d) && z.alpha <= limit && diag <= z.gen
    ensures Sized(z, d)
    ensures var e := Back(o, z, limit, d, diag);
      && DecoderOk(o, z, e) && AllFilled(e) && Cleared(o, e, diag) && (Solves(o, z, ms, e) <==> Solves(o, z, ms, d))
    decreases z.gen - diag
  {
    Lengths(o, z, d);
    if diag < z.gen {
      BackMeans(o, z, ms, limit, d, diag + 1);
      StepsMean(o, z, ms, limit, Back(o, z, limit, d, diag + 1), diag, Reach(z, diag));
      ColumnCleared(o, z, Back(o, z, limit, d, diag), diag);
    }
  }

  // ----- the message

  /** The symbols are the elements of the message. */
  ghost predicate Spells<T(!new)>(z: Shape, ms: seq<seq<T>>, symbol: seq<seq<T>>) {
    && |ms| == z.width && |symbol| == z.gen
    && forall i :: 0 <= i < z.gen ==> SpellsAt(z, ms, symbol, i)
  }

  ghost predicate SpellsAt<T(!new)>(z: Shape, ms: seq<seq<T>>, symbol: seq<seq<T>>, i: nat)
    requires |ms| == z.width && i < |symbol|
  {
    |symbol[i]| == z.width && forall b :: 0 <= b < z.width ==> i < |ms[b]| && symbol[i][b] == ms[b][i]
  }

  lemma BareRows<T(!new)>(o: Ops<T>, z: Shape, ms: seq<seq<T>>, d: Decoder<T>, i: nat)
    requires IsField(o) && ShapeOk(z) && MessageOk(o, z, ms) && DecoderOk(o, z, d) && AllFilled(d) && Cleared(o, d, 1)
    requires i < z.gen
    ensures RowHolds(o, z, ms, d, i) <==> SpellsAt(z, ms, d.symbol, i)
  {
    assert RowAtOk(o, z, d, i) && Below(o, d.coding[i], i, 1);
    forall b | 0 <= b < z.width
      ensures |ms[b]| == z.gen && (HoldsAt(o, z, ms, i, d.coding[i], d.symbol[i], b) <==> d.symbol[i][b] == ms[b][i])
    {
      assert ColumnAtOk(o, z, ms, b);
      BareRow(o, z, i, d.coding[i], ms[b]);
    }
  }

  /** A triangular system is solved, and by one message only: the one that back-substitution leaves. */
  lemma BackSolves<T(!new)>(o: Ops<T>, z: Shape, ms: seq<seq<T>>, limit: nat, d: Decoder<T>)
    requires IsField(o) && ShapeOk(z) && MessageOk(o, z, ms) && Triangular(o, z, d) && z.alpha <= limit
    ensures Sized(z, d) && (Solves(o, z, ms, d) <==> Spells(z, ms, Back(o, z, limit, d, 1).symbol))
  {
    BackMeans(o, z, ms, limit, d, 1);
    var e := Back(o, z, limit, d, 1);
    forall i | 0 <= i < z.gen ensures RowHolds(o, z, ms, e, i) <==> SpellsAt(z, ms, e.symbol, i) {
      BareRows(o, z, ms, e, i);
    }
  }
}
