/** perpetual.c: how step 2 of the solver ends, said of the matrices that it goes through. */
module SolverEndings {
  import opened Fields
  import opened Perpetual
  import opened BackSubstitution
  import opened SolverPivots

  /** Row r is the first one from the diagonal of column k on with a coefficient there. */
  ghost predicate PivotRow<T(!new)>(o: Ops<T>, z: Shape, rows: seq<seq<T>>, k: nat, r: nat)
    requires AlphaSquare(z, rows) && k < z.alpha
  {
    k <= r < z.alpha && rows[r][k] != o.zero && forall i :: k <= i < r ==> rows[i][k] == o.zero
  }

  ghost predicate NoPivotRow<T(!new)>(o: Ops<T>, z: Shape, rows: seq<seq<T>>, k: nat) {
    AlphaSquare(z, rows) && k < z.alpha && forall i :: k <= i < z.alpha ==> rows[i][k] == o.zero
  }

  /** p is q with rows a and b, and their symbols, in each other's place. */
  ghost predicate Traded<T(!new)>(z: Shape, q: Square<T>, p: Square<T>, a: nat, b: nat)
    requires SquareSized(z, q) && SquareSized(z, p) && a < z.alpha && b < z.alpha
  {
    && p.rows[a] == q.rows[b] && p.rows[b] == q.rows[a] && p.syms[a] == q.syms[b] && p.syms[b] == q.syms[a]
    && forall i :: 0 <= i < z.alpha && i != a && i != b ==> p.rows[i] == q.rows[i] && p.syms[i] == q.syms[i]
  }

  ghost predicate TradedWith<T(!new)>(o: Ops<T>, z: Shape, q: Square<T>, p: Square<T>, k: nat, r: nat)
    requires SquareSized(z, q) && SquareSized(z, p) && k < z.alpha
  {
    PivotRow(o, z, q.rows, k, r) && Traded(z, q, p, k, r)
  }

  ghost predicate LeadsOn<T(!new)>(o: Ops<T>, z: Shape, q: Square<T>, p: Square<T>, k: nat)
    requires SquareSized(z, q) && SquareSized(z, p) && k < z.alpha
  {
    exists r: nat :: TradedWith(o, z, q, p, k, r)
  }

  /** Turn k leads from matrix k to the next one. */
  ghost predicate TurnAt<T(!new)>(o: Ops<T>, z: Shape, trace: seq<Square<T>>, k: nat)
    requires k + 1 < |trace| && k < z.alpha && forall i :: 0 <= i < |trace| ==> SquareSized(z, trace[i])
  {
    LeadsOn(o, z, trace[k], trace[k + 1], k)
  }

  /** The matrices of the first n turns. */
  ghost predicate Trace<T(!new)>(o: Ops<T>, z: Shape, q: Square<T>, trace: seq<Square<T>>, n: nat) {
    && n <= z.alpha && |trace| == n + 1 && trace[0] == q
    && (forall i :: 0 <= i < |trace| ==> SquareSized(z, trace[i]))
    && (forall k: nat :: k < n ==> TurnAt(o, z, trace, k))
  }

  ghost predicate LeadsBy<T(!new)>(o: Ops<T>, z: Shape, q: Square<T>, trace: seq<Square<T>>, n: nat, p: Square<T>) {
    Trace(o, z, q, trace, n) && trace[n] == p
  }

  /** The first n columns have pivots, and the exchanges lead from q to p. */
  ghost predicate LeadsTo<T(!new)>(o: Ops<T>, z: Shape, q: Square<T>, n: nat, p: Square<T>) {
    exists trace :: LeadsBy(o, z, q, trace, n, p)
  }

  lemma TurnIs<T(!new)>(o: Ops<T>, z: Shape, q: Square<T>, p: Square<T>, k: nat, r: nat)
    requires SquareSized(z, q) && SquareSized(z, p) && k < z.alpha && TradedWith(o, z, q, p, k, r)
    ensures PivotAt(o, z, q, k) == Pivoted(p)
  {
    FirstIs(o, z, q.rows, k, k, r);
    var s := PivotAt(o, z, q, k).q;
    assert s.rows == p.rows && s.syms == p.syms;
  }

  lemma {:induction false} TraceIs<T(!new)>(o: Ops<T>, z: Shape, q: Square<T>, trace: seq<Square<T>>, n: nat)
    requires Trace(o, z, q, trace, n)
    ensures SquareSized(z, q) && Pivots(o, z, q, 0) == Pivots(o, z, trace[n], n)
    decreases n
  {
    if n > 0 {
      var before := trace[..n];
      forall k: nat | k < n - 1 ensures TurnAt(o, z, before, k) {
        assert TurnAt(o, z, trace, k);
        assert before[k] == trace[k] && before[k + 1] == trace[k + 1];
      }
      TraceIs(o, z, q, before, n - 1);
      assert TurnAt(o, z, trace, n - 1);
      var r: nat :| TradedWith(o, z, trace[n - 1], trace[n], n - 1, r);
      TurnIs(o, z, trace[n - 1], trace[n], n - 1, r);
    }
  }

  lemma LongerTrace<T(!new)>(o: Ops<T>, z: Shape, q: Square<T>, trace: seq<Square<T>>, n: nat, p: Square<T>, r: nat)
    requires Trace(o, z, q, trace, n) && n < z.alpha && SquareSized(z, p) && TradedWith(o, z, trace[n], p, n, r)
    ensures Trace(o, z, q, trace + [p], n + 1)
  {
    var longer := trace + [p];
    forall k: nat | k < n + 1 ensures TurnAt(o, z, longer, k) {
      if k < n {
        assert TurnAt(o, z, trace, k);
        assert longer[k] == trace[k] && longer[k + 1] == trace[k + 1];
      } else {
        assert TradedWith(o, z, longer[k], longer[k + 1], k, r);
      }
    }
  }

  /** The matrices that the loop goes through, to its end or to a column without a pivot. */
  lemma {:induction false} Traced<T(!new)>(o: Ops<T>, z: Shape, q: Square<T>, trace: seq<Square<T>>, n: nat)
    returns (p: Square<T>, k: nat)
    requires Trace(o, z, q, trace, n)
    ensures SquareSized(z, q) && SquareSized(z, p) && k <= z.alpha && LeadsTo(o, z, q, k, p)
    ensures k < z.alpha ==> NoPivotRow(o, z, p.rows, k)
    decreases z.alpha - n
  {
    var s := trace[n];
    if n == z.alpha {
      p, k := s, n;
      assert LeadsBy(o, z, q, trace, n, s);
    } else {
      var r := FirstWith(o, z, s.rows, n, n);
      if r == z.alpha {
        p, k := s, n;
        assert LeadsBy(o, z, q, trace, n, s);
      } else {
        var next := PivotAt(o, z, s, n).q;
        assert TradedWith(o, z, s, next, n, r);
        LongerTrace(o, z, q, trace, n, next, r);
        p, k := Traced(o, z, q, trace + [next], n + 1);
      }
    }
  }

  /** What a column without a pivot, or none, does to the model's loop. */
  lemma LedTo<T(!new)>(o: Ops<T>, z: Shape, q: Square<T>, p: Square<T>, k: nat)
    requires ShapeOk(z) && LeadsTo(o, z, q, k, p)
    ensures SquareSized(z, q) && SquareSized(z, p) && k <= z.alpha
    ensures k == z.alpha ==> Pivots(o, z, q, 0) == Pivoted(p)
    ensures k < z.alpha && NoPivotRow(o, z, p.rows, k) ==> Pivots(o, z, q, 0) == ZeroColumn(k)
  {
    var trace :| LeadsBy(o, z, q, trace, k, p);
    TraceIs(o, z, q, trace, k);
    if k < z.alpha && NoPivotRow(o, z, p.rows, k) { FirstIs(o, z, p.rows, k, k, z.alpha); }
  }

  ghost predicate EndsPivoted<T(!new)>(o: Ops<T>, z: Shape, q: Square<T>, p: Square<T>) {
    && LeadsTo(o, z, q, z.alpha, p) && ShapeOk(z) && SquareSized(z, p)
    && p.rows[z.alpha - 1][z.alpha - 1] == o.one
  }

  ghost predicate EndsBeyond<T(!new)>(o: Ops<T>, z: Shape, q: Square<T>, p: Square<T>) {
    && LeadsTo(o, z, q, z.alpha, p) && ShapeOk(z) && SquareSized(z, p)
    && p.rows[z.alpha - 1][z.alpha - 1] != o.one
  }

  ghost predicate EndsAtColumn<T(!new)>(o: Ops<T>, z: Shape, q: Square<T>, k: nat, p: Square<T>) {
    LeadsTo(o, z, q, k, p) && NoPivotRow(o, z, p.rows, k)
  }

  /** Step 2 goes on with p exactly if every column has a pivot, the exchanges lead to p, and the last coefficient
      on the diagonal is 1; it multiplies past the last symbol exactly if that coefficient is not 1; and it exits at
      column k exactly if the columns before have pivots and no row from k on has a coefficient in column k. */
  lemma Endings<T(!new)>(o: Ops<T>, z: Shape, q: Square<T>)
    requires ShapeOk(z) && SquareSized(z, q)
    ensures forall p :: SecondStep(o, z, q) == Pivoted(p) <==> EndsPivoted(o, z, q, p)
    ensures SecondStep(o, z, q) == BeyondTheLast <==> exists p :: EndsBeyond(o, z, q, p)
    ensures forall k :: SecondStep(o, z, q) == ZeroColumn(k) <==> exists p :: EndsAtColumn(o, z, q, k, p)
  {
    assert Trace(o, z, q, [q], 0);
    var p, k := Traced(o, z, q, [q], 0);
    LedTo(o, z, q, p, k);
    forall x ensures SecondStep(o, z, q) == Pivoted(x) <==> EndsPivoted(o, z, q, x) {
      if LeadsTo(o, z, q, z.alpha, x) { LedTo(o, z, q, x, z.alpha); }
    }
    forall x | EndsBeyond(o, z, q, x) ensures SecondStep(o, z, q) == BeyondTheLast { LedTo(o, z, q, x, z.alpha); }
    if SecondStep(o, z, q) == BeyondTheLast { assert EndsBeyond(o, z, q, p); }
    forall c, x | EndsAtColumn(o, z, q, c, x) ensures SecondStep(o, z, q) == ZeroColumn(c) { LedTo(o, z, q, x, c); }
    if k < z.alpha { assert EndsAtColumn(o, z, q, k, p); }
  }

  ghost predicate EndsWell<T(!new)>(o: Ops<T>, z: Shape, ms: seq<seq<T>>, q: Square<T>, p: Square<T>)
    requires IsField(o) && ShapeOk(z) && MessageOk(o, z, ms)
  {
    EndsPivoted(o, z, q, p) && NothingLost(o, z, ms, p.rows)
  }

  /** A message that satisfies all rows of a complete decoder is what the solver leaves exactly if the exchanges lead
      to a matrix with a pivot in every column and 1 as the last one, of which nothing is lost that matters for the
      message. */
  lemma SolverRightIff<T(!new)>(o: Ops<T>, z: Shape, ms: seq<seq<T>>, limit: nat, d: Decoder<T>)
    requires IsField(o) && ShapeOk(z) && MessageOk(o, z, ms) && DecoderOk(o, z, d) && AllFilled(d)
    requires Solves(o, z, ms, d) && z.alpha <= limit
    ensures Sized(z, d)
    ensures Solved(o, z, limit, d, ms) <==> exists p :: EndsWell(o, z, ms, ReducedSquare(o, z, d), p)
  {
    SolverRight(o, z, ms, limit, d);
    var q := ReducedSquare(o, z, d);
    Endings(o, z, q);
    var s := SecondStep(o, z, q);
    if s.Pivoted? {
      assert EndsPivoted(o, z, q, s.q);
      if NothingLost(o, z, ms, s.q.rows) { assert EndsWell(o, z, ms, q, s.q); }
    }
    forall p | EndsWell(o, z, ms, q, p) ensures s == Pivoted(p) {}
  }
}
