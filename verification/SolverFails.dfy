/** perpetual.c: complete systems of equations, of packets that can be received, with which the solver does not
    find the message; for every field, every number of coefficients from two on and every length of the message. */
module SolverFails {
  import opened Fields
  import opened Vectors
  import opened Perpetual
  import opened PerpetualRuns
  import opened Walks
  import opened SolverRows
  import opened BackSubstitution
  import opened SolverPivots

  // ----- every complete set of rows can be received

  function RowPacket<T(!new)>(d: Decoder<T>, i: nat): Packet<T>
    requires i < |d.coding| == |d.symbol|
  {
    Packet(i, d.coding[i], d.symbol[i])
  }

  /** The first n rows, as packets. */
  function RowPackets<T(!new)>(d: Decoder<T>, n: nat): (ps: seq<Packet<T>>)
    requires n <= |d.coding| == |d.symbol|
    ensures |ps| == n
  {
    seq(n, (i: nat) requires i < |d.coding| == |d.symbol| => RowPacket(d, i))
  }

  /** The decoder e after the first n rows of d. */
  function StoredBy<T(!new)>(z: Shape, d: Decoder<T>, e: Decoder<T>, n: nat): Decoder<T>
    requires n <= z.gen == |d.coding| == |d.symbol| == |e.coding| == |e.symbol|
  {
    Decoder(seq(z.gen, (i: nat) => i < n), d.coding[..n] + e.coding[n..], d.symbol[..n] + e.symbol[n..])
  }

  lemma StoredByOk<T(!new)>(o: Ops<T>, z: Shape, d: Decoder<T>, e: Decoder<T>, n: nat)
    requires DecoderOk(o, z, d) && DecoderOk(o, z, e) && n <= z.gen
    ensures DecoderOk(o, z, StoredBy(z, d, e, n))
  {
    forall i | 0 <= i < z.gen ensures RowAtOk(o, z, StoredBy(z, d, e, n), i) {
      assert RowAtOk(o, z, d, i) && RowAtOk(o, z, e, i);
    }
  }

  lemma StoredNext<T(!new)>(z: Shape, d: Decoder<T>, e: Decoder<T>, n: nat)
    requires n < z.gen == |d.coding| == |d.symbol| == |e.coding| == |e.symbol|
    ensures var s := StoredBy(z, d, e, n);
      Decoder(s.filled[n := true], s.coding[n := d.coding[n]], s.symbol[n := d.symbol[n]]) == StoredBy(z, d, e, n + 1)
  {
    var s, t := StoredBy(z, d, e, n), StoredBy(z, d, e, n + 1);
    assert s.filled[n := true] == t.filled;
    assert s.coding[n := d.coding[n]] == t.coding;
    assert s.symbol[n := d.symbol[n]] == t.symbol;
  }

  lemma RowStored<T(!new)>(o: Ops<T>, z: Shape, inv: T -> T, step: Loop<T>, d: Decoder<T>, e: Decoder<T>, n: nat)
    requires FieldOk(o, inv) && ShapeOk(z) && Turns(o, z, inv, step) && DecoderOk(o, z, d) && DecoderOk(o, z, e)
    requires n < z.gen
    ensures step(Attempt(StoredBy(z, d, e, n), RowPacket(d, n))) == End(Kept(StoredBy(z, d, e, n + 1)))
  {
    var s, p := StoredBy(z, d, e, n), RowPacket(d, n);
    assert IsTurn(o, z, inv, step, Attempt(s, p));
    StoredByOk(o, z, d, e, n);
    assert RowAtOk(o, z, d, n) && RowAtOk(o, z, s, n);
    StoredNext(z, d, e, n);
  }

  /** A decoder without rows that receives the rows of d, each as a packet, becomes d. */
  lemma {:induction false} RowsReceived<T(!new)>(o: Ops<T>, z: Shape, inv: T -> T, step: Loop<T>, d: Decoder<T>,
                                                 e: Decoder<T>, n: nat)
    requires FieldOk(o, inv) && ShapeOk(z) && Turns(o, z, inv, step) && DecoderOk(o, z, d) && DecoderOk(o, z, e)
    requires n <= z.gen && forall i :: 0 <= i < z.gen ==> !e.filled[i]
    ensures Receive(z, step, e, RowPackets(d, n)) == Receiving(StoredBy(z, d, e, n), 0)
    decreases n
  {
    if n == 0 {
      var s := StoredBy(z, d, e, 0);
      assert s.filled == e.filled && s.coding == e.coding && s.symbol == e.symbol;
    } else {
      RowsReceived(o, z, inv, step, d, e, n - 1);
      RowStored(o, z, inv, step, d, e, n - 1);
      var ps, p := RowPackets(d, n), RowPacket(d, n - 1);
      assert ps[..n - 1] == RowPackets(d, n - 1) && ps[n - 1] == p;
      WalkEnd(step, Attempt(StoredBy(z, d, e, n - 1), p), Kept(StoredBy(z, d, e, n)), Limit(z));
    }
  }

  /** Complete rows are received. */
  lemma Receivable<T(!new)>(o: Ops<T>, z: Shape, inv: T -> T, step: Loop<T>, d: Decoder<T>, e: Decoder<T>)
    requires FieldOk(o, inv) && ShapeOk(z) && Turns(o, z, inv, step) && DecoderOk(o, z, d) && DecoderOk(o, z, e)
    requires AllFilled(d) && forall i :: 0 <= i < z.gen ==> !e.filled[i]
    ensures Receive(z, step, e, RowPackets(d, z.gen)) == Receiving(d, 0)
  {
    RowsReceived(o, z, inv, step, d, e, z.gen);
    var s := StoredBy(z, d, e, z.gen);
    assert s.filled == d.filled && s.coding == d.coding && s.symbol == d.symbol;
  }

  // ----- rows that say their element plus the next one, and rows that say their element

  function One<T(!new)>(o: Ops<T>, z: Shape): (code: seq<T>)
    requires ShapeOk(z)
    ensures |code| == z.alpha && code[0] == o.one && forall k :: 0 < k < z.alpha ==> code[k] == o.zero
  {
    Zeros(o, z.alpha)[0 := o.one]
  }

  /** Each element that has no row in the square matrix is added to the next one, and the last to the first. */
  predicate Added(z: Shape, i: nat) {
    i + z.alpha < z.gen || i + 1 == z.gen
  }

  function Chain<T(!new)>(o: Ops<T>, z: Shape): (d: Decoder<T>)
    requires ShapeOk(z)
    ensures |d.filled| == |d.coding| == |d.symbol| == z.gen
    ensures forall i :: 0 <= i < z.gen ==> d.coding[i] == if Added(z, i) then One(o, z) else Zeros(o, z.alpha)
  {
    Decoder(seq(z.gen, (i: nat) => true),
            seq(z.gen, (i: nat) requires ShapeOk(z) => if Added(z, i) then One(o, z) else Zeros(o, z.alpha)),
            seq(z.gen, (i: nat) => Zeros(o, z.width)))
  }

  lemma ChainOk<T(!new)>(o: Ops<T>, z: Shape)
    requires IsField(o) && ShapeOk(z)
    ensures DecoderOk(o, z, Chain(o, z)) && Sized(z, Chain(o, z)) && AllFilled(Chain(o, z))
  {
    forall i | 0 <= i < z.gen ensures RowAtOk(o, z, Chain(o, z), i) {}
    Lengths(o, z, Chain(o, z));
  }

  // ----- they determine the message

  lemma OneMeans<T(!new)>(o: Ops<T>, z: Shape, i: nat, m: seq<T>)
    requires IsField(o) && ShapeOk(z) && ColumnOk(o, z, m) && i < z.gen
    ensures Combined(o, z, i, One(o, z), m) == o.add(m[i], m[Next(i, z.gen)])
  {
    var code, next := One(o, z), Next(i, z.gen);
    DotZeros(o, code[1..], m, Next(next, z.gen));
    Laws(o, m[next], o.one, o.zero);
  }

  /** Two columns on which the rows agree. */
  ghost predicate AgreeAt<T(!new)>(o: Ops<T>, z: Shape, m: seq<T>, w: seq<T>, i: nat)
    requires IsField(o) && ShapeOk(z) && ColumnOk(o, z, m) && ColumnOk(o, z, w) && i < z.gen
  {
    if Added(z, i) then o.add(m[i], m[Next(i, z.gen)]) == o.add(w[i], w[Next(i, z.gen)]) else m[i] == w[i]
  }

  lemma SumCancels<T(!new)>(o: Ops<T>, a: T, b: T, c: T)
    requires IsField(o) && a in o.carrier && b in o.carrier && c in o.carrier && o.add(a, c) == o.add(b, c)
    ensures a == b
  {
    Laws(o, a, c, c);
    Laws(o, b, c, c);
  }

  lemma {:induction false} SameBefore<T(!new)>(o: Ops<T>, z: Shape, m: seq<T>, w: seq<T>, i: nat)
    requires IsField(o) && ShapeOk(z) && z.alpha >= 2 && ColumnOk(o, z, m) && ColumnOk(o, z, w)
    requires i + 1 < z.gen && forall k :: 0 <= k < z.gen ==> AgreeAt(o, z, m, w, k)
    ensures m[i] == w[i]
    decreases z.gen - i
  {
    assert AgreeAt(o, z, m, w, i);
    if Added(z, i) {
      SameBefore(o, z, m, w, i + 1);
      SumCancels(o, m[i], w[i], m[i + 1]);
    }
  }

  lemma SameColumn<T(!new)>(o: Ops<T>, z: Shape, m: seq<T>, w: seq<T>)
    requires IsField(o) && ShapeOk(z) && z.alpha >= 2 && ColumnOk(o, z, m) && ColumnOk(o, z, w)
    requires forall k :: 0 <= k < z.gen ==> AgreeAt(o, z, m, w, k)
    ensures m == w
  {
    var last := z.gen - 1;
    SameBefore(o, z, m, w, 0);
    assert AgreeAt(o, z, m, w, last);
    SumCancels(o, m[last], w[last], m[0]);
    forall i | 0 <= i < z.gen ensures m[i] == w[i] {
      if i < last { SameBefore(o, z, m, w, i); }
    }
  }

  lemma Agree<T(!new)>(o: Ops<T>, z: Shape, e: Decoder<T>, ms: seq<seq<T>>, ws: seq<seq<T>>, b: nat, i: nat)
    requires IsField(o) && ShapeOk(z) && SameCodes(o, z, Chain(o, z), e) && b < z.width && i < z.gen
    requires MessageOk(o, z, ms) && Solves(o, z, ms, e) && MessageOk(o, z, ws) && Solves(o, z, ws, e)
    ensures ColumnAtOk(o, z, ms, b) && ColumnAtOk(o, z, ws, b) && AgreeAt(o, z, ms[b], ws[b], i)
  {
    assert ColumnAtOk(o, z, ms, b) && ColumnAtOk(o, z, ws, b);
    assert RowHolds(o, z, ms, e, i) && RowHolds(o, z, ws, e, i) && RowAtOk(o, z, e, i);
    assert HoldsAt(o, z, ms, i, e.coding[i], e.symbol[i], b) && HoldsAt(o, z, ws, i, e.coding[i], e.symbol[i], b);
    if Added(z, i) {
      OneMeans(o, z, i, ms[b]);
      OneMeans(o, z, i, ws[b]);
    } else {
      BareRow(o, z, i, e.coding[i], ms[b]);
      BareRow(o, z, i, e.coding[i], ws[b]);
    }
  }

  lemma OneMessage<T(!new)>(o: Ops<T>, z: Shape, e: Decoder<T>, ms: seq<seq<T>>, ws: seq<seq<T>>)
    requires IsField(o) && ShapeOk(z) && z.alpha >= 2 && SameCodes(o, z, Chain(o, z), e)
    requires MessageOk(o, z, ms) && Solves(o, z, ms, e) && MessageOk(o, z, ws) && Solves(o, z, ws, e)
    ensures ms == ws
  {
    forall b | 0 <= b < z.width ensures ms[b] == ws[b] {
      assert ColumnAtOk(o, z, ms, b) && ColumnAtOk(o, z, ws, b);
      forall i | 0 <= i < z.gen ensures AgreeAt(o, z, ms[b], ws[b], i) { Agree(o, z, e, ms, ws, b, i); }
      SameColumn(o, z, ms[b], ws[b]);
    }
  }

  // ----- the reduced matrix is not triangular

  /** A row of full width with a 1 at place k and one at the end. */
  ghost predicate TwoOnes<T(!new)>(o: Ops<T>, z: Shape, row: seq<T>, k: nat) {
    && k + 1 < z.gen == |row| && row[k] == o.one && row[z.gen - 1] == o.one
    && forall c :: 0 <= c < z.gen - 1 && c != k ==> row[c] == o.zero
  }

  lemma SweepMoves<T(!new)>(o: Ops<T>, z: Shape, w: Wide<T>, n: nat, sym: seq<T>)
    requires IsField(o) && ShapeOk(z) && z.alpha >= 2 && n + z.alpha < z.gen && TwoOnes(o, z, w.row, n)
    requires |w.sym| == |sym| == z.width
    ensures TwoOnes(o, z, Sweep(o, z, n, One(o, z), sym, w).row, n + 1)
  {
    Laws(o, o.one, o.zero, o.zero);
    var row, to := Sweep(o, z, n, One(o, z), sym, w).row, n + 1;
    forall c | 0 <= c < z.gen
      ensures row[c] == if c == to || c == z.gen - 1 then o.one else o.zero {}
  }

  lemma {:induction false} LastSwept<T(!new)>(o: Ops<T>, z: Shape, n: nat, w: Wide<T>)
    requires IsField(o) && ShapeOk(z) && z.alpha >= 2 && n + z.alpha <= z.gen && TwoOnes(o, z, w.row, 0)
    requires |w.sym| == z.width && Sized(z, Chain(o, z))
    ensures TwoOnes(o, z, Swept(o, z, Chain(o, z), n, w).row, n)
    decreases n
  {
    if n > 0 {
      LastSwept(o, z, n - 1, w);
      SweepMoves(o, z, Swept(o, z, Chain(o, z), n - 1, w), n - 1, Chain(o, z).symbol[n - 1]);
    }
  }

  lemma {:induction false} OtherSwept<T(!new)>(o: Ops<T>, z: Shape, n: nat, w: Wide<T>)
    requires ShapeOk(z) && n + z.alpha <= z.gen == |w.row| && |w.sym| == z.width && Sized(z, Chain(o, z))
    requires forall c :: 0 <= c < z.gen - z.alpha ==> w.row[c] == o.zero
    ensures Swept(o, z, Chain(o, z), n, w) == w
    decreases n
  {
    if n > 0 { OtherSwept(o, z, n - 1, w); }
  }

  /** No row of the reduced matrix has its first coefficient in the last column. */
  lemma NoLastRow<T(!new)>(o: Ops<T>, z: Shape, j: nat)
    requires IsField(o) && ShapeOk(z) && z.alpha >= 2 && j < z.alpha && Sized(z, Chain(o, z))
    ensures !UnitUpper(o, ReducedSquare(o, z, Chain(o, z)).rows[j], z.alpha - 1)
  {
    var d, p, last := Chain(o, z), z.gen - z.alpha, z.alpha - 1;
    var w := WideRow(o, z, d, j);
    var s := SweptRow(o, z, d, j).row;
    if j == last {
      LastSwept(o, z, p, w);
      assert s[p..][0] == s[p] == o.one;
    } else {
      OtherSwept(o, z, p, w);
      assert s[p..][last] == s[z.gen - 1] == o.zero;
    }
  }

  lemma NotArrangeable<T(!new)>(o: Ops<T>, z: Shape)
    requires IsField(o) && ShapeOk(z) && z.alpha >= 2 && Sized(z, Chain(o, z))
    ensures !Arrangeable(o, z, ReducedSquare(o, z, Chain(o, z)).rows)
  {
    var rows, last := ReducedSquare(o, z, Chain(o, z)).rows, z.alpha - 1;
    forall u ensures !Arranges(o, z, rows, u) {
      if Arranges(o, z, rows, u) {
        assert UnitUpper(o, u[last], last);
        assert u[last] in multiset(u);
        assert u[last] in rows;
        var j :| 0 <= j < |rows| && rows[j] == u[last];
        NoLastRow(o, z, j);
      }
    }
  }

  /** For every field and shape with two or more coefficients, a complete decoder whose rows only one message
      satisfies, received as packets of this message, from which the solver does not recover it. */
  lemma SolverLosesMessage<T(!new)>(o: Ops<T>, z: Shape, inv: T -> T, step: Loop<T>, limit: nat, empty: Decoder<T>)
    returns (e: Decoder<T>, ms: seq<seq<T>>)
    requires FieldOk(o, inv) && ShapeOk(z) && z.alpha >= 2 && 0 < z.width && z.alpha <= limit && Turns(o, z, inv, step)
    requires DecoderOk(o, z, empty) && forall i :: 0 <= i < z.gen ==> !empty.filled[i]
    ensures DecoderOk(o, z, e) && AllFilled(e) && Receive(z, step, empty, RowPackets(e, z.gen)) == Receiving(e, 0)
    ensures MessageOk(o, z, ms) && Solves(o, z, ms, e)
    ensures forall ws: seq<seq<T>> :: MessageOk(o, z, ws) && Solves(o, z, ws, e) ==> ws == ms
    ensures Sized(z, e) && !Solved(o, z, limit, e, ms)
  {
    ChainOk(o, z);
    NotArrangeable(o, z);
    e, ms := WrongFor(o, z, limit, Chain(o, z));
    Lengths(o, z, e);
    Receivable(o, z, inv, step, e, empty);
    forall ws: seq<seq<T>> | MessageOk(o, z, ws) && Solves(o, z, ws, e) ensures ws == ms {
      OneMessage(o, z, e, ws, ms);
    }
  }
}
