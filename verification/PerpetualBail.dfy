/** perpetual.c: packets of one message on which the pivot gives up, and what is lost with them; for every
    field, every number of coefficients from three on and every length of the message. The rows at all places
    but 1 are stored; the last packet goes round twice past the empty row, changing places with the rows on
    its way, and is dropped with what they used to say. */
module PerpetualBail {
  import opened Fields
  import opened Vectors
  import opened Perpetual
  import opened PerpetualRuns
  import opened Walks

  // ----- coding vectors of three bits, and zeros

  datatype Bits = Bits(a: bool, b: bool, c: bool)

  function El<T(!new)>(o: Ops<T>, b: bool): T {
    if b then o.one else o.zero
  }

  function Bit(x: Bits, k: nat): bool {
    if k == 0 then x.a else if k == 1 then x.b else if k == 2 then x.c else false
  }

  function Vec<T(!new)>(o: Ops<T>, alpha: nat, x: Bits): (r: seq<T>)
    ensures |r| == alpha && forall k :: 0 <= k < alpha ==> r[k] == El(o, Bit(x, k))
  {
    seq(alpha, (k: nat) => El(o, Bit(x, k)))
  }

  /** The length without zeros at the end. */
  function Size3(x: Bits): nat {
    if x.c then 3 else if x.b then 2 else if x.a then 1 else 0
  }

  /** The number of zeros at the start of a vector that is not zero. */
  function Skip3(x: Bits): nat {
    if x.a then 0 else if x.b then 1 else 2
  }

  function Sum3(x: Bits, y: Bits): Bits {
    Bits(x.a != y.a, x.b != y.b, x.c != y.c)
  }

  function Rest3(x: Bits): Bits {
    if x.a then Bits(x.b, x.c, false) else if x.b then Bits(x.c, false, false) else Bits(false, false, false)
  }

  ghost predicate Large(z: Shape) {
    ShapeOk(z) && z.alpha >= 3 && z.width >= 1
  }

  lemma VecIn<T(!new)>(o: Ops<T>, alpha: nat, x: Bits)
    requires IsField(o)
    ensures In(o, Vec(o, alpha, x))
  {
  }

  lemma VecEnds<T(!new)>(o: Ops<T>, alpha: nat, x: Bits)
    requires IsField(o) && alpha >= 3
    ensures Trailing(o, Vec(o, alpha, x)) == alpha - Size3(x)
    ensures Size3(x) > 0 ==> Leading(o, Vec(o, alpha, x)) == Skip3(x)
  {
    var v := Vec(o, alpha, x);
    TrailingIs(o, v, alpha - Size3(x));
    if Size3(x) > 0 { LeadingIs(o, v, Skip3(x)); }
  }

  lemma VecSum<T(!new)>(o: Ops<T>, alpha: nat, x: Bits, y: Bits)
    requires IsField(o)
    ensures Plus(o, Vec(o, alpha, x), Vec(o, alpha, y)) == Vec(o, alpha, Sum3(x, y))
  {
    var s, t := Plus(o, Vec(o, alpha, x), Vec(o, alpha, y)), Vec(o, alpha, Sum3(x, y));
    Laws(o, o.zero, o.one, o.zero);
    forall k | 0 <= k < alpha ensures s[k] == t[k] {}
  }

  lemma UnitInverse<T(!new)>(o: Ops<T>, inv: T -> T)
    requires FieldOk(o, inv)
    ensures inv(o.one) == o.one
  {
    assert Inverts(o, inv, o.one);
    Laws(o, inv(o.one), o.one, o.one);
  }

  lemma VecReduced<T(!new)>(o: Ops<T>, z: Shape, inv: T -> T, at: nat, x: Bits)
    requires FieldOk(o, inv) && Large(z) && at < z.gen && Size3(x) > 0
    ensures var v := Vec(o, z.alpha, x);
      && Leading(o, v) < |v|
      && Reduced(o, z, inv, at, v, Zeros(o, z.width))
         == Packet(Ahead(at, Skip3(x) + 1, z.gen), Vec(o, z.alpha, Rest3(x)), Zeros(o, z.width))
  {
    var v, n := Vec(o, z.alpha, x), Skip3(x);
    VecEnds(o, z.alpha, x);
    UnitInverse(o, inv);
    Laws(o, o.one, o.zero, o.one);
    var r, t := Scale(o, o.one, v[n + 1..]) + Zeros(o, n + 1), Vec(o, z.alpha, Rest3(x));
    forall k | 0 <= k < z.alpha ensures r[k] == t[k] {}
    assert r == t;
    assert Scale(o, o.one, Zeros(o, z.width)) == Zeros(o, z.width);
  }

  lemma ZerosSum<T(!new)>(o: Ops<T>, n: nat)
    requires IsField(o)
    ensures Plus(o, Zeros(o, n), Zeros(o, n)) == Zeros(o, n)
  {
    Laws(o, o.zero, o.zero, o.zero);
  }

  // ----- the states of the walk

  /** Which turns visit which row: after the first two, all rows from 2 on, row 0, and the rows again. */
  function At(gen: nat, t: nat): nat
    requires gen >= 4
  {
    if t == 0 then gen - 2
    else if t < 2 then 0
    else if t < gen then t
    else if gen < t < 2 * gen - 1 then t + 1 - gen
    else 0
  }

  function Code(gen: nat, t: nat): Bits {
    if t == 0 then Bits(false, false, true)
    else if t < gen then Bits(true, false, false)
    else if t == gen then Bits(true, true, false)
    else Bits(false, false, false)
  }

  function Row(gen: nat, t: nat, i: nat): Bits {
    if i == 0 then Bits(true, t <= 1, t <= 1)
    else if i == 1 then Bits(false, false, false)
    else if t <= i then Bits(false, true, i + 1 == gen)
    else Bits(t < gen + i, false, false)
  }

  function Stored<T(!new)>(o: Ops<T>, z: Shape, filled: seq<bool>, t: nat): Decoder<T> {
    Decoder(filled, seq(z.gen, (i: nat) => Vec(o, z.alpha, Row(z.gen, t, i))),
            seq(z.gen, (i: nat) => Zeros(o, z.width)))
  }

  function AllButOne(gen: nat): (r: seq<bool>)
    ensures |r| == gen && forall i :: 0 <= i < gen ==> r[i] == (i != 1)
  {
    seq(gen, (i: nat) => i != 1)
  }

  function Sent<T(!new)>(o: Ops<T>, z: Shape, at: nat, x: Bits): Packet<T> {
    Packet(at, Vec(o, z.alpha, x), Zeros(o, z.width))
  }

  function State<T(!new)>(o: Ops<T>, z: Shape, t: nat): Attempt<T>
    requires z.gen >= 4
  {
    Attempt(Stored(o, z, AllButOne(z.gen), t), Sent(o, z, At(z.gen, t), Code(z.gen, t)))
  }

  lemma DecoderFits<T(!new)>(o: Ops<T>, z: Shape, d: Decoder<T>, rows: seq<Bits>)
    requires IsField(o) && |d.filled| == |d.coding| == |d.symbol| == |rows| == z.gen
    requires forall i :: 0 <= i < z.gen ==> d.coding[i] == Vec(o, z.alpha, rows[i]) && d.symbol[i] == Zeros(o, z.width)
    ensures DecoderOk(o, z, d)
  {
    forall i | 0 <= i < z.gen ensures RowAtOk(o, z, d, i) { VecIn(o, z.alpha, rows[i]); }
  }

  lemma SentReady<T(!new)>(o: Ops<T>, z: Shape, inv: T -> T, d: Decoder<T>, at: nat, x: Bits, rows: seq<Bits>)
    requires FieldOk(o, inv) && Large(z) && at < z.gen && |d.filled| == |d.coding| == |d.symbol| == |rows| == z.gen
    requires forall i :: 0 <= i < z.gen ==> d.coding[i] == Vec(o, z.alpha, rows[i]) && d.symbol[i] == Zeros(o, z.width)
    ensures TurnReady(o, z, inv, d, Sent(o, z, at, x))
  {
    DecoderFits(o, z, d, rows);
    VecIn(o, z.alpha, x);
    assert RowAtOk(o, z, d, at);
  }

  lemma StateReady<T(!new)>(o: Ops<T>, z: Shape, inv: T -> T, t: nat)
    requires FieldOk(o, inv) && Large(z) && t <= 2 * z.gen - 1
    ensures var s := State(o, z, t); TurnReady(o, z, inv, s.d, s.p)
  {
    var rows := seq(z.gen, (i: nat) => Row(z.gen, t, i));
    SentReady(o, z, inv, State(o, z, t).d, At(z.gen, t), Code(z.gen, t), rows);
  }

  // ----- a turn on bits

  /** The rows after a turn at one of them. */
  ghost predicate Follows<T(!new)>(d: Decoder<T>, e: Decoder<T>, i: nat, swap: bool, code: seq<T>) {
    && i < |d.coding| && e.filled == d.filled && e.symbol == d.symbol
    && e.coding == if swap then d.coding[i := code] else d.coding
  }

  lemma SameRow<X>(s: seq<X>, i: nat, x: X)
    requires i < |s| && s[i] == x
    ensures s[i := x] == s
  {
  }

  lemma TurnOnBits<T(!new)>(o: Ops<T>, z: Shape, inv: T -> T, d: Decoder<T>, e: Decoder<T>, at: nat, x: Bits, y: Bits)
    requires FieldOk(o, inv) && Large(z) && at < z.gen == |d.filled| == |d.coding| == |d.symbol| && d.filled[at]
    requires d.coding[at] == Vec(o, z.alpha, y) && d.symbol[at] == Zeros(o, z.width) && x != y
    requires Follows(d, e, at, Size3(x) < Size3(y), Vec(o, z.alpha, x))
    ensures var s := Sum3(x, y);
      Turn(o, z, inv, d, Sent(o, z, at, x)) == Moved(e, Sent(o, z, Ahead(at, Skip3(s) + 1, z.gen), Rest3(s)))
  {
    var s, p := Sum3(x, y), Sent(o, z, at, x);
    VecSum(o, z.alpha, x, y);
    assert Trailing(o, p.code) > Trailing(o, d.coding[at]) <==> Size3(x) < Size3(y) by {
      VecEnds(o, z.alpha, x);
      VecEnds(o, z.alpha, y);
    }
    VecReduced(o, z, inv, at, s);
    ZerosSum(o, z.width);
    SomeBit(o, z.alpha, s);
    SameRow(d.symbol, at, Zeros(o, z.width));
    TurnIs(o, z, inv, d, p, Size3(x) < Size3(y), Vec(o, z.alpha, s), Zeros(o, z.width), e);
  }

  lemma SomeBit<T(!new)>(o: Ops<T>, alpha: nat, x: Bits)
    requires IsField(o) && alpha >= 3 && Size3(x) > 0
    ensures !AllZero(o, Vec(o, alpha, x))
  {
    assert Vec(o, alpha, x)[Skip3(x)] == o.one;
  }

  /** What the arithmetic of the walk comes to. */
  lemma RowsMove(gen: nat, t: nat, i: nat)
    requires gen >= 4 && t < 2 * gen - 1 && i < gen
    ensures var x, y := Code(gen, t), Row(gen, t, At(gen, t));
      Row(gen, t + 1, i) == if i == At(gen, t) && Size3(x) < Size3(y) then x else Row(gen, t, i)
  {
  }

  lemma CodesMove(gen: nat, t: nat)
    requires gen >= 4 && t < 2 * gen - 1
    ensures var x, y := Code(gen, t), Row(gen, t, At(gen, t));
      && At(gen, t) < gen && At(gen, t) != 1 && x != y && Rest3(Sum3(x, y)) == Code(gen, t + 1)
      && Ahead(At(gen, t), Skip3(Sum3(x, y)) + 1, gen) == At(gen, t + 1)
  {
  }

  lemma StateFollows<T(!new)>(o: Ops<T>, z: Shape, t: nat)
    requires z.gen >= 4 && t < 2 * z.gen - 1
    ensures var i, x, y := At(z.gen, t), Code(z.gen, t), Row(z.gen, t, At(z.gen, t));
      Follows(State(o, z, t).d, State(o, z, t + 1).d, i, Size3(x) < Size3(y), Vec(o, z.alpha, x))
  {
    var i, x, y := At(z.gen, t), Code(z.gen, t), Row(z.gen, t, At(z.gen, t));
    CodesMove(z.gen, t);
    var c, d := State(o, z, t).d.coding, State(o, z, t + 1).d.coding;
    var e := if Size3(x) < Size3(y) then c[i := Vec(o, z.alpha, x)] else c;
    forall j | 0 <= j < z.gen ensures d[j] == e[j] { RowsMove(z.gen, t, j); }
    assert d == e;
  }

  lemma StateGoes<T(!new)>(o: Ops<T>, z: Shape, inv: T -> T, step: Loop<T>, t: nat)
    requires FieldOk(o, inv) && Large(z) && Turns(o, z, inv, step) && t < 2 * z.gen - 1
    ensures step(State(o, z, t)) == Go(State(o, z, t + 1))
  {
    var s, u := State(o, z, t), State(o, z, t + 1);
    assert IsTurn(o, z, inv, step, s);
    StateReady(o, z, inv, t);
    StateFollows<T>(o, z, t);
    CodesMove(z.gen, t);
    TurnOnBits(o, z, inv, s.d, u.d, At(z.gen, t), Code(z.gen, t), Row(z.gen, t, At(z.gen, t)));
  }

  lemma {:induction false} StatesWalk<T(!new)>(o: Ops<T>, z: Shape, inv: T -> T, step: Loop<T>, t: nat)
    requires FieldOk(o, inv) && Large(z) && Turns(o, z, inv, step) && t <= 2 * z.gen - 1
    ensures Walk(step, State(o, z, t), 2 * z.gen - 1 - t) == OutOfTurns(State(o, z, 2 * z.gen - 1))
    decreases 2 * z.gen - 1 - t
  {
    if t < 2 * z.gen - 1 {
      StateGoes(o, z, inv, step, t);
      StatesWalk(o, z, inv, step, t + 1);
      WalkGo(step, State(o, z, t), State(o, z, t + 1), 2 * z.gen - 1 - t);
    }
  }

  // ----- the rows come from packets

  /** The place of the k-th packet. */
  function Place(k: nat): nat {
    if k == 0 then 0 else k + 1
  }

  function FirstPackets<T(!new)>(o: Ops<T>, z: Shape, n: nat): seq<Packet<T>>
    requires z.gen >= 4
  {
    seq(n, (k: nat) => Sent(o, z, Place(k), Row(z.gen, 0, Place(k))))
  }

  /** The rows filled by the first k packets. */
  function FilledBy(gen: nat, k: nat): (r: seq<bool>)
    ensures |r| == gen && forall i :: 0 <= i < gen ==> r[i] == (i != 1 && i < Place(k))
  {
    seq(gen, (i: nat) => i != 1 && i < Place(k))
  }

  function RowBy(gen: nat, k: nat, i: nat): Bits {
    if i != 1 && i < Place(k) then Row(gen, 0, i) else Bits(false, false, false)
  }

  function DecoderBy<T(!new)>(o: Ops<T>, z: Shape, k: nat): Decoder<T> {
    Decoder(FilledBy(z.gen, k), seq(z.gen, (i: nat) => Vec(o, z.alpha, RowBy(z.gen, k, i))),
            seq(z.gen, (i: nat) => Zeros(o, z.width)))
  }

  lemma PacketStored<T(!new)>(o: Ops<T>, z: Shape, inv: T -> T, step: Loop<T>, k: nat)
    requires FieldOk(o, inv) && Large(z) && Turns(o, z, inv, step) && k < z.gen - 1
    ensures var p := Sent(o, z, Place(k), Row(z.gen, 0, Place(k)));
      step(Attempt(DecoderBy(o, z, k), p)) == End(Kept(DecoderBy(o, z, k + 1)))
  {
    var i := Place(k);
    var d, e, p := DecoderBy(o, z, k), DecoderBy(o, z, k + 1), Sent(o, z, i, Row(z.gen, 0, i));
    assert IsTurn(o, z, inv, step, Attempt(d, p));
    var rows := seq(z.gen, (j: nat) => RowBy(z.gen, k, j));
    SentReady(o, z, inv, d, i, Row(z.gen, 0, i), rows);
    forall j | 0 <= j < z.gen
      ensures d.filled[i := true][j] == e.filled[j] && d.coding[i := p.code][j] == e.coding[j] {}
    assert d.filled[i := true] == e.filled && d.coding[i := p.code] == e.coding;
    SameRow(d.symbol, i, p.sym);
  }

  lemma {:induction false} PacketsStored<T(!new)>(o: Ops<T>, z: Shape, inv: T -> T, step: Loop<T>, k: nat)
    requires FieldOk(o, inv) && Large(z) && Turns(o, z, inv, step) && k <= z.gen - 1
    ensures Receive(z, step, DecoderBy(o, z, 0), FirstPackets(o, z, k)) == Receiving(DecoderBy(o, z, k), 0)
  {
    if k > 0 {
      PacketsStored(o, z, inv, step, k - 1);
      PacketStored(o, z, inv, step, k - 1);
      var ps, p := FirstPackets(o, z, k), Sent(o, z, Place(k - 1), Row(z.gen, 0, Place(k - 1)));
      assert ps[..k - 1] == FirstPackets(o, z, k - 1) && ps[k - 1] == p;
      WalkEnd(step, Attempt(DecoderBy(o, z, k - 1), p), Kept(DecoderBy(o, z, k)), Limit(z));
    }
  }

  lemma AllStoredBy<T(!new)>(o: Ops<T>, z: Shape)
    requires z.gen >= 4
    ensures DecoderBy(o, z, z.gen - 1) == State(o, z, 0).d
  {
    var d, e := DecoderBy(o, z, z.gen - 1), State(o, z, 0).d;
    forall i | 0 <= i < z.gen ensures d.coding[i] == e.coding[i] && d.filled[i] == e.filled[i] {}
    assert d.coding == e.coding && d.filled == e.filled && d.symbol == e.symbol;
  }

  /** The packets of the witness. */
  function Packets<T(!new)>(o: Ops<T>, z: Shape): seq<Packet<T>>
    requires z.gen >= 4
  {
    FirstPackets(o, z, z.gen - 1) + [State(o, z, 0).p]
  }

  lemma PacketsReceived<T(!new)>(o: Ops<T>, z: Shape, inv: T -> T, step: Loop<T>)
    requires FieldOk(o, inv) && Large(z) && Turns(o, z, inv, step)
    ensures Receive(z, step, DecoderBy(o, z, 0), Packets(o, z)) == Receiving(State(o, z, 2 * z.gen - 1).d, 1)
  {
    PacketsStored(o, z, inv, step, z.gen - 1);
    AllStoredBy<T>(o, z);
    StatesWalk(o, z, inv, step, 0);
    var ps := Packets(o, z);
    assert ps[..|ps| - 1] == FirstPackets(o, z, z.gen - 1);
  }

  // ----- what is lost

  /** A message that the packets rule out: 1 at the first two places. */
  function LostColumn<T(!new)>(o: Ops<T>, gen: nat): (r: seq<T>)
    ensures |r| == gen && forall i :: 0 <= i < gen ==> r[i] == El(o, i < 2)
  {
    seq(gen, (i: nat) => El(o, i < 2))
  }

  function LostMessage<T(!new)>(o: Ops<T>, z: Shape): (r: seq<seq<T>>)
    ensures |r| == z.width && forall k :: 0 <= k < z.width ==> r[k] == LostColumn(o, z.gen)
  {
    seq(z.width, (k: nat) => LostColumn(o, z.gen))
  }

  function NoMessage<T(!new)>(o: Ops<T>, z: Shape): (r: seq<seq<T>>)
    ensures |r| == z.width && forall k :: 0 <= k < z.width ==> r[k] == Zeros(o, z.gen)
  {
    seq(z.width, (k: nat) => Zeros(o, z.gen))
  }

  lemma MessagesOk<T(!new)>(o: Ops<T>, z: Shape)
    requires IsField(o)
    ensures MessageOk(o, z, LostMessage(o, z)) && MessageOk(o, z, NoMessage(o, z))
  {
    forall k | 0 <= k < z.width
      ensures ColumnAtOk(o, z, LostMessage(o, z), k) && ColumnAtOk(o, z, NoMessage(o, z), k) {}
  }

  /** A coding vector with a single 1 picks one element. */
  lemma DotSingle<T(!new)>(o: Ops<T>, z: Shape, x: Bits, m: seq<T>, at: nat)
    requires IsField(o) && Large(z) && ColumnOk(o, z, m) && at < z.gen
    requires x == Bits(true, false, false) || x == Bits(false, false, true)
    ensures In(o, Vec(o, z.alpha, x)) && Ahead(at, Skip3(x), z.gen) < z.gen
    ensures Dot(o, Vec(o, z.alpha, x), m, at) == m[Ahead(at, Skip3(x), z.gen)]
  {
    var v, n := Vec(o, z.alpha, x), Skip3(x);
    var to := Ahead(at, n, z.gen);
    VecIn(o, z.alpha, x);
    DotSkips(o, v, n, m, at);
    assert v[n..][0] == o.one && AllZero(o, v[n..][1..]);
    DotZeros(o, v[n..][1..], m, Next(to, z.gen));
    Laws(o, o.one, m[to], o.zero);
    Laws(o, m[to], o.one, o.zero);
    Laws(o, o.mul(o.one, m[to]), o.zero, o.zero);
  }

  lemma LostAtEnd<T(!new)>(o: Ops<T>, z: Shape, inv: T -> T)
    requires FieldOk(o, inv) && Large(z) && MessageOk(o, z, LostMessage(o, z))
    ensures var d := State(o, z, 2 * z.gen - 1).d; DecoderOk(o, z, d) && Solves(o, z, LostMessage(o, z), d)
  {
    var ms, d, m := LostMessage(o, z), State(o, z, 2 * z.gen - 1).d, LostColumn(o, z.gen);
    StateReady(o, z, inv, 2 * z.gen - 1);
    forall i | 0 <= i < z.gen ensures RowHolds(o, z, ms, d, i) {
      if i != 1 {
        assert RowAtOk(o, z, d, i);
        forall k | 0 <= k < z.width ensures HoldsAt(o, z, ms, i, d.coding[i], d.symbol[i], k) {
          if i == 0 {
            DotSingle(o, z, Bits(true, false, false), m, 1);
            Laws(o, o.one, o.zero, o.zero);
          } else {
            DotZeros(o, d.coding[i], m, Next(i, z.gen));
            Laws(o, o.zero, o.zero, o.zero);
          }
        }
      }
    }
  }

  lemma LostByPacket<T(!new)>(o: Ops<T>, z: Shape, inv: T -> T)
    requires FieldOk(o, inv) && Large(z) && MessageOk(o, z, LostMessage(o, z))
    ensures var p := State(o, z, 0).p; PacketOk(o, z, p) && !PacketHolds(o, z, LostMessage(o, z), p)
  {
    var ms, p, m := LostMessage(o, z), State(o, z, 0).p, LostColumn(o, z.gen);
    StateReady(o, z, inv, 0);
    DotSingle(o, z, Bits(false, false, true), m, z.gen - 1);
    Laws(o, o.zero, o.one, o.zero);
    Laws(o, o.one, o.zero, o.zero);
    assert !HoldsAt(o, z, ms, p.at, p.code, p.sym, 0);
  }

  lemma NothingHolds<T(!new)>(o: Ops<T>, z: Shape, at: nat, x: Bits)
    requires IsField(o) && Large(z) && at < z.gen && MessageOk(o, z, NoMessage(o, z))
    ensures PacketOk(o, z, Sent(o, z, at, x)) && PacketHolds(o, z, NoMessage(o, z), Sent(o, z, at, x))
  {
    var ms, p, m := NoMessage(o, z), Sent(o, z, at, x), Zeros(o, z.gen);
    VecIn(o, z.alpha, x);
    forall k | 0 <= k < z.width ensures HoldsAt(o, z, ms, at, p.code, p.sym, k) {
      DotOfNothing(o, p.code, m, Next(at, z.gen));
      Laws(o, o.zero, o.zero, o.zero);
    }
  }

  lemma {:induction false} DotOfNothing<T(!new)>(o: Ops<T>, c: seq<T>, m: seq<T>, at: nat)
    requires IsField(o) && In(o, c) && In(o, m) && AllZero(o, m) && at < |m|
    ensures Dot(o, c, m, at) == o.zero
    decreases |c|
  {
    if c != [] {
      DotOfNothing(o, c[1..], m, Next(at, |m|));
      Laws(o, c[0], o.zero, o.zero);
      Laws(o, o.zero, o.zero, o.zero);
    }
  }

  lemma PacketsFine<T(!new)>(o: Ops<T>, z: Shape)
    requires IsField(o) && Large(z) && MessageOk(o, z, NoMessage(o, z))
    ensures PacketsOk(o, z, Packets(o, z)) && AllHold(o, z, NoMessage(o, z), Packets(o, z))
  {
    var ps := Packets(o, z);
    forall k | 0 <= k < |ps| ensures PacketOk(o, z, ps[k]) && PacketHolds(o, z, NoMessage(o, z), ps[k]) {
      if k < z.gen - 1 {
        NothingHolds(o, z, Place(k), Row(z.gen, 0, Place(k)));
      } else {
        NothingHolds(o, z, At(z.gen, 0), Code(z.gen, 0));
      }
    }
  }

  /** With three coefficients or more, whatever the field and the length of the message, there are packets of
      one message that end in a call that gives up: the rows that are left then allow a message that the
      packets rule out. With fewer coefficients PerpetualRuns.NoGivingUp says that no such packets exist. */
  lemma GivingUpLosesKnowledge<T(!new)>(o: Ops<T>, z: Shape, inv: T -> T, step: Loop<T>)
    requires FieldOk(o, inv) && Large(z) && Turns(o, z, inv, step)
    ensures MessageOk(o, z, LostMessage(o, z)) && MessageOk(o, z, NoMessage(o, z)) && PacketsOk(o, z, Packets(o, z))
    ensures AllHold(o, z, NoMessage(o, z), Packets(o, z)) && !AllHold(o, z, LostMessage(o, z), Packets(o, z))
    ensures var r := Receive(z, step, DecoderBy(o, z, 0), Packets(o, z));
      && r.Receiving? && r.lost == 1
      && DecoderOk(o, z, r.d) && !r.d.filled[1] && Solves(o, z, LostMessage(o, z), r.d)
    ensures forall i :: 0 <= i < z.gen ==> !DecoderBy(o, z, 0).filled[i]
  {
    MessagesOk(o, z);
    PacketsFine(o, z);
    PacketsReceived(o, z, inv, step);
    LostAtEnd(o, z, inv);
    LostByPacket(o, z, inv);
    assert Packets(o, z)[z.gen - 1] == State(o, z, 0).p;
  }

  lemma {:induction false} EmptyAt(filled: seq<bool>, i: nat)
    requires i < |filled| && !filled[i]
    ensures Empty(filled) > 0
    decreases |filled|
  {
    if i > 0 { EmptyAt(filled[1..], i - 1); }
  }

  /** Packets can be lost while a row is empty exactly if three or more coefficients are combined. */
  lemma LossIff<T(!new)>(o: Ops<T>, z: Shape, inv: T -> T, step: Loop<T>)
    requires FieldOk(o, inv) && ShapeOk(z) && z.width >= 1 && Turns(o, z, inv, step)
    ensures (exists d, ps :: Loses(o, z, step, d, ps)) <==> z.alpha >= 3
  {
    if z.alpha >= 3 {
      var d, ps := DecoderBy(o, z, 0), Packets(o, z);
      GivingUpLosesKnowledge(o, z, inv, step);
      EmptyAt(Receive(z, step, d, ps).d.filled, 1);
      DecoderFits(o, z, d, seq(z.gen, (i: nat) => RowBy(z.gen, 0, i)));
      assert Loses(o, z, step, d, ps);
    } else {
      forall d, ps ensures !Loses(o, z, step, d, ps) {
        if DecoderOk(o, z, d) && PacketsOk(o, z, ps) { NothingLost(o, z, inv, step, d, ps); }
      }
    }
  }
}
