/** perpetual.c, the pivot: coded rows are elements of the message plus a combination of the alpha elements
    that follow, indices wrapping round; a packet is reduced by the rows that are stored already, until it
    finds an empty row or nothing of it is left. */
module Perpetual {
  import opened Fields
  import opened Vectors

  /** The rows stored so far, by the position of their implicit 1. */
  datatype Decoder<!T(!new)> = Decoder(filled: seq<bool>, coding: seq<seq<T>>, symbol: seq<seq<T>>)

  datatype Packet<!T(!new)> = Packet(at: nat, code: seq<T>, sym: seq<T>)

  /** What one turn of the loop comes to. */
  datatype Move<!T(!new)> =
    | Stored(d: Decoder<T>)
    | Redundant(d: Decoder<T>)
    | Failed
    | Moved(d: Decoder<T>, p: Packet<T>)

  /** gen elements in a message, alpha of them combined, each a block of width field elements. */
  datatype Shape = Shape(gen: nat, alpha: nat, width: nat)

  predicate ShapeOk(z: Shape) {
    0 < z.alpha < z.gen
  }

  ghost predicate RowOk<T(!new)>(o: Ops<T>, z: Shape, code: seq<T>, sym: seq<T>) {
    |code| == z.alpha && |sym| == z.width && In(o, code) && In(o, sym)
  }

  ghost predicate PacketOk<T(!new)>(o: Ops<T>, z: Shape, p: Packet<T>) {
    p.at < z.gen && RowOk(o, z, p.code, p.sym)
  }

  ghost predicate RowAtOk<T(!new)>(o: Ops<T>, z: Shape, d: Decoder<T>, i: nat) {
    i < |d.coding| && i < |d.symbol| && RowOk(o, z, d.coding[i], d.symbol[i])
  }

  ghost predicate DecoderOk<T(!new)>(o: Ops<T>, z: Shape, d: Decoder<T>) {
    && |d.filled| == |d.coding| == |d.symbol| == z.gen
    && forall i :: 0 <= i < z.gen ==> RowAtOk(o, z, d, i)
  }

  /** A field with its table of inverses. */
  ghost predicate Inverts<T(!new)>(o: Ops<T>, inv: T -> T, a: T) {
    InverseOf(o, a, inv(a))
  }

  ghost predicate FieldOk<T(!new)>(o: Ops<T>, inv: T -> T) {
    IsField(o) && forall a :: a in o.carrier && a != o.zero ==> Inverts(o, inv, a)
  }

  // ----- what rows and packets say

  /** One column of the message: component k of all gen elements. */
  ghost predicate ColumnOk<T(!new)>(o: Ops<T>, z: Shape, m: seq<T>) {
    |m| == z.gen && In(o, m)
  }

  ghost predicate ColumnAtOk<T(!new)>(o: Ops<T>, z: Shape, ms: seq<seq<T>>, k: nat) {
    k < |ms| && ColumnOk(o, z, ms[k])
  }

  ghost predicate MessageOk<T(!new)>(o: Ops<T>, z: Shape, ms: seq<seq<T>>) {
    |ms| == z.width && forall k :: 0 <= k < z.width ==> ColumnAtOk(o, z, ms, k)
  }

  /** The element at the implicit 1 plus the combination of those after it. */
  ghost function Combined<T(!new)>(o: Ops<T>, z: Shape, i: nat, code: seq<T>, m: seq<T>): (r: T)
    requires IsField(o) && ShapeOk(z) && In(o, code) && ColumnOk(o, z, m) && i < z.gen
    ensures r in o.carrier
  {
    Laws(o, m[i], Dot(o, code, m, Next(i, z.gen)), o.zero);
    o.add(m[i], Dot(o, code, m, Next(i, z.gen)))
  }

  ghost predicate HoldsAt<T(!new)>(o: Ops<T>, z: Shape, ms: seq<seq<T>>, i: nat, code: seq<T>, sym: seq<T>, k: nat)
    requires IsField(o) && ShapeOk(z) && MessageOk(o, z, ms) && i < z.gen && RowOk(o, z, code, sym) && k < z.width
  {
    assert ColumnAtOk(o, z, ms, k);
    Combined(o, z, i, code, ms[k]) == sym[k]
  }

  /** The message satisfies a row. */
  ghost predicate Holds<T(!new)>(o: Ops<T>, z: Shape, ms: seq<seq<T>>, i: nat, code: seq<T>, sym: seq<T>)
    requires IsField(o) && ShapeOk(z) && MessageOk(o, z, ms) && i < z.gen && RowOk(o, z, code, sym)
  {
    forall k :: 0 <= k < z.width ==> HoldsAt(o, z, ms, i, code, sym, k)
  }

  ghost predicate RowHolds<T(!new)>(o: Ops<T>, z: Shape, ms: seq<seq<T>>, d: Decoder<T>, i: nat)
    requires IsField(o) && ShapeOk(z) && MessageOk(o, z, ms) && DecoderOk(o, z, d) && i < z.gen
  {
    assert RowAtOk(o, z, d, i);
    d.filled[i] ==> Holds(o, z, ms, i, d.coding[i], d.symbol[i])
  }

  /** The message satisfies all stored rows. */
  ghost predicate Solves<T(!new)>(o: Ops<T>, z: Shape, ms: seq<seq<T>>, d: Decoder<T>)
    requires IsField(o) && ShapeOk(z) && MessageOk(o, z, ms) && DecoderOk(o, z, d)
  {
    forall i :: 0 <= i < z.gen ==> RowHolds(o, z, ms, d, i)
  }

  ghost predicate PacketHolds<T(!new)>(o: Ops<T>, z: Shape, ms: seq<seq<T>>, p: Packet<T>)
    requires IsField(o) && ShapeOk(z) && MessageOk(o, z, ms) && PacketOk(o, z, p)
  {
    Holds(o, z, ms, p.at, p.code, p.sym)
  }

  // ----- one turn of the loop

  /** The next packet: skip to the first element that is left, and make its coefficient 1. */
  function Reduced<T(!new, ==)>(o: Ops<T>, z: Shape, inv: T -> T, at: nat, code: seq<T>, sym: seq<T>): Packet<T>
    requires at < z.gen && |code| <= z.gen && Leading(o, code) < |code|
  {
    var clz := Leading(o, code);
    var t := inv(code[clz]);
    Packet(Ahead(at, clz + 1, z.gen), Scale(o, t, code[clz + 1..]) + Zeros(o, clz + 1), Scale(o, t, sym))
  }

  lemma SomethingLeft<T(!new)>(o: Ops<T>, code: seq<T>)
    requires !AllZero(o, code)
    ensures Leading(o, code) < |code|
  {
    assert code[..|code|] == code;
  }

  function Turn<T(!new, ==)>(o: Ops<T>, z: Shape, inv: T -> T, d: Decoder<T>, p: Packet<T>): Move<T>
    requires ShapeOk(z) && |d.filled| == |d.coding| == |d.symbol| == z.gen && p.at < z.gen
    requires |p.code| == |d.coding[p.at]| == z.alpha && |p.sym| == |d.symbol[p.at]| == z.width
  {
    var i := p.at;
    if !d.filled[i] then
      Stored(Decoder(d.filled[i := true], d.coding[i := p.code], d.symbol[i := p.sym]))
    else
      var swap := Trailing(o, p.code) > Trailing(o, d.coding[i]);
      var left := if swap then d.(coding := d.coding[i := p.code], symbol := d.symbol[i := p.sym]) else d;
      var code := Plus(o, p.code, d.coding[i]);
      var sym := Plus(o, p.sym, d.symbol[i]);
      if AllZero(o, code) then
        if AllZero(o, sym) then Redundant(left) else Failed
      else
        SomethingLeft(o, code);
        Moved(left, Reduced(o, z, inv, i, code, sym))
  }

  /** The rows after a substitution at row i. */
  ghost predicate Substituted<T(!new)>(d: Decoder<T>, i: nat, swap: bool, p: Packet<T>, e: Decoder<T>)
    requires i < |d.coding| && i < |d.symbol|
  {
    && e.filled == d.filled
    && e.coding == (if swap then d.coding[i := p.code] else d.coding)
    && e.symbol == (if swap then d.symbol[i := p.sym] else d.symbol)
  }

  lemma TurnIs<T(!new)>(o: Ops<T>, z: Shape, inv: T -> T, d: Decoder<T>, p: Packet<T>, swap: bool, code: seq<T>,
                        sym: seq<T>, e: Decoder<T>)
    requires ShapeOk(z) && |d.filled| == |d.coding| == |d.symbol| == z.gen && p.at < z.gen && d.filled[p.at]
    requires |p.code| == |d.coding[p.at]| == z.alpha && |p.sym| == |d.symbol[p.at]| == z.width
    requires swap <==> Trailing(o, p.code) > Trailing(o, d.coding[p.at])
    requires code == Plus(o, p.code, d.coding[p.at]) && sym == Plus(o, p.sym, d.symbol[p.at])
    requires Substituted(d, p.at, swap, p, e)
    ensures AllZero(o, code) ==> Turn(o, z, inv, d, p) == if AllZero(o, sym) then Redundant(e) else Failed
    ensures !AllZero(o, code) ==>
      Leading(o, code) < |code| && Turn(o, z, inv, d, p) == Moved(e, Reduced(o, z, inv, p.at, code, sym))
  {
    if !AllZero(o, code) { SomethingLeft(o, code); }
  }

  // ----- a turn keeps what is known

  lemma SumCombined<T(!new)>(o: Ops<T>, z: Shape, i: nat, c: seq<T>, d: seq<T>, m: seq<T>)
    requires IsField(o) && ShapeOk(z) && In(o, c) && In(o, d) && |c| == |d| && ColumnOk(o, z, m) && i < z.gen
    ensures In(o, Plus(o, c, d))
    ensures Dot(o, Plus(o, c, d), m, Next(i, z.gen)) == o.add(Combined(o, z, i, c, m), Combined(o, z, i, d, m))
  {
    var x, y := Dot(o, c, m, Next(i, z.gen)), Dot(o, d, m, Next(i, z.gen));
    DotPlus(o, c, d, m, Next(i, z.gen));
    AddSwap(o, m[i], x, m[i], y);
    Laws(o, m[i], o.add(x, y), o.zero);
    Laws(o, x, y, o.zero);
  }

  lemma AheadNext(at: nat, n: nat, gen: nat)
    requires at < gen && n < gen
    ensures Next(at, gen) < gen && Ahead(Next(at, gen), n, gen) == Ahead(at, n + 1, gen) < gen
  {
  }

  lemma ReducedDot<T(!new)>(o: Ops<T>, z: Shape, inv: T -> T, at: nat, code: seq<T>, m: seq<T>)
    requires FieldOk(o, inv) && ShapeOk(z) && In(o, code) && |code| == z.alpha && ColumnOk(o, z, m) && at < z.gen
    requires Leading(o, code) < |code|
    ensures var clz := Leading(o, code); var t := inv(code[clz]); var a := Ahead(at, clz + 1, z.gen);
      && t in o.carrier && t != o.zero && a < z.gen && In(o, code[clz + 1..]) && In(o, Scale(o, t, code[clz + 1..]))
      && o.mul(t, Dot(o, code, m, Next(at, z.gen)))
        == o.add(m[a], Dot(o, Scale(o, t, code[clz + 1..]), m, Next(a, z.gen)))
  {
    var clz := Leading(o, code);
    var a := Ahead(at, clz + 1, z.gen);
    var rest := code[clz + 1..];
    var x := code[clz];
    assert Inverts(o, inv, x);
    var t := inv(x);
    Laws(o, t, x, o.one);
    if t == o.zero { Laws(o, x, o.zero, o.one); }
    AheadNext(at, clz, z.gen);
    DotSkips(o, code, clz, m, Next(at, z.gen));
    assert code[clz..][1..] == rest;
    var y := Dot(o, rest, m, Next(a, z.gen));
    Laws(o, t, x, m[a]);
    Laws(o, x, m[a], o.one);
    Laws(o, m[a], o.one, o.zero);
    Laws(o, o.one, m[a], o.zero);
    Laws(o, t, o.mul(x, m[a]), y);
    DotScale(o, t, rest, m, Next(a, z.gen));
  }

  lemma ReducedCombined<T(!new)>(o: Ops<T>, z: Shape, inv: T -> T, at: nat, code: seq<T>, sym: seq<T>, m: seq<T>)
    requires FieldOk(o, inv) && ShapeOk(z) && RowOk(o, z, code, sym) && ColumnOk(o, z, m) && at < z.gen
    requires Leading(o, code) < |code|
    ensures var p := Reduced(o, z, inv, at, code, sym); var t := inv(code[Leading(o, code)]);
      && t in o.carrier && t != o.zero && PacketOk(o, z, p)
      && Combined(o, z, p.at, p.code, m) == o.mul(t, Dot(o, code, m, Next(at, z.gen)))
  {
    var clz := Leading(o, code);
    ReducedDot(o, z, inv, at, code, m);
    var t := inv(code[clz]);
    var a := Ahead(at, clz + 1, z.gen);
    DotPadded(o, Scale(o, t, code[clz + 1..]), clz + 1, m, Next(a, z.gen));
    ScaleIn(o, t, sym);
  }

  /** Adding a row that holds and dividing by an element other than 0 changes nothing. */
  lemma Balanced<T(!new)>(o: Ops<T>, t: T, a: T, b: T, x: T, y: T)
    requires IsField(o) && t in o.carrier && t != o.zero && a in o.carrier && b in o.carrier && x in o.carrier
    requires y in o.carrier
    requires b == y
    ensures a == x <==> o.mul(t, o.add(a, b)) == o.mul(t, o.add(x, y))
  {
    Laws(o, a, b, t);
    Laws(o, x, b, t);
    Laws(o, b, b, o.zero);
    Laws(o, o.add(a, b), t, b);
    Laws(o, o.add(x, b), t, b);
    if o.mul(t, o.add(a, b)) == o.mul(t, o.add(x, y)) {
      Cancel(o, o.add(a, b), o.add(x, b), t);
      assert o.add(o.add(a, b), b) == o.add(a, o.zero) by { Laws(o, a, b, b); }
      assert o.add(o.add(x, b), b) == o.add(x, o.zero) by { Laws(o, x, b, b); }
      Laws(o, a, x, o.zero);
    }
  }

  /** One component: given one of two rows at the same place, the other says the same as what is left of
      their sum. */
  lemma ReducedHoldsAt<T(!new)>(o: Ops<T>, z: Shape, inv: T -> T, ms: seq<seq<T>>, at: nat, c: seq<T>, d: seq<T>,
                                x: seq<T>, y: seq<T>, k: nat)
    requires FieldOk(o, inv) && ShapeOk(z) && MessageOk(o, z, ms) && RowOk(o, z, c, x) && RowOk(o, z, d, y)
    requires at < z.gen
    requires k < z.width && RowOk(o, z, Plus(o, c, d), Plus(o, x, y)) && Leading(o, Plus(o, c, d)) < |c|
    requires PacketOk(o, z, Reduced(o, z, inv, at, Plus(o, c, d), Plus(o, x, y)))
    ensures var p := Reduced(o, z, inv, at, Plus(o, c, d), Plus(o, x, y));
      && (HoldsAt(o, z, ms, at, d, y, k)
          ==> (HoldsAt(o, z, ms, at, c, x, k) <==> HoldsAt(o, z, ms, p.at, p.code, p.sym, k)))
      && (HoldsAt(o, z, ms, at, c, x, k)
          ==> (HoldsAt(o, z, ms, at, d, y, k) <==> HoldsAt(o, z, ms, p.at, p.code, p.sym, k)))
  {
    assert ColumnAtOk(o, z, ms, k);
    var m := ms[k];
    var code := Plus(o, c, d);
    ReducedCombined(o, z, inv, at, code, Plus(o, x, y), m);
    SumCombined(o, z, at, c, d, m);
    var t := inv(code[Leading(o, code)]);
    var a, b := Combined(o, z, at, c, m), Combined(o, z, at, d, m);
    if b == y[k] { Balanced(o, t, a, b, x[k], y[k]); }
    if a == x[k] {
      Balanced(o, t, b, a, y[k], x[k]);
      Laws(o, a, b, o.zero);
      Laws(o, x[k], y[k], o.zero);
    }
  }

  lemma ReducedHolds<T(!new)>(o: Ops<T>, z: Shape, inv: T -> T, ms: seq<seq<T>>, at: nat, c: seq<T>, d: seq<T>,
                              x: seq<T>, y: seq<T>)
    requires FieldOk(o, inv) && ShapeOk(z) && MessageOk(o, z, ms) && RowOk(o, z, c, x) && RowOk(o, z, d, y)
    requires at < z.gen
    requires RowOk(o, z, Plus(o, c, d), Plus(o, x, y)) && Leading(o, Plus(o, c, d)) < |c|
    requires PacketOk(o, z, Reduced(o, z, inv, at, Plus(o, c, d), Plus(o, x, y)))
    ensures var p := Reduced(o, z, inv, at, Plus(o, c, d), Plus(o, x, y));
      && (Holds(o, z, ms, at, d, y) ==> (Holds(o, z, ms, at, c, x) <==> PacketHolds(o, z, ms, p)))
      && (Holds(o, z, ms, at, c, x) ==> (Holds(o, z, ms, at, d, y) <==> PacketHolds(o, z, ms, p)))
  {
    var p := Reduced(o, z, inv, at, Plus(o, c, d), Plus(o, x, y));
    forall k | 0 <= k < z.width
      ensures HoldsAt(o, z, ms, at, d, y, k) ==>
        (HoldsAt(o, z, ms, at, c, x, k) <==> HoldsAt(o, z, ms, p.at, p.code, p.sym, k))
      ensures HoldsAt(o, z, ms, at, c, x, k) ==>
        (HoldsAt(o, z, ms, at, d, y, k) <==> HoldsAt(o, z, ms, p.at, p.code, p.sym, k))
    {
      ReducedHoldsAt(o, z, inv, ms, at, c, d, x, y, k);
    }
  }

  /** Replacing a row. */
  lemma SolvesReplaced<T(!new)>(o: Ops<T>, z: Shape, ms: seq<seq<T>>, d: Decoder<T>, e: Decoder<T>, i: nat)
    requires IsField(o) && ShapeOk(z) && MessageOk(o, z, ms) && DecoderOk(o, z, d) && i < z.gen
    requires |d.filled| == |e.filled|
    requires RowAtOk(o, z, e, i)
    requires e.coding == d.coding[i := e.coding[i]] && e.symbol == d.symbol[i := e.symbol[i]]
    requires e.filled == d.filled[i := true]
    ensures DecoderOk(o, z, e)
    ensures Solves(o, z, ms, d) && Holds(o, z, ms, i, e.coding[i], e.symbol[i]) ==> Solves(o, z, ms, e)
    ensures Solves(o, z, ms, e) && RowHolds(o, z, ms, d, i) ==> Solves(o, z, ms, d)
    ensures Solves(o, z, ms, e) ==> Holds(o, z, ms, i, e.coding[i], e.symbol[i])
  {
    forall j | 0 <= j < z.gen ensures RowAtOk(o, z, e, j) { assert RowAtOk(o, z, d, j); }
    forall j | 0 <= j < z.gen && j != i ensures RowHolds(o, z, ms, d, j) <==> RowHolds(o, z, ms, e, j) {}
    if Solves(o, z, ms, e) { assert RowHolds(o, z, ms, e, i); }
    if Solves(o, z, ms, d) && Holds(o, z, ms, i, e.coding[i], e.symbol[i]) {
      forall j | 0 <= j < z.gen ensures RowHolds(o, z, ms, e, j) { assert j != i ==> RowHolds(o, z, ms, d, j); }
    }
    if Solves(o, z, ms, e) && RowHolds(o, z, ms, d, i) {
      forall j | 0 <= j < z.gen ensures RowHolds(o, z, ms, d, j) { assert j != i ==> RowHolds(o, z, ms, e, j); }
    }
  }

  lemma ZeroSum<T(!new)>(o: Ops<T>, a: seq<T>, b: seq<T>)
    requires IsField(o) && In(o, a) && In(o, b) && |a| == |b|
    ensures AllZero(o, Plus(o, a, b)) <==> a == b
  {
    if AllZero(o, Plus(o, a, b)) {
      forall k | 0 <= k < |a| ensures a[k] == b[k] {
        assert Plus(o, a, b)[k] == o.zero;
        Laws(o, a[k], b[k], b[k]);
        Laws(o, b[k], o.zero, a[k]);
      }
    } else if a == b {
      forall k | 0 <= k < |a| ensures Plus(o, a, b)[k] == o.zero { Laws(o, a[k], a[k], a[k]); }
    }
  }

  ghost predicate TurnReady<T(!new)>(o: Ops<T>, z: Shape, inv: T -> T, d: Decoder<T>, p: Packet<T>) {
    FieldOk(o, inv) && ShapeOk(z) && DecoderOk(o, z, d) && PacketOk(o, z, p) && RowAtOk(o, z, d, p.at)
  }

  /** A swap never coincides with a cancellation, so a redundant packet leaves no trace. */
  lemma SwapNeverCancels<T(!new)>(o: Ops<T>, z: Shape, inv: T -> T, d: Decoder<T>, p: Packet<T>)
    requires TurnReady(o, z, inv, d, p) && d.filled[p.at]
    ensures AllZero(o, Plus(o, p.code, d.coding[p.at])) ==> Trailing(o, p.code) == Trailing(o, d.coding[p.at])
    ensures var m := Turn(o, z, inv, d, p); m.Redundant? ==> m.d == d
  {
    ZeroSum(o, p.code, d.coding[p.at]);
  }

  ghost predicate SameKnowledge<T(!new)>(o: Ops<T>, z: Shape, ms: seq<seq<T>>, d: Decoder<T>, p: Packet<T>,
                                         e: Decoder<T>, q: Packet<T>)
    requires IsField(o) && ShapeOk(z) && MessageOk(o, z, ms)
  {
    && DecoderOk(o, z, d) && PacketOk(o, z, p) && DecoderOk(o, z, e) && PacketOk(o, z, q)
    && (Solves(o, z, ms, d) && PacketHolds(o, z, ms, p) <==> Solves(o, z, ms, e) && PacketHolds(o, z, ms, q))
  }

  ghost predicate Learnt<T(!new)>(o: Ops<T>, z: Shape, ms: seq<seq<T>>, d: Decoder<T>, p: Packet<T>, e: Decoder<T>)
    requires IsField(o) && ShapeOk(z) && MessageOk(o, z, ms)
  {
    && DecoderOk(o, z, d) && PacketOk(o, z, p) && DecoderOk(o, z, e)
    && (Solves(o, z, ms, d) && PacketHolds(o, z, ms, p) <==> Solves(o, z, ms, e))
  }

  lemma StoredKeeps<T(!new)>(o: Ops<T>, z: Shape, inv: T -> T, ms: seq<seq<T>>, d: Decoder<T>, p: Packet<T>)
    requires TurnReady(o, z, inv, d, p) && MessageOk(o, z, ms) && !d.filled[p.at]
    ensures Turn(o, z, inv, d, p).Stored? && Learnt(o, z, ms, d, p, Turn(o, z, inv, d, p).d)
  {
    var e := Turn(o, z, inv, d, p).d;
    SolvesReplaced(o, z, ms, d, e, p.at);
  }

  lemma MovedPacketOk<T(!new)>(o: Ops<T>, z: Shape, inv: T -> T, d: Decoder<T>, p: Packet<T>)
    requires TurnReady(o, z, inv, d, p) && d.filled[p.at]
    requires !AllZero(o, Plus(o, p.code, d.coding[p.at]))
    ensures var code, sym := Plus(o, p.code, d.coding[p.at]), Plus(o, p.sym, d.symbol[p.at]);
      RowOk(o, z, code, sym) && Leading(o, code) < |p.code| && PacketOk(o, z, Reduced(o, z, inv, p.at, code, sym))
  {
    var code, sym := Plus(o, p.code, d.coding[p.at]), Plus(o, p.sym, d.symbol[p.at]);
    PlusIn(o, p.code, d.coding[p.at]);
    PlusIn(o, p.sym, d.symbol[p.at]);
    SomethingLeft(o, code);
    var m := Zeros(o, z.gen);
    ReducedCombined(o, z, inv, p.at, code, sym, m);
  }

  lemma MovedKeeps<T(!new)>(o: Ops<T>, z: Shape, inv: T -> T, ms: seq<seq<T>>, d: Decoder<T>, p: Packet<T>)
    requires TurnReady(o, z, inv, d, p) && MessageOk(o, z, ms) && d.filled[p.at]
    requires !AllZero(o, Plus(o, p.code, d.coding[p.at]))
    ensures var m := Turn(o, z, inv, d, p); m.Moved? && SameKnowledge(o, z, ms, d, p, m.d, m.p)
  {
    var i := p.at;
    var m := Turn(o, z, inv, d, p);
    MovedPacketOk(o, z, inv, d, p);
    ReducedHolds(o, z, inv, ms, i, p.code, d.coding[i], p.sym, d.symbol[i]);
    assert RowHolds(o, z, ms, d, i) <==> Holds(o, z, ms, i, d.coding[i], d.symbol[i]);
    if m.d != d {
      assert m.d.filled == d.filled[i := true];
      SolvesReplaced(o, z, ms, d, m.d, i);
    }
    if Solves(o, z, ms, d) { assert RowHolds(o, z, ms, d, i); }
  }

  lemma CancelledSays<T(!new)>(o: Ops<T>, z: Shape, inv: T -> T, ms: seq<seq<T>>, d: Decoder<T>, p: Packet<T>)
    requires TurnReady(o, z, inv, d, p) && MessageOk(o, z, ms) && d.filled[p.at]
    requires AllZero(o, Plus(o, p.code, d.coding[p.at])) && Solves(o, z, ms, d)
    ensures PacketHolds(o, z, ms, p) <==> AllZero(o, Plus(o, p.sym, d.symbol[p.at]))
  {
    var i := p.at;
    ZeroSum(o, p.code, d.coding[i]);
    ZeroSum(o, p.sym, d.symbol[i]);
    assert RowHolds(o, z, ms, d, i);
    if PacketHolds(o, z, ms, p) {
      forall k | 0 <= k < z.width ensures p.sym[k] == d.symbol[i][k] {
        assert HoldsAt(o, z, ms, i, p.code, p.sym, k) && HoldsAt(o, z, ms, i, d.coding[i], d.symbol[i], k);
      }
    }
  }

  /** Every turn leaves the same messages possible; a packet is dropped only if the rows imply it, and the
      failure needs rows and a packet that contradict each other. */
  lemma TurnKeeps<T(!new)>(o: Ops<T>, z: Shape, inv: T -> T, ms: seq<seq<T>>, d: Decoder<T>, p: Packet<T>)
    requires TurnReady(o, z, inv, d, p) && MessageOk(o, z, ms)
    ensures match Turn(o, z, inv, d, p)
      case Stored(e) => Learnt(o, z, ms, d, p, e)
      case Redundant(e) => e == d && Learnt(o, z, ms, d, p, d)
      case Failed => !(Solves(o, z, ms, d) && PacketHolds(o, z, ms, p))
      case Moved(e, q) => SameKnowledge(o, z, ms, d, p, e, q)
  {
    if !d.filled[p.at] {
      StoredKeeps(o, z, inv, ms, d, p);
    } else if AllZero(o, Plus(o, p.code, d.coding[p.at])) {
      SwapNeverCancels(o, z, inv, d, p);
      if Solves(o, z, ms, d) { CancelledSays(o, z, inv, ms, d, p); }
    } else {
      MovedKeeps(o, z, inv, ms, d, p);
    }
  }
}
