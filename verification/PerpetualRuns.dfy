/** perpetual.c, whole calls of the pivot and whole runs of a receiver: a call ends by itself after a number
    of turns that the zeros at the ends of the rows bound, but the code gives up after 2 * gen - 1 turns. */
module PerpetualRuns {
  import opened Fields
  import opened Vectors
  import opened Perpetual
  import opened Walks

  // ----- every turn uses up some of the coefficients that are left

  /** The coefficients of all stored rows below row k, not counting zeros at the end of a row. */
  function LengthsTo<T(!new, ==)>(o: Ops<T>, filled: seq<bool>, coding: seq<seq<T>>, k: nat): nat
    requires k <= |filled| && k <= |coding|
  {
    if k == 0 then 0 else LengthsTo(o, filled, coding, k - 1) + if filled[k - 1] then Length(o, coding[k - 1]) else 0
  }

  function Left<T(!new, ==)>(o: Ops<T>, d: Decoder<T>, p: Packet<T>): nat
    requires |d.filled| == |d.coding|
  {
    Length(o, p.code) + LengthsTo(o, d.filled, d.coding, |d.filled|)
  }

  lemma {:induction false} LengthsReplaced<T(!new)>(o: Ops<T>, filled: seq<bool>, coding: seq<seq<T>>, i: nat,
                                                    code: seq<T>, k: nat)
    requires i < |filled| == |coding| && k <= |filled| && filled[i]
    ensures LengthsTo(o, filled, coding[i := code], k)
         == LengthsTo(o, filled, coding, k) + if i < k then Length(o, code) - Length(o, coding[i]) else 0
  {
    if k > 0 { LengthsReplaced(o, filled, coding, i, code, k - 1); }
  }

  lemma SumLength<T(!new)>(o: Ops<T>, a: seq<T>, b: seq<T>)
    requires IsField(o) && In(o, a) && In(o, b) && |a| == |b|
    ensures Length(o, Plus(o, a, b)) <= if Length(o, a) > Length(o, b) then Length(o, a) else Length(o, b)
  {
    var n := if Length(o, a) > Length(o, b) then Length(o, a) else Length(o, b);
    forall k | n <= k < |a| ensures Plus(o, a, b)[k] == o.zero {
      BeyondLength(o, a, k);
      BeyondLength(o, b, k);
      Laws(o, o.zero, o.zero, o.zero);
    }
    LengthIs(o, Plus(o, a, b), n);
  }

  lemma ReducedLength<T(!new)>(o: Ops<T>, z: Shape, inv: T -> T, at: nat, code: seq<T>, sym: seq<T>)
    requires FieldOk(o, inv) && ShapeOk(z) && In(o, code) && |code| == z.alpha && at < z.gen
    requires Leading(o, code) < |code|
    ensures Length(o, Reduced(o, z, inv, at, code, sym).code) + Leading(o, code) + 1 <= Length(o, code)
  {
    var clz := Leading(o, code);
    var q := Reduced(o, z, inv, at, code, sym).code;
    var t := inv(code[clz]);
    assert Inverts(o, inv, code[clz]);
    if Length(o, code) <= clz { BeyondLength(o, code, clz); }
    var n: nat := Length(o, code) - clz - 1;
    forall k | n <= k < |q| ensures q[k] == o.zero {
      if k < |code| - clz - 1 {
        BeyondLength(o, code, k + clz + 1);
        Laws(o, t, o.zero, o.zero);
      }
    }
    LengthIs(o, q, n);
  }

  /** Each move uses up at least as many coefficients as it moves the packet on. */
  lemma MoveCosts<T(!new)>(o: Ops<T>, z: Shape, inv: T -> T, d: Decoder<T>, p: Packet<T>) returns (q: nat)
    requires TurnReady(o, z, inv, d, p) && Turn(o, z, inv, d, p).Moved?
    ensures var m := Turn(o, z, inv, d, p);
      && |m.d.filled| == |m.d.coding| && m.d.filled == d.filled && Left(o, m.d, m.p) + q <= Left(o, d, p)
      && 1 <= q <= z.alpha && m.p.at == Ahead(p.at, q, z.gen)
  {
    var i := p.at;
    var m := Turn(o, z, inv, d, p);
    var code := Plus(o, p.code, d.coding[i]);
    PlusIn(o, p.code, d.coding[i]);
    SomethingLeft(o, code);
    SumLength(o, p.code, d.coding[i]);
    ReducedLength(o, z, inv, i, code, Plus(o, p.sym, d.symbol[i]));
    LengthsReplaced(o, d.filled, d.coding, i, p.code, z.gen);
    q := Leading(o, code) + 1;
  }

  ghost predicate NoShorter<T(!new)>(o: Ops<T>, d: Decoder<T>, e: Decoder<T>, i: nat) {
    i < |d.coding| && i < |e.coding| && Trailing(o, e.coding[i]) >= Trailing(o, d.coding[i])
  }

  /** A turn replaces the stored row that it meets exactly when the packet has more zeros at the end, and no
      other. */
  lemma TurnRow<T(!new)>(o: Ops<T>, z: Shape, inv: T -> T, d: Decoder<T>, p: Packet<T>, i: nat)
    requires TurnReady(o, z, inv, d, p) && i < z.gen && d.filled[i] && !Turn(o, z, inv, d, p).Failed?
    ensures var e := Turn(o, z, inv, d, p).d; var swap := i == p.at && Trailing(o, p.code) > Trailing(o, d.coding[i]);
      && |e.coding| == |e.symbol| == z.gen
      && e.coding[i] == (if swap then p.code else d.coding[i])
      && e.symbol[i] == (if swap then p.sym else d.symbol[i])
  {
    if d.filled[p.at] {
      SwapNeverCancels(o, z, inv, d, p);
      if i == p.at && Trailing(o, p.code) <= Trailing(o, d.coding[i]) {
        assert Turn(o, z, inv, d, p).d == d;
      }
    }
  }

  /** The number of zeros at the end of a stored row never falls. */
  lemma TrailingGrows<T(!new)>(o: Ops<T>, z: Shape, inv: T -> T, d: Decoder<T>, p: Packet<T>, i: nat)
    requires TurnReady(o, z, inv, d, p) && i < z.gen && d.filled[i] && !Turn(o, z, inv, d, p).Failed?
    ensures NoShorter(o, d, Turn(o, z, inv, d, p).d, i)
  {
    TurnRow(o, z, inv, d, p, i);
  }

  // ----- empty rows

  function Empty(filled: seq<bool>): nat {
    if filled == [] then 0 else Empty(filled[1..]) + if filled[0] then 0 else 1
  }

  lemma {:induction false} EmptyFilled(filled: seq<bool>, i: nat)
    requires i < |filled| && !filled[i]
    ensures Empty(filled) > 0 && Empty(filled[i := true]) == Empty(filled) - 1
    decreases |filled|
  {
    if i == 0 {
      assert filled[0 := true][1..] == filled[1..];
    } else {
      EmptyFilled(filled[1..], i - 1);
      assert filled[i := true][1..] == filled[1..][i - 1 := true];
    }
  }

  // ----- a call

  datatype Attempt<!T(!new)> = Attempt(d: Decoder<T>, p: Packet<T>)

  datatype Ending<!T(!new)> = Kept(d: Decoder<T>) | Implied(d: Decoder<T>) | Contradiction

  lemma MovedReady<T(!new)>(o: Ops<T>, z: Shape, inv: T -> T, d: Decoder<T>, p: Packet<T>)
    requires TurnReady(o, z, inv, d, p)
    ensures var m := Turn(o, z, inv, d, p); m.Moved? ==> TurnReady(o, z, inv, m.d, m.p)
  {
    var m := Turn(o, z, inv, d, p);
    if m.Moved? {
      MovedPacketOk(o, z, inv, d, p);
      forall j | 0 <= j < z.gen ensures RowAtOk(o, z, m.d, j) { assert RowAtOk(o, z, d, j); }
    }
  }

  ghost function StepOf<T(!new)>(o: Ops<T>, z: Shape, inv: T -> T, s: Attempt<T>): Step<Attempt<T>, Ending<T>> {
    if !TurnReady(o, z, inv, s.d, s.p) then End(Contradiction) else
      match Turn(o, z, inv, s.d, s.p)
      case Stored(e) => End(Kept(e))
      case Redundant(e) => End(Implied(e))
      case Failed => End(Contradiction)
      case Moved(e, q) => Go(Attempt(e, q))
  }

  type Loop<!T(!new)> = Attempt<T> -> Step<Attempt<T>, Ending<T>>

  ghost predicate IsTurn<T(!new)>(o: Ops<T>, z: Shape, inv: T -> T, step: Loop<T>, s: Attempt<T>) {
    step(s) == StepOf(o, z, inv, s)
  }

  /** step is the body of the loop. */
  ghost predicate Turns<T(!new)>(o: Ops<T>, z: Shape, inv: T -> T, step: Loop<T>) {
    forall s :: IsTurn(o, z, inv, step, s)
  }

  lemma TurnsExist<T(!new)>(o: Ops<T>, z: Shape, inv: T -> T)
    ensures Turns(o, z, inv, (s: Attempt<T>) => StepOf(o, z, inv, s))
  {
  }

  ghost function LeftOf<T(!new)>(o: Ops<T>, s: Attempt<T>): nat {
    if |s.d.filled| == |s.d.coding| then Left(o, s.d, s.p) else 0
  }

  ghost predicate IsLeft<T(!new)>(o: Ops<T>, rank: Attempt<T> -> nat, s: Attempt<T>) {
    rank(s) == LeftOf(o, s)
  }

  ghost predicate Measures<T(!new)>(o: Ops<T>, rank: Attempt<T> -> nat) {
    forall s :: IsLeft(o, rank, s)
  }

  /** The number of turns that the code allows. */
  function Limit(z: Shape): nat
    requires z.gen > 0
  {
    2 * z.gen - 1
  }

  lemma StepShrinks<T(!new)>(o: Ops<T>, z: Shape, inv: T -> T, s: Attempt<T>)
    ensures var t := StepOf(o, z, inv, s); t.Go? ==> LeftOf(o, t.next) < LeftOf(o, s)
  {
    if TurnReady(o, z, inv, s.d, s.p) && Turn(o, z, inv, s.d, s.p).Moved? { var q := MoveCosts(o, z, inv, s.d, s.p); }
  }

  lemma AttemptsEnd<T(!new)>(o: Ops<T>, z: Shape, inv: T -> T, step: Loop<T>, rank: Attempt<T> -> nat)
    requires Turns(o, z, inv, step) && Measures(o, rank)
    ensures AlwaysFalls(step, rank)
  {
    forall s ensures Falls(step, rank, s) {
      assert IsTurn(o, z, inv, step, s) && IsLeft(o, rank, s);
      StepShrinks(o, z, inv, s);
      if step(s).Go? { assert IsLeft(o, rank, step(s).next); }
    }
  }

  // ----- how far a packet gets

  /** The number of multiples of gen from 0 on that are below x. */
  function Laps(x: int, gen: nat): nat
    requires gen > 0
    decreases if x > 0 then x else 0
  {
    if x <= 0 then 0 else 1 + Laps(x - gen, gen)
  }

  lemma {:induction false} LapsNext(x: int, gen: nat)
    requires gen > 0
    ensures Laps(x, gen) <= Laps(x + 1, gen) <= Laps(x, gen) + 1
    decreases if x > 0 then x else 0
  {
    if x > 0 { LapsNext(x - gen, gen); }
  }

  lemma {:induction false} LapsGrow(x: int, y: int, gen: nat)
    requires gen > 0 && x <= y
    ensures Laps(x, gen) <= Laps(y, gen) <= Laps(x, gen) + (y - x)
    decreases y - x
  {
    if x < y {
      LapsGrow(x, y - 1, gen);
      LapsNext(y - 1, gen);
    }
  }

  /** The way from a position to the next visit of another. */
  function Distance(at: nat, hole: nat, gen: nat): int {
    if hole > at then hole - at else hole + gen - at
  }

  /** A budget of left coefficients pays for at most so many moves that pass by an empty row. */
  function Payable(left: nat, distance: int, gen: nat): int
    requires gen > 0
  {
    left - Laps(left - distance, gen)
  }

  lemma PayableMove(left: nat, rest: nat, at: nat, hole: nat, q: nat, gen: nat)
    requires at < gen && hole < gen && at != hole && 1 <= q < gen && rest + q <= left
    ensures Ahead(at, q, gen) == hole ==> 1 <= Payable(left, Distance(at, hole, gen), gen)
    ensures var to := Ahead(at, q, gen);
      to != hole ==> 1 + Payable(rest, Distance(to, hole, gen), gen) <= Payable(left, Distance(at, hole, gen), gen)
  {
    var to := Ahead(at, q, gen);
    var d, e := Distance(at, hole, gen), Distance(to, hole, gen);
    LapsGrow(rest - e, left - q - e, gen);
    if to == hole {
      LapsGrow(0, left - d, gen);
    } else if q > d {
      assert e == d + gen - q;
      assert Laps(left - d, gen) == 1 + Laps(left - d - gen, gen);
    }
  }

  /** As long as a row is empty, moves past it cost a coefficient more. */
  lemma {:induction false} MovesPayable<T(!new)>(o: Ops<T>, z: Shape, inv: T -> T, step: Loop<T>,
                                                 rank: Attempt<T> -> nat,
                                                s: Attempt<T>, hole: nat)
    requires Turns(o, z, inv, step) && Measures(o, rank) && AlwaysFalls(step, rank)
    requires TurnReady(o, z, inv, s.d, s.p) && hole < z.gen && !s.d.filled[hole]
    ensures s.p.at == hole ==> Moves(step, rank, s) == 0
    ensures s.p.at != hole ==> Moves(step, rank, s) <= Payable(LeftOf(o, s), Distance(s.p.at, hole, z.gen), z.gen)
    decreases LeftOf(o, s)
  {
    assert IsTurn(o, z, inv, step, s) && Falls(step, rank, s);
    if s.p.at != hole {
      var t := StepOf(o, z, inv, s);
      if t.Go? {
        var q := MoveCosts(o, z, inv, s.d, s.p);
        MovedReady(o, z, inv, s.d, s.p);
        MovesPayable(o, z, inv, step, rank, t.next, hole);
        PayableMove(LeftOf(o, s), LeftOf(o, t.next), s.p.at, hole, q, z.gen);
      } else {
        PayableSome(LeftOf(o, s), Distance(s.p.at, hole, z.gen), z.gen);
      }
    }
  }

  lemma PayableSome(left: nat, distance: int, gen: nat)
    requires gen > 0 && distance >= 1
    ensures 0 <= Payable(left, distance, gen)
  {
    if left > distance { LapsGrow(0, left - distance, gen); }
  }

  /** The call gives up exactly if the packet has more moves to make than turns are allowed; the coefficients
      that are left bound the number of moves. */
  lemma GivesUpIff<T(!new)>(o: Ops<T>, z: Shape, inv: T -> T, step: Loop<T>, rank: Attempt<T> -> nat, s: Attempt<T>)
    requires Turns(o, z, inv, step) && Measures(o, rank) && z.gen > 0
    ensures AlwaysFalls(step, rank)
    ensures Walk(step, s, Limit(z)).OutOfTurns? <==> Moves(step, rank, s) >= Limit(z)
    ensures Moves(step, rank, s) <= LeftOf(o, s)
  {
    AttemptsEnd(o, z, inv, step, rank);
    assert IsLeft(o, rank, s);
    MovesBound(step, rank, s);
    OutOfTurnsIff(step, rank, s, Limit(z), Limit(z));
  }

  /** If a row is empty and no more than 2 * gen coefficients are left, not counting the zeros at the end of
      each row, the call ends by itself. */
  lemma EndsIfShort<T(!new)>(o: Ops<T>, z: Shape, inv: T -> T, step: Loop<T>, d: Decoder<T>, p: Packet<T>)
    requires Turns(o, z, inv, step) && TurnReady(o, z, inv, d, p)
    requires Left(o, d, p) <= 2 * z.gen && Empty(d.filled) > 0
    ensures Walk(step, Attempt(d, p), Limit(z)).Ended?
  {
    var rank := (t: Attempt<T>) => LeftOf(o, t);
    forall t ensures IsLeft(o, rank, t) {}
    var hole := EmptyRow(d.filled);
    ShortMoves(o, z, inv, step, rank, d, p, hole);
    GivesUpIff(o, z, inv, step, rank, Attempt(d, p));
  }

  lemma ShortMoves<T(!new)>(o: Ops<T>, z: Shape, inv: T -> T, step: Loop<T>, rank: Attempt<T> -> nat,
                            d: Decoder<T>, p: Packet<T>, hole: nat)
    requires Turns(o, z, inv, step) && Measures(o, rank) && TurnReady(o, z, inv, d, p)
    requires Left(o, d, p) <= 2 * z.gen && hole < z.gen && !d.filled[hole]
    ensures AlwaysFalls(step, rank) && Moves(step, rank, Attempt(d, p)) < Limit(z)
  {
    AttemptsEnd(o, z, inv, step, rank);
    MovesPayable(o, z, inv, step, rank, Attempt(d, p), hole);
    if p.at != hole { TwoLaps(Left(o, d, p), p.at, hole, z.gen); }
  }

  lemma TwoLaps(left: nat, at: nat, hole: nat, gen: nat)
    requires left <= 2 * gen && at < gen && hole < gen && at != hole
    ensures Payable(left, Distance(at, hole, gen), gen) <= 2 * gen - 2
  {
    var d := Distance(at, hole, gen);
    LapsGrow(left - d, 2 * gen - d, gen);
    assert Laps(2 * gen - d, gen) == 1 + Laps(gen - d, gen) == 2 + Laps(-d, gen);
  }

  lemma {:induction false} EmptyRow(filled: seq<bool>) returns (i: nat)
    requires Empty(filled) > 0
    ensures i < |filled| && !filled[i]
    decreases |filled|
  {
    if !filled[0] {
      i := 0;
    } else {
      var j := EmptyRow(filled[1..]);
      i := j + 1;
    }
  }

  lemma OneMore(a: nat, b: nat)
    ensures a * (b + 1) == a * b + a
  {
  }

  lemma Spread(a: int, b: int, c: int)
    ensures a * (b - c + 1) == a * b - a * c + a
  {
    assert a * (b - c + 1) == a * (b - c) + a;
    assert a * (b - c) == a * b - a * c;
  }

  lemma {:induction false} LengthsBound<T(!new)>(o: Ops<T>, filled: seq<bool>, coding: seq<seq<T>>, alpha: nat, k: nat)
    requires k <= |filled| == |coding| && forall i :: 0 <= i < |coding| ==> |coding[i]| <= alpha
    ensures LengthsTo(o, filled, coding, k) + alpha * Empty(filled[..k]) <= alpha * k
  {
    if k > 0 {
      LengthsBound(o, filled, coding, alpha, k - 1);
      EmptyLast(filled, k - 1);
      OneMore(alpha, Empty(filled[..k - 1]));
      OneMore(alpha, k - 1);
    } else {
      assert filled[..0] == [];
    }
  }

  lemma {:induction false} EmptyLast(filled: seq<bool>, k: nat)
    requires k < |filled|
    ensures Empty(filled[..k + 1]) == Empty(filled[..k]) + if filled[k] then 0 else 1
    decreases k
  {
    if k > 0 {
      assert filled[..k + 1][1..] == filled[1..][..k] && filled[..k][1..] == filled[1..][..k - 1];
      EmptyLast(filled[1..], k - 1);
    }
  }

  /** The rows that are stored, and the packet. */
  function RowsUsed(filled: seq<bool>, gen: nat): int {
    gen - Empty(filled) + 1
  }

  lemma LeftBound<T(!new)>(o: Ops<T>, z: Shape, d: Decoder<T>, p: Packet<T>, rows: nat)
    requires DecoderOk(o, z, d) && PacketOk(o, z, p) && rows == RowsUsed(d.filled, z.gen)
    ensures Left(o, d, p) <= z.alpha * rows
  {
    forall i | 0 <= i < |d.coding| ensures |d.coding[i]| <= z.alpha { assert RowAtOk(o, z, d, i); }
    LengthsBound(o, d.filled, d.coding, z.alpha, z.gen);
    assert d.filled[..z.gen] == d.filled;
    Spread(z.alpha, z.gen, Empty(d.filled));
  }

  ghost predicate FewRows(alpha: nat, rows: nat, gen: nat) {
    alpha <= 2 || alpha * rows <= 2 * gen
  }

  lemma FewEnough(alpha: nat, rows: nat, gen: nat, left: nat)
    requires FewRows(alpha, rows, gen) && rows <= gen && left <= alpha * rows
    ensures left <= 2 * gen
  {
    if alpha <= 2 { assert alpha == 0 || alpha == 1 || alpha == 2; }
  }

  /** With few enough rows stored, no call gives up; with one or two coefficients, none ever does that could
      still fill a row. */
  lemma NoGivingUp<T(!new)>(o: Ops<T>, z: Shape, inv: T -> T, step: Loop<T>, d: Decoder<T>, p: Packet<T>, rows: nat)
    requires Turns(o, z, inv, step) && TurnReady(o, z, inv, d, p) && Empty(d.filled) > 0
    requires rows == RowsUsed(d.filled, z.gen) && FewRows(z.alpha, rows, z.gen)
    ensures Walk(step, Attempt(d, p), Limit(z)).Ended?
  {
    LeftBound(o, z, d, p, rows);
    FewEnough(z.alpha, rows, z.gen, Left(o, d, p));
    EndsIfShort(o, z, inv, step, d, p);
  }

  // ----- what a call keeps

  ghost predicate Known<T(!new)>(o: Ops<T>, z: Shape, ms: seq<seq<T>>, d: Decoder<T>, p: Packet<T>)
    requires IsField(o) && ShapeOk(z) && MessageOk(o, z, ms) && DecoderOk(o, z, d) && PacketOk(o, z, p)
  {
    Solves(o, z, ms, d) && PacketHolds(o, z, ms, p)
  }

  /** The attempt is well formed, has n empty rows, and agrees with the message or not. */
  ghost predicate During<T(!new)>(o: Ops<T>, z: Shape, inv: T -> T, ms: seq<seq<T>>, n: nat, truth: bool, s: Attempt<T>)
    requires IsField(o) && ShapeOk(z) && MessageOk(o, z, ms)
  {
    TurnReady(o, z, inv, s.d, s.p) && Empty(s.d.filled) == n && (Known(o, z, ms, s.d, s.p) <==> truth)
  }

  ghost predicate After<T(!new)>(o: Ops<T>, z: Shape, ms: seq<seq<T>>, n: nat, truth: bool, r: Ending<T>)
    requires IsField(o) && ShapeOk(z) && MessageOk(o, z, ms)
  {
    match r
    case Kept(e) => DecoderOk(o, z, e) && (Solves(o, z, ms, e) <==> truth) && Empty(e.filled) + 1 == n
    case Implied(e) => DecoderOk(o, z, e) && (Solves(o, z, ms, e) <==> truth) && Empty(e.filled) == n
    case Contradiction => !truth
  }

  lemma StepKeeps<T(!new)>(o: Ops<T>, z: Shape, inv: T -> T, ms: seq<seq<T>>, n: nat, truth: bool, s: Attempt<T>)
    requires IsField(o) && ShapeOk(z) && MessageOk(o, z, ms) && During(o, z, inv, ms, n, truth, s)
    ensures match StepOf(o, z, inv, s)
      case Go(t) => During(o, z, inv, ms, n, truth, t)
      case End(r) => After(o, z, ms, n, truth, r)
  {
    TurnKeeps(o, z, inv, ms, s.d, s.p);
    MovedReady(o, z, inv, s.d, s.p);
    if Turn(o, z, inv, s.d, s.p).Stored? { EmptyFilled(s.d.filled, s.p.at); }
  }

  ghost predicate Outcome<T(!new)>(o: Ops<T>, z: Shape, inv: T -> T, ms: seq<seq<T>>, n: nat, truth: bool,
                                   f: Finish<Attempt<T>, Ending<T>>)
    requires IsField(o) && ShapeOk(z) && MessageOk(o, z, ms)
  {
    match f
    case Ended(r) => After(o, z, ms, n, truth, r)
    case OutOfTurns(s) => During(o, z, inv, ms, n, truth, s)
  }

  /** A call leaves the same messages possible, whatever it comes to: the number of empty rows falls by one if
      the packet is kept; a packet is implied or contradictory only with regard to the rows; and when the
      code gives up, what is left of the packet still holds the rest of what was known. */
  lemma PivotKeeps<T(!new)>(o: Ops<T>, z: Shape, inv: T -> T, step: Loop<T>, ms: seq<seq<T>>, d: Decoder<T>,
                            p: Packet<T>)
    requires Turns(o, z, inv, step) && TurnReady(o, z, inv, d, p) && MessageOk(o, z, ms)
    ensures Outcome(o, z, inv, ms, Empty(d.filled), Known(o, z, ms, d, p), Walk(step, Attempt(d, p), Limit(z)))
  {
    var n, truth := Empty(d.filled), Known(o, z, ms, d, p);
    var good := (s: Attempt<T>) => During(o, z, inv, ms, n, truth, s);
    var done := (r: Ending<T>) => After(o, z, ms, n, truth, r);
    forall s ensures Keeps(step, good, done, s) {
      assert IsTurn(o, z, inv, step, s);
      if During(o, z, inv, ms, n, truth, s) { StepKeeps(o, z, inv, ms, n, truth, s); }
    }
    WalkKeeps(step, good, done, Attempt(d, p), Limit(z));
  }

  // ----- runs

  /** The rows after some packets, and the number of packets lost on the way. */
  datatype Reception<!T(!new)> = Receiving(d: Decoder<T>, lost: nat) | Aborted

  ghost predicate PacketsOk<T(!new)>(o: Ops<T>, z: Shape, ps: seq<Packet<T>>) {
    forall k :: 0 <= k < |ps| ==> PacketOk(o, z, ps[k])
  }

  ghost function Received<T(!new)>(z: Shape, step: Loop<T>, before: Reception<T>, p: Packet<T>): Reception<T>
    requires z.gen > 0
  {
    if before.Aborted? then Aborted else
      match Walk(step, Attempt(before.d, p), Limit(z))
      case Ended(r) => if r.Contradiction? then Aborted else Receiving(r.d, before.lost)
      case OutOfTurns(s) => Receiving(s.d, before.lost + 1)
  }

  ghost function Receive<T(!new)>(z: Shape, step: Loop<T>, d: Decoder<T>, ps: seq<Packet<T>>): Reception<T>
    requires z.gen > 0
  {
    if ps == [] then Receiving(d, 0) else Received(z, step, Receive(z, step, d, ps[..|ps| - 1]), ps[|ps| - 1])
  }

  ghost predicate AllHold<T(!new)>(o: Ops<T>, z: Shape, ms: seq<seq<T>>, ps: seq<Packet<T>>)
    requires IsField(o) && ShapeOk(z) && MessageOk(o, z, ms) && PacketsOk(o, z, ps)
  {
    forall k :: 0 <= k < |ps| ==> PacketHolds(o, z, ms, ps[k])
  }

  lemma AllHoldLast<T(!new)>(o: Ops<T>, z: Shape, ms: seq<seq<T>>, ps: seq<Packet<T>>, n: nat)
    requires IsField(o) && ShapeOk(z) && MessageOk(o, z, ms) && PacketsOk(o, z, ps) && |ps| == n + 1
    ensures AllHold(o, z, ms, ps) <==> AllHold(o, z, ms, ps[..n]) && PacketHolds(o, z, ms, ps[n])
  {
    if AllHold(o, z, ms, ps[..n]) && PacketHolds(o, z, ms, ps[n]) {
      forall k | 0 <= k < |ps|
        ensures PacketHolds(o, z, ms, ps[k])
      {
        if k < n { assert PacketHolds(o, z, ms, ps[..n][k]); }
      }
    }
    if AllHold(o, z, ms, ps) {
      forall k | 0 <= k < n ensures PacketHolds(o, z, ms, ps[..n][k]) { assert PacketHolds(o, z, ms, ps[k]); }
    }
  }

  /** The rows are well formed; they say no more than was known, and no less if no packet was lost. */
  ghost predicate Faithful<T(!new)>(o: Ops<T>, z: Shape, ms: seq<seq<T>>, known: bool, r: Reception<T>)
    requires IsField(o) && ShapeOk(z) && MessageOk(o, z, ms)
  {
    && (r.Receiving? ==> DecoderOk(o, z, r.d)) && (known ==> r.Receiving? && Solves(o, z, ms, r.d))
    && (r.Receiving? && r.lost == 0 ==> (Solves(o, z, ms, r.d) <==> known))
  }

  lemma FaithfulNext<T(!new)>(o: Ops<T>, z: Shape, inv: T -> T, step: Loop<T>, ms: seq<seq<T>>, known: bool,
                              r: Reception<T>, p: Packet<T>)
    requires Turns(o, z, inv, step) && FieldOk(o, inv) && ShapeOk(z) && MessageOk(o, z, ms) && PacketOk(o, z, p)
    requires Faithful(o, z, ms, known, r)
    ensures Faithful(o, z, ms, known && PacketHolds(o, z, ms, p), Received(z, step, r, p))
  {
    if r.Receiving? {
      assert RowAtOk(o, z, r.d, p.at);
      PivotKeeps(o, z, inv, step, ms, r.d, p);
    }
  }

  /** Whatever is received of one message, the receiver never fails, and the message stays possible. If no
      packet was lost, the rows say exactly what the packets said. */
  lemma {:induction false} ReceiveKeeps<T(!new)>(o: Ops<T>, z: Shape, inv: T -> T, step: Loop<T>, ms: seq<seq<T>>,
                                                 d: Decoder<T>, ps: seq<Packet<T>>)
    requires Turns(o, z, inv, step) && FieldOk(o, inv) && ShapeOk(z) && DecoderOk(o, z, d) && PacketsOk(o, z, ps)
    requires MessageOk(o, z, ms)
    ensures Faithful(o, z, ms, Solves(o, z, ms, d) && AllHold(o, z, ms, ps), Receive(z, step, d, ps))
    decreases |ps|
  {
    if ps != [] {
      var n := |ps| - 1;
      ReceiveKeeps(o, z, inv, step, ms, d, ps[..n]);
      AllHoldLast(o, z, ms, ps, n);
      FaithfulNext(o, z, inv, step, ms, Solves(o, z, ms, d) && AllHold(o, z, ms, ps[..n]),
                   Receive(z, step, d, ps[..n]), ps[n]);
    }
  }

  // ----- no losses with one or two coefficients

  /** Packets on which a call gives up although a row is empty to the end. */
  ghost predicate Loses<T(!new)>(o: Ops<T>, z: Shape, step: Loop<T>, d: Decoder<T>, ps: seq<Packet<T>>)
    requires z.gen > 0
  {
    && DecoderOk(o, z, d) && PacketsOk(o, z, ps)
    && var r := Receive(z, step, d, ps);
       r.Receiving? && r.lost > 0 && Empty(r.d.filled) > 0
  }

  ghost predicate Sound<T(!new)>(o: Ops<T>, z: Shape, r: Reception<T>) {
    r.Receiving? ==> DecoderOk(o, z, r.d) && (Empty(r.d.filled) > 0 ==> r.lost == 0)
  }

  lemma SoundNext<T(!new)>(o: Ops<T>, z: Shape, inv: T -> T, step: Loop<T>, r: Reception<T>, p: Packet<T>)
    requires Turns(o, z, inv, step) && FieldOk(o, inv) && ShapeOk(z) && z.alpha <= 2 && PacketOk(o, z, p)
    requires Sound(o, z, r)
    ensures Sound(o, z, Received(z, step, r, p))
  {
    if r.Receiving? {
      assert RowAtOk(o, z, r.d, p.at);
      var m := Zeros(o, z.gen);
      var ms := seq(z.width, (k: nat) => m);
      forall k | 0 <= k < z.width ensures ColumnAtOk(o, z, ms, k) {}
      PivotKeeps(o, z, inv, step, ms, r.d, p);
      if Empty(r.d.filled) > 0 {
        EmptyAtMost(r.d.filled);
        NoGivingUp(o, z, inv, step, r.d, p, RowsUsed(r.d.filled, z.gen));
      }
    }
  }

  lemma {:induction false} EmptyAtMost(filled: seq<bool>)
    ensures Empty(filled) <= |filled|
    decreases |filled|
  {
    if filled != [] { EmptyAtMost(filled[1..]); }
  }

  lemma {:induction false} NothingLost<T(!new)>(o: Ops<T>, z: Shape, inv: T -> T, step: Loop<T>, d: Decoder<T>,
                                                ps: seq<Packet<T>>)
    requires Turns(o, z, inv, step) && FieldOk(o, inv) && ShapeOk(z) && z.alpha <= 2
    requires DecoderOk(o, z, d) && PacketsOk(o, z, ps)
    ensures Sound(o, z, Receive(z, step, d, ps))
    decreases |ps|
  {
    if ps != [] {
      NothingLost(o, z, inv, step, d, ps[..|ps| - 1]);
      SoundNext(o, z, inv, step, Receive(z, step, d, ps[..|ps| - 1]), ps[|ps| - 1]);
    }
  }
}
