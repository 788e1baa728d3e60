/** perpetual.c: the pivot on the decoder's buffers. Rows of alpha coefficients and symbols of width elements
    lie one after the other in two arrays; the packet is reduced in the caller's buffers. */
module PerpetualDecoder {
  import opened Fields
  import opened LogExp
  import opened Vectors
  import opened VecOps
  import opened Perpetual
  import opened PerpetualRuns
  import opened Walks

  // ----- rows of a flat buffer

  /** i * w, by addition. */
  function Base(i: nat, w: nat): nat {
    if i == 0 then 0 else Base(i - 1, w) + w
  }

  lemma {:induction false} BaseIs(i: nat, w: nat)
    ensures Base(i, w) == i * w
  {
    if i > 0 {
      BaseIs(i - 1, w);
      assert i * w == (i - 1) * w + w;
    }
  }

  lemma {:induction false} RowBounds(i: nat, n: nat, w: nat)
    requires i < n
    ensures Base(i, w) + w <= Base(n, w)
    decreases n
  {
    if i < n - 1 { RowBounds(i, n - 1, w); }
  }

  function RowAt<T>(a: seq<T>, i: nat, n: nat, w: nat): (r: seq<T>)
    requires i < n && |a| == Base(n, w)
    ensures |r| == w
  {
    RowBounds(i, n, w);
    a[Base(i, w)..Base(i, w) + w]
  }

  function Rows<T>(a: seq<T>, n: nat, w: nat): (r: seq<seq<T>>)
    requires |a| == Base(n, w)
    ensures |r| == n && forall i :: 0 <= i < n ==> r[i] == RowAt(a, i, n, w)
  {
    seq(n, (i: nat) requires i < n => RowAt(a, i, n, w))
  }

  lemma RowPlace<T>(a: seq<T>, i: nat, n: nat, w: nat)
    requires i < n && |a| == Base(n, w)
    ensures Base(i, w) + w <= |a| && Rows(a, n, w)[i] == a[Base(i, w)..Base(i, w) + w]
  {
    RowBounds(i, n, w);
  }

  lemma RowSpliced<T>(a: seq<T>, n: nat, w: nat, i: nat, x: seq<T>, j: nat)
    requires |a| == Base(n, w) && i < n && j < n && |x| == w && Base(i, w) + w <= |a|
    ensures RowAt(Splice(a, Base(i, w), x), j, n, w) == if j == i then x else RowAt(a, j, n, w)
  {
    RowBounds(j, n, w);
    if j < i { RowBounds(j, i, w); }
    if j > i { RowBounds(i, j, w); }
  }

  /** Writing over one row leaves the others. */
  lemma RowsSpliced<T>(a: seq<T>, n: nat, w: nat, i: nat, x: seq<T>)
    requires |a| == Base(n, w) && i < n && |x| == w
    ensures Base(i, w) + w <= |a| && Rows(Splice(a, Base(i, w), x), n, w) == Rows(a, n, w)[i := x]
  {
    RowBounds(i, n, w);
    forall j | 0 <= j < n
      ensures Rows(Splice(a, Base(i, w), x), n, w)[j] == Rows(a, n, w)[i := x][j]
    {
      RowSpliced(a, n, w, i, x, j);
    }
  }

  lemma AheadIs(i: nat, n: nat, gen: nat)
    requires i < gen && n <= gen
    ensures Ahead(i, n, gen) == (i + n) % gen
  {
    if i + n < gen { RemIs(i + n, gen, 0, i + n); } else { RemIs(i + n, gen, 1, i + n - gen); }
  }

  // ----- operations on one row of a buffer

  method StoreRow<T>(a: array<T>, n: nat, w: nat, i: nat, x: array<T>)
    requires a != x && a.Length == Base(n, w) && i < n && x.Length == w
    modifies a
    ensures Rows(a[..], n, w) == old(Rows(a[..], n, w))[i := x[..]]
  {
    RowsSpliced(a[..], n, w, i, x[..]);
    CopyRow(a, Base(i, w), x);
  }

  method TrailingInRow<T(!new, ==)>(o: Ops<T>, a: array<T>, n: nat, w: nat, i: nat) returns (z: nat)
    requires a.Length == Base(n, w) && i < n
    ensures z == Trailing(o, Rows(a[..], n, w)[i])
  {
    RowPlace(a[..], i, n, w);
    ghost var row := Rows(a[..], n, w)[i];
    z := CountTrailing(o, a, Base(i, w), Base(i, w) + w, row);
  }

  method AddRowTo<T(!new, ==)>(o: Ops<T>, code: array<T>, coding: array<T>, n: nat, i: nat, swap: bool)
    returns (cancelled: bool)
    requires code != coding && coding.Length == Base(n, code.Length) && i < n
    modifies code, coding
    ensures code[..] == Plus(o, old(code[..]), old(Rows(coding[..], n, code.Length)[i]))
    ensures Rows(coding[..], n, code.Length)
         == if swap then old(Rows(coding[..], n, code.Length))[i := old(code[..])]
           else old(Rows(coding[..], n, code.Length))
    ensures cancelled <==> AllZero(o, code[..])
  {
    var w := code.Length;
    RowsSpliced(coding[..], n, w, i, code[..]);
    assert coding[..][Base(i, w)..Base(i, w) + w] == coding[Base(i, w)..Base(i, w) + w];
    cancelled := AddRow(o, code, coding, Base(i, w), swap);
  }

  method CompareRow<T(!new, ==)>(o: Ops<T>, sym: array<T>, symbol: array<T>, n: nat, i: nat, swap: bool)
    returns (zero: bool)
    requires sym != symbol && symbol.Length == Base(n, sym.Length) && i < n
    modifies symbol
    ensures zero <==> AllZero(o, Plus(o, sym[..], old(Rows(symbol[..], n, sym.Length)[i])))
    ensures Rows(symbol[..], n, sym.Length)
         == if swap then old(Rows(symbol[..], n, sym.Length))[i := sym[..]] else old(Rows(symbol[..], n, sym.Length))
  {
    var w := sym.Length;
    RowsSpliced(symbol[..], n, w, i, sym[..]);
    assert symbol[..][Base(i, w)..Base(i, w) + w] == symbol[Base(i, w)..Base(i, w) + w];
    zero := CompareSymbol(o, sym, symbol, Base(i, w), swap);
  }

  method FamRow<T(!new)>(o: Ops<T>, sym: array<T>, symbol: array<T>, n: nat, i: nat, val: T, swap: bool)
    requires sym != symbol && symbol.Length == Base(n, sym.Length) && i < n
    modifies sym, symbol
    ensures sym[..] == Scale(o, val, Plus(o, old(sym[..]), old(Rows(symbol[..], n, sym.Length)[i])))
    ensures Rows(symbol[..], n, sym.Length)
         == if swap then old(Rows(symbol[..], n, sym.Length))[i := old(sym[..])]
           else old(Rows(symbol[..], n, sym.Length))
  {
    var w := sym.Length;
    RowsSpliced(symbol[..], n, w, i, sym[..]);
    assert symbol[..][Base(i, w)..Base(i, w) + w] == symbol[Base(i, w)..Base(i, w) + w];
    FamWithSwap(o, sym, symbol, Base(i, w), val, swap);
  }

  datatype Result = Returned(remain: int) | Exited | FellOff

  class PerpDecoder<T(!new, ==)> {
    const o: Ops<T>
    const inv: T -> T
    const gen: nat
    const alpha: nat
    const width: nat
    const filled: array<bool>
    const coding: array<T>
    const symbol: array<T>
    var remain: int

    ghost predicate Valid()
      reads this, filled, coding, symbol
    {
      && 0 < alpha < gen && filled.Length == gen && coding.Length == Base(gen, alpha)
      && symbol.Length == Base(gen, width)
      && coding != symbol && {filled as object} !! {coding as object, symbol as object} && remain == Empty(filled[..])
    }

    ghost function Size(): Shape {
      Shape(gen, alpha, width)
    }

    ghost function Content(): Decoder<T>
      reads this, filled, coding, symbol
      requires Valid()
    {
      Decoder(filled[..], Rows(coding[..], gen, alpha), Rows(symbol[..], gen, width))
    }

    constructor (o: Ops<T>, inv: T -> T, gen: nat, alpha: nat, width: nat)
      requires 0 < alpha < gen
      ensures Valid() && this.o == o && this.inv == inv && Size() == Shape(gen, alpha, width)
      ensures fresh(filled) && fresh(coding) && fresh(symbol)
      ensures forall i :: 0 <= i < gen ==> !filled[i]
    {
      this.o, this.inv, this.gen, this.alpha, this.width := o, inv, gen, alpha, width;
      filled := new bool[gen](_ => false);
      coding := new T[Base(gen, alpha)](_ => o.zero);
      symbol := new T[Base(gen, width)](_ => o.zero);
      remain := gen;
      new;
      AllEmpty(filled[..]);
    }

    /** The caller's buffers hold a packet. */
    ghost predicate Holding(code: array<T>, sym: array<T>)
      reads this
    {
      && code.Length == alpha && sym.Length == width && code != sym
      && {code as object, sym as object} !! {filled as object, coding as object, symbol as object}
    }

    /** memcpy both parts of the packet into the empty row. */
    method Store(i: nat, code: array<T>, sym: array<T>)
      requires Valid() && Holding(code, sym) && i < gen && !filled[i]
      modifies this`remain, filled, coding, symbol
      ensures Valid() && remain == old(remain) - 1
      ensures var d := old(Content());
        Content() == Decoder(d.filled[i := true], d.coding[i := code[..]], d.symbol[i := sym[..]])
    {
      EmptyFilled(filled[..], i);
      ghost var now := filled[..][i := true];
      filled[i] := true;
      assert filled[..] == now;
      StoreRow(coding, gen, alpha, i, code);
      StoreRow(symbol, gen, width, i, sym);
      remain := remain - 1;
    }

    /** Does the new packet have to take the place of row i? */
    method NeedSwap(i: nat, code: array<T>) returns (swap: bool)
      requires Valid() && code.Length == alpha && i < gen
      ensures swap <==> Trailing(o, code[..]) > Trailing(o, Content().coding[i])
    {
      var ctzCode := CountTrailing(o, code, 0, alpha, code[..]);
      var ctzRow := TrailingInRow(o, coding, gen, alpha, i);
      swap := ctzCode > ctzRow;
    }

    /** Subtract row i from the code. */
    method Cancel(i: nat, code: array<T>, sym: array<T>, swap: bool) returns (cancelled: bool)
      requires Valid() && Holding(code, sym) && i < gen
      modifies coding, code
      ensures Valid() && code[..] == Plus(o, old(code[..]), old(Content()).coding[i])
      ensures var d := old(Content());
        Content() == d.(coding := if swap then d.coding[i := old(code[..])] else d.coding)
      ensures cancelled <==> AllZero(o, code[..])
    {
      cancelled := AddRowTo(o, code, coding, gen, i, swap);
    }

    /** With nothing left of the code: is anything left of the symbol? */
    method Compare(i: nat, code: array<T>, sym: array<T>, swap: bool) returns (zero: bool)
      requires Valid() && Holding(code, sym) && i < gen
      modifies symbol
      ensures Valid() && (zero <==> AllZero(o, Plus(o, sym[..], old(Content()).symbol[i])))
      ensures var d := old(Content());
        Content() == d.(symbol := if swap then d.symbol[i := sym[..]] else d.symbol)
    {
      zero := CompareRow(o, sym, symbol, gen, i, swap);
    }

    /** Make the first element that is left the implicit one. */
    method Normalise(i: nat, code: array<T>, sym: array<T>, swap: bool) returns (next: nat)
      requires Valid() && Holding(code, sym) && i < gen && Leading(o, code[..]) < alpha
      modifies symbol, code, sym
      ensures Valid()
      ensures var d := old(Content());
        Content() == d.(symbol := if swap then d.symbol[i := old(sym[..])] else d.symbol)
      ensures Packet(next, code[..], sym[..])
           == Reduced(o, Size(), inv, i, old(code[..]), Plus(o, old(sym[..]), old(Content()).symbol[i]))
    {
      ghost var was := code[..];
      var clz := CountLeading(o, code);
      var temp := inv(code[clz]);
      ghost var q := Reduced(o, Size(), inv, i, was, Plus(o, sym[..], Content().symbol[i]));
      VecMul(o, code, clz + 1, temp);
      assert code[clz + 1..] == Scale(o, temp, was[clz + 1..]);
      FamRow(o, sym, symbol, gen, i, temp, swap);
      assert sym[..] == q.sym;
      ShiftLeft(o, code, clz + 1);
      assert code[..] == q.code;
      AheadIs(i, clz + 1, gen);
      next := (i + clz + 1) % gen;
    }

    /** The rows once the packet's symbol has taken the place of row i's, or not. */
    ghost function Settled(i: nat, swap: bool, sym: seq<T>): Decoder<T>
      requires Valid() && i < gen
      reads this, filled, coding, symbol
    {
      Content().(symbol := if swap then Content().symbol[i := sym] else Content().symbol)
    }

    method Drop(i: nat, code: array<T>, sym: array<T>, swap: bool, ghost m: Move<T>) returns (zero: bool)
      requires Valid() && Holding(code, sym) && i < gen
      requires m == if AllZero(o, Plus(o, sym[..], Content().symbol[i])) then Redundant(Settled(i, swap, sym[..]))
        else Failed
      modifies symbol
      ensures Valid() && m == if zero then Redundant(Content()) else Failed
    {
      zero := Compare(i, code, sym, swap);
    }

    method Advance(i: nat, code: array<T>, sym: array<T>, swap: bool, ghost m: Move<T>) returns (next: nat)
      requires Valid() && Holding(code, sym) && i < gen && Leading(o, code[..]) < alpha
      requires var sum := Plus(o, sym[..], Content().symbol[i]);
        m == Moved(Settled(i, swap, sym[..]), Reduced(o, Size(), inv, i, code[..], sum))
      modifies symbol, code, sym
      ensures Valid() && next < gen && m == Moved(Content(), Packet(next, code[..], sym[..]))
    {
      next := Normalise(i, code, sym, swap);
    }

    /** The turn at a row that is filled. */
    method Substitute(i: nat, code: array<T>, sym: array<T>)
      returns (cancelled: bool, zero: bool, next: nat, ghost m: Move<T>)
      requires Valid() && Holding(code, sym) && i < gen && filled[i]
      modifies coding, symbol, code, sym
      ensures Valid() && m == Turn(o, Size(), inv, old(Content()), Packet(i, old(code[..]), old(sym[..])))
      ensures m == if !cancelled then Moved(Content(), Packet(next, code[..], sym[..]))
        else if zero then Redundant(Content()) else Failed
      ensures next < gen
    {
      ghost var d, p := Content(), Packet(i, code[..], sym[..]);
      m := Turn(o, Size(), inv, d, p);
      zero, next := false, i;
      var swap := NeedSwap(i, code);
      cancelled := Cancel(i, code, sym, swap);
      TurnIs(o, Size(), inv, d, p, swap, code[..], Plus(o, p.sym, d.symbol[i]), Settled(i, swap, sym[..]));
      if cancelled {
        zero := Drop(i, code, sym, swap, m);
      } else {
        next := Advance(i, code, sym, swap, m);
      }
    }

    /** One turn of the loop. */
    method OneTurn(i: nat, code: array<T>, sym: array<T>) returns (done: bool, r: Result, next: nat, ghost m: Move<T>)
      requires Valid() && Holding(code, sym) && i < gen
      modifies this`remain, filled, coding, symbol, code, sym
      ensures Valid() && m == Turn(o, Size(), inv, old(Content()), Packet(i, old(code[..]), old(sym[..])))
      ensures !done ==> next < gen && m == Moved(Content(), Packet(next, code[..], sym[..]))
      ensures done && m.Failed? ==> r == Exited
      ensures done && !m.Failed? ==> (m == Stored(Content()) || m == Redundant(Content())) && r == Returned(remain)
    {
      done, r, next := true, Exited, i;
      if !filled[i] {
        m := Turn(o, Size(), inv, Content(), Packet(i, code[..], sym[..]));
        Store(i, code, sym);
        r := Returned(remain);
        return;
      }
      var cancelled, zero;
      cancelled, zero, next, m := Substitute(i, code, sym);
      done := cancelled;
      if zero { r := Returned(remain); }
    }

    ghost function Now(i: nat, code: array<T>, sym: array<T>): Attempt<T>
      reads this, filled, coding, symbol, code, sym
      requires Valid()
    {
      Attempt(Content(), Packet(i, code[..], sym[..]))
    }

    ghost predicate IsReady(ready: Attempt<T> -> bool, s: Attempt<T>) {
      ready(s) <==> TurnReady(o, Size(), inv, s.d, s.p)
    }

    ghost predicate Decides(ready: Attempt<T> -> bool) {
      forall s :: IsReady(ready, s)
    }

    /** One turn, as a step of the walk. */
    method StepOnce(ghost step: Loop<T>, ghost ready: Attempt<T> -> bool, i: nat, code: array<T>, sym: array<T>)
      returns (done: bool, r: Result, next: nat, ghost e: Ending<T>)
      requires Valid() && Holding(code, sym) && Turns(o, Size(), inv, step) && Decides(ready)
      requires i < gen && ready(Now(i, code, sym))
      modifies this`remain, filled, coding, symbol, code, sym
      ensures Valid()
      ensures !done ==>
        next < gen && step(old(Now(i, code, sym))) == Go(Now(next, code, sym)) && ready(Now(next, code, sym))
      ensures done ==> step(old(Now(i, code, sym))) == End(e) && Reports(e, r)
    {
      ghost var s := Now(i, code, sym);
      assert IsTurn(o, Size(), inv, step, s) && IsReady(ready, s);
      MovedReady(o, Size(), inv, s.d, s.p);
      ghost var m;
      done, r, next, m := OneTurn(i, code, sym);
      e := match m case Stored(d) => Kept(d) case Redundant(d) => Implied(d) case _ => Contradiction;
      if !done { assert IsReady(ready, Now(next, code, sym)); }
    }

    /** The result of a call that ended by itself. */
    ghost predicate Reports(e: Ending<T>, r: Result)
      reads this, filled, coding, symbol
      requires Valid()
    {
      match e
      case Kept(d) => r == Returned(remain) && Content() == d
      case Implied(d) => r == Returned(remain) && Content() == d
      case Contradiction => r == Exited
    }

    /** Reduce a packet by the rows, and store what is left. Falls off the end, with part of the packet still
        in the buffers, after 2 * gen - 1 turns. */
    method Pivot(ghost step: Loop<T>, ghost ready: Attempt<T> -> bool, i: nat, code: array<T>, sym: array<T>)
      returns (r: Result, ghost at: nat)
      requires Valid() && Holding(code, sym) && Turns(o, Size(), inv, step) && Decides(ready)
      requires i < gen ==> ready(Now(i, code, sym))
      modifies this`remain, filled, coding, symbol, code, sym
      ensures Valid()
      ensures i >= gen ==> r == Exited && Content() == old(Content())
      ensures i < gen ==>
                match Walk(step, old(Now(i, code, sym)), Limit(Size()))
                case Ended(e) => Reports(e, r)
                case OutOfTurns(s) => r == FellOff && s == Now(at, code, sym)
    {
      r, at := Exited, i;
      if i >= gen { return; }
      ghost var start := Now(i, code, sym);
      var row: nat, tries: nat := i, 1;
      while tries < gen * 2
        invariant 1 <= tries <= gen * 2 && row < gen && Valid() && ready(Now(row, code, sym))
        invariant Walk(step, start, Limit(Size())) == Walk(step, Now(row, code, sym), gen * 2 - tries)
        modifies this`remain, filled, coding, symbol, code, sym
      {
        ghost var s, left := Now(row, code, sym), gen * 2 - tries;
        var done;
        ghost var e;
        done, r, row, e := StepOnce(step, ready, row, code, sym);
        if done {
          WalkEnd(step, s, e, left);
          return;
        }
        WalkGo(step, s, Now(row, code, sym), left);
        tries := tries + 1;
      }
      r, at := FellOff, row;
    }
  }

  lemma {:induction false} AllEmpty(filled: seq<bool>)
    requires forall i :: 0 <= i < |filled| ==> !filled[i]
    ensures Empty(filled) == |filled|
    decreases |filled|
  {
    if filled != [] { AllEmpty(filled[1..]); }
  }
}
