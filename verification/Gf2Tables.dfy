/** fast_gf2.c, method 3 (8-bit and 16-bit): the log/exp tables of GF(2^n), and the builder's check of its
    generator. */
module Gf2Tables {
  import opened Gf2Poly
  import opened Gf2Words
  import opened Gf2Field
  import opened Fields
  import opened LogExp
  import opened Monoids

  /** The largest word: 255 for u8, 65535 for u16. */
  function Top(n: nat): nat {
    TwoTo(n) - 1
  }

  lemma {:induction false} TopAbove(n: nat)
    requires n >= 2
    ensures Top(n) >= 3
  {
    if n > 2 { TopAbove(n - 1); } else { assert TwoTo(2) == 2 * TwoTo(1) == 4 * TwoTo(0); }
  }

  /** Repeated multiplication by g, for any modulus. */
  ghost function PowWord(n: nat, poly: Poly, g: Poly, k: nat): (r: Poly)
    requires Below(poly, n) && n > 0
    ensures Below(r, n)
  {
    if k == 0 then ONE else ModMul(n, PowWord(n, poly, g, k - 1), g, poly)
  }

  lemma FirstPower(n: nat, poly: Poly, g: Poly)
    requires Below(poly, n) && n > 0 && Below(g, n)
    ensures PowWord(n, poly, g, 1) == g
  {
    ModMulUnits(n, g, poly);
    ModMulComm(n, g, ONE, poly);
    assert PowWord(n, poly, g, 0) == ONE;
  }

  ghost function PowWords(n: nat, poly: Poly, g: Poly): (r: seq<Poly>)
    requires Below(poly, n) && n > 0
    ensures |r| == Top(n) + 1 && forall j :: 0 <= j <= Top(n) ==> r[j] == PowWord(n, poly, g, j)
  {
    seq(Top(n) + 1, (j: nat) => PowWord(n, poly, g, j))
  }

  lemma NextPower(n: nat, poly: Poly, g: Poly, k: nat)
    requires Below(poly, n) && n > 0 && 1 <= k <= Top(n)
    ensures PowWords(n, poly, g)[k] == ModMul(n, PowWords(n, poly, g)[k - 1], g, poly)
  {
    assert PowWord(n, poly, g, k) == ModMul(n, PowWord(n, poly, g, k - 1), g, poly);
  }

  // ----- gf2_fast_u8_init_m3, gf2_fast_u16_init_m3

  method Cleared(top: nat) returns (exp: array<Poly>)
    ensures exp.Length == 4 * (top + 1) && NothingBelow(ZERO, top, exp[..], 0)
    ensures fresh(exp)
  {
    exp := new Poly[4 * (top + 1)];
    var i := -2 * (top + 1);
    while i != 0
      invariant -2 * (top + 1) <= i <= 0 && NothingBelow(ZERO, top, exp[..], i)
      modifies exp
      decreases -i
    {
      NothingStays(ZERO, top, exp[..], i, i, ZERO);
      ghost var next := exp[..][Place(top, i) := ZERO];
      exp[Place(top, i)] := ZERO;
      assert exp[..] == next;
      i := i + 1;
    }
  }

  /** The entries for 0, 1 and g. */
  method Begin(top: nat, g: Poly, ghost pw: seq<Poly>) returns (log: map<Poly, int>, exp: array<Poly>)
    requires top >= 2 && |pw| > 1 && pw[1] == g
    ensures Built(ZERO, ONE, pw, top, log, exp[..], 1)
    ensures fresh(exp)
  {
    exp := Cleared(top);
    BuiltFirst(ZERO, ONE, pw, top, exp[..], g);
    ghost var next := Begun(ZERO, ONE, top, exp[..], g);
    log := map[ZERO := -(top + 1)];
    exp[Place(top, 0)] := ONE;
    log := log[g := 1];
    exp[Place(top, 1)] := g;
    exp[Place(top, top)] := ONE;
    exp[Place(top, top + 1)] := g;
    exp[Place(top, 2 * top + 1)] := ZERO;
    assert exp[..] == next;
  }

  /** Store p, the i-th power. */
  method Store(top: nat, ghost pw: seq<Poly>, i: nat, p: Poly, log0: map<Poly, int>, exp: array<Poly>)
    returns (log: map<Poly, int>)
    requires 1 <= i <= top && i < |pw| && p == pw[i] && Built(ZERO, ONE, pw, top, log0, exp[..], i - 1)
    modifies exp
    ensures Built(ZERO, ONE, pw, top, log, exp[..], i)
  {
    BuiltNext(ZERO, ONE, pw, top, log0, exp[..], i);
    ghost var next := Twice(top, exp[..], i, p);
    exp[Place(top, i)] := p;
    exp[Place(top, i + top)] := p;
    assert exp[..] == next;
    log := log0[p := i];
  }

  ghost predicate Next(n: nat, poly: Poly, g: Poly, pw: seq<Poly>, k: nat)
    requires Below(poly, n)
  {
    1 <= k < |pw| && pw[k] == ModMul(n, pw[k - 1], g, poly)
  }

  ghost predicate ArePowers(n: nat, poly: Poly, g: Poly, top: nat, pw: seq<Poly>)
    requires Below(poly, n)
  {
    |pw| == top + 1 && forall k :: 2 <= k <= top ==> Next(n, poly, g, pw, k)
  }

  /** What the builder's result says about the powers, and what the tables then hold. */
  ghost predicate Outcome(r: int, pw: seq<Poly>, top: nat, log: map<Poly, int>, exp: seq<Poly>) {
    && (r == 0 <==> NoneBefore(ONE, pw, top)) && (r == 0 ==> Built(ZERO, ONE, pw, top, log, exp, top))
    && (r != 0 ==> 0 <= -r - 1 < |pw| && 1 <= -r - 1 < top && pw[-r - 1] == ONE && NoneBefore(ONE, pw, -r - 1))
  }

  /** The loop: the powers from the second on. */
  method Fill(n: nat, poly: Poly, g: Poly, top: nat, ghost pw: seq<Poly>, log0: map<Poly, int>, exp: array<Poly>)
    returns (r: int, log: map<Poly, int>)
    requires n >= 2 && Below(poly, n) && Below(g, n) && top >= 2 && ArePowers(n, poly, g, top, pw) && pw[1] == g
    requires Built(ZERO, ONE, pw, top, log0, exp[..], 1)
    modifies exp
    ensures Outcome(r, pw, top, log, exp[..])
  {
    log := log0;
    var p, i: int := g, 2;
    while true
      invariant 2 <= i <= top && p == pw[i - 1] && Below(p, n) && NoneBefore(ONE, pw, i - 1)
      invariant Built(ZERO, ONE, pw, top, log, exp[..], i - 1)
      modifies exp
      decreases top - i
    {
      if p == ONE {
        FirstReturn(ONE, pw, i - 1, top);
        return -i, log;
      }
      NoneBeforeNext(ONE, pw, i - 1);
      assert Next(n, poly, g, pw, i);
      p := LongModMultiply(n, p, g, poly);
      log := Store(top, pw, i, p, log, exp);
      i := i + 1;
      if i > top { break; }
    }
    r := 0;
  }

  lemma PowersFollow(n: nat, poly: Poly, g: Poly)
    requires n >= 2 && Below(poly, n) && Below(g, n)
    ensures Top(n) >= 3 && ArePowers(n, poly, g, Top(n), PowWords(n, poly, g)) && PowWords(n, poly, g)[1] == g
  {
    TopAbove(n);
    FirstPower(n, poly, g);
    forall k | 2 <= k <= Top(n) ensures Next(n, poly, g, PowWords(n, poly, g), k) { NextPower(n, poly, g, k); }
  }

  /** The builder accepts exactly the nonzero g none of whose powers below the last is 1, and reports the
      first power that is. */
  method InitM3(n: nat, poly: Poly, g: Poly) returns (r: int, log: map<Poly, int>, exp: array<Poly>)
    requires n >= 2 && Below(poly, n) && Below(g, n)
    ensures r <= 0 && (r == -1 <==> g == ZERO || poly == ZERO)
    ensures r != -1 ==> Outcome(r, PowWords(n, poly, g), Top(n), log, exp[..])
  {
    r, log := -1, map[];
    if g == ZERO || poly == ZERO {
      exp := new Poly[0];
      return;
    }
    ghost var pw := PowWords(n, poly, g);
    PowersFollow(n, poly, g);
    log, exp := Begin(Top(n), g, pw);
    r, log := Fill(n, poly, g, Top(n), pw, log, exp);
  }

  // ----- the generator check is sufficient for an irreducible modulus

  lemma {:induction false} PowWordIs(n: nat, poly: Poly, g: Poly, k: nat)
    requires FieldWords(n, poly) && Below(g, n) && IsField(WordOps(n, poly)) && g in WordOps(n, poly).carrier
    ensures PowWord(n, poly, g, k) == Pow(WordOps(n, poly), g, k)
  {
    if k > 0 { PowWordIs(n, poly, g, k - 1); }
  }

  /** Tables from an accepted generator are the tables of the field, and the generator has order 2^n - 1. */
  lemma Accepted(n: nat, poly: Poly, g: Poly, log: map<Poly, int>, exp: seq<Poly>)
    requires FieldWords(n, poly) && Below(g, n) && g != ZERO && Outcome(0, PowWords(n, poly, g), Top(n), log, exp)
    ensures Ready(WordOps(n, poly), g, Top(n), log, exp)
    ensures PowWord(n, poly, g, Top(n)) == ONE
  {
    var o := WordOps(n, poly);
    WordsAreField(n, poly);
    WordsAre(n);
    forall j | 1 <= j < Top(n) ensures NotOne(o, g, j) {
      assert Other(ONE, PowWords(n, poly, g), j);
      PowWordIs(n, poly, g, j);
    }
    forall j | 0 <= j <= Top(n)
      ensures PowWords(n, poly, g)[j] == PowerList(o, g, Top(n))[j]
    {
      PowWordIs(n, poly, g, j);
    }
    assert PowWords(n, poly, g) == PowerList(o, g, Top(n));
    GeneratorOrder(o, g);
    PowWordIs(n, poly, g, Top(n));
  }

  /** In one piece: build the tables, then multiply with them. */
  method MulM3(n: nat, poly: Poly, g: Poly, a: Poly, b: Poly) returns (r: int, product: Poly)
    requires FieldWords(n, poly) && Below(g, n) && Below(a, n) && Below(b, n)
    ensures r == 0 ==> product == ModMul(n, a, b, poly)
  {
    var log, exp;
    r, log, exp := InitM3(n, poly, g);
    product := ZERO;
    if r == 0 {
      Accepted(n, poly, g, log, exp[..]);
      WordsAre(n);
      product := LogExp.Mul(WordOps(n, poly), g, Top(n), log, exp, a, b);
    }
  }

  // ----- what the check is worth for other moduli

  lemma WordsAreMonoid(n: nat, poly: Poly)
    requires Below(poly, n) && n > 0
    ensures IsMonoid(Words(n), (a: Poly, b: Poly) => Times(n, poly, a, b), ONE, ZERO)
  {
    var mul := (a: Poly, b: Poly) => Times(n, poly, a, b);
    WordsAre(n);
    forall a, b | a in Words(n) && b in Words(n) ensures Closed(Words(n), mul, a, b) {}
    forall a, b, c | a in Words(n) && b in Words(n) && c in Words(n) ensures Associates(mul, a, b, c) {
      ModMulAssoc(n, a, b, c, poly);
    }
    forall a | a in Words(n) ensures Units(mul, ONE, ZERO, a) {
      ModMulUnits(n, a, poly);
      ModMulComm(n, a, ZERO, poly);
    }
  }

  ghost predicate IsTimes(n: nat, poly: Poly, mul: (Poly, Poly) -> Poly, a: Poly, b: Poly) {
    mul(a, b) == Times(n, poly, a, b)
  }

  lemma {:induction false} PowWordIterates(n: nat, poly: Poly, g: Poly, k: nat, mul: (Poly, Poly) -> Poly)
    requires Below(poly, n) && n > 0 && IsMonoid(Words(n), mul, ONE, ZERO) && g in Words(n)
    requires forall a, b :: IsTimes(n, poly, mul, a, b)
    ensures PowWord(n, poly, g, k) == Iterate(Words(n), mul, ONE, ZERO, g, k)
  {
    if k > 0 {
      PowWordIterates(n, poly, g, k - 1, mul);
      assert IsTimes(n, poly, mul, PowWord(n, poly, g, k - 1), g);
    }
  }

  /** The product of two powers of a unit is not zero. */
  lemma PowersDoNotMeet(n: nat, poly: Poly, g: Poly, m: nat, i: nat, j: nat)
    requires Below(poly, n) && n > 0 && Below(g, n) && m >= 1 && PowWord(n, poly, g, m) == ONE
    ensures ModMul(n, PowWord(n, poly, g, i), PowWord(n, poly, g, j), poly) != ZERO
  {
    var mul := (a: Poly, b: Poly) => Times(n, poly, a, b);
    WordsAreMonoid(n, poly);
    WordsAre(n);
    PowWordIterates(n, poly, g, m, mul);
    PowWordIterates(n, poly, g, i, mul);
    PowWordIterates(n, poly, g, j, mul);
    IterateAdd(Words(n), mul, ONE, ZERO, g, i, j);
    IterateNotZero(Words(n), mul, ONE, ZERO, g, m, i + j);
  }

  lemma {:induction false} LoggedArePowers(pw: seq<Poly>, top: nat, k: nat, a: Poly) returns (j: nat)
    requires k < |pw| && a in Logs(ZERO, pw, top, k) && a != ZERO
    ensures 1 <= j <= k && pw[j] == a
  {
    if k > 0 && a == pw[k] { j := k; } else { j := LoggedArePowers(pw, top, k - 1, a); }
  }

  ghost predicate HasLog(log: map<Poly, int>, n: nat, a: Poly) {
    Below(a, n) && a != ZERO ==> a in log
  }

  ghost predicate AllLogged(log: map<Poly, int>, n: nat) {
    forall a :: HasLog(log, n, a)
  }

  /** Two factors of the modulus are nonzero words with product zero. */
  lemma FactorsMeet(n: nat, poly: Poly, q: Poly, d: Poly)
    requires Below(poly, n) && n > 0 && Quotient(q, d, Full(n, poly)) && d != ONE && d != Full(n, poly)
    ensures Below(q, n) && Below(d, n) && q != ZERO && d != ZERO && ModMul(n, q, d, poly) == ZERO
  {
    var p := Full(n, poly);
    FullSize(n, poly);
    MulSize(q, d);
    MulUnits(d);
    assert q != ONE;
    SizeOfUnit(q);
    SizeOfUnit(d);
    SizeBelow(q, n);
    SizeBelow(d, n);
    XorLaws(p, p, p);
    DividesTrivial(p);
    ModMulIs(n, q, d, poly, ZERO);
  }

  lemma SizeOfUnit(a: Poly)
    ensures Size(a) == 1 <==> a == ONE
  {
    SizeIs(ONE, 1);
    if Size(a) == 1 { assert forall e :: e in a <==> e == 0; }
  }

  /** If all nonzero words are powers of g, no two of them have product zero. */
  lemma LoggedDoNotMeet(n: nat, poly: Poly, g: Poly, pw: seq<Poly>, log: map<Poly, int>, q: Poly, d: Poly)
    requires n > 0 && Below(poly, n) && Below(g, n) && pw == PowWords(n, poly, g)
    requires log == Logs(ZERO, pw, Top(n), Top(n))
    requires AllLogged(log, n) && Below(q, n) && Below(d, n) && q != ZERO && d != ZERO
    ensures ModMul(n, q, d, poly) != ZERO
  {
    assert HasLog(log, n, ONE) && HasLog(log, n, q) && HasLog(log, n, d);
    var m := LoggedArePowers(pw, Top(n), Top(n), ONE);
    var i := LoggedArePowers(pw, Top(n), Top(n), q);
    var j := LoggedArePowers(pw, Top(n), Top(n), d);
    PowersDoNotMeet(n, poly, g, m, i, j);
  }

  lemma LoggedIsIrreducible(n: nat, poly: Poly, g: Poly, log: map<Poly, int>)
    requires n >= 2 && Below(poly, n) && Below(g, n) && AllLogged(log, n)
    requires log == Logs(ZERO, PowWords(n, poly, g), Top(n), Top(n))
    ensures Irreducible(Full(n, poly))
  {
    var p := Full(n, poly);
    FullSize(n, poly);
    forall d ensures OnlyTrivial(d, p) {
      if Divides(d, p) && d != ONE && d != p {
        var q :| Quotient(q, d, p);
        FactorsMeet(n, poly, q, d);
        LoggedDoNotMeet(n, poly, g, PowWords(n, poly, g), log, q, d);
      }
    }
  }

  /** The builder's check decides nothing about the modulus: with an accepted generator, all nonzero words
      have logarithms exactly if the modulus is irreducible. */
  lemma LoggedIff(n: nat, poly: Poly, g: Poly, log: map<Poly, int>, exp: seq<Poly>)
    requires n >= 2 && Below(poly, n) && Below(g, n) && g != ZERO
    requires Outcome(0, PowWords(n, poly, g), Top(n), log, exp)
    ensures AllLogged(log, n) <==> Irreducible(Full(n, poly))
  {
    if AllLogged(log, n) { LoggedIsIrreducible(n, poly, g, log); }
    if Irreducible(Full(n, poly)) {
      Accepted(n, poly, g, log, exp);
      WordsAre(n);
      forall a ensures HasLog(log, n, a) {
        if Below(a, n) && a != ZERO { LogOf(WordOps(n, poly), g, Top(n), log, exp, a); }
      }
    }
  }

  lemma {:induction false} StuckPowers(n: nat, poly: Poly, g: Poly, k: nat)
    requires Below(poly, n) && n > 0 && Below(g, n) && ModMul(n, g, g, poly) == g && k >= 1
    ensures PowWord(n, poly, g, k) == g
  {
    if k == 1 { FirstPower(n, poly, g); } else { StuckPowers(n, poly, g, k - 1); }
  }

  /** x^(n - 1) is its own square modulo x^n + x. */
  lemma StuckSquare(n: nat)
    requires n >= 2
    ensures ModMul(n, {n - 1}, {n - 1}, {1}) == {n - 1}
  {
    var g: Poly, square: Poly, p := {n - 1}, {2 * n - 2}, Full(n, {1});
    MulTerm(n - 1, g);
    ShiftTerm(n - 1, n - 1);
    CongMultiple(g, n - 2, p);
    ShiftPair(1, n, n - 2);
    assert p == {1, n};
    assert Shift(p, n - 2) == {n - 1, 2 * n - 2};
    assert Xor(g, Shift(p, n - 2)) == square;
    CongSym(square, g, p);
    ModMulIs(n, g, g, {1}, g);
  }

  lemma ShiftTerm(j: nat, k: nat)
    ensures Shift({j}, k) == {j + k}
  {
  }

  lemma ShiftPair(i: nat, j: nat, k: nat)
    ensures Shift({i, j}, k) == {i + k, j + k}
  {
    forall e: nat ensures e in Shift({i, j}, k) <==> e in {i + k, j + k} { ShiftMember({i, j}, k, e); }
  }

  /** For every width, the builder accepts the generator x^(n - 1) for the reducible modulus x^n + x. */
  lemma CheckNeedsIrreducible(n: nat)
    requires n >= 2
    ensures NoneBefore(ONE, PowWords(n, {1}, {n - 1}), Top(n)) && !Irreducible(Full(n, {1}))
  {
    var g: Poly, pw := {n - 1}, PowWords(n, {1}, {n - 1});
    StuckSquare(n);
    forall j | 1 <= j < Top(n) ensures Other(ONE, pw, j) {
      StuckPowers(n, {1}, g, j);
      assert 0 !in pw[j];
    }
    var p := Full(n, {1});
    FullSize(n, {1});
    MulTerm(1, {0, n - 1});
    MulComm({1}, {0, n - 1});
    ShiftPair(0, n - 1, 1);
    assert Quotient({0, n - 1}, {1}, p);
    assert !OnlyTrivial({1}, p);
  }
}
