/** Log/exp tables of a finite field: a logarithm for zero that is negative enough for every sum with it to
    be negative, and a table of powers that reaches far enough on both sides for no index to need reduction.
    A table entry with index i is stored at i + 2 * (top + 1), where top is the number of nonzero elements. */
module LogExp {
  import opened Fields

  function Place(top: nat, i: int): int {
    i + 2 * (top + 1)
  }

  predicate Holds<T(==)>(top: nat, exp: seq<T>, i: int, p: T) {
    0 <= Place(top, i) < |exp| && exp[Place(top, i)] == p
  }

  predicate NothingBelow<T(==)>(zero: T, top: nat, exp: seq<T>, k: int) {
    forall i :: -2 * (top + 1) <= i < k ==> Holds(top, exp, i, zero)
  }

  predicate Ends<T(==)>(zero: T, one: T, top: nat, exp: seq<T>) {
    |exp| == 4 * (top + 1) && Holds(top, exp, 0, one) && Holds(top, exp, 2 * top + 1, zero)
  }

  /** The j-th power is stored under j and again one period later. */
  predicate Stored<T(==)>(pw: seq<T>, top: nat, exp: seq<T>, j: nat) {
    j < |pw| && Holds(top, exp, j, pw[j]) && Holds(top, exp, j + top, pw[j])
  }

  predicate AllStored<T(==)>(pw: seq<T>, top: nat, exp: seq<T>, k: nat) {
    forall j :: 1 <= j <= k ==> Stored(pw, top, exp, j)
  }

  /** The logarithms once the k-th power has been stored. */
  function Logs<T>(zero: T, pw: seq<T>, top: nat, k: nat): map<T, int>
    requires k < |pw|
  {
    if k == 0 then map[zero := -(top + 1)] else Logs(zero, pw, top, k - 1)[pw[k] := k]
  }

  /** Both tables, as they are once the k-th power has been stored. */
  predicate Built<T(==)>(zero: T, one: T, pw: seq<T>, top: nat, log: map<T, int>, exp: seq<T>, k: nat) {
    && k < |pw| && Ends(zero, one, top, exp) && NothingBelow(zero, top, exp, 0)
    && AllStored(pw, top, exp, k) && log == Logs(zero, pw, top, k)
  }

  predicate Other<T(==)>(one: T, pw: seq<T>, j: nat) {
    j < |pw| && pw[j] != one
  }

  predicate NoneBefore<T(==)>(one: T, pw: seq<T>, k: nat) {
    forall j :: 1 <= j < k ==> Other(one, pw, j)
  }

  // ----- what the builder's steps keep

  lemma NothingStays<T>(zero: T, top: nat, exp: seq<T>, k: int, i: int, p: T)
    requires NothingBelow(zero, top, exp, k) && k <= i && 0 <= Place(top, i) < |exp|
    ensures NothingBelow(zero, top, exp[Place(top, i) := p], k)
  {
    var next := exp[Place(top, i) := p];
    forall j | -2 * (top + 1) <= j < k ensures Holds(top, next, j, zero) { assert Holds(top, exp, j, zero); }
  }

  lemma StoredStays<T>(pw: seq<T>, top: nat, exp: seq<T>, j: nat, i: int, p: T)
    requires Stored(pw, top, exp, j) && 0 <= Place(top, i) < |exp| && i != j && i != j + top
    ensures Stored(pw, top, exp[Place(top, i) := p], j)
  {
  }

  /** The table after p has been stored under k and one period later. */
  function Twice<T>(top: nat, exp: seq<T>, k: nat, p: T): seq<T>
    requires |exp| == 4 * (top + 1) && k <= top
  {
    exp[Place(top, k) := p][Place(top, k + top) := p]
  }

  lemma TwiceEnds<T>(zero: T, one: T, top: nat, exp: seq<T>, k: nat, p: T)
    requires Ends(zero, one, top, exp) && NothingBelow(zero, top, exp, 0) && 1 <= k <= top
    ensures Ends(zero, one, top, Twice(top, exp, k, p)) && NothingBelow(zero, top, Twice(top, exp, k, p), 0)
    ensures Holds(top, Twice(top, exp, k, p), k, p) && Holds(top, Twice(top, exp, k, p), k + top, p)
  {
    NothingStays(zero, top, exp, 0, k, p);
    NothingStays(zero, top, exp[Place(top, k) := p], 0, k + top, p);
  }

  lemma StoredTwice<T>(pw: seq<T>, top: nat, exp: seq<T>, j: nat, k: nat, p: T)
    requires Stored(pw, top, exp, j) && 1 <= j < k <= top && |exp| == 4 * (top + 1)
    ensures Stored(pw, top, Twice(top, exp, k, p), j)
  {
    StoredStays(pw, top, exp, j, k, p);
    StoredStays(pw, top, exp[Place(top, k) := p], j, k + top, p);
  }

  lemma AllStoredNext<T>(pw: seq<T>, top: nat, exp: seq<T>, k: nat)
    requires 1 <= k <= top && |exp| == 4 * (top + 1) && k < |pw| && AllStored(pw, top, exp, k - 1)
    ensures AllStored(pw, top, Twice(top, exp, k, pw[k]), k)
  {
    var next := Twice(top, exp, k, pw[k]);
    assert Stored(pw, top, next, k);
    forall j | 1 <= j <= k ensures Stored(pw, top, next, j) {
      if j < k {
        assert Stored(pw, top, exp, j);
        StoredTwice(pw, top, exp, j, k, pw[k]);
      }
    }
  }

  lemma BuiltNext<T>(zero: T, one: T, pw: seq<T>, top: nat, log: map<T, int>, exp: seq<T>, k: nat)
    requires 1 <= k <= top && k < |pw| && Built(zero, one, pw, top, log, exp, k - 1)
    ensures Built(zero, one, pw, top, log[pw[k] := k], Twice(top, exp, k, pw[k]), k)
  {
    TwiceEnds(zero, one, top, exp, k, pw[k]);
    AllStoredNext(pw, top, exp, k);
  }

  /** The entries written before the loop. */
  function Begun<T>(zero: T, one: T, top: nat, exp: seq<T>, g: T): seq<T>
    requires |exp| == 4 * (top + 1) && top >= 1
  {
    exp[Place(top, 0) := one][Place(top, 1) := g][Place(top, top) := one][Place(top, top + 1) := g]
      [Place(top, 2 * top + 1) := zero]
  }

  lemma BuiltFirst<T>(zero: T, one: T, pw: seq<T>, top: nat, exp: seq<T>, g: T)
    requires top >= 2 && |exp| == 4 * (top + 1) && NothingBelow(zero, top, exp, 0) && |pw| > 1 && pw[1] == g
    ensures var log: map<T, int> := map[zero := -(top + 1)];
      Built(zero, one, pw, top, log[g := 1], Begun(zero, one, top, exp, g), 1)
  {
    var next := Begun(zero, one, top, exp, g);
    forall i | -2 * (top + 1) <= i < 0 ensures Holds(top, next, i, zero) { assert Holds(top, exp, i, zero); }
    assert Stored(pw, top, next, 1);
    assert Logs(zero, pw, top, 1) == Logs(zero, pw, top, 0)[pw[1] := 1];
  }

  lemma NoneBeforeNext<T>(one: T, pw: seq<T>, k: nat)
    requires NoneBefore(one, pw, k) && k < |pw| && pw[k] != one
    ensures NoneBefore(one, pw, k + 1)
  {
    assert Other(one, pw, k);
  }

  lemma FirstReturn<T>(one: T, pw: seq<T>, k: nat, top: nat)
    requires 1 <= k < top && k < |pw| && pw[k] == one
    ensures !NoneBefore(one, pw, top)
  {
    assert !Other(one, pw, k);
  }

  // ----- lookups in a field

  ghost function PowerList<T(!new)>(o: Ops<T>, g: T, k: nat): (r: seq<T>)
    requires IsField(o) && g in o.carrier
    ensures |r| == k + 1 && forall j :: 0 <= j <= k ==> r[j] == Pow(o, g, j)
  {
    seq(k + 1, (j: nat) => Pow(o, g, j))
  }

  /** A field with an accepted generator, and the tables that were built for it. */
  ghost predicate Ready<T(!new)>(o: Ops<T>, g: T, top: nat, log: map<T, int>, exp: seq<T>) {
    && IsField(o) && g in o.carrier && g != o.zero && top == |o.carrier - {o.zero}| && Unreturned(o, g, top)
    && Built(o.zero, o.one, PowerList(o, g, top), top, log, exp, top)
  }

  lemma {:induction false} LogsAre<T(!new)>(o: Ops<T>, g: T, top: nat, k: nat, j: nat)
    requires IsField(o) && g in o.carrier && g != o.zero && Unreturned(o, g, top) && j <= k <= top
    ensures var l := Logs(o.zero, PowerList(o, g, top), top, k);
      && o.zero in l && l[o.zero] == -(top + 1)
      && (j >= 1 ==> Pow(o, g, j) in l && l[Pow(o, g, j)] == j)
  {
    if k > 0 {
      PowNotZero(o, g, k);
      if j < k {
        LogsAre(o, g, top, k - 1, j);
        if j >= 1 { PowersDiffer(o, g, j, k, top); }
      } else {
        LogsAre(o, g, top, k - 1, 0);
      }
    }
  }

  lemma LogOfZero<T(!new)>(o: Ops<T>, g: T, top: nat, log: map<T, int>, exp: seq<T>)
    requires Ready(o, g, top, log, exp)
    ensures o.zero in log && log[o.zero] == -(top + 1)
  {
    LogsAre(o, g, top, top, 0);
  }

  /** Every nonzero element has a logarithm, and is that power of g. */
  lemma LogOf<T(!new)>(o: Ops<T>, g: T, top: nat, log: map<T, int>, exp: seq<T>, a: T)
    requires Ready(o, g, top, log, exp) && a in o.carrier && a != o.zero
    ensures a in log && 1 <= log[a] <= top && Pow(o, g, log[a]) == a
  {
    var j := GeneratorReaches(o, g, a);
    LogsAre(o, g, top, top, j);
  }

  lemma Period<T(!new)>(o: Ops<T>, g: T, top: nat, k: nat)
    requires IsField(o) && g in o.carrier && Pow(o, g, top) == o.one
    ensures Pow(o, g, k + top) == Pow(o, g, k)
  {
    PowAdd(o, g, k, top);
    Laws(o, Pow(o, g, k), o.one, o.one);
  }

  /** Up to two periods, the table of powers holds them all. */
  lemma ExpOf<T(!new)>(o: Ops<T>, g: T, top: nat, log: map<T, int>, exp: seq<T>, i: nat)
    requires Ready(o, g, top, log, exp) && i <= 2 * top
    ensures Holds(top, exp, i, Pow(o, g, i))
  {
    GeneratorOrder(o, g);
    if 1 <= i <= top {
      assert Stored(PowerList(o, g, top), top, exp, i);
    } else if i > top {
      Period(o, g, top, i - top);
      assert Stored(PowerList(o, g, top), top, exp, i - top);
    }
  }

  lemma ExpOfNegative<T(!new)>(o: Ops<T>, g: T, top: nat, log: map<T, int>, exp: seq<T>, i: int)
    requires Ready(o, g, top, log, exp) && -2 * (top + 1) <= i < 0
    ensures Holds(top, exp, i, o.zero)
  {
  }

  /** log and exp undo each other. */
  lemma LogExpInverse<T(!new)>(o: Ops<T>, g: T, top: nat, log: map<T, int>, exp: seq<T>, a: T, j: nat)
    requires Ready(o, g, top, log, exp) && a in o.carrier && a != o.zero && 1 <= j <= top
    ensures a in log && Holds(top, exp, log[a], a)
    ensures Place(top, j) < |exp| && exp[Place(top, j)] in log && log[exp[Place(top, j)]] == j
  {
    LogOf(o, g, top, log, exp, a);
    ExpOf(o, g, top, log, exp, log[a]);
    ExpOf(o, g, top, log, exp, j);
    LogsAre(o, g, top, top, j);
  }

  method Mul<T(!new, ==)>(ghost o: Ops<T>, ghost g: T, top: nat, log: map<T, int>, exp: array<T>, a: T, b: T)
    returns (r: T)
    requires Ready(o, g, top, log, exp[..]) && a in o.carrier && b in o.carrier
    ensures r == o.mul(a, b)
  {
    ghost var e := exp[..];
    Laws(o, a, b, o.zero);
    LogOfZero(o, g, top, log, e);
    if a != o.zero { LogOf(o, g, top, log, e, a); }
    if b != o.zero { LogOf(o, g, top, log, e, b); }
    if a == o.zero || b == o.zero {
      ExpOfNegative(o, g, top, log, e, log[a] + log[b]);
    } else {
      ExpOf(o, g, top, log, e, log[a] + log[b]);
      PowAdd(o, g, log[a], log[b]);
    }
    r := exp[Place(top, log[a] + log[b])];
  }

  /** The inverse; 0 is mapped to 0. */
  method Inv<T(!new, ==)>(ghost o: Ops<T>, ghost g: T, top: nat, log: map<T, int>, exp: array<T>, a: T) returns (r: T)
    requires Ready(o, g, top, log, exp[..]) && a in o.carrier
    ensures r in o.carrier && (a == o.zero ==> r == o.zero) && (a != o.zero ==> o.mul(r, a) == o.one)
  {
    ghost var e := exp[..];
    LogOfZero(o, g, top, log, e);
    if a != o.zero {
      LogOf(o, g, top, log, e, a);
      ExpOf(o, g, top, log, e, top - log[a]);
      PowAdd(o, g, top - log[a], log[a]);
      GeneratorOrder(o, g);
    }
    r := exp[Place(top, top - log[a])];
  }

  /** a divided by b. */
  method Div<T(!new, ==)>(ghost o: Ops<T>, ghost g: T, top: nat, log: map<T, int>, exp: array<T>, a: T, b: T)
    returns (r: T)
    requires Ready(o, g, top, log, exp[..]) && a in o.carrier && b in o.carrier && b != o.zero
    ensures r in o.carrier && o.mul(r, b) == a
  {
    ghost var e := exp[..];
    Laws(o, a, b, o.zero);
    LogOfZero(o, g, top, log, e);
    LogOf(o, g, top, log, e, b);
    if a == o.zero {
      ExpOfNegative(o, g, top, log, e, top + log[a] - log[b]);
    } else {
      LogOf(o, g, top, log, e, a);
      ExpOf(o, g, top, log, e, top + log[a] - log[b]);
      PowAdd(o, g, top + log[a] - log[b], log[b]);
      GeneratorOrder(o, g);
      Period(o, g, top, log[a]);
    }
    r := exp[Place(top, top + log[a] - log[b])];
  }

  // ----- powers by table

  /** C's remainder: it has the sign of the dividend. */
  function Rem(a: int, b: nat): int
    requires b > 0
  {
    if a >= 0 then a % b else -((-a) % b)
  }

  lemma {:induction false} PowMul<T(!new)>(o: Ops<T>, g: T, j: nat, k: nat)
    requires IsField(o) && g in o.carrier
    ensures Pow(o, Pow(o, g, j), k) == Pow(o, g, j * k)
  {
    if k > 0 {
      PowMul(o, g, j, k - 1);
      PowAdd(o, g, j * (k - 1), j);
      assert j * k == j * (k - 1) + j;
    }
  }

  lemma {:induction false} Periods<T(!new)>(o: Ops<T>, g: T, top: nat, q: nat, k: nat)
    requires IsField(o) && g in o.carrier && Pow(o, g, top) == o.one
    ensures q * top + k >= 0 && Pow(o, g, q * top + k) == Pow(o, g, k)
  {
    if q > 0 {
      Periods(o, g, top, q - 1, k);
      assert q * top + k == (q - 1) * top + k + top;
      Period(o, g, top, (q - 1) * top + k);
    }
  }

  lemma PowRem<T(!new)>(o: Ops<T>, g: T, top: nat, k: nat)
    requires IsField(o) && g in o.carrier && top > 0 && Pow(o, g, top) == o.one
    ensures Pow(o, g, k % top) == Pow(o, g, k)
  {
    assert k == (k / top) * top + k % top;
    Periods(o, g, top, k / top, k % top);
  }

  lemma {:induction false} PowOfZero<T(!new)>(o: Ops<T>, k: nat)
    requires IsField(o) && k > 0
    ensures Pow(o, o.zero, k) == o.zero
  {
    Laws(o, Pow(o, o.zero, k - 1), o.zero, o.zero);
  }

  lemma Growing(p: nat, q: nat, b: nat)
    requires p < q
    ensures p * b + b <= q * b
  {
    assert q * b == p * b + (q - p) * b;
    assert (q - p) * b == b + (q - p - 1) * b;
  }

  lemma RemIs(a: nat, b: nat, q: nat, r: nat)
    requires a == q * b + r && r < b
    ensures a % b == r
  {
    assert a == (a / b) * b + a % b;
    if a / b < q { Growing(a / b, q, b); }
    if a / b > q { Growing(q, a / b, b); }
  }

  lemma RemSmall(top: nat, b: nat)
    requires top > 0
    ensures (top + 1) * b >= 0 && ((top + 1) * b) % top == b % top
  {
    assert b == (b / top) * top + b % top;
    assert (top + 1) * b == (b + b / top) * top + b % top;
    RemIs((top + 1) * b, top, b + b / top, b % top);
  }

  /** A product as a 32-bit int holds it; overflow wraps round. */
  function Int32(x: int): (r: int)
    ensures -0x8000_0000 <= r < 0x8000_0000
  {
    (x + 0x8000_0000) % 0x1_0000_0000 - 0x8000_0000
  }

  predicate Fits(x: int) {
    -0x8000_0000 <= x < 0x8000_0000
  }

  /** The entry that the power function reads for the product x of a logarithm and an exponent. */
  function Read<T>(top: nat, exp: seq<T>, x: int): T
    requires top > 0 && |exp| == 4 * (top + 1)
  {
    exp[Place(top, Rem(Int32(x), top))]
  }

  lemma FitsKept(x: int)
    ensures Fits(x) ==> Int32(x) == x
    ensures 0x8000_0000 <= x < 0x1_8000_0000 ==> Int32(x) == x - 0x1_0000_0000
    ensures -0x1_8000_0000 <= x < -0x8000_0000 ==> Int32(x) == x + 0x1_0000_0000
  {
  }

  lemma ProductRange(l: nat, b: nat, top: nat)
    requires l <= top && b <= top && (top == 255 || top == 65535)
    ensures 0 <= l * b <= top * top && 0 <= (top + 1) * b <= top * (top + 1)
    ensures top == 255 ==> Fits(l * b) && Fits(-((top + 1) * b))
    ensures l * b < 0x1_0000_0000 && (top + 1) * b < 0x1_0000_0000
  {
    assert l * b <= top * b <= top * top;
    assert (top + 1) * b <= (top + 1) * top;
  }

  /** A product that fits: the power itself, or 0. */
  lemma ReadFits<T(!new)>(o: Ops<T>, g: T, top: nat, log: map<T, int>, exp: seq<T>, x: int)
    requires Ready(o, g, top, log, exp) && top > 0 && Fits(x)
    ensures x >= 0 ==> Read(top, exp, x) == Pow(o, g, x)
    ensures x < 0 ==> Read(top, exp, x) == if (-x) % top == 0 then o.one else o.zero
  {
    FitsKept(x);
    GeneratorOrder(o, g);
    if x >= 0 {
      PowRem(o, g, top, x);
      ExpOf(o, g, top, log, exp, x % top);
    } else if (-x) % top == 0 {
      ExpOf(o, g, top, log, exp, 0);
    } else {
      ExpOfNegative(o, g, top, log, exp, -((-x) % top));
    }
  }

  lemma RemOfWrapped(x: nat, top: nat)
    requires top == 65535 && 0x8000_0000 <= x < 0x1_0000_0000
    ensures (0x1_0000_0000 - x) % top == 0 ==> x % top == 1
  {
    var y := 0x1_0000_0000 - x;
    if y % top == 0 {
      var q := y / top;
      assert y == q * 65535;
      RemIs(x, top, 65537 - q, 1);
    }
  }

  /** 16-bit tables, a nonzero base and a product that does not fit: never the power. */
  lemma ReadOverflows<T(!new)>(o: Ops<T>, g: T, top: nat, log: map<T, int>, exp: seq<T>, x: nat)
    requires Ready(o, g, top, log, exp) && top == 65535 && 0x8000_0000 <= x < 0x1_0000_0000
    ensures Read(top, exp, x) != Pow(o, g, x)
  {
    FitsKept(x);
    GeneratorOrder(o, g);
    PowNotZero(o, g, x);
    RemOfWrapped(x, top);
    var y := (0x1_0000_0000 - x) % top;
    if y == 0 {
      ExpOf(o, g, top, log, exp, 0);
      PowRem(o, g, top, x);
      assert NotOne(o, g, 1);
    } else {
      ExpOfNegative(o, g, top, log, exp, -y);
    }
  }

  /** 16-bit tables, base 0 and a product that does not fit: a power of g, never 0. */
  lemma ReadUnderflows<T(!new)>(o: Ops<T>, g: T, top: nat, log: map<T, int>, exp: seq<T>, b: nat)
    requires Ready(o, g, top, log, exp) && top == 65535 && b <= top && !Fits(-((top + 1) * b))
    ensures Read(top, exp, -((top + 1) * b)) != o.zero
  {
    var x := -((top + 1) * b);
    FitsKept(x);
    var k := 0x1_0000_0000 + x;
    ExpOf(o, g, top, log, exp, k % top);
    PowNotZero(o, g, k % top);
  }

  /** The product of a logarithm and an exponent is one that the tables can serve: it fits into 32 bits, and
      is not a nonzero multiple of the order for base 0. */
  predicate Served(top: nat, l: int, b: nat)
    requires top > 0
  {
    Fits(l * b) && !(l < 0 && b > 0 && b % top == 0)
  }

  lemma PowerOfZero<T(!new)>(o: Ops<T>, g: T, top: nat, log: map<T, int>, exp: seq<T>, b: nat)
    requires Ready(o, g, top, log, exp) && (top == 255 || top == 65535) && b <= top
    ensures Read(top, exp, -(top + 1) * b) == Pow(o, o.zero, b) <==> Served(top, -(top + 1), b)
  {
    var x := -((top + 1) * b);
    assert -(top + 1) * b == x;
    ProductRange(0, b, top);
    RemSmall(top, b);
    if b > 0 { PowOfZero(o, b); }
    if Fits(x) {
      ReadFits(o, g, top, log, exp, x);
    } else {
      ReadUnderflows(o, g, top, log, exp, b);
    }
  }

  lemma PowerOfOther<T(!new)>(o: Ops<T>, g: T, top: nat, log: map<T, int>, exp: seq<T>, a: T, b: nat)
    requires Ready(o, g, top, log, exp) && (top == 255 || top == 65535) && b <= top && a in o.carrier && a != o.zero
    ensures a in log && (Read(top, exp, log[a] * b) == Pow(o, a, b) <==> Served(top, log[a], b))
  {
    LogOf(o, g, top, log, exp, a);
    ProductRange(log[a], b, top);
    PowMul(o, g, log[a], b);
    if Fits(log[a] * b) {
      ReadFits(o, g, top, log, exp, log[a] * b);
    } else {
      ReadOverflows(o, g, top, log, exp, log[a] * b);
    }
  }

  /** gf2_fast_u8_pow_m3 and gf2_fast_u16_pow_m3: right exactly if the product is one the tables serve. */
  method Power<T(!new, ==)>(ghost o: Ops<T>, ghost g: T, top: nat, log: map<T, int>, exp: array<T>, a: T, b: nat)
    returns (r: T)
    requires Ready(o, g, top, log, exp[..]) && a in o.carrier && b <= top && (top == 255 || top == 65535)
    ensures a in log && (r == Pow(o, a, b) <==> Served(top, log[a], b))
  {
    LogOfZero(o, g, top, log, exp[..]);
    if a == o.zero { PowerOfZero(o, g, top, log, exp[..], b); } else { PowerOfOther(o, g, top, log, exp[..], a, b); }
    r := exp[Place(top, Rem(Int32(log[a] * b), top))];
  }

  /** Inputs at which the functions are wrong: 0 to the power 255 in 8 bits, 1 to the power 40000 in 16. */
  lemma PowerFails<T(!new)>(o: Ops<T>, g: T, top: nat, log: map<T, int>, exp: seq<T>)
    requires Ready(o, g, top, log, exp) && (top == 255 || top == 65535)
    ensures o.zero in log && o.one in log && log[o.one] == top
    ensures !Served(top, log[o.zero], top)
    ensures top == 65535 ==> !Served(top, log[o.one], 40000)
  {
    LogOfZero(o, g, top, log, exp);
    LogsAre(o, g, top, top, top);
    GeneratorOrder(o, g);
  }
}
