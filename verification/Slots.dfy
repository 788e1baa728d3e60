/** Positions in circular buffers. */
module Slots {

  /** Element k of a stream goes through place k % s of a buffer of s places. */
  function SlotOf(k: nat, s: nat): (r: nat)
    requires s > 0
    ensures r < s
  {
    if k < s then k else SlotOf(k - s, s)
  }

  /** The place after k, going round. */
  function Wrap(k: nat, s: nat): nat {
    if k + 1 == s then 0 else k + 1
  }

  lemma WrapIsMod(k: nat, s: nat)
    requires k < s
    ensures Wrap(k, s) == (k + 1) % s
  {
    DivModUnique(k + 1, s, if k + 1 == s then 1 else 0, Wrap(k, s));
  }

  lemma {:induction false} SlotIsMod(k: nat, s: nat)
    requires s > 0
    ensures SlotOf(k, s) == k % s
  {
    if k >= s {
      SlotIsMod(k - s, s);
      assert k == (k - s) + s;
      ModPlus(k - s, s);
    }
  }

  lemma ModPlus(a: nat, s: nat)
    requires s > 0
    ensures (a + s) % s == a % s
  {
    var q, r := a / s, a % s;
    assert a + s == (q + 1) * s + r;
    DivModUnique(a + s, s, q + 1, r);
  }

  lemma TimesAtLeast(d: int, s: nat)
    requires d >= 1
    ensures d * s >= s
  {
    assert (d - 1) * s >= 0;
  }

  lemma DivModUnique(a: nat, s: nat, q: int, r: int)
    requires s > 0 && 0 <= r < s && a == q * s + r
    ensures a % s == r
  {
    var q' := a / s;
    assert (q - q') * s == a % s - r;
    assert (q' - q) * s == r - a % s;
    if q > q' {
      TimesAtLeast(q - q', s);
    } else if q' > q {
      TimesAtLeast(q' - q, s);
    }
  }

  /** The next element goes to the next place. */
  lemma {:induction false} SlotNext(k: nat, s: nat)
    requires s > 0
    ensures SlotOf(k + 1, s) == Wrap(SlotOf(k, s), s)
  {
    if k >= s {
      SlotNext(k - s, s);
    }
  }

  /** Elements less than s apart go to different places. */
  lemma {:induction false} SlotsDiffer(a: nat, b: nat, s: nat)
    requires s > 0 && a < b < a + s
    ensures SlotOf(a, s) != SlotOf(b, s)
  {
    if a >= s {
      SlotsDiffer(a - s, b - s, s);
    }
  }

  /** Every place is used by one of any s elements in a row. */
  lemma {:induction false} SlotIn(a: nat, j: nat, s: nat) returns (k: nat)
    requires j < s
    ensures a <= k < a + s && SlotOf(k, s) == j
  {
    if a <= j {
      k := j;
    } else if a < s {
      k := j + s;
    } else {
      k := SlotIn(a - s, j, s);
      k := k + s;
    }
  }

  /** A scan that starts at place b and goes round once reaches every place. */
  lemma ScanReaches(b: nat, j: nat, s: nat) returns (i: nat)
    requires j < s && b < s
    ensures i < s && (b + i) % s == j && (i == 0 <==> j == b)
  {
    if b <= j {
      i := j - b;
      DivModUnique(j, s, 0, j);
    } else {
      i := j + s - b;
      DivModUnique(j + s, s, 1, j);
    }
  }
}
