/** rabin-ida.c, vector_shift_left_many: the two loops over bytes, with the char that counts in both. */
module CharLoops {
  import opened Counters

  const CHAR_VALUES: nat := 256

  /** Moving bytes to the left, zeroing the bytes that they leave, or at the end; i is the char. */
  datatype Shifting = Moving(i: nat) | Zeroing(i: nat) | Shifted

  function Begin(bits: nat): Shifting {
    if bits / 8 == 0 then Shifted else Moving(0)
  }

  /** One test of a loop's guard, and the pass through the loop if it holds. */
  function Turn(len: nat, full: nat, s: Shifting): Shifting {
    match s
    case Moving(i) => if i + full < len then Moving(Bumped(i, CHAR_VALUES)) else Zeroing(i)
    case Zeroing(i) => if i < len then Zeroing(Bumped(i, CHAR_VALUES)) else Shifted
    case Shifted => Shifted
  }

  function After(len: nat, full: nat, s: Shifting, t: nat): Shifting
    decreases t
  {
    if t == 0 then s else After(len, full, Turn(len, full, s), t - 1)
  }

  ghost predicate EndsAt(len: nat, full: nat, s: Shifting, t: nat) {
    After(len, full, s, t) == Shifted
  }

  /** A shift of len bytes by that many bits ends. */
  ghost predicate Ends(len: nat, bits: nat) {
    exists t: nat :: EndsAt(len, bits / 8, Begin(bits), t)
  }

  /** How far a short vector still has to go. */
  function Left(len: nat, s: Shifting): nat {
    match s
    case Moving(i) => if i < len then 2 + 2 * (len - i) else 2
    case Zeroing(i) => if i < len then 1 + 2 * (len - i) else 1
    case Shifted => 0
  }

  lemma {:induction false} ShortEnds(len: nat, full: nat, s: Shifting)
    requires len < CHAR_VALUES && full > 0 && (s.Shifted? || s.i <= len)
    ensures exists t: nat :: EndsAt(len, full, s, t)
    decreases Left(len, s)
  {
    if s.Shifted? {
      assert EndsAt(len, full, s, 0);
    } else {
      ShortEnds(len, full, Turn(len, full, s));
      var t: nat :| EndsAt(len, full, Turn(len, full, s), t);
      assert EndsAt(len, full, s, t + 1);
    }
  }

  lemma {:induction false} LongGoesOn(len: nat, full: nat, s: Shifting, t: nat)
    requires len >= CHAR_VALUES && !s.Shifted? && s.i < CHAR_VALUES
    ensures !EndsAt(len, full, s, t)
    decreases t
  {
    if t > 0 { LongGoesOn(len, full, Turn(len, full, s), t - 1); }
  }

  /** A shift ends exactly if it moves no whole bytes or the vector is short enough to be counted in a char. */
  lemma EndsIff(len: nat, bits: nat)
    ensures Ends(len, bits) <==> bits < 8 || len < CHAR_VALUES
  {
    if bits < 8 {
      assert EndsAt(len, bits / 8, Begin(bits), 0);
    } else if len < CHAR_VALUES {
      ShortEnds(len, bits / 8, Begin(bits));
    } else {
      forall t: nat ensures !EndsAt(len, bits / 8, Begin(bits), t) { LongGoesOn(len, bits / 8, Begin(bits), t); }
    }
  }

  /** The shortest shift that does not end. */
  lemma ByteShiftGoesOn()
    ensures !Ends(256, 8) && Ends(255, 8) && Ends(256, 7)
  {
    EndsIff(256, 8);
    EndsIff(255, 8);
    EndsIff(256, 7);
  }
}
