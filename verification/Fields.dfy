/** Finite fields of characteristic 2, by their laws. */
module Fields {

  datatype Ops<!T(!new)> = Ops(carrier: set<T>, zero: T, one: T, add: (T, T) -> T, mul: (T, T) -> T)

  ghost predicate PairLaws<T(!new)>(o: Ops<T>, a: T, b: T) {
    && o.add(a, b) in o.carrier && o.mul(a, b) in o.carrier
    && o.add(a, b) == o.add(b, a) && o.mul(a, b) == o.mul(b, a)
  }

  ghost predicate TripleLaws<T(!new)>(o: Ops<T>, a: T, b: T, c: T) {
    && o.add(o.add(a, b), c) == o.add(a, o.add(b, c)) && o.mul(o.mul(a, b), c) == o.mul(a, o.mul(b, c))
    && o.mul(a, o.add(b, c)) == o.add(o.mul(a, b), o.mul(a, c))
  }

  ghost predicate UnitLaws<T(!new)>(o: Ops<T>, a: T) {
    o.add(a, o.zero) == a && o.add(a, a) == o.zero && o.mul(a, o.one) == a && o.mul(a, o.zero) == o.zero
  }

  ghost predicate InverseOf<T(!new)>(o: Ops<T>, a: T, b: T) {
    b in o.carrier && o.mul(b, a) == o.one
  }

  ghost predicate Invertible<T(!new)>(o: Ops<T>, a: T) {
    a != o.zero ==> exists b :: InverseOf(o, a, b)
  }

  ghost predicate IsField<T(!new)>(o: Ops<T>) {
    && o.zero in o.carrier && o.one in o.carrier && o.zero != o.one
    && (forall a, b {:trigger PairLaws(o, a, b)} :: a in o.carrier && b in o.carrier ==> PairLaws(o, a, b))
    && (forall a, b, c {:trigger TripleLaws(o, a, b, c)} ::
          a in o.carrier && b in o.carrier && c in o.carrier ==> TripleLaws(o, a, b, c))
    && (forall a {:trigger UnitLaws(o, a)} :: a in o.carrier ==> UnitLaws(o, a))
    && (forall a {:trigger Invertible(o, a)} :: a in o.carrier ==> Invertible(o, a))
  }

  lemma Laws<T(!new)>(o: Ops<T>, a: T, b: T, c: T)
    requires IsField(o) && a in o.carrier && b in o.carrier && c in o.carrier
    ensures PairLaws(o, a, b) && PairLaws(o, b, c) && PairLaws(o, a, c) && TripleLaws(o, a, b, c)
    ensures UnitLaws(o, a) && UnitLaws(o, b) && UnitLaws(o, c)
  {
    assert PairLaws(o, a, b) && PairLaws(o, b, c) && PairLaws(o, a, c) && TripleLaws(o, a, b, c);
    assert UnitLaws(o, a) && UnitLaws(o, b) && UnitLaws(o, c);
  }

  lemma Cancel<T(!new)>(o: Ops<T>, a: T, b: T, c: T)
    requires IsField(o) && a in o.carrier && b in o.carrier && c in o.carrier && c != o.zero
    requires o.mul(a, c) == o.mul(b, c)
    ensures a == b
  {
    assert Invertible(o, c);
    var z :| InverseOf(o, c, z);
    Laws(o, a, c, z);
    Laws(o, b, c, z);
  }

  lemma NoZeroDivisors<T(!new)>(o: Ops<T>, a: T, b: T)
    requires IsField(o) && a in o.carrier && b in o.carrier
    ensures o.mul(a, b) == o.zero <==> a == o.zero || b == o.zero
  {
    Laws(o, a, b, o.zero);
    if o.mul(a, b) == o.zero && b != o.zero {
      Cancel(o, a, o.zero, b);
    }
  }

  // ----- powers

  ghost function Pow<T(!new)>(o: Ops<T>, g: T, k: nat): (r: T)
    requires IsField(o) && g in o.carrier
    ensures r in o.carrier
  {
    if k == 0 then o.one else
      assert PairLaws(o, Pow(o, g, k - 1), g);
      o.mul(Pow(o, g, k - 1), g)
  }

  lemma {:induction false} PowAdd<T(!new)>(o: Ops<T>, g: T, j: nat, k: nat)
    requires IsField(o) && g in o.carrier
    ensures Pow(o, g, j + k) == o.mul(Pow(o, g, j), Pow(o, g, k))
  {
    if k == 0 {
      Laws(o, Pow(o, g, j), o.one, o.one);
    } else {
      PowAdd(o, g, j, k - 1);
      Laws(o, Pow(o, g, j), Pow(o, g, k - 1), g);
    }
  }

  lemma {:induction false} PowNotZero<T(!new)>(o: Ops<T>, g: T, k: nat)
    requires IsField(o) && g in o.carrier && g != o.zero
    ensures Pow(o, g, k) != o.zero
  {
    if k > 0 {
      PowNotZero(o, g, k - 1);
      NoZeroDivisors(o, Pow(o, g, k - 1), g);
    }
  }

  // ----- a generator

  ghost predicate NotOne<T(!new)>(o: Ops<T>, g: T, j: nat)
    requires IsField(o) && g in o.carrier
  {
    Pow(o, g, j) != o.one
  }

  /** No power below the k-th is 1. */
  ghost predicate Unreturned<T(!new)>(o: Ops<T>, g: T, k: nat)
    requires IsField(o) && g in o.carrier
  {
    forall j :: 1 <= j < k ==> NotOne(o, g, j)
  }

  ghost function Powers<T(!new)>(o: Ops<T>, g: T, k: nat): set<T>
    requires IsField(o) && g in o.carrier
  {
    if k == 0 then {} else Powers(o, g, k - 1) + {Pow(o, g, k)}
  }

  lemma {:induction false} PowersAre<T(!new)>(o: Ops<T>, g: T, k: nat, a: T) returns (j: nat)
    requires IsField(o) && g in o.carrier && a in Powers(o, g, k)
    ensures 1 <= j <= k && Pow(o, g, j) == a
  {
    if a == Pow(o, g, k) { j := k; } else { j := PowersAre(o, g, k - 1, a); }
  }

  /** Two equal powers would have brought 1 back in between. */
  lemma PowersDiffer<T(!new)>(o: Ops<T>, g: T, i: nat, j: nat, k: nat)
    requires IsField(o) && g in o.carrier && g != o.zero && Unreturned(o, g, k) && 1 <= i < j <= k
    ensures Pow(o, g, i) != Pow(o, g, j)
  {
    PowAdd(o, g, j - i, i);
    Laws(o, Pow(o, g, i), o.one, o.one);
    Laws(o, o.one, Pow(o, g, i), o.one);
    PowNotZero(o, g, i);
    assert NotOne(o, g, j - i);
    if Pow(o, g, i) == Pow(o, g, j) {
      Cancel(o, Pow(o, g, j - i), o.one, Pow(o, g, i));
    }
  }

  lemma {:induction false} PowersCount<T(!new)>(o: Ops<T>, g: T, k: nat)
    requires IsField(o) && g in o.carrier && g != o.zero && Unreturned(o, g, k)
    ensures |Powers(o, g, k)| == k && Powers(o, g, k) <= o.carrier - {o.zero}
  {
    if k > 0 {
      forall j | 1 <= j < k - 1 ensures NotOne(o, g, j) { assert NotOne(o, g, j); }
      PowersCount(o, g, k - 1);
      PowNotZero(o, g, k);
      if Pow(o, g, k) in Powers(o, g, k - 1) {
        var j := PowersAre(o, g, k - 1, Pow(o, g, k));
        PowersDiffer(o, g, j, k, k);
      }
    }
  }

  lemma SubsetOfSameSize<T>(a: set<T>, b: set<T>)
    requires a <= b && |a| == |b|
    ensures a == b
  {
    assert |b - a| == |b| - |a|;
  }

  /** If 1 does not come back early, every nonzero element is a power of g. */
  lemma GeneratorReaches<T(!new)>(o: Ops<T>, g: T, a: T) returns (j: nat)
    requires IsField(o) && g in o.carrier && g != o.zero && Unreturned(o, g, |o.carrier - {o.zero}|)
    requires a in o.carrier && a != o.zero
    ensures 1 <= j <= |o.carrier - {o.zero}| && Pow(o, g, j) == a
  {
    var all := |o.carrier - {o.zero}|;
    PowersCount(o, g, all);
    SubsetOfSameSize(Powers(o, g, all), o.carrier - {o.zero});
    j := PowersAre(o, g, all, a);
  }

  /** The order of g is then the number of nonzero elements, exactly. */
  lemma GeneratorOrder<T(!new)>(o: Ops<T>, g: T)
    requires IsField(o) && g in o.carrier && g != o.zero && Unreturned(o, g, |o.carrier - {o.zero}|)
    ensures Pow(o, g, |o.carrier - {o.zero}|) == o.one
  {
    var j := GeneratorReaches(o, g, o.one);
    assert j < |o.carrier - {o.zero}| ==> NotOne(o, g, j);
  }
}
