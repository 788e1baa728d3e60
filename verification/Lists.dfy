/** Facts about sequences that several of the models share. */
module Lists {

  datatype Option<+T> = None | Some(value: T)

  /** Two entries change places. */
  function Exchanged<X>(s: seq<X>, a: nat, b: nat): (r: seq<X>)
    requires a < |s| && b < |s|
    ensures |r| == |s| && r[a] == s[b] && r[b] == s[a]
    ensures forall k :: 0 <= k < |s| && k != a && k != b ==> r[k] == s[k]
  {
    s[a := s[b]][b := s[a]]
  }

  lemma ExchangedKeeps<X>(s: seq<X>, a: nat, b: nat)
    requires a < |s| && b < |s|
    ensures multiset(Exchanged(s, a, b)) == multiset(s)
  {
    assert s == s[a := s[a]];
  }

  function Swap(s: seq<nat>, i: nat, j: nat): (r: seq<nat>)
    requires i < |s| && j < |s|
    ensures |r| == |s|
  {
    s[i := s[j]][j := s[i]]
  }

  lemma SwapKeepsMultiset(s: seq<nat>, i: nat, j: nat)
    requires i < |s| && j < |s|
    ensures multiset(Swap(s, i, j)) == multiset(s)
  {
    assert multiset(s[i := s[j]]) == multiset(s) - multiset{s[i]} + multiset{s[j]};
  }

  function RemoveAt(s: seq<nat>, k: nat): (r: seq<nat>)
    requires k < |s|
    ensures |r| == |s| - 1
  {
    s[..k] + s[k + 1..]
  }

  lemma RemoveAtMultiset(s: seq<nat>, k: nat)
    requires k < |s|
    ensures multiset(RemoveAt(s, k)) == multiset(s) - multiset{s[k]}
  {
    assert s == s[..k] + [s[k]] + s[k + 1..];
    assert multiset(s) == multiset(s[..k]) + multiset{s[k]} + multiset(s[k + 1..]);
  }

  lemma SplitHead(s: seq<nat>)
    requires s != []
    ensures multiset(s) == multiset{s[0]} + multiset(s[1..])
  {
    assert s == [s[0]] + s[1..];
  }

  // The first position of x in s, or |s| when x does not occur.
  function IndexOf(s: seq<nat>, x: nat): (k: nat)
    ensures k <= |s|
    ensures k < |s| ==> s[k] == x
    ensures forall j :: 0 <= j < k ==> s[j] != x
    ensures k == |s| <==> x !in s
  {
    if s == [] then 0 else if s[0] == x then 0 else 1 + IndexOf(s[1..], x)
  }

  /** How often x occurs in s. */
  function Count(s: seq<nat>, x: nat): nat {
    if s == [] then 0 else (if s[0] == x then 1 else 0) + Count(s[1..], x)
  }

  lemma {:induction false} CountIsMultiplicity(s: seq<nat>, x: nat)
    ensures Count(s, x) == multiset(s)[x]
  {
    if s != [] {
      SplitHead(s);
      CountIsMultiplicity(s[1..], x);
    }
  }

  lemma {:induction false} CountPositive(s: seq<nat>, x: nat)
    ensures Count(s, x) > 0 <==> x in s
  {
    if s != [] {
      CountPositive(s[1..], x);
    }
  }

  lemma {:induction false} CountConcat(s: seq<nat>, t: seq<nat>, x: nat)
    ensures Count(s + t, x) == Count(s, x) + Count(t, x)
  {
    if s == [] {
      assert s + t == t;
    } else {
      assert (s + t)[1..] == s[1..] + t;
      CountConcat(s[1..], t, x);
    }
  }

  lemma {:induction false} CountRemoveAt(s: seq<nat>, k: nat, x: nat)
    requires k < |s|
    ensures Count(s, x) == Count(RemoveAt(s, k), x) + if s[k] == x then 1 else 0
  {
    if k == 0 {
      assert RemoveAt(s, 0) == s[1..];
    } else {
      CountRemoveAt(s[1..], k - 1, x);
      assert RemoveAt(s, k)[1..] == RemoveAt(s[1..], k - 1);
    }
  }

  lemma CountSwap(s: seq<nat>, i: nat, j: nat, x: nat)
    requires i < |s| && j < |s|
    ensures Count(Swap(s, i, j), x) == Count(s, x)
  {
    SwapKeepsMultiset(s, i, j);
    CountIsMultiplicity(s, x);
    CountIsMultiplicity(Swap(s, i, j), x);
  }

  lemma CountTwice(s: seq<nat>, i: nat, j: nat)
    requires i < |s| && j < |s| && i != j && s[i] == s[j]
    ensures Count(s, s[i]) >= 2
  {
    CountRemoveAt(s, i, s[i]);
    var r := RemoveAt(s, i);
    assert r[if j < i then j else j - 1] == s[i];
    CountPositive(r, s[i]);
  }

  ghost predicate SameCount(s: seq<nat>, t: seq<nat>, x: nat) {
    Count(s, x) == Count(t, x)
  }

  /** s and t have the same elements, each as often. */
  ghost predicate Rearranged(s: seq<nat>, t: seq<nat>) {
    |s| == |t| && forall x :: SameCount(s, t, x)
  }

  lemma RearrangedTrans(s: seq<nat>, t: seq<nat>, r: seq<nat>)
    requires Rearranged(s, t) && Rearranged(t, r)
    ensures Rearranged(s, r)
  {
    forall x: nat ensures SameCount(s, r, x) {
      assert SameCount(s, t, x) && SameCount(t, r, x);
    }
  }

  lemma RearrangedFromMultiset(s: seq<nat>, t: seq<nat>)
    requires multiset(s) == multiset(t)
    ensures Rearranged(s, t)
  {
    assert |multiset(s)| == |multiset(t)|;
    forall x: nat ensures SameCount(s, t, x) {
      CountIsMultiplicity(s, x);
      CountIsMultiplicity(t, x);
    }
  }
}
