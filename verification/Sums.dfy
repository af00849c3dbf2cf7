/** Sums over sequences, in whatever order their elements come. */
module Sums {

  function SumOf<T>(s: seq<T>, f: T -> nat): nat {
    if s == [] then 0 else SumOf(s[..|s| - 1], f) + f(s[|s| - 1])
  }

  /** The sequence without its element i. */
  function Without<T>(s: seq<T>, i: nat): (r: seq<T>)
    requires i < |s|
    ensures |r| == |s| - 1
  {
    s[..i] + s[i + 1..]
  }

  lemma SumPush<T>(s: seq<T>, x: T, f: T -> nat)
    ensures SumOf(s + [x], f) == SumOf(s, f) + f(x)
  {
    assert (s + [x])[..|s|] == s;
  }

  lemma {:induction false} SumWithout<T>(s: seq<T>, i: nat, f: T -> nat)
    requires i < |s|
    ensures SumOf(s, f) == SumOf(Without(s, i), f) + f(s[i])
  {
    var r := Without(s, i);
    if i == |s| - 1 {
      assert r == s[..i];
    } else {
      SumWithout(s[..|s| - 1], i, f);
      assert r[..|r| - 1] == Without(s[..|s| - 1], i);
    }
  }

  lemma SumUpdate<T>(s: seq<T>, i: nat, x: T, f: T -> nat)
    requires i < |s|
    ensures SumOf(s[i := x], f) + f(s[i]) == SumOf(s, f) + f(x)
  {
    SumWithout(s, i, f);
    SumWithout(s[i := x], i, f);
    assert Without(s[i := x], i) == Without(s, i);
  }

  lemma SumMember<T>(s: seq<T>, i: nat, f: T -> nat)
    requires i < |s|
    ensures f(s[i]) <= SumOf(s, f)
  {
    SumWithout(s, i, f);
  }

  lemma MultisetIndex<T>(s: seq<T>, t: seq<T>, i: nat)
    requires multiset(s) == multiset(t) && i < |s|
    ensures s[i] in t
  {
    assert s[i] in multiset(s);
  }

  lemma MultisetWithout<T>(s: seq<T>, i: nat)
    requires i < |s|
    ensures multiset(Without(s, i)) == multiset(s) - multiset{s[i]}
  {
    assert s == s[..i] + [s[i]] + s[i + 1..];
    var m := multiset(s[..i]) + multiset(s[i + 1..]);
    assert multiset(s) == m + multiset{s[i]};
  }

  /** A permutation stays one when the same element is left out. */
  lemma MultisetRemove<T>(s: seq<T>, t: seq<T>, i: nat)
    requires s != [] && multiset(s) == multiset(t) && i < |t| && t[i] == s[|s| - 1]
    ensures multiset(Without(t, i)) == multiset(s[..|s| - 1])
  {
    MultisetWithout(t, i);
    MultisetWithout(s, |s| - 1);
    assert Without(s, |s| - 1) == s[..|s| - 1];
  }

  lemma {:induction false} SumPermutation<T>(s: seq<T>, t: seq<T>, f: T -> nat)
    requires multiset(s) == multiset(t)
    ensures SumOf(s, f) == SumOf(t, f)
  {
    assert |multiset(s)| == |s| && |multiset(t)| == |t|;
    if s != [] {
      MultisetIndex(s, t, |s| - 1);
      var i :| 0 <= i < |t| && t[i] == s[|s| - 1];
      MultisetRemove(s, t, i);
      SumPermutation(s[..|s| - 1], Without(t, i), f);
      SumWithout(t, i, f);
    }
  }
}
