/** Canonical prefix codes (section 3.2.2 of RFC 1951): the reference that both the compressor's
    and the decompressor's tables are proved against. */
module Canonical {
  import opened Bits

  const MAX_CODE_SIZE := 15

  /** How many of the first n symbols have code length l. */
  function CountTo(sizes: seq<nat>, n: nat, l: nat): (c: nat)
    requires n <= |sizes|
    ensures c <= n
  {
    if n == 0 then 0 else CountTo(sizes, n - 1, l) + (if sizes[n - 1] == l then 1 else 0)
  }

  function Count(sizes: seq<nat>, l: nat): nat {
    CountTo(sizes, |sizes|, l)
  }

  /** The smallest code of length l. */
  function First(sizes: seq<nat>, l: nat): nat {
    if l <= 1 then 0 else 2 * (First(sizes, l - 1) + Count(sizes, l - 1))
  }

  function Code(sizes: seq<nat>, s: nat): nat
    requires s < |sizes|
  {
    First(sizes, sizes[s]) + CountTo(sizes, s, sizes[s])
  }

  /** The low n bits of c, most significant first: the order in which code bits are sent. */
  function MsbBits(c: nat, n: nat): (b: seq<bool>)
    ensures |b| == n
  {
    if n == 0 then [] else MsbBits(c / 2, n - 1) + [c % 2 == 1]
  }

  function MsbValue(b: seq<bool>): nat {
    if b == [] then 0 else 2 * MsbValue(b[..|b| - 1]) + (if b[|b| - 1] then 1 else 0)
  }

  predicate HasCode(sizes: seq<nat>, s: nat) {
    s < |sizes| && sizes[s] > 0
  }

  /** The bit string sent for symbol s. */
  function CodeWord(sizes: seq<nat>, s: nat): (b: seq<bool>)
    requires s < |sizes|
    ensures |b| == sizes[s]
  {
    MsbBits(Code(sizes, s), sizes[s])
  }

  /** The code word of s is at the start of b. */
  ghost predicate Starts(sizes: seq<nat>, s: nat, b: seq<bool>) {
    HasCode(sizes, s) && CodeWord(sizes, s) <= b
  }

  /** No length has more codes than bit strings left for it. */
  ghost predicate Fits(sizes: seq<nat>) {
    && (forall i :: 0 <= i < |sizes| ==> sizes[i] <= MAX_CODE_SIZE)
    && (forall l :: 1 <= l <= MAX_CODE_SIZE ==> First(sizes, l) + Count(sizes, l) <= Pow2(l))
  }

  /** Every bit string is used: the total that tinfl compares with 65536. */
  ghost predicate Complete(sizes: seq<nat>) {
    && (forall i :: 0 <= i < |sizes| ==> sizes[i] <= MAX_CODE_SIZE)
    && First(sizes, MAX_CODE_SIZE + 1) == 65536
  }

  /** The Kraft sum of the first n symbols, in units of 2^-top. */
  function Kraft(sizes: seq<nat>, n: nat, top: nat): nat
    requires n <= |sizes|
  {
    if n == 0 then 0
    else Kraft(sizes, n - 1, top) + (if 0 < sizes[n - 1] <= top then Pow2(top - sizes[n - 1]) else 0)
  }

  /** The number of symbols that have a code. */
  function Used(sizes: seq<nat>, n: nat): (u: nat)
    requires n <= |sizes|
    ensures u <= n
  {
    if n == 0 then 0 else Used(sizes, n - 1) + (if sizes[n - 1] > 0 then 1 else 0)
  }

  // ----- bit strings, most significant first -----

  lemma {:induction false} MsbRoundTrip(c: nat, n: nat)
    requires c < Pow2(n)
    ensures MsbValue(MsbBits(c, n)) == c
  {
    if n > 0 {
      MsbRoundTrip(c / 2, n - 1);
      assert MsbBits(c, n)[..n - 1] == MsbBits(c / 2, n - 1);
    }
  }

  lemma {:induction false} MsbValueBound(b: seq<bool>)
    ensures MsbValue(b) < Pow2(|b|)
    ensures MsbBits(MsbValue(b), |b|) == b
  {
    if b != [] {
      MsbValueBound(b[..|b| - 1]);
      assert b == b[..|b| - 1] + [b[|b| - 1]];
    }
  }

  // ----- what completeness gives -----

  lemma {:induction false} FirstGrows(sizes: seq<nat>, l: nat, m: nat)
    requires 1 <= l <= m
    requires First(sizes, l) > Pow2(l)
    ensures First(sizes, m) > Pow2(m)
  {
    if l < m {
      FirstGrows(sizes, l, m - 1);
    }
  }

  lemma CompleteFits(sizes: seq<nat>)
    requires Complete(sizes)
    ensures Fits(sizes)
  {
    Pow2Values();
    forall l | 1 <= l <= MAX_CODE_SIZE
      ensures First(sizes, l) + Count(sizes, l) <= Pow2(l)
    {
      if First(sizes, l) + Count(sizes, l) > Pow2(l) {
        assert First(sizes, l + 1) > Pow2(l + 1);
        FirstGrows(sizes, l + 1, MAX_CODE_SIZE + 1);
      }
    }
  }

  lemma {:induction false} CountToBelow(sizes: seq<nat>, s: nat, n: nat, l: nat)
    requires s <= n <= |sizes|
    ensures CountTo(sizes, s, l) <= CountTo(sizes, n, l)
    ensures s < n && sizes[s] == l ==> CountTo(sizes, s, l) < CountTo(sizes, n, l)
  {
    if s < n {
      CountToBelow(sizes, s, n - 1, l);
    }
  }

  /** A code lies in the range of its length. */
  lemma CodeRange(sizes: seq<nat>, s: nat)
    requires HasCode(sizes, s) && Fits(sizes)
    ensures First(sizes, sizes[s]) <= Code(sizes, s) < First(sizes, sizes[s]) + Count(sizes, sizes[s])
    ensures Code(sizes, s) < Pow2(sizes[s])
    ensures MsbValue(CodeWord(sizes, s)) == Code(sizes, s)
  {
    CountToBelow(sizes, s, |sizes|, sizes[s]);
    MsbRoundTrip(Code(sizes, s), sizes[s]);
  }

  /** Extending a string that is below the end of its length's codes keeps it below every longer code. */
  lemma {:induction false} ExtensionBelow(sizes: seq<nat>, b: seq<bool>, l: nat)
    requires 1 <= l < |b|
    requires MsbValue(b[..l]) < First(sizes, l) + Count(sizes, l)
    ensures MsbValue(b) < First(sizes, |b|)
    decreases |b|
  {
    var c := b[..|b| - 1];
    if l < |c| {
      assert c[..l] == b[..l];
      ExtensionBelow(sizes, c, l);
    } else {
      assert c == b[..l];
    }
  }

  lemma {:induction false} RankUnique(sizes: seq<nat>, s: nat, t: nat)
    requires s < |sizes| && t < |sizes| && sizes[s] == sizes[t]
    requires CountTo(sizes, s, sizes[s]) == CountTo(sizes, t, sizes[s])
    ensures s == t
  {
    if s < t {
      CountToBelow(sizes, s, t, sizes[s]);
    } else if t < s {
      CountToBelow(sizes, t, s, sizes[s]);
    }
  }

  /** No code word is a prefix of another one. */
  lemma PrefixFree(sizes: seq<nat>, s: nat, t: nat)
    requires Fits(sizes) && HasCode(sizes, s) && HasCode(sizes, t)
    requires CodeWord(sizes, s) <= CodeWord(sizes, t)
    ensures s == t
  {
    CodeRange(sizes, s);
    CodeRange(sizes, t);
    var a, b := CodeWord(sizes, s), CodeWord(sizes, t);
    assert b[..|a|] == a;
    if |a| < |b| {
      ExtensionBelow(sizes, b, |a|);
    } else {
      assert a == b;
      RankUnique(sizes, s, t);
    }
  }

  /** Every rank below the count of a length is the rank of some symbol. */
  lemma {:induction false} Select(sizes: seq<nat>, n: nat, l: nat, rank: nat) returns (s: nat)
    requires n <= |sizes| && rank < CountTo(sizes, n, l)
    ensures s < n && sizes[s] == l && CountTo(sizes, s, l) == rank
  {
    if rank < CountTo(sizes, n - 1, l) {
      s := Select(sizes, n - 1, l, rank);
    } else {
      s := n - 1;
    }
  }

  /** A string within the range of its length is a code word. */
  lemma InRange(sizes: seq<nat>, b: seq<bool>) returns (s: nat)
    requires b != []
    requires First(sizes, |b|) <= MsbValue(b) < First(sizes, |b|) + Count(sizes, |b|)
    ensures HasCode(sizes, s) && CodeWord(sizes, s) == b
  {
    s := Select(sizes, |sizes|, |b|, MsbValue(b) - First(sizes, |b|));
    MsbValueBound(b);
  }

  /** Either some code word starts b, or b is at or above every code of at most its length. */
  lemma {:induction false} Walk(sizes: seq<nat>, b: seq<bool>) returns (found: bool, s: nat)
    requires Fits(sizes) && 1 <= |b| <= MAX_CODE_SIZE
    ensures found ==> Starts(sizes, s, b)
    ensures !found ==> MsbValue(b) >= First(sizes, |b|) + Count(sizes, |b|)
  {
    var l, v := |b|, MsbValue(b);
    if v < First(sizes, l) {
      var c := b[..l - 1];
      assert MsbValue(c) < First(sizes, l - 1) + Count(sizes, l - 1);
      found, s := Walk(sizes, c);
    } else if v < First(sizes, l) + Count(sizes, l) {
      s := InRange(sizes, b);
      found := true;
    } else {
      found, s := false, 0;
    }
  }

  lemma CompleteTop(sizes: seq<nat>)
    requires Complete(sizes)
    ensures First(sizes, MAX_CODE_SIZE) + Count(sizes, MAX_CODE_SIZE) == Pow2(MAX_CODE_SIZE)
  {
    hide Count;
    Pow2Values();
  }

  lemma StartsPrefix(sizes: seq<nat>, s: nat, b: seq<bool>, n: nat)
    requires n <= |b|
    ensures Starts(sizes, s, b[..n]) ==> Starts(sizes, s, b)
  {
    hide CodeWord;
  }

  /** In a complete code every long enough bit string starts with a code word. */
  lemma CompleteDecodes(sizes: seq<nat>, b: seq<bool>) returns (s: nat)
    requires Complete(sizes) && |b| >= MAX_CODE_SIZE
    ensures Starts(sizes, s, b)
  {
    hide First, Count, Pow2, MsbValue, Starts, Fits, Complete;
    CompleteFits(sizes);
    CompleteTop(sizes);
    var c := b[..MAX_CODE_SIZE];
    var found;
    found, s := Walk(sizes, c);
    MsbValueBound(c);
    StartsPrefix(sizes, s, b, MAX_CODE_SIZE);
  }

  // ----- the Kraft sum -----

  lemma {:induction false} KraftDouble(sizes: seq<nat>, n: nat, top: nat)
    requires n <= |sizes|
    ensures Kraft(sizes, n, top + 1) == 2 * Kraft(sizes, n, top) + CountTo(sizes, n, top + 1)
  {
    if n > 0 {
      KraftDouble(sizes, n - 1, top);
    }
  }

  lemma {:induction false} KraftZero(sizes: seq<nat>, n: nat)
    requires n <= |sizes|
    ensures Kraft(sizes, n, 0) == 0
  {
    if n > 0 {
      KraftZero(sizes, n - 1);
    }
  }

  /** The running total of the table build is the Kraft sum. */
  lemma {:induction false} FirstIsKraft(sizes: seq<nat>, l: nat)
    ensures First(sizes, l + 1) == 2 * Kraft(sizes, |sizes|, l)
  {
    if l == 0 {
      KraftZero(sizes, |sizes|);
    } else {
      FirstIsKraft(sizes, l - 1);
      KraftDouble(sizes, |sizes|, l - 1);
    }
  }

  // ----- codes with at most one symbol -----

  lemma {:induction false} KraftAtMostUsed(sizes: seq<nat>, n: nat, top: nat)
    requires n <= |sizes| && top > 0 && Used(sizes, n) <= 1
    ensures Kraft(sizes, n, top) <= if Used(sizes, n) == 0 then 0 else Pow2(top - 1)
  {
    if n > 0 {
      KraftAtMostUsed(sizes, n - 1, top);
      if 0 < sizes[n - 1] <= top {
        Pow2Monotonic(top - sizes[n - 1], top - 1);
      }
    }
  }

  lemma SingleFits(sizes: seq<nat>)
    requires forall i :: 0 <= i < |sizes| ==> sizes[i] <= MAX_CODE_SIZE
    requires Used(sizes, |sizes|) <= 1
    ensures Fits(sizes)
  {
    forall l | 1 <= l <= MAX_CODE_SIZE
      ensures First(sizes, l) + Count(sizes, l) <= Pow2(l)
    {
      FirstIsKraft(sizes, l);
      assert First(sizes, l + 1) == 2 * (First(sizes, l) + Count(sizes, l));
      KraftAtMostUsed(sizes, |sizes|, l);
      Pow2Monotonic(l - 1, l);
    }
  }

  /** The test tinfl makes before it uses a table. */
  ghost predicate Acceptable(sizes: seq<nat>) {
    && (forall i :: 0 <= i < |sizes| ==> sizes[i] <= MAX_CODE_SIZE)
    && (First(sizes, MAX_CODE_SIZE + 1) == 65536 || Used(sizes, |sizes|) <= 1)
  }

  lemma AcceptableFits(sizes: seq<nat>)
    requires Acceptable(sizes)
    ensures Fits(sizes)
  {
    if Used(sizes, |sizes|) <= 1 {
      SingleFits(sizes);
    } else {
      CompleteFits(sizes);
    }
  }

  lemma {:induction false} UsedNone(sizes: seq<nat>, n: nat)
    requires n <= |sizes| && forall i :: 0 <= i < n ==> sizes[i] == 0
    ensures Used(sizes, n) == 0
  {
    if n > 0 {
      UsedNone(sizes, n - 1);
    }
  }

  lemma {:induction false} UsedAtMostOne(sizes: seq<nat>, n: nat)
    requires n <= |sizes|
    requires forall i, j :: 0 <= i < n && 0 <= j < n && sizes[i] > 0 && sizes[j] > 0 ==> i == j
    ensures Used(sizes, n) <= 1
  {
    if n > 0 {
      if sizes[n - 1] > 0 {
        UsedNone(sizes, n - 1);
      } else {
        UsedAtMostOne(sizes, n - 1);
      }
    }
  }

  lemma {:induction false} UsedUnique(sizes: seq<nat>, n: nat, s: nat, t: nat)
    requires s < t < n <= |sizes| && sizes[s] > 0 && sizes[t] > 0
    ensures Used(sizes, n) >= 2
  {
    if t == n - 1 {
      UsedSome(sizes, n - 1, s);
    } else {
      UsedUnique(sizes, n - 1, s, t);
    }
  }

  lemma {:induction false} UsedSome(sizes: seq<nat>, n: nat, s: nat)
    requires s < n <= |sizes| && sizes[s] > 0
    ensures Used(sizes, n) >= 1
  {
    if s < n - 1 {
      UsedSome(sizes, n - 1, s);
    }
  }

  /** Two code words that start the same string are the same code word. */
  lemma OneStarts(z: seq<nat>, s: nat, t: nat, b: seq<bool>)
    requires Fits(z) && Starts(z, s, b) && Starts(z, t, b)
    ensures s == t
  {
    var v, w := CodeWord(z, s), CodeWord(z, t);
    if |v| <= |w| {
      assert v == w[..|v|] by {
        assert v == b[..|v|] && w == b[..|w|];
      }
      PrefixFree(z, s, t);
    } else {
      assert w == v[..|w|] by {
        assert v == b[..|v|] && w == b[..|w|];
      }
      PrefixFree(z, t, s);
    }
  }
}
