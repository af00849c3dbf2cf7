/** Codes as sets of bit strings: any strings none of which is a prefix of another meet Kraft's inequality, so what is
    optimal among lengths that meet it is optimal among all prefix codes. */
module PrefixCodes {
  import opened Bits
  import opened Sums
  import opened HuffmanTree
  import opened HuffmanOptimal
  import opened SymbolCounts

  ghost predicate Apart(x: seq<bool>, y: seq<bool>) {
    !(x <= y) && !(y <= x)
  }

  /** No word is a prefix of another one. */
  ghost predicate Free(words: seq<seq<bool>>) {
    forall i, j :: 0 <= i < j < |words| ==> Apart(words[i], words[j])
  }

  function WordUnit(top: nat): seq<bool> -> nat {
    (x: seq<bool>) => Share(|x|, top)
  }

  /** What follows the first bit of the words that start with b. */
  function Tails(words: seq<seq<bool>>, b: bool): (t: seq<seq<bool>>)
    ensures |t| <= |words|
  {
    if words == [] then []
    else
      var last := words[|words| - 1];
      Tails(words[..|words| - 1], b) + (if last != [] && last[0] == b then [last[1..]] else [])
  }

  lemma {:induction false} TailsMember(words: seq<seq<bool>>, b: bool, k: nat) returns (i: nat)
    requires k < |Tails(words, b)|
    ensures i < |words| && words[i] == [b] + Tails(words, b)[k]
  {
    var init, last := words[..|words| - 1], words[|words| - 1];
    if k < |Tails(init, b)| {
      i := TailsMember(init, b, k);
    } else {
      i := |words| - 1;
      assert last == [last[0]] + last[1..];
    }
  }

  lemma {:induction false} TailsFree(words: seq<seq<bool>>, b: bool)
    requires Free(words)
    ensures Free(Tails(words, b))
  {
    if words != [] {
      var init, last := words[..|words| - 1], words[|words| - 1];
      TailsFree(init, b);
      var t := Tails(init, b);
      if last != [] && last[0] == b {
        forall k | 0 <= k < |t|
          ensures Apart(t[k], last[1..])
        {
          var i := TailsMember(init, b, k);
          assert Apart(words[i], last);
          TailsApart(b, t[k], last[1..]);
        }
      }
    }
  }

  lemma TailsApart(b: bool, x: seq<bool>, y: seq<bool>)
    ensures Apart([b] + x, [b] + y) ==> Apart(x, y)
  {
    if x <= y {
      assert [b] + x <= [b] + y;
    }
    if y <= x {
      assert [b] + y <= [b] + x;
    }
  }

  lemma TailsShort(words: seq<seq<bool>>, b: bool, top: nat)
    requires top > 0 && forall i :: 0 <= i < |words| ==> |words[i]| <= top
    ensures forall k :: 0 <= k < |Tails(words, b)| ==> |Tails(words, b)[k]| <= top - 1
  {
    hide Tails;
    forall k | 0 <= k < |Tails(words, b)|
      ensures |Tails(words, b)[k]| <= top - 1
    {
      var i := TailsMember(words, b, k);
    }
  }

  lemma {:induction false} TailsSum(words: seq<seq<bool>>, top: nat)
    requires top > 0 && forall i :: 0 <= i < |words| ==> 0 < |words[i]| <= top
    ensures SumOf(words, WordUnit(top))
         == SumOf(Tails(words, false), WordUnit(top - 1)) + SumOf(Tails(words, true), WordUnit(top - 1))
  {
    hide Pow2, Tails, SumOf, WordUnit;
    if words != [] {
      var init, last := words[..|words| - 1], words[|words| - 1];
      TailsSum(init, top);
      TailsNext(words);
      SumPush(Tails(init, last[0]), last[1..], WordUnit(top - 1));
      SumLast(words, WordUnit(top));
      SameUnit(last, top);
    } else {
      NoTails(top);
    }
  }

  lemma SameUnit(x: seq<bool>, top: nat)
    requires 0 < |x| <= top
    ensures WordUnit(top)(x) == WordUnit(top - 1)(x[1..])
  {
    hide Pow2;
  }

  lemma NoTails(top: nat)
    requires top > 0
    ensures SumOf([], WordUnit(top)) == 0 == SumOf([], WordUnit(top - 1)) && forall b :: Tails([], b) == []
  {
  }

  lemma TailsNext(words: seq<seq<bool>>)
    requires words != [] && words[|words| - 1] != []
    ensures var init, last := words[..|words| - 1], words[|words| - 1];
      && Tails(words, last[0]) == Tails(init, last[0]) + [last[1..]]
      && Tails(words, !last[0]) == Tails(init, !last[0])
  {
  }

  lemma SumLast(words: seq<seq<bool>>, f: seq<bool> -> nat)
    requires words != []
    ensures SumOf(words, f) == SumOf(words[..|words| - 1], f) + f(words[|words| - 1])
  {
  }

  /** Kraft's inequality. */
  lemma {:induction false} Kraft(words: seq<seq<bool>>, top: nat)
    requires Free(words) && forall i :: 0 <= i < |words| ==> |words[i]| <= top
    ensures SumOf(words, WordUnit(top)) <= Pow2(top)
    decreases top
  {
    hide SumOf, Tails, WordUnit;
    if i :| 0 <= i < |words| && words[i] == [] {
      OnlyWord(words, i);
      EmptyShare(top);
    } else if words == [] {
      NoTails(top + 1);
    } else {
      assert 0 < |words[0]| <= top;
      TailsSum(words, top);
      TailsFree(words, false);
      TailsFree(words, true);
      TailsShort(words, false, top);
      TailsShort(words, true, top);
      Kraft(Tails(words, false), top - 1);
      Kraft(Tails(words, true), top - 1);
    }
  }

  lemma NoneEmpty(words: seq<seq<bool>>, i: nat, j: nat)
    requires Free(words) && i < j < |words|
    ensures words[i] != [] && words[j] != []
  {
    assert Apart(words[i], words[j]);
  }

  /** The empty word is alone. */
  lemma OnlyWord(words: seq<seq<bool>>, i: nat)
    requires Free(words) && i < |words| && words[i] == []
    ensures words == [[]]
  {
    if i > 0 {
      NoneEmpty(words, 0, i);
    } else if |words| > 1 {
      NoneEmpty(words, 0, 1);
    }
  }

  lemma EmptyShare(top: nat)
    ensures SumOf([[]], WordUnit(top)) == Pow2(top)
  {
    var none: seq<seq<bool>> := [];
    SumPush(none, [], WordUnit(top));
    assert none + [[]] == [[]];
  }

  // ----- what it costs to send words -----

  /** Each symbol's weight and the length of its word. */
  function Lengths(w: seq<nat>, words: seq<seq<bool>>): (q: seq<Leaf>)
    requires |words| == |w|
    ensures |q| == |w| && Weights(q) == w
  {
    var q := seq(|w|, i requires 0 <= i < |w| => Leaf(w[i], |words[i]|));
    assert Weights(q) == w;
    q
  }

  lemma {:induction false} LengthsSum(w: seq<nat>, words: seq<seq<bool>>, top: nat)
    requires |words| == |w|
    ensures SumOf(Lengths(w, words), Unit(top)) == SumOf(words, WordUnit(top))
  {
    if w != [] {
      var n := |w| - 1;
      LengthsSum(w[..n], words[..n], top);
      assert Lengths(w, words)[..n] == Lengths(w[..n], words[..n]);
    }
  }

  lemma LongestWord(words: seq<seq<bool>>) returns (top: nat)
    ensures forall i :: 0 <= i < |words| ==> |words[i]| <= top
  {
    top := 0;
    for i := 0 to |words|
      invariant forall k :: 0 <= k < i ==> |words[k]| <= top
    {
      if |words[i]| > top {
        top := |words[i]|;
      }
    }
  }

  /** No prefix code costs less than what the merging loop adds up. */
  lemma OptimalWords(w: seq<nat>, words: seq<seq<bool>>)
    requires Input(w) && |words| == |w| && Free(words)
    ensures Sum(MergeAt(w, |w| - 1).weight, 0, |w| - 1) <= Cost(Lengths(w, words))
  {
    hide Free, Input, SumOf, MergeAt;
    var top := LongestWord(words);
    Kraft(words, top);
    LengthsSum(w, words, top);
    Optimal(w, Lengths(w, words), top);
  }

  // ----- tables -----

  /** The words of the first n symbols, of those that occur. */
  function UsedWords(counts: seq<nat>, words: seq<seq<bool>>, n: nat): (u: seq<seq<bool>>)
    requires n <= |counts| == |words|
  {
    if n == 0 then []
    else UsedWords(counts, words, n - 1) + (if counts[n - 1] > 0 then [words[n - 1]] else [])
  }

  /** No word of a symbol that occurs is a prefix of another one. */
  ghost predicate FreeWords(counts: seq<nat>, words: seq<seq<bool>>) {
    && |words| == |counts|
    && forall s, t :: 0 <= s < t < |counts| && counts[s] > 0 && counts[t] > 0 ==> Apart(words[s], words[t])
  }

  lemma {:induction false} UsedMember(counts: seq<nat>, words: seq<seq<bool>>, n: nat, k: nat) returns (s: nat)
    requires n <= |counts| == |words| && k < |UsedWords(counts, words, n)|
    ensures s < n && counts[s] > 0 && words[s] == UsedWords(counts, words, n)[k]
  {
    if k < |UsedWords(counts, words, n - 1)| {
      s := UsedMember(counts, words, n - 1, k);
    } else {
      s := n - 1;
    }
  }

  lemma {:induction false} UsedFree(counts: seq<nat>, words: seq<seq<bool>>, n: nat)
    requires FreeWords(counts, words) && n <= |counts|
    ensures Free(UsedWords(counts, words, n))
  {
    if n > 0 {
      UsedFree(counts, words, n - 1);
      var u := UsedWords(counts, words, n - 1);
      forall k | 0 <= k < |u| && counts[n - 1] > 0
        ensures Apart(u[k], words[n - 1])
      {
        var s := UsedMember(counts, words, n - 1, k);
      }
    }
  }

  function WordLengths(words: seq<seq<bool>>): (m: seq<nat>)
    ensures |m| == |words| && forall s :: 0 <= s < |m| ==> m[s] == |words[s]|
  {
    seq(|words|, s requires 0 <= s < |words| => |words[s]|)
  }

  lemma {:induction false} UsedWordsSum(counts: seq<nat>, words: seq<seq<bool>>, top: nat, n: nat)
    requires n <= |counts| == |words|
    ensures SumOf(UsedWords(counts, words, n), WordUnit(top)) == UsedKraft(counts, WordLengths(words), top, n)
  {
    if n > 0 {
      UsedWordsSum(counts, words, top, n - 1);
      hide SumOf, Pow2;
      var u := UsedWords(counts, words, n - 1);
      SumPush(u, words[n - 1], WordUnit(top));
      assert u + [] == u;
    }
  }

  /** A table that is near optimal is so against every prefix code, not only against lengths. */
  lemma NearOptimalWords(counts: seq<nat>, sizes: seq<nat>, words: seq<seq<bool>>)
    requires NearOptimal(counts, sizes) && FreeWords(counts, words)
    ensures 2 * TableCost(counts, sizes, |counts|)
         <= 2 * TableCost(counts, WordLengths(words), |counts|) + 3 * CountSum(counts, |counts|)
  {
    hide TableCost, CountSum, SumOf, UsedKraft;
    var n := |counts|;
    var top := LongestWord(words);
    UsedFree(counts, words, n);
    forall k | 0 <= k < |UsedWords(counts, words, n)|
      ensures |UsedWords(counts, words, n)[k]| <= top
    {
      var s := UsedMember(counts, words, n, k);
    }
    Kraft(UsedWords(counts, words, n), top);
    UsedWordsSum(counts, words, top, n);
    assert PrefixLengths(counts, WordLengths(words), top);
  }
}
