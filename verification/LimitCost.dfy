/** What limiting the code lengths costs.  Lengths are only ever raised near the limit, and the symbols there are light,
    so a limited code is not much dearer than an optimal one. */
module LimitCost {
  import opened Bits
  import opened HuffmanTree
  import opened HuffmanOptimal
  import opened HuffmanLevels
  import opened LimitLengths

  /** The counts of these lengths. */
  ghost predicate Counted(c: seq<int>, lens: seq<nat>) {
    |c| == COUNTS && NonNegative(c) && forall d :: 0 <= d < COUNTS ==> CountedAt(c, lens, d)
  }

  /** How many are longer than d, and what the others take of the Kraft sum. */
  ghost predicate CountedAt(c: seq<int>, lens: seq<nat>, d: nat)
    requires |c| == COUNTS && d < COUNTS
  {
    Symbols(c, d + 1, COUNTS) == Above(lens, d) && KraftCounts(c, d) == KraftSum(lens, d)
  }

  /** The cost of the bits up to depth d: at every depth, the weight of the symbols that are deeper. */
  function Levels(w: seq<nat>, lens: seq<nat>, d: nat): nat
    requires |w| == |lens|
  {
    if d == 0 then 0 else Levels(w, lens, d - 1) + Sum(w, 0, Above(lens, d - 1))
  }

  lemma {:induction false} LevelsFirst(w: seq<nat>, lens: seq<nat>, d: nat)
    requires |w| == |lens| > 0 && Descending(lens)
    ensures Levels(w, lens, d) == w[0] * (if lens[0] <= d then lens[0] else d) + Levels(w[1..], lens[1..], d)
  {
    hide Sum;
    if d > 0 {
      LevelsFirst(w, lens, d - 1);
      if lens[0] >= d {
        SumRest(w, 1 + Above(lens[1..], d - 1));
      } else {
        NoneAbove(lens[1..], d - 1);
        SumEmpty(w, 0);
        SumEmpty(w[1..], 0);
      }
    }
  }

  lemma SumRest(w: seq<nat>, k: nat)
    requires 0 < k <= |w|
    ensures Sum(w, 0, k) == w[0] + Sum(w[1..], 0, k - 1)
  {
    SumFirst(w, 0, k);
    SumShift(w, k);
  }

  lemma {:induction false} SumShift(w: seq<nat>, k: nat)
    requires 0 < k <= |w|
    ensures Sum(w, 1, k) == Sum(w[1..], 0, k - 1)
  {
    if k > 1 {
      SumShift(w, k - 1);
    }
  }

  lemma {:induction false} LevelsAtMost(w: seq<nat>, lens: seq<nat>, d: nat)
    requires |w| == |lens| && Descending(lens)
    ensures Levels(w, lens, d) <= Charge(w, lens)
  {
    hide Levels;
    if w == [] {
      LevelsNone(d);
    } else {
      LevelsFirst(w, lens, d);
      LevelsAtMost(w[1..], lens[1..], d);
      var l := if lens[0] <= d then lens[0] else d;
      MulMonotonic(l, lens[0], w[0]);
    }
  }

  lemma {:induction false} LevelsNone(d: nat)
    ensures Levels([], [], d) == 0
  {
    if d > 0 {
      LevelsNone(d - 1);
    }
  }

  /** The same for counts of lengths up to max. */
  function LevelsOf(w: seq<nat>, c: seq<int>, max: nat, d: nat): nat
    requires max < |c| && d <= max + 1 && NonNegative(c) && Symbols(c, 1, max + 1) == |w|
  {
    if d == 0 then 0
    else
      TailSymbols(c, d - 1, max);
      LevelsOf(w, c, max, d - 1) + Sum(w, 0, Symbols(c, d, max + 1))
  }

  lemma TailSymbols(c: seq<int>, d: nat, max: nat)
    requires d <= max < |c| && NonNegative(c)
    ensures 0 <= Symbols(c, d + 1, max + 1) <= Symbols(c, 1, max + 1)
  {
    SymbolsNonNegative(c, d + 1, max + 1);
    SymbolsNonNegative(c, 1, d + 1);
    SymbolsSplit(c, 1, d + 1, max + 1);
  }

  // ----- which levels limiting changes -----

  lemma SameTail(before: seq<int>, after: seq<int>, max: nat, d: nat)
    requires |before| == COUNTS && max < COUNTS && |after| == COUNTS && d <= max && NonNegative(before)
      && NonNegative(after)
    requires Symbols(after, 1, max + 1) == Symbols(before, 1, COUNTS) && forall j ::
      1 <= j <= d ==> after[j] == before[j]
    ensures Symbols(after, d + 1, max + 1) == Symbols(before, d + 1, COUNTS)
  {
    SymbolsSplit(after, 1, d + 1, max + 1);
    SymbolsSplit(before, 1, d + 1, COUNTS);
    SymbolsSame(before, after, 1, d + 1);
  }

  /** Levels below the first length that was split cost what they did before. */
  lemma {:induction false} LevelsKept(w: seq<nat>, lens: seq<nat>, before: seq<int>, after: seq<int>, max: nat, d: nat)
    requires Counted(before, lens) && |w| == |lens| && max < COUNTS && |after| == COUNTS && d <= max
      && NonNegative(after)
    requires Symbols(after, 1, max + 1) == Symbols(before, 1, COUNTS) == |w|
    requires forall j :: 1 <= j < d ==> after[j] == before[j]
    ensures LevelsOf(w, after, max, d) == Levels(w, lens, d)
  {
    if d > 0 {
      assert CountedAt(before, lens, d - 1);
      LevelsKept(w, lens, before, after, max, d - 1);
      SameTail(before, after, max, d - 1);
    }
  }

  /** From there on every level costs at most what the first one does. */
  lemma {:induction false} LevelsRaised(w: seq<nat>, c: seq<int>, max: nat, low: nat, d: nat)
    requires 1 <= low <= d <= max < |c| && NonNegative(c) && Symbols(c, 1, max + 1) == |w|
    ensures 0 <= Symbols(c, low + 1, max + 1) <= |w|
    ensures LevelsOf(w, c, max, d) <= LevelsOf(w, c, max, low) + (d - low) * Sum(w, 0, Symbols(c, low + 1, max + 1))
  {
    TailSymbols(c, low, max);
    if low < d {
      LevelsRaised(w, c, max, low, d - 1);
      TailSymbols(c, d - 1, max);
      SymbolsSplit(c, low + 1, d, max + 1);
      SymbolsNonNegative(c, low + 1, d);
      SumSplit(w, 0, Symbols(c, d, max + 1), Symbols(c, low + 1, max + 1));
      MulDistributes(d - 1 - low, 1, Sum(w, 0, Symbols(c, low + 1, max + 1)));
    }
  }

  lemma {:induction false} LightSum(w: seq<nat>, lo: nat, hi: nat, f: nat, total: nat)
    requires lo <= hi <= |w| && forall i :: lo <= i < hi ==> w[i] * f <= total
    ensures Sum(w, lo, hi) * f <= (hi - lo) * total
  {
    if lo < hi {
      LightSum(w, lo, hi - 1, f, total);
      MulDistributes(Sum(w, lo, hi - 1), w[hi - 1], f);
      MulDistributes(hi - 1 - lo, 1, total);
    }
  }

  /** The symbols below the first split length weigh little. */
  lemma SplitLight(w: seq<nat>, lens: seq<nat>, before: seq<int>, after: seq<int>, max: nat, low: nat)
    requires Counted(before, lens) && |w| == |lens| && Ascending(w) && 1 <= low < max < COUNTS && NonNegative(after)
    requires |after| == COUNTS && Symbols(after, 1, max + 1) == Symbols(before, 1, COUNTS) == |w|
    requires (forall j :: 1 <= j < low ==> after[j] == before[j]) && after[low] <= before[low]
    requires LightBelow(w, lens, low) && LightBelow(w, lens, low - 1)
    ensures 0 <= Symbols(after, low + 1, max + 1) <= |w|
    ensures Sum(w, 0, Symbols(after, low + 1, max + 1)) * Fib(low)
      <= (Pow2(low) - KraftCounts(after, low)) * Sum(w, 0, |w|)
  {
    hide Fib, Sum, Pow2, KraftCounts, Symbols, Above, KraftSum, NonNegative, Counted, Ascending, LightBelow;
    SplitCounts(lens, before, after, max, low);
    var a, b := Above(lens, low), Symbols(after, low + 1, max + 1);
    FibNext(low);
    LightFacts(w, lens, low);
    LightFacts(w, lens, low - 1);
    LightTwo(w, a, b, Above(lens, low - 1), Fib(low + 1), Fib(low), Pow2(low) - KraftSum(lens, low), Sum(w, 0, |w|));
  }

  lemma LightFacts(w: seq<nat>, lens: seq<nat>, d: nat)
    requires |w| == |lens| && LightBelow(w, lens, d)
    ensures Sum(w, 0, Above(lens, d)) * Fib(d + 1) <= (Pow2(d) - KraftSum(lens, d)) * Sum(w, 0, |w|)
    ensures Above(lens, d) > 0 ==> w[Above(lens, d) - 1] * Fib(d + 1) <= Sum(w, 0, |w|)
  {
  }

  lemma LightTwo(w: seq<nat>, a: nat, b: nat, k: nat, f: nat, g: nat, x: int, total: nat)
    requires a <= b <= k <= |w| && Ascending(w) && g <= f
    requires Sum(w, 0, a) * f <= x * total && (k > 0 ==> w[k - 1] * g <= total)
    ensures Sum(w, 0, b) * g <= (x + b - a) * total
  {
    hide Sum;
    forall i | a <= i < b
      ensures w[i] * g <= total
    {
      MulMonotonic(w[i], w[k - 1], g);
    }
    LightSum(w, a, b, g, total);
    hide *;
    SumSplit(w, 0, a, b);
    MulDistributes(Sum(w, 0, a), Sum(w, a, b), g);
    MulMonotonic(g, f, Sum(w, 0, a));
    MulDistributes(x, b - a, total);
  }

  lemma FibNext(k: nat)
    requires k >= 1
    ensures 1 <= Fib(k) <= Fib(k + 1)
  {
    FibMonotonic(1, k);
    FibMonotonic(k, k + 1);
  }

  lemma SplitCounts(lens: seq<nat>, before: seq<int>, after: seq<int>, max: nat, low: nat)
    requires Counted(before, lens) && 1 <= low < max < COUNTS && NonNegative(after)
    requires |after| == COUNTS && Symbols(after, 1, max + 1) == Symbols(before, 1, COUNTS) == |lens|
    requires (forall j :: 1 <= j < low ==> after[j] == before[j]) && after[low] <= before[low]
    ensures Symbols(after, low + 1, max + 1) == Above(lens, low) + before[low] - after[low] <= Above(lens, low - 1)
      <= |lens|
    ensures KraftCounts(after, low) == KraftSum(lens, low) - (before[low] - after[low])
    ensures KraftCounts(before, low) == KraftSum(lens, low)
  {
    assert CountedAt(before, lens, low) && CountedAt(before, lens, low - 1);
    SameTail(before, after, max, low - 1);
    SymbolsSplit(after, low, low + 1, max + 1);
    SymbolsSplit(before, low, low + 1, COUNTS);
    assert Symbols(after, low, low) == 0 && Symbols(before, low, low) == 0;
    KraftSame(before, after, low - 1);
  }

  // ----- the bound -----

  /** What the split levels can cost, for at most 288 symbols and a limit of 15. */
  lemma RaisedBound(low: nat, left: int, x: nat, total: nat)
    requires 7 <= low < 15 && (left - 1) * Pow2(15 - low) < 288 && x * Fib(low) <= left * total
    ensures 2 * (15 - low) * x <= 3 * total
  {
    hide *;
    LeftBound(low, left);
    LowFib(low);
    var n, f := 2 * (15 - low), Fib(low);
    MulMonotonic(n * left, 3 * f, total);
    Scale(n, x, f, left, total);
  }

  lemma Scale(n: nat, x: nat, f: nat, left: int, total: nat)
    requires f >= 1 && x * f <= left * total && (n * left) * total <= (3 * f) * total
    ensures n * x <= 3 * total
  {
    MulMonotonic(x * f, left * total, n);
    MulAssoc(n, x, f);
    MulAssoc(n, left, total);
    assert (n * x) * f <= (3 * total) * f by {
      MulAssoc(3, f, total);
      MulAssoc(3, total, f);
    }
    if n * x > 3 * total {
      MulMonotonic(3 * total + 1, n * x, f);
      MulDistributes(3 * total, 1, f);
    }
  }

  lemma LowFib(low: nat)
    requires 7 <= low < 15
    ensures Fib(low) == (match low case 7 => 13 case 8 => 21 case 9 => 34 case 10 => 55 case 11 => 89 case 12 => 144
                         case 13 => 233 case _ => 377)
  {
    assert Fib(7) == 13 && Fib(8) == 21;
    assert Fib(9) == 34 && Fib(10) == 55;
    assert Fib(11) == 89 && Fib(12) == 144;
    assert Fib(13) == 233 && Fib(14) == 377;
  }

  lemma LeftBound(low: nat, left: int)
    requires 7 <= low < 15 && (left - 1) * Pow2(15 - low) < 288
    ensures left <= (match low case 7 => 2 case 8 => 3 case 9 => 5 case 10 => 9 case 11 => 18 case 12 => 36
                     case 13 => 72 case _ => 144)
  {
    Pow2Values();
  }

  lemma {:induction false} SomeAbove(lens: seq<nat>, d: nat) returns (i: nat)
    requires Above(lens, d) > 0
    ensures i < |lens| && lens[i] > d
  {
    if lens[0] > d {
      i := 0;
    } else {
      var k := SomeAbove(lens[1..], d);
      i := k + 1;
    }
  }

  lemma {:induction false} AboveFewer(lens: seq<nat>, d: nat, e: nat)
    requires d <= e
    ensures Above(lens, e) <= Above(lens, d)
  {
    if lens != [] {
      AboveFewer(lens[1..], d, e);
    }
  }

  /** With longer codes than the limit, something is left below every level, and a split leaves more. */
  lemma LeftBehind(w: seq<nat>, lens: seq<nat>, low: nat)
    requires |w| == |lens| && LightBelow(w, lens, low) && Above(lens, low) > 0 && forall i :: 0 <= i < |w| ==> w[i] > 0
    ensures Pow2(low) - KraftSum(lens, low) >= 1
  {
    hide LightBelow, KraftSum, Pow2, Fib, Above;
    LightFacts(w, lens, low);
    var a, d, total := Above(lens, low), Pow2(low) - KraftSum(lens, low), Sum(w, 0, |w|);
    SumMember(w, 0, a, 0);
    FibNext(low + 1);
    MulMonotonic(1, Sum(w, 0, a), Fib(low + 1));
    assert d * total >= 1;
    if d <= 0 {
      MulMonotonic(d, 0, total);
    }
  }

  lemma LowBound(low: nat, left: int)
    requires low < 15 && left >= 2 && (left - 1) * Pow2(15 - low) < 288
    ensures low >= 7
  {
    Pow2Values();
    if low < 7 {
      Pow2Monotonic(9, 15 - low);
      hide Pow2;
      MulMonotonic(1, left - 1, Pow2(15 - low));
    }
  }

  /** Where the repair has split, the levels that cost more are light. */
  lemma SplitCost(w: seq<nat>, lens: seq<nat>, before: seq<int>, after: seq<int>, low: nat)
    requires Counted(before, lens) && |w| == |lens| <= 288 && Ascending(w) && forall i :: 0 <= i < |w| ==> w[i] > 0
    requires LightTails(w, lens) && SplitFrom(before, after, 15, low, |w|) && low < 15
    requires |before| == |after| == COUNTS && NonNegative(after)
    requires Symbols(after, 1, 16) == Symbols(before, 1, COUNTS) == |w|
    ensures 0 <= Symbols(after, low + 1, 16) <= |w|
    ensures 2 * (15 - low) * Sum(w, 0, Symbols(after, low + 1, 16)) <= 3 * Sum(w, 0, |w|)
  {
    hide Sum, Fib, Pow2, KraftCounts, Symbols, Above, KraftSum, NonNegative, Ascending, LightBelow, Counted, LightTails;
    DeepTails(w, lens, before, low);
    SplitLight(w, lens, before, after, 15, low);
    SplitCounts(lens, before, after, 15, low);
    LeftBehind(w, lens, low);
    LowBound(low, Pow2(low) - KraftCounts(after, low));
    RaisedBound(low, Pow2(low) - KraftCounts(after, low), Sum(w, 0, Symbols(after, low + 1, 16)), Sum(w, 0, |w|));
  }

  lemma DeepTails(w: seq<nat>, lens: seq<nat>, before: seq<int>, low: nat)
    requires |before| == COUNTS && Counted(before, lens) && Symbols(before, 16, COUNTS) > 0 && LightTails(w, lens)
      && 1 <= low < 15
    ensures Above(lens, low) > 0 && LightBelow(w, lens, low) && LightBelow(w, lens, low - 1)
  {
    hide LightBelow, Symbols, KraftCounts;
    assert CountedAt(before, lens, 15);
    var i := SomeAbove(lens, 15);
    AboveFewer(lens, low, 15);
  }

  /** A code limited to 15 bits costs at most one and a half bits a symbol more than the code it was made from. */
  lemma LimitedCost(w: seq<nat>, lens: seq<nat>, before: seq<int>, after: seq<int>, low: nat)
    requires Counted(before, lens) && |w| == |lens| <= 288 && Ascending(w) && forall i :: 0 <= i < |w| ==> w[i] > 0
    requires Descending(lens) && LightTails(w, lens) && SplitFrom(before, after, 15, low, |w|)
    requires |before| == |after| == COUNTS && NonNegative(after)
    requires Symbols(after, 1, 16) == Symbols(before, 1, COUNTS) == |w|
    ensures 2 * LevelsOf(w, after, 15, 15) <= 2 * Charge(w, lens) + 3 * Sum(w, 0, |w|)
  {
    hide Sum, Pow2, KraftCounts, Symbols, NonNegative, Ascending, LightTails, Levels, LevelsOf, Charge, Descending,
      Counted;
    LevelsKept(w, lens, before, after, 15, low);
    LevelsAtMost(w, lens, low);
    if low < 15 {
      SplitCost(w, lens, before, after, low);
      LevelsRaised(w, after, 15, low, 15);
      Twice(15 - low, Sum(w, 0, Symbols(after, low + 1, 16)));
    }
  }

  /** Lengths with these counts, the shorter ones for the heavier symbols, cost at most one and a half bits a symbol
      more than any prefix code. */
  ghost predicate NearMinimal(w: seq<nat>, c: seq<int>, max: nat) {
    && max < |c| && NonNegative(c) && Symbols(c, 1, max + 1) == |w|
    && forall q, top :: Code(q, top) && multiset(Weights(q)) == multiset(w) ==>
         2 * LevelsOf(w, c, max, max) <= 2 * Cost(q) + 3 * Sum(w, 0, |w|)
  }

  lemma LimitedNearMinimal(w: seq<nat>, lens: seq<nat>, before: seq<int>, after: seq<int>, low: nat)
    requires Counted(before, lens) && |w| == |lens| <= 288 && Ascending(w) && forall i :: 0 <= i < |w| ==> w[i] > 0
    requires Descending(lens) && LightTails(w, lens) && Minimal(w, lens) && SplitFrom(before, after, 15, low, |w|)
    requires |before| == |after| == COUNTS && NonNegative(after)
    requires Symbols(after, 1, 16) == Symbols(before, 1, COUNTS) == |w|
    ensures NearMinimal(w, after, 15)
  {
    LimitedCost(w, lens, before, after, low);
    hide *;
    CompareAll(w, lens, after);
  }

  lemma CompareAll(w: seq<nat>, lens: seq<nat>, c: seq<int>)
    requires 15 < |c| && NonNegative(c) && Symbols(c, 1, 16) == |w| && Minimal(w, lens)
    requires 2 * LevelsOf(w, c, 15, 15) <= 2 * Charge(w, lens) + 3 * Sum(w, 0, |w|)
    ensures NearMinimal(w, c, 15)
  {
    hide NonNegative, Symbols, LevelsOf, Charge, Sum, Code, Weights, Cost;
  }

  /** One symbol has one bit, which is not much more than none. */
  lemma OneNearMinimal(w: seq<nat>, c: seq<int>)
    requires |w| < 2 && 15 < |c| && NonNegative(c) && Symbols(c, 1, 2) == Symbols(c, 1, 16) == |w|
    ensures NearMinimal(w, c, 15)
  {
    assert LevelsOf(w, c, 15, 1) == Sum(w, 0, |w|);
    OneLevel(w, c, 15);
    hide Symbols, LevelsOf, Sum;
  }

  lemma {:induction false} OneLevel(w: seq<nat>, c: seq<int>, d: nat)
    requires 1 <= d <= 15 < |c| && NonNegative(c) && Symbols(c, 1, 2) == Symbols(c, 1, 16) == |w|
    ensures LevelsOf(w, c, 15, d) == Sum(w, 0, |w|)
  {
    if d > 1 {
      OneLevel(w, c, d - 1);
      SymbolsSplit(c, 1, 2, 16);
      SymbolsSplit(c, 2, d, 16);
      SymbolsNonNegative(c, 2, d);
      TailSymbols(c, d - 1, 15);
      SumEmpty(w, 0);
    } else {
      assert LevelsOf(w, c, 15, 0) == 0;
    }
  }
}
