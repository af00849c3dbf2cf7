/** tdefl_huffman_enforce_max_code_size: clamps code lengths and repairs the Kraft sum.

    counts[i] is the number of symbols with code length i. */
module LimitLengths {
  import opened Bits

  const COUNTS := 33   // lengths 0..32, TDEFL_MAX_SUPPORTED_HUFF_CODESIZE = 32

  /** The Kraft sum of the lengths 1..k, in units of 2^-k. */
  function KraftCounts(counts: seq<int>, k: nat): int
    requires k < |counts|
  {
    if k == 0 then 0 else 2 * KraftCounts(counts, k - 1) + counts[k]
  }

  lemma KraftLast(counts: seq<int>, k: nat)
    requires 0 < k < |counts|
    ensures KraftCounts(counts, k) == 2 * KraftCounts(counts, k - 1) + counts[k]
  {
  }

  /** The number of symbols with lengths lo..hi-1. */
  function Symbols(counts: seq<int>, lo: nat, hi: nat): int
    requires lo <= hi <= |counts|
    decreases hi
  {
    if lo == hi then 0 else Symbols(counts, lo, hi - 1) + counts[hi - 1]
  }

  ghost predicate NonNegative(counts: seq<int>) {
    forall i :: 0 <= i < |counts| ==> counts[i] >= 0
  }

  lemma {:induction false} SymbolsSplit(counts: seq<int>, lo: nat, mid: nat, hi: nat)
    requires lo <= mid <= hi <= |counts|
    ensures Symbols(counts, lo, hi) == Symbols(counts, lo, mid) + Symbols(counts, mid, hi)
  {
    if mid < hi {
      SymbolsSplit(counts, lo, mid, hi - 1);
    }
  }

  lemma {:induction false} SymbolsNonNegative(counts: seq<int>, lo: nat, hi: nat)
    requires lo <= hi <= |counts| && NonNegative(counts)
    ensures Symbols(counts, lo, hi) >= 0
  {
    if lo < hi {
      SymbolsNonNegative(counts, lo, hi - 1);
    }
  }

  lemma {:induction false} SymbolsSame(c: seq<int>, d: seq<int>, lo: nat, hi: nat)
    requires lo <= hi <= |c| && hi <= |d|
    requires forall i :: lo <= i < hi ==> c[i] == d[i]
    ensures Symbols(c, lo, hi) == Symbols(d, lo, hi)
  {
    if lo < hi {
      SymbolsSame(c, d, lo, hi - 1);
    }
  }

  lemma {:induction false} KraftSame(c: seq<int>, d: seq<int>, k: nat)
    requires k < |c| && k < |d|
    requires forall i :: 1 <= i <= k ==> c[i] == d[i]
    ensures KraftCounts(c, k) == KraftCounts(d, k)
  {
    if k > 0 {
      KraftSame(c, d, k - 1);
    }
  }

  /** Changing one count by d changes the number of symbols by d. */
  lemma {:induction false} SymbolsUpdate(c: seq<int>, i: nat, v: int, lo: nat, hi: nat)
    requires lo <= i < hi <= |c|
    ensures Symbols(c[i := v], lo, hi) == Symbols(c, lo, hi) + v - c[i]
  {
    if i == hi - 1 {
      SymbolsSame(c, c[i := v], lo, hi - 1);
    } else {
      SymbolsUpdate(c, i, v, lo, hi - 1);
    }
  }

  /** Splitting one code of length i into two of length i + 1. */
  function Split(c: seq<int>, i: nat): seq<int>
    requires i + 1 < |c|
  {
    c[i := c[i] - 1][i + 1 := c[i + 1] + 2]
  }

  lemma {:induction false} SplitKeepsKraft(c: seq<int>, i: nat, k: nat)
    requires 1 <= i < k < |c|
    ensures KraftCounts(Split(c, i), k) == KraftCounts(c, k)
  {
    if k == i + 1 {
      KraftSame(c, Split(c, i), i - 1);
    } else {
      SplitKeepsKraft(c, i, k - 1);
    }
  }

  /** With Kraft equality at the deepest length, cutting at length k loses at most one unit per longer code. */
  lemma {:induction false} CutBounds(c: seq<int>, k: nat, deepest: nat)
    requires k <= deepest < |c| && NonNegative(c)
    requires KraftCounts(c, deepest) == Pow2(deepest)
    ensures KraftCounts(c, k) <= Pow2(k) <= KraftCounts(c, k) + Symbols(c, k + 1, deepest + 1)
    decreases deepest - k
  {
    if k < deepest {
      CutBounds(c, k + 1, deepest);
      SymbolsSplit(c, k + 1, k + 2, deepest + 1);
      SymbolsNonNegative(c, k + 2, deepest + 1);
      assert Symbols(c, k + 1, k + 2) == c[k + 1];
    }
  }

  /** When only the longest length is in use, the Kraft sum is the number of symbols. */
  lemma {:induction false} OnlyLongest(c: seq<int>, k: nat)
    requires k < |c| && forall i :: 1 <= i < k ==> c[i] == 0
    ensures k >= 1 ==> KraftCounts(c, k) == Symbols(c, 1, k + 1) == c[k]
  {
    if k > 1 {
      OnlyLongest(c, k - 1);
      assert Symbols(c, 1, k + 1) == Symbols(c, 1, k) + c[k];
    } else if k == 1 {
      assert KraftCounts(c, 0) == 0;
      assert Symbols(c, 1, 2) == Symbols(c, 1, 1) + c[1];
    }
  }

  lemma {:induction false} KraftBound(c: seq<int>, k: nat)
    requires k < |c| && NonNegative(c)
    ensures 0 <= KraftCounts(c, k) <= Symbols(c, 1, k + 1) * Pow2(k)
  {
    if k > 0 {
      KraftBound(c, k - 1);
      SymbolsNonNegative(c, 1, k);
      var s := Symbols(c, 1, k);
      MulDistributes(s, c[k], Pow2(k));
      MulAssoc(s, 2, Pow2(k - 1));
      MulAtLeast(c[k], Pow2(k));
    }
  }

  lemma MulAtLeast(a: int, b: int)
    requires a >= 0 && b >= 1
    ensures a * b >= a
  {
  }

  /** What holds between rounds of the repair loop, `excess` units above a full Kraft sum. */
  ghost predicate Repairing(c: seq<int>, max: nat, symbols: int, excess: int) {
    && |c| == COUNTS && 1 <= max < COUNTS && NonNegative(c)
    && Symbols(c, 1, max + 1) == symbols
    && KraftCounts(c, max) == Pow2(max) + excess
    && 0 <= excess <= c[max]
  }

  lemma Clamped(c: seq<int>, d: seq<int>, max: nat, symbols: int)
    requires |c| == |d| == COUNTS && 1 <= max < COUNTS && NonNegative(c)
    requires KraftCounts(c, COUNTS - 1) == Pow2(COUNTS - 1)
    requires Symbols(c, 1, COUNTS) == symbols
    requires d == c[max := c[max] + Symbols(c, max + 1, COUNTS)]
    ensures Repairing(d, max, symbols, KraftCounts(d, max) - Pow2(max)) && NonNegative(d)
      && Symbols(d, 1, max + 1) == symbols
  {
    hide Symbols, KraftCounts, Pow2;
    CutBounds(c, max, COUNTS - 1);
    SymbolsNonNegative(c, max + 1, COUNTS);
    ClampedKraft(c, d, max);
    SymbolsSplit(c, 1, max + 1, COUNTS);
    SymbolsUpdate(c, max, d[max], 1, max + 1);
  }

  lemma ClampedKraft(c: seq<int>, d: seq<int>, max: nat)
    requires |c| == |d| && 1 <= max < |c| && d == c[max := d[max]]
    ensures KraftCounts(d, max) == KraftCounts(c, max) + d[max] - c[max]
  {
    hide KraftCounts;
    KraftSame(c, d, max - 1);
    KraftLast(c, max);
    KraftLast(d, max);
  }

  /** There is always a shorter code to split while the sum is too large. */
  lemma CanSplit(c: seq<int>, max: nat, symbols: int, excess: int)
    requires Repairing(c, max, symbols, excess) && excess > 0 && symbols <= Pow2(max)
    ensures exists i :: 1 <= i < max && c[i] != 0
  {
    if forall i :: 1 <= i < max ==> c[i] == 0 {
      OnlyLongest(c, max);
    }
  }

  lemma RepairStep(c: seq<int>, max: nat, symbols: int, excess: int, i: nat)
    requires Repairing(c, max, symbols, excess) && excess > 0
    requires 1 <= i < max && c[i] > 0
    ensures Repairing(Split(c[max := c[max] - 1], i), max, symbols, excess - 1)
  {
    var d := c[max := c[max] - 1];
    SymbolsUpdate(c, max, c[max] - 1, 1, max + 1);
    KraftSame(c, d, max - 1);
    SplitKeepsKraft(d, i, max);
    SymbolsUpdate(d, i, d[i] - 1, 1, max + 1);
    SymbolsUpdate(d[i := d[i] - 1], i + 1, d[i + 1] + 2, 1, max + 1);
  }

  // ----- how far the repair reaches -----

  lemma {:induction false} KraftGap(c: seq<int>, i: nat, k: nat)
    requires i <= k < |c| && forall j :: i < j <= k ==> c[j] == 0
    ensures KraftCounts(c, k) == KraftCounts(c, i) * Pow2(k - i)
  {
    if i < k {
      KraftGap(c, i, k - 1);
      MulAssoc(KraftCounts(c, i), 2, Pow2(k - 1 - i));
    }
  }

  /** `low` is the shortest length that the repair has split, or max if it has split none.  Shorter lengths are
      untouched, and what is left of the Kraft sum at `low` is at most what all symbols would need at the limit, plus
      one. */
  ghost predicate SplitFrom(before: seq<int>, after: seq<int>, max: nat, low: nat, symbols: int) {
    && 1 <= low <= max < |before| && |after| == |before|
    && (forall j :: 1 <= j < low ==> after[j] == before[j])
    && (low < max ==> after[low] < before[low] && (Pow2(low) - KraftCounts(after, low) - 1) * Pow2(max - low) < symbols)
    && (low < max ==> Symbols(before, max + 1, |before|) > 0)
  }

  lemma KraftAtLimit(c: seq<int>, max: nat, i: nat)
    requires 1 <= i < max < |c| && forall j :: i < j < max ==> c[j] == 0
    ensures KraftCounts(c, max) == KraftCounts(c, i) * Pow2(max - i) + c[max]
  {
    KraftGap(c, i, max - 1);
    Twice(KraftCounts(c, i), Pow2(max - 1 - i));
    assert Pow2(max - i) == 2 * Pow2(max - 1 - i);
  }

  lemma Twice(x: int, y: int)
    ensures 2 * (x * y) == x * (2 * y)
  {
  }

  lemma LongestAtMost(c: seq<int>, max: nat, symbols: int, excess: int)
    requires Repairing(c, max, symbols, excess)
    ensures c[max] <= symbols && KraftCounts(c, max) == Pow2(max) + excess
  {
    SymbolsNonNegative(c, 1, max);
  }

  lemma SplitRoom(c: seq<int>, max: nat, symbols: int, excess: int, i: nat)
    requires Repairing(c, max, symbols, excess) && excess > 0 && 1 <= i < max < |c| && forall j ::
      i < j < max ==> c[j] == 0
    ensures (Pow2(i) - KraftCounts(c, i)) * Pow2(max - i) < symbols
  {
    hide *;
    KraftAtLimit(c, max, i);
    LongestAtMost(c, max, symbols, excess);
    Pow2Add(i, max - i);
    assert i + (max - i) == max;
    MulDistributes(Pow2(i), -KraftCounts(c, i), Pow2(max - i));
  }

  /** One more split, at the longest length below the limit that is in use. */
  lemma SplitFromStep(before: seq<int>, c: seq<int>, max: nat, low: nat, symbols: int, excess: int, i: nat)
    requires SplitFrom(before, c, max, low, symbols) && Repairing(c, max, symbols, excess) && excess > 0
    requires 1 <= i < max && c[i] > 0 && Symbols(before, max + 1, |before|) > 0
    requires forall j :: i < j < max ==> c[j] == 0
    ensures SplitFrom(before, Split(c[max := c[max] - 1], i), max, if low <= i then low else i, symbols)
  {
    hide Symbols, NonNegative, Pow2, KraftCounts;
    var d := Split(c[max := c[max] - 1], i);
    if low < i {
      KraftSame(c, d, low);
    } else {
      SplitRoom(c, max, symbols, excess, i);
      KraftSame(c, d, i - 1);
      KraftLast(c, i);
      KraftLast(d, i);
    }
  }

  /** Without longer codes there is nothing to repair. */
  lemma ExcessMeansLonger(c: seq<int>, d: seq<int>, max: nat)
    requires |c| == |d| == COUNTS && 1 <= max < COUNTS && NonNegative(c)
    requires KraftCounts(c, COUNTS - 1) == Pow2(COUNTS - 1)
    requires d == c[max := c[max] + Symbols(c, max + 1, COUNTS)]
    ensures KraftCounts(d, max) > Pow2(max) ==> Symbols(c, max + 1, COUNTS) > 0
  {
    hide KraftCounts, Symbols, Pow2, NonNegative;
    CutBounds(c, max, COUNTS - 1);
    SymbolsNonNegative(c, max + 1, COUNTS);
    ClampedKraft(c, d, max);
  }

  /** From a complete code to a complete code no longer than max, with the same number of symbols. */
  method EnforceMaxCodeSize(counts: array<int>, codeListLen: nat, max: nat) returns (ghost low: nat)
    requires counts.Length == COUNTS && 1 <= max <= 15 && codeListLen <= 288 && codeListLen <= Pow2(max)
    requires NonNegative(counts[..]) && Symbols(counts[..], 1, COUNTS) == codeListLen
    requires codeListLen > 1 ==> KraftCounts(counts[..], COUNTS - 1) == Pow2(COUNTS - 1)
    modifies counts
    ensures codeListLen <= 1 ==> counts[..] == old(counts[..])
    ensures codeListLen > 1 ==> KraftCounts(counts[..], max) == Pow2(max)
    ensures codeListLen > 1 ==> NonNegative(counts[..]) && Symbols(counts[..], 1, max + 1) == codeListLen
    ensures codeListLen > 1 ==> SplitFrom(old(counts[..]), counts[..], max, low, codeListLen)
  {
    hide SplitFrom, Symbols, KraftCounts, Pow2, NonNegative, Repairing, Split;
    low := max;
    if codeListLen <= 1 {
      return;
    }
    ghost var before := counts[..];
    Clamp(counts, max);
    Clamped(before, counts[..], max, codeListLen);
    ExcessMeansLonger(before, counts[..], max);
    SplitNone(before, counts[..], max, codeListLen);
    low := RepairAll(counts, codeListLen, max, before);
    RepairedEnd(counts[..], max, codeListLen);
  }

  /** The loop that repairs the Kraft sum. */
  method RepairAll(counts: array<int>, codeListLen: nat, max: nat, ghost before: seq<int>) returns (ghost low: nat)
    requires counts.Length == |before| == COUNTS && 1 <= max <= 15 && codeListLen <= 288 && codeListLen <= Pow2(max)
    requires Repairing(counts[..], max, codeListLen, KraftCounts(counts[..], max) - Pow2(max))
    requires NonNegative(counts[..]) && Symbols(counts[..], 1, max + 1) == codeListLen
    requires SplitFrom(before, counts[..], max, max, codeListLen)
    requires KraftCounts(counts[..], max) > Pow2(max) ==> Symbols(before, max + 1, COUNTS) > 0
    modifies counts
    ensures Repairing(counts[..], max, codeListLen, 0) && SplitFrom(before, counts[..], max, low, codeListLen)
  {
    hide SplitFrom, Symbols, KraftCounts, Pow2, NonNegative, Repairing, Split;
    low := max;
    var total := Total(counts, codeListLen, max);
    while total != Pow2(max)
      invariant Repairing(counts[..], max, codeListLen, total - Pow2(max))
      invariant SplitFrom(before, counts[..], max, low, codeListLen)
      invariant total > Pow2(max) ==> Symbols(before, max + 1, COUNTS) > 0
      decreases total
    {
      ghost var c := counts[..];
      Excess(c, max, codeListLen, total - Pow2(max));
      CanSplit(counts[..], max, codeListLen, total - Pow2(max));
      ghost var at := Repair(counts, max, codeListLen, total - Pow2(max));
      SplitFromStep(before, c, max, low, codeListLen, total - Pow2(max), at);
      low := if low <= at then low else at;
      total := total - 1;
    }
  }

  lemma Excess(c: seq<int>, max: nat, symbols: int, excess: int)
    requires Repairing(c, max, symbols, excess)
    ensures excess >= 0
  {
  }

  lemma SplitNone(before: seq<int>, after: seq<int>, max: nat, symbols: int)
    requires 1 <= max < |before| && |after| == |before| && forall j :: 1 <= j < max ==> after[j] == before[j]
    ensures SplitFrom(before, after, max, max, symbols)
  {
  }

  lemma RepairedEnd(c: seq<int>, max: nat, symbols: int)
    requires Repairing(c, max, symbols, 0)
    ensures KraftCounts(c, max) == Pow2(max) && NonNegative(c) && Symbols(c, 1, max + 1) == symbols
  {
  }

  method Clamp(counts: array<int>, max: nat)
    requires counts.Length == COUNTS && 1 <= max < COUNTS
    modifies counts
    ensures counts[..] == old(counts[..])[max := old(counts[max]) + Symbols(old(counts[..]), max + 1, COUNTS)]
  {
    ghost var before := counts[..];
    var i := max + 1;
    while i < COUNTS
      invariant max < i <= COUNTS
      invariant counts[..] == before[max := before[max] + Symbols(before, max + 1, i)]
    {
      counts[max] := counts[max] + counts[i];
      i := i + 1;
    }
  }

  /** The 32-bit sum never wraps. */
  method Total(counts: array<int>, ghost codeListLen: nat, max: nat) returns (total: int)
    requires counts.Length == COUNTS && 1 <= max <= 15 && NonNegative(counts[..])
    requires Symbols(counts[..], 1, max + 1) == codeListLen <= 288
    ensures total == KraftCounts(counts[..], max)
  {
    ghost var c := counts[..];
    KraftSuffixBound(c, codeListLen, max);
    total := 0;
    var i := max;
    while i > 0
      invariant 0 <= i <= max
      invariant total == KraftSuffix(c, i, max)
    {
      total := (total + Shl(counts[i], max - i)) % 0x1_0000_0000;
      KraftSuffixMonotonic(c, i - 1, max);
      i := i - 1;
    }
    KraftSuffixAll(c, 0, max);
    ShlIsMul(0, max);
  }

  /** The Kraft contribution of lengths i+1..max, summed longest first as the C loop does. */
  function KraftSuffix(c: seq<int>, i: nat, max: nat): int
    requires i <= max < |c| && NonNegative(c)
    decreases max - i
  {
    if i == max then 0 else KraftSuffix(c, i + 1, max) + Shl(c[i + 1], max - i - 1)
  }

  lemma {:induction false} KraftSuffixAll(c: seq<int>, i: nat, max: nat)
    requires i <= max < |c| && NonNegative(c)
    ensures KraftCounts(c, i) >= 0
    ensures KraftSuffix(c, i, max) + Shl(KraftCounts(c, i), max - i) == KraftCounts(c, max)
    decreases max - i
  {
    KraftBound(c, i);
    if i < max {
      KraftSuffixAll(c, i + 1, max);
      var a, b := KraftCounts(c, i), c[i + 1];
      ShlIsMul(a, max - i);
      ShlIsMul(b, max - i - 1);
      ShlIsMul(2 * a + b, max - i - 1);
      MulDistributes(2 * a, b, Pow2(max - i - 1));
      MulAssoc(a, 2, Pow2(max - i - 1));
    } else {
      assert Shl(KraftCounts(c, i), 0) == KraftCounts(c, i);
    }
  }

  lemma {:induction false} KraftSuffixMonotonic(c: seq<int>, i: nat, max: nat)
    requires i <= max < |c| && NonNegative(c)
    ensures 0 <= KraftSuffix(c, i, max) <= KraftSuffix(c, 0, max)
    decreases i
  {
    KraftSuffixNonNegative(c, i, max);
    if i > 0 {
      KraftSuffixMonotonic(c, i - 1, max);
    }
  }

  lemma {:induction false} KraftSuffixNonNegative(c: seq<int>, i: nat, max: nat)
    requires i <= max < |c| && NonNegative(c)
    ensures 0 <= KraftSuffix(c, i, max)
    decreases max - i
  {
    if i < max {
      KraftSuffixNonNegative(c, i + 1, max);
    }
  }

  lemma KraftSuffixBound(c: seq<int>, symbols: nat, max: nat)
    requires max < |c| && NonNegative(c) && max <= 15 && Symbols(c, 1, max + 1) == symbols <= 288
    ensures KraftSuffix(c, 0, max) < 0x1_0000_0000
  {
    KraftSuffixAll(c, 0, max);
    assert Shl(0, max - 0) == 0 by { ShlIsMul(0, max); }
    KraftBound(c, max);
    Pow2Monotonic(max, 15);
    Pow2Values();
    MulBound(symbols, Pow2(max), 288, 32768);
  }

  lemma MulBound(a: int, b: int, m: int, n: int)
    requires 0 <= a <= m && 0 <= b <= n
    ensures a * b <= m * n
  {
    assert a * b <= a * n <= m * n;
  }

  /** One round of the loop: the longest codes lose one, and the longest shorter code is split. */
  method Repair(counts: array<int>, max: nat, ghost symbols: int, ghost excess: int) returns (ghost at: nat)
    requires counts.Length == COUNTS && Repairing(counts[..], max, symbols, excess) && excess > 0
    requires exists i :: 1 <= i < max && counts[i] != 0
    modifies counts
    ensures Repairing(counts[..], max, symbols, excess - 1)
    ensures 1 <= at < max < COUNTS && old(counts[at]) > 0 && forall j :: at < j < max ==> old(counts[..])[j] == 0
    ensures counts[..] == Split(old(counts[..])[max := old(counts[max]) - 1], at)
  {
    ghost var before := counts[..];
    counts[max] := counts[max] - 1;
    var i := max - 1;
    while i > 0
      invariant 0 <= i < max
      invariant counts[..] == before[max := before[max] - 1]
      invariant forall j :: i < j < max ==> before[j] == 0
    {
      if counts[i] != 0 {
        counts[i] := counts[i] - 1;
        counts[i + 1] := counts[i + 1] + 2;
        RepairStep(before, max, symbols, excess, i);
        assert counts[..] == Split(before[max := before[max] - 1], i);
        return i;
      }
      i := i - 1;
    }
  }
}
