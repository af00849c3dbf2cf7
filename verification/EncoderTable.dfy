/** tdefl_optimize_huffman_table: from symbol counts to code lengths and bit-reversed codes. */
module EncoderTable {
  import opened Bits
  import opened Canonical
  import opened MinRedundancy
  import opened SymbolCounts
  import opened HuffmanTree
  import opened HuffmanLevels
  import opened HuffmanOptimal
  import opened Sums
  import opened LimitCost
  import LimitLengths
  import RadixSort

  // ----- counting lengths -----

  /** counts[l] is the number of symbols of length l, for every length from 1 to the limit. */
  ghost predicate CountsLengths(counts: seq<int>, sizes: seq<nat>, limit: nat) {
    limit < |counts| && forall l :: 1 <= l <= limit ==> counts[l] == Count(sizes, l)
  }

  /** Giving a length to a symbol that had none adds one to that length's count only. */
  lemma {:induction false} CountAssign(sizes: seq<nat>, n: nat, p: nat, v: nat, l: nat)
    requires n <= |sizes| && p < |sizes| && sizes[p] == 0 && v > 0 && l > 0
    ensures CountTo(sizes[p := v], n, l) == CountTo(sizes, n, l) + (if p < n && l == v then 1 else 0)
  {
    if n > 0 {
      CountAssign(sizes, n - 1, p, v, l);
    }
  }

  lemma {:induction false} FirstFromCounts(counts: seq<int>, sizes: seq<nat>, l: nat)
    requires CountsLengths(counts, sizes, l)
    ensures First(sizes, l + 1) == 2 * LimitLengths.KraftCounts(counts, l)
  {
    if l > 0 {
      FirstFromCounts(counts, sizes, l - 1);
    }
  }

  lemma {:induction false} CountAbove(sizes: seq<nat>, n: nat, limit: nat, l: nat)
    requires n <= |sizes| && limit < l && forall i :: 0 <= i < |sizes| ==> sizes[i] <= limit
    ensures CountTo(sizes, n, l) == 0
  {
    if n > 0 {
      CountAbove(sizes, n - 1, limit, l);
    }
  }

  lemma {:induction false} FirstAbove(sizes: seq<nat>, limit: nat, l: nat)
    requires limit < l && forall i :: 0 <= i < |sizes| ==> sizes[i] <= limit
    requires First(sizes, limit + 1) == Pow2(limit + 1)
    ensures First(sizes, l) == Pow2(l)
  {
    if l > limit + 1 {
      FirstAbove(sizes, limit, l - 1);
      CountAbove(sizes, |sizes|, limit, l - 1);
    }
  }

  /** A full Kraft sum at the length limit is a complete code. */
  lemma CompleteAtLimit(counts: seq<int>, sizes: seq<nat>, limit: nat)
    requires CountsLengths(counts, sizes, limit) && 1 <= limit <= MAX_CODE_SIZE
    requires forall i :: 0 <= i < |sizes| ==> sizes[i] <= limit
    requires LimitLengths.KraftCounts(counts, limit) == Pow2(limit)
    ensures Complete(sizes)
  {
    FirstFromCounts(counts, sizes, limit);
    FirstAbove(sizes, limit, MAX_CODE_SIZE + 1);
    Pow2Values();
  }

  // ----- assigning codes -----

  lemma ReverseStep(rev: nat, code: nat, k: nat)
    ensures ToBits(2 * rev + code % 2, k + 1) == [code % 2 == 1] + ToBits(rev, k)
  {
    assert (2 * rev + code % 2) / 2 == rev;
  }

  /** The bit-reversing loop: sent least significant bit first, the result is the code most significant bit first. */
  method ReverseCode(code0: nat, size: nat) returns (rev: nat)
    ensures ToBits(rev, size) == MsbBits(code0, size)
    ensures rev < Pow2(size)
  {
    var code, l := code0, size;
    rev := 0;
    while l > 0
      invariant 0 <= l <= size
      invariant MsbBits(code, l) + ToBits(rev, size - l) == MsbBits(code0, size)
      invariant rev < Pow2(size - l)
    {
      ReverseStep(rev, code, size - l);
      assert MsbBits(code, l) == MsbBits(code / 2, l - 1) + [code % 2 == 1];
      rev := 2 * rev + code % 2;
      l := l - 1;
      code := code / 2;
    }
  }

  /** What both kinds of block need of a table before bits are written with it. */
  ghost predicate HasCodeWords(sizes: seq<nat>, codes: seq<nat>) {
    && |sizes| == |codes|
    && forall s :: 0 <= s < |sizes| && sizes[s] > 0 ==>
         codes[s] < Pow2(sizes[s]) && ToBits(codes[s], sizes[s]) == CodeWord(sizes, s)
  }

  lemma FirstNext(z: seq<nat>, l: nat)
    ensures First(z, 1) == 0
    ensures l >= 1 ==> First(z, l + 1) == 2 * (First(z, l) + Count(z, l))
  {
  }

  /** The first code of every length up to the limit. */
  method NextCodes(counts: array<int>, limit: nat, ghost z: seq<nat>) returns (nextCode: array<nat>)
    requires counts.Length == LimitLengths.COUNTS && CountsLengths(counts[..], z, limit) && 1 <= limit <= MAX_CODE_SIZE
    ensures fresh(nextCode) && nextCode.Length == LimitLengths.COUNTS
    ensures forall l :: 1 <= l <= limit ==> nextCode[l] == First(z, l)
  {
    hide First, Count;
    nextCode := new nat[LimitLengths.COUNTS](_ => 0);
    var i: nat, j: nat := 2, 0;
    FirstNext(z, 0);
    while i <= limit
      invariant 2 <= i <= limit + 1
      invariant j == First(z, i - 1)
      invariant forall l :: 1 <= l < i ==> nextCode[l] == First(z, l)
    {
      assert counts[..][i - 1] == Count(z, i - 1);
      FirstNext(z, i - 1);
      j := 2 * (j + counts[i - 1]);
      nextCode[i] := j;
      i := i + 1;
    }
  }

  /** The first i symbols have their codes, and the next code of each length counts them. */
  ghost predicate Assigned(z: seq<nat>, codes: seq<nat>, next: seq<nat>, i: nat, limit: nat) {
    && i <= |z| == |codes| && limit < |next|
    && (forall l :: 1 <= l <= limit ==> next[l] == First(z, l) + CountTo(z, i, l))
    && (forall s :: 0 <= s < i && z[s] > 0 ==>
          codes[s] < Pow2(z[s]) && ToBits(codes[s], z[s]) == CodeWord(z, s))
  }

  lemma AssignStart(z: seq<nat>, codes: seq<nat>, next: seq<nat>, limit: nat)
    requires |z| == |codes| && limit < |next| && forall l :: 1 <= l <= limit ==> next[l] == First(z, l)
    ensures Assigned(z, codes, next, 0, limit)
  {
  }

  lemma AssignSkip(z: seq<nat>, codes: seq<nat>, next: seq<nat>, i: nat, limit: nat)
    requires Assigned(z, codes, next, i, limit) && i < |z| && z[i] == 0
    ensures Assigned(z, codes, next, i + 1, limit)
  {
  }

  lemma AssignEnd(z: seq<nat>, codes: seq<nat>, next: seq<nat>, limit: nat)
    requires Assigned(z, codes, next, |z|, limit)
    ensures HasCodeWords(z, codes)
  {
  }

  lemma AssignStep(z: seq<nat>, codes: seq<nat>, next: seq<nat>, i: nat, limit: nat, rev: nat)
    requires Assigned(z, codes, next, i, limit) && i < |z| && 0 < z[i] <= limit
    requires rev < Pow2(z[i]) && ToBits(rev, z[i]) == MsbBits(next[z[i]], z[i])
    ensures Assigned(z, codes[i := rev], next[z[i] := next[z[i]] + 1], i + 1, limit)
  {
  }

  /** The last two loops of the function. */
  method AssignCodes(sizes: array<nat>, codes: array<nat>, counts: array<int>, limit: nat)
    requires sizes.Length == codes.Length && sizes != codes
    requires counts.Length == LimitLengths.COUNTS && CountsLengths(counts[..], sizes[..], limit)
      && 1 <= limit <= MAX_CODE_SIZE
    requires forall i :: 0 <= i < sizes.Length ==> sizes[i] <= limit
    modifies codes
    ensures HasCodeWords(sizes[..], codes[..])
  {
    hide First, CountsLengths, Assigned, HasCodeWords;
    ghost var z := sizes[..];
    var nextCode := NextCodes(counts, limit, z);
    AssignStart(z, codes[..], nextCode[..], limit);
    var i := 0;
    while i < sizes.Length
      invariant 0 <= i <= sizes.Length && Assigned(z, codes[..], nextCode[..], i, limit)
    {
      var size := sizes[i];
      if size != 0 {
        AssignCode(codes, nextCode, i, size, z, limit);
      } else {
        AssignSkip(z, codes[..], nextCode[..], i, limit);
      }
      i := i + 1;
    }
    AssignEnd(z, codes[..], nextCode[..], limit);
  }

  /** The code of one symbol. */
  method AssignCode(codes: array<nat>, nextCode: array<nat>, i: nat, size: nat, ghost z: seq<nat>, ghost limit: nat)
    requires codes != nextCode && i < |z| == codes.Length && size == z[i] && 0 < size <= limit < nextCode.Length
    requires Assigned(z, codes[..], nextCode[..], i, limit)
    modifies codes, nextCode
    ensures Assigned(z, codes[..], nextCode[..], i + 1, limit)
  {
    hide *;
    ghost var c, n := codes[..], nextCode[..];
    var code := nextCode[size];
    nextCode[size] := nextCode[size] + 1;
    var rev := ReverseCode(code, size);
    AssignStep(z, c, n, i, limit, rev);
    codes[i] := rev;
    assert codes[..] == c[i := rev] && nextCode[..] == n[size := n[size] + 1];
  }

  // ----- collecting and sorting the used symbols -----

  method CollectSyms(counts: array<nat>) returns (syms: array<SymFreq>)
    requires CountSum(counts[..], counts.Length) < 65536
    ensures fresh(syms) && syms[..] == UsedSyms(counts[..], counts.Length)
    ensures forall i :: 0 <= i < syms.Length ==> syms[i].key < 65536
  {
    ghost var c := counts[..];
    var numUsed, i := 0, 0;
    while i < counts.Length
      invariant 0 <= i <= counts.Length && numUsed == |UsedSyms(c, i)|
    {
      if counts[i] != 0 {
        numUsed := numUsed + 1;
      }
      i := i + 1;
    }
    syms := new SymFreq[numUsed](_ => SymFreq(0, 0));
    numUsed, i := 0, 0;
    while i < counts.Length
      invariant 0 <= i <= counts.Length && numUsed == |UsedSyms(c, i)| <= syms.Length
      invariant syms.Length == |UsedSyms(c, |c|)| && counts[..] == c
      invariant syms[..numUsed] == UsedSyms(c, i)
    {
      UsedSymsGrow(c, i, |c|);
      if counts[i] != 0 {
        syms[numUsed] := SymFreq(counts[i] % 65536, i);
        CountMember(c, |c|, i);
        numUsed := numUsed + 1;
      }
      i := i + 1;
    }
    assert syms[..] == UsedSyms(c, |c|);
    UsedSymsSum(c, |c|);
    forall k | 0 <= k < syms.Length
      ensures syms[k].key < 65536
    {
      assert syms[k] == syms[..][k];
      Sums.SumMember(syms[..], k, KeyOf);
    }
  }

  // ----- lengths to counts -----

  lemma {:induction false} KraftIncrement(c: seq<int>, i: nat, k: nat)
    requires 1 <= i <= k < |c|
    ensures LimitLengths.KraftCounts(c[i := c[i] + 1], k) == LimitLengths.KraftCounts(c, k) + Pow2(k - i)
  {
    if k == i {
      LimitLengths.KraftSame(c, c[i := c[i] + 1], k - 1);
    } else {
      KraftIncrement(c, i, k - 1);
    }
  }

  /** The counts of the first i lengths. */
  ghost predicate Tallied(c: seq<int>, lens: seq<nat>, i: nat) {
    i <= |lens| && Counted(c, lens[..i]) && LimitLengths.Symbols(c, 1, LimitLengths.COUNTS) == i
  }

  /** Counting one more length, seen at one depth. */
  lemma TallyDepth(c: seq<int>, lens: seq<nat>, l: nat, d: nat)
    requires Counted(c, lens) && 1 <= l < LimitLengths.COUNTS && d < LimitLengths.COUNTS
    ensures CountedAt(c[l := c[l] + 1], lens + [l], d)
  {
    assert CountedAt(c, lens, d);
    var after := c[l := c[l] + 1];
    AbovePush(lens, l, d);
    KraftSumPush(lens, l, d);
    hide LimitLengths.Symbols, LimitLengths.KraftCounts, KraftSum, Pow2, Above;
    if l <= d {
      KraftIncrement(c, l, d);
      LimitLengths.SymbolsSame(c, after, d + 1, LimitLengths.COUNTS);
    } else {
      LimitLengths.KraftSame(c, after, d);
      LimitLengths.SymbolsUpdate(c, l, c[l] + 1, d + 1, LimitLengths.COUNTS);
    }
  }

  lemma TallyStep(c: seq<int>, lens: seq<nat>, i: nat)
    requires Tallied(c, lens, i) && i < |lens| && 1 <= lens[i] <= LimitLengths.COUNTS - 1
    ensures Tallied(c[lens[i] := c[lens[i]] + 1], lens, i + 1)
  {
    hide LimitLengths.Symbols, LimitLengths.KraftCounts, KraftSum, Pow2, Above;
    var l := lens[i];
    var after, more := c[l := c[l] + 1], lens[..i + 1];
    LimitLengths.SymbolsUpdate(c, l, c[l] + 1, 1, LimitLengths.COUNTS);
    assert more == lens[..i] + [l];
    forall d | 0 <= d < LimitLengths.COUNTS
      ensures CountedAt(after, more, d)
    {
      TallyDepth(c, lens[..i], l, d);
    }
  }

  lemma {:induction false} ZeroCounts(c: seq<int>, k: nat)
    requires k < |c| && forall i :: 0 <= i < |c| ==> c[i] == 0
    ensures LimitLengths.KraftCounts(c, k) == 0
  {
    if k > 0 {
      ZeroCounts(c, k - 1);
    }
  }

  lemma {:induction false} SymbolsZero(c: seq<int>, lo: nat, hi: nat)
    requires lo <= hi <= |c| && forall i :: lo <= i < hi ==> c[i] == 0
    ensures LimitLengths.Symbols(c, lo, hi) == 0
  {
    if lo < hi {
      SymbolsZero(c, lo, hi - 1);
    }
  }

  lemma TallyStart(c: seq<int>, lens: seq<nat>)
    requires |c| == LimitLengths.COUNTS && forall i :: 0 <= i < |c| ==> c[i] == 0
    ensures Tallied(c, lens, 0)
  {
    assert lens[..0] == [];
    forall d | 0 <= d < LimitLengths.COUNTS
      ensures CountedAt(c, [], d)
    {
      SymbolsZero(c, d + 1, LimitLengths.COUNTS);
      ZeroCounts(c, d);
    }
    SymbolsZero(c, 1, LimitLengths.COUNTS);
    hide LimitLengths.Symbols;
  }

  /** MZ_CLEAR_ARR on a fresh array. */
  method Cleared(n: nat) returns (a: array<int>)
    ensures fresh(a) && a.Length == n && forall i :: 0 <= i < n ==> a[i] == 0
  {
    a := new int[n](_ => 0);
  }

  method TallyLengths(syms: array<SymFreq>, ghost longest: nat) returns (counts: array<int>)
    requires longest < LimitLengths.COUNTS
    requires forall i :: 0 <= i < syms.Length ==> 1 <= syms[i].key <= longest
    ensures fresh(counts) && counts.Length == LimitLengths.COUNTS
    ensures Tallied(counts[..], Keys(syms[..]), syms.Length)
    ensures forall l :: longest < l < LimitLengths.COUNTS ==> counts[l] == 0
  {
    counts := Cleared(LimitLengths.COUNTS);
    ghost var lens := Keys(syms[..]);
    TallyStart(counts[..], lens);
    hide *;
    var i := 0;
    while i < syms.Length
      invariant 0 <= i <= syms.Length
      invariant Tallied(counts[..], lens, i)
      invariant forall l :: longest < l < LimitLengths.COUNTS ==> counts[l] == 0
    {
      var l := syms[i].key;
      ghost var c := counts[..];
      TallyStep(c, lens, i);
      counts[l] := counts[l] + 1;
      assert counts[..] == c[l := c[l] + 1];
      i := i + 1;
    }
  }

  // ----- handing lengths to symbols -----

  /** The symbols at and after j in the sorted list have their lengths, the others have none. */
  ghost predicate Handed(sizes: seq<nat>, syms: seq<SymFreq>, j: nat, limit: nat) {
    && j <= |syms|
    && (forall k :: 0 <= k < |sizes| ==> sizes[k] <= limit)
    && (forall i :: 0 <= i < j ==> syms[i].sym < |sizes| && sizes[syms[i].sym] == 0)
    && (forall k :: 0 <= k < |sizes| && sizes[k] > 0 ==> exists i :: j <= i < |syms| && syms[i].sym == k)
    && (forall i :: j <= i < |syms| ==> syms[i].sym < |sizes| && sizes[syms[i].sym] > 0)
  }

  lemma HandStep(sizes: seq<nat>, syms: seq<SymFreq>, j: nat, limit: nat, v: nat)
    requires Handed(sizes, syms, j, limit) && j > 0 && 1 <= v <= limit && DistinctSyms(syms)
    ensures Handed(sizes[syms[j - 1].sym := v], syms, j - 1, limit)
  {
    var p := syms[j - 1].sym;
    var after := sizes[p := v];
    forall k | 0 <= k < |after| && after[k] > 0
      ensures exists i :: j - 1 <= i < |syms| && syms[i].sym == k
    {
      if k == p {
        assert syms[j - 1].sym == k;
      } else {
        var i :| j <= i < |syms| && syms[i].sym == k;
      }
    }
  }

  /** How far the lengths below i, and left-over symbols of length i, have been handed out. */
  ghost predicate CountsHanded(sizes: seq<nat>, counts: seq<int>, i: nat, left: int) {
    && i < |counts|
    && (forall l :: 1 <= l < i ==> Count(sizes, l) == counts[l])
    && Count(sizes, i) == counts[i] - left
    && (forall l :: i < l < |counts| ==> Count(sizes, l) == 0)
  }

  lemma CountsHandStep(sizes: seq<nat>, counts: seq<int>, i: nat, left: int, p: nat)
    requires CountsHanded(sizes, counts, i, left) && p < |sizes| && sizes[p] == 0 && i > 0
    ensures CountsHanded(sizes[p := i], counts, i, left - 1)
  {
    var after := sizes[p := i];
    forall l | 1 <= l < |counts|
      ensures Count(after, l) == Count(sizes, l) + (if l == i then 1 else 0)
    {
      CountAssign(sizes, |sizes|, p, i, l);
    }
    hide Count;
  }

  lemma {:induction false} CountNone(sizes: seq<nat>, n: nat, l: nat)
    requires n <= |sizes| && l > 0 && forall k :: 0 <= k < n ==> sizes[k] == 0
    ensures CountTo(sizes, n, l) == 0
  {
    if n > 0 {
      CountNone(sizes, n - 1, l);
    }
  }

  lemma HandStart(sizes: seq<nat>, syms: seq<SymFreq>, counts: seq<int>, limit: nat)
    requires forall k :: 0 <= k < |sizes| ==> sizes[k] == 0
    requires forall i :: 0 <= i < |syms| ==> syms[i].sym < |sizes|
    requires |counts| > 1
    ensures Handed(sizes, syms, |syms|, limit)
    ensures CountsHanded(sizes, counts, 1, counts[1])
  {
    forall l | 1 <= l < |counts|
      ensures Count(sizes, l) == 0
    {
      CountNone(sizes, |sizes|, l);
    }
  }

  /** The symbols at and after j cost what the levels down to i cost, when the others take i bits. */
  ghost predicate CostHanded(sizes: seq<nat>, freq: seq<nat>, w: seq<nat>, counts: seq<int>, limit: nat, i: nat,
    j: nat) {
    && |sizes| == |freq| && j <= |w| && limit < |counts| && i <= limit + 1
    && LimitLengths.NonNegative(counts) && LimitLengths.Symbols(counts, 1, limit + 1) == |w|
    && TableCost(freq, sizes, |freq|) + i * Sum(w, 0, j) == LevelsOf(w, counts, limit, i)
  }

  lemma CostHandStep(sizes: seq<nat>, freq: seq<nat>, w: seq<nat>, counts: seq<int>, limit: nat, i: nat, j: nat, p: nat)
    requires CostHanded(sizes, freq, w, counts, limit, i, j) && j > 0 && p < |sizes| && sizes[p] == 0
      && freq[p] == w[j - 1]
    ensures CostHanded(sizes[p := i], freq, w, counts, limit, i, j - 1)
  {
    hide TableCost, LevelsOf, LimitLengths.Symbols, LimitLengths.NonNegative;
    TableCostUpdate(freq, sizes, p, i, |freq|);
    MulDistributes(Sum(w, 0, j - 1), w[j - 1], i);
  }

  lemma CostHandNext(sizes: seq<nat>, freq: seq<nat>, w: seq<nat>, counts: seq<int>, limit: nat, i: nat, j: nat)
    requires CostHanded(sizes, freq, w, counts, limit, i, j) && i <= limit
      && j == LimitLengths.Symbols(counts, i + 1, limit + 1)
    ensures CostHanded(sizes, freq, w, counts, limit, i + 1, j)
  {
    MulDistributes(i, 1, Sum(w, 0, j));
  }

  lemma CostHandStart(sizes: seq<nat>, freq: seq<nat>, w: seq<nat>, counts: seq<int>, limit: nat)
    requires |sizes| == |freq| && limit < |counts| && LimitLengths.NonNegative(counts)
    requires LimitLengths.Symbols(counts, 1, limit + 1) == |w| && forall k :: 0 <= k < |sizes| ==> sizes[k] == 0
    ensures CostHanded(sizes, freq, w, counts, limit, 1, |w|)
  {
    TableCostNone(freq, sizes, |freq|);
    assert LevelsOf(w, counts, limit, 0) == 0;
  }

  lemma CostHandEnd(sizes: seq<nat>, freq: seq<nat>, w: seq<nat>, counts: seq<int>, limit: nat)
    requires CostHanded(sizes, freq, w, counts, limit, limit + 1, 0)
    ensures TableCost(freq, sizes, |freq|) == LevelsOf(w, counts, limit, limit)
  {
    SumEmpty(w, 0);
    TailSymbols(counts, limit, limit);
    assert LimitLengths.Symbols(counts, limit + 1, limit + 1) == 0;
  }

  /** The loop as a whole: what is handed out, counted and paid for. */
  ghost predicate Handing(sizes: seq<nat>, syms: seq<SymFreq>, freq: seq<nat>, counts: seq<int>, limit: nat, i: nat,
    left: int, j: nat) {
    && Handed(sizes, syms, j, limit) && CountsHanded(sizes, counts, i, left)
    && CostHanded(sizes, freq, Keys(syms), counts, limit, i, j)
  }

  lemma HandingStep(sizes: seq<nat>, syms: seq<SymFreq>, freq: seq<nat>, counts: seq<int>, limit: nat, i: nat,
    left: int, j: nat)
    requires Handing(sizes, syms, freq, counts, limit, i, left, j) && j > 0 && 1 <= i <= limit && DistinctSyms(syms)
    requires j <= |syms| && syms[j - 1].sym < |freq| && freq[syms[j - 1].sym] == syms[j - 1].key
    ensures syms[j - 1].sym < |sizes|
    ensures Handing(sizes[syms[j - 1].sym := i], syms, freq, counts, limit, i, left - 1, j - 1)
  {
    hide Handed, CountsHanded, CostHanded;
    HandNext(sizes, syms, j, limit);
    HandStep(sizes, syms, j, limit, i);
    CountsHandStep(sizes, counts, i, left, syms[j - 1].sym);
    CostHandStep(sizes, freq, Keys(syms), counts, limit, i, j, syms[j - 1].sym);
  }

  /** The loop that gives the shortest lengths to the end of the sorted list. */
  method AssignSizes(sizes: array<nat>, syms: array<SymFreq>, counts: array<int>, limit: nat,
    ghost sorted: seq<SymFreq>, ghost freq: seq<nat>)
    requires counts.Length == LimitLengths.COUNTS && 1 <= limit <= MAX_CODE_SIZE && sizes.Length == |freq|
    requires LimitLengths.NonNegative(counts[..]) && LimitLengths.Symbols(counts[..], 1, limit + 1) == syms.Length
    requires SameSyms(syms[..], sorted) && OfCounts(sorted, freq)
    requires forall k :: 0 <= k < sizes.Length ==> sizes[k] == 0
    modifies sizes
    ensures Handed(sizes[..], syms[..], 0, limit)
    ensures CountsLengths(counts[..], sizes[..], limit)
    ensures LimitLengths.Symbols(counts[..], 1, limit + 1) == |Keys(sorted)|
    ensures TableCost(freq, sizes[..], |freq|) == LevelsOf(Keys(sorted), counts[..], limit, limit)
  {
    hide Count, LimitLengths.Symbols, LimitLengths.NonNegative, Handing, LevelsOf, TableCost, Handed, CountsLengths,
      DistinctSyms;
    ghost var c := counts[..];
    HandingStart(sizes[..], sorted, freq, c, limit);
    var i: nat, j: nat := 1, syms.Length;
    while i <= limit
      invariant 1 <= i <= limit + 1
      invariant j == LimitLengths.Symbols(c, i, limit + 1) && j <= syms.Length
      invariant Handing(sizes[..], sorted, freq, c, limit, i, c[i], j)
    {
      FirstCount(c, i, limit);
      var l := counts[i];
      while l > 0
        invariant 0 <= l && j == LimitLengths.Symbols(c, i + 1, limit + 1) + l && j <= syms.Length
        invariant Handing(sizes[..], sorted, freq, c, limit, i, l, j)
      {
        ghost var z := sizes[..];
        HandingStep(z, sorted, freq, c, limit, i, l, j);
        j := j - 1;
        sizes[syms[j].sym] := i;
        assert sizes[..] == z[sorted[j].sym := i];
        l := l - 1;
      }
      HandingNext(sizes[..], sorted, freq, c, limit, i, j);
      i := i + 1;
    }
    HandingEnd(sizes[..], sorted, freq, c, limit, j);
    HandedSame(sizes[..], sorted, syms[..], limit);
  }

  /** A list after its keys have been replaced. */
  ghost predicate SameSyms(s: seq<SymFreq>, t: seq<SymFreq>) {
    |s| == |t| && forall i :: 0 <= i < |s| ==> s[i].sym == t[i].sym
  }

  /** A list of distinct symbols with their counts. */
  ghost predicate OfCounts(s: seq<SymFreq>, counts: seq<nat>) {
    && DistinctSyms(s)
    && forall i :: 0 <= i < |s| ==> s[i].sym < |counts| && s[i].key == counts[s[i].sym]
  }

  lemma HandedSame(sizes: seq<nat>, s: seq<SymFreq>, t: seq<SymFreq>, limit: nat)
    requires Handed(sizes, s, 0, limit) && SameSyms(t, s)
    ensures Handed(sizes, t, 0, limit)
  {
    forall k | 0 <= k < |sizes| && sizes[k] > 0
      ensures exists i :: 0 <= i < |t| && t[i].sym == k
    {
      var i :| 0 <= i < |s| && s[i].sym == k;
      assert t[i].sym == k;
    }
  }

  lemma HandingStart(sizes: seq<nat>, syms: seq<SymFreq>, freq: seq<nat>, counts: seq<int>, limit: nat)
    requires OfCounts(syms, freq) && |sizes| == |freq| && 1 <= limit < |counts| && LimitLengths.NonNegative(counts)
    requires LimitLengths.Symbols(counts, 1, limit + 1) == |syms| && forall k :: 0 <= k < |sizes| ==> sizes[k] == 0
    ensures Handing(sizes, syms, freq, counts, limit, 1, counts[1], |syms|)
  {
    HandStart(sizes, syms, counts, limit);
    CostHandStart(sizes, freq, Keys(syms), counts, limit);
  }

  lemma HandingNext(sizes: seq<nat>, syms: seq<SymFreq>, freq: seq<nat>, counts: seq<int>, limit: nat, i: nat, j: nat)
    requires Handing(sizes, syms, freq, counts, limit, i, 0, j) && i <= limit && limit + 1 < |counts|
    requires j == LimitLengths.Symbols(counts, i + 1, limit + 1)
    ensures Handing(sizes, syms, freq, counts, limit, i + 1, counts[i + 1], j)
  {
    hide Handed, CostHanded;
    CountsHandedNext(sizes, counts, i);
    hide CountsHanded;
    CostHandNext(sizes, freq, Keys(syms), counts, limit, i, j);
  }

  lemma HandingEnd(sizes: seq<nat>, syms: seq<SymFreq>, freq: seq<nat>, counts: seq<int>, limit: nat, j: nat)
    requires limit + 1 < |counts| && Handing(sizes, syms, freq, counts, limit, limit + 1, counts[limit + 1], j)
    requires j == LimitLengths.Symbols(counts, limit + 1, limit + 1)
    ensures Handed(sizes, syms, 0, limit) && CountsLengths(counts, sizes, limit) && |sizes| == |freq|
    ensures LimitLengths.NonNegative(counts) && LimitLengths.Symbols(counts, 1, limit + 1) == |Keys(syms)|
    ensures TableCost(freq, sizes, |freq|) == LevelsOf(Keys(syms), counts, limit, limit)
  {
    assert LimitLengths.Symbols(counts, limit + 1, limit + 1) == 0;
    HandedDone(sizes, counts, limit);
    CostHandEnd(sizes, freq, Keys(syms), counts, limit);
  }

  /** The symbols from length i on are those of length i and the longer ones. */
  lemma FirstCount(c: seq<int>, i: nat, limit: nat)
    requires 1 <= i <= limit < |c| && LimitLengths.NonNegative(c)
    ensures LimitLengths.Symbols(c, i, limit + 1) == c[i] + LimitLengths.Symbols(c, i + 1, limit + 1)
    ensures c[i] >= 0 && LimitLengths.Symbols(c, i + 1, limit + 1) >= 0
  {
    LimitLengths.SymbolsSplit(c, i, i + 1, limit + 1);
    LimitLengths.SymbolsNonNegative(c, i + 1, limit + 1);
    SymbolsOne(c, i);
  }

  lemma SymbolsOne(c: seq<int>, i: nat)
    requires i < |c|
    ensures LimitLengths.Symbols(c, i, i + 1) == c[i]
  {
    assert LimitLengths.Symbols(c, i, i) == 0;
  }

  lemma HandNext(sizes: seq<nat>, syms: seq<SymFreq>, j: nat, limit: nat)
    requires Handed(sizes, syms, j, limit) && j > 0
    ensures syms[j - 1].sym < |sizes| && sizes[syms[j - 1].sym] == 0
  {
  }

  lemma CountsHandedNext(sizes: seq<nat>, counts: seq<int>, i: nat)
    requires CountsHanded(sizes, counts, i, 0) && i + 1 < |counts|
    ensures CountsHanded(sizes, counts, i + 1, counts[i + 1])
  {
  }

  lemma HandedDone(sizes: seq<nat>, counts: seq<int>, limit: nat)
    requires limit + 1 < |counts| && CountsHanded(sizes, counts, limit + 1, counts[limit + 1])
    ensures CountsLengths(counts, sizes, limit)
  {
  }

  // ----- the whole function -----

  /** Counting the given lengths of a fixed table. */
  method CountSizes(sizes: array<nat>, ghost limit: nat) returns (counts: array<int>)
    requires limit <= MAX_CODE_SIZE && forall i :: 0 <= i < sizes.Length ==> sizes[i] <= limit
    ensures fresh(counts) && counts.Length == LimitLengths.COUNTS
    ensures CountsLengths(counts[..], sizes[..], limit)
  {
    counts := Cleared(LimitLengths.COUNTS);
    ghost var z := sizes[..];
    var i := 0;
    while i < sizes.Length
      invariant 0 <= i <= sizes.Length
      invariant forall l :: 0 <= l < LimitLengths.COUNTS ==> counts[l] == CountTo(z, i, l)
    {
      assert sizes[i] == z[i];
      counts[sizes[i]] := counts[sizes[i]] + 1;
      i := i + 1;
    }
  }

  /** MZ_CLEAR_ARR on a table of lengths. */
  method ClearSizes(sizes: array<nat>)
    modifies sizes
    ensures forall k :: 0 <= k < sizes.Length ==> sizes[k] == 0
  {
    var i := 0;
    while i < sizes.Length
      invariant 0 <= i <= sizes.Length && forall k :: 0 <= k < i ==> sizes[k] == 0
    {
      sizes[i] := 0;
      i := i + 1;
    }
  }

  /** The lengths of n >= 2 sorted symbols leave a full Kraft sum; fewer symbols leave only length 1. */
  ghost predicate Tally(c: seq<int>, n: nat, limit: nat) {
    && |c| == LimitLengths.COUNTS && 1 <= limit < LimitLengths.COUNTS - 1 && LimitLengths.NonNegative(c)
    && LimitLengths.Symbols(c, 1, LimitLengths.COUNTS) == n
    && (n >= 2 ==> LimitLengths.KraftCounts(c, LimitLengths.COUNTS - 1) == Pow2(LimitLengths.COUNTS - 1))
    && (n < 2 ==> LimitLengths.Symbols(c, 1, limit + 1) == LimitLengths.Symbols(c, 1, 2) == n)
  }

  lemma TallyDone(c: seq<int>, lens: seq<nat>, limit: nat)
    requires Tallied(c, lens, |lens|) && 1 <= limit < LimitLengths.COUNTS - 1
    requires |lens| >= 2 ==> KraftSum(lens, LimitLengths.COUNTS - 1) == Pow2(LimitLengths.COUNTS - 1)
    requires |lens| < 2 ==> forall l :: 1 < l < LimitLengths.COUNTS ==> c[l] == 0
    ensures Tally(c, |lens|, limit) && Counted(c, lens)
  {
    assert lens[..|lens|] == lens;
    assert CountedAt(c, lens, LimitLengths.COUNTS - 1);
    if |lens| < 2 {
      LimitLengths.SymbolsSplit(c, 1, 2, LimitLengths.COUNTS);
      LimitLengths.SymbolsSplit(c, 1, limit + 1, LimitLengths.COUNTS);
      SymbolsZero(c, 2, LimitLengths.COUNTS);
      SymbolsZero(c, limit + 1, LimitLengths.COUNTS);
    }
  }

  lemma FewSymbols(sizes: seq<nat>, syms: seq<SymFreq>, limit: nat)
    requires Handed(sizes, syms, 0, limit) && |syms| < 2
    ensures Used(sizes, |sizes|) <= 1
  {
    UsedAtMostOne(sizes, |sizes|);
  }

  /** Exactly the symbols that occur have a length. */
  ghost predicate CoversCounts(sizes: seq<nat>, counts: seq<nat>, limit: nat) {
    && |sizes| == |counts|
    && forall s :: 0 <= s < |sizes| ==> sizes[s] <= limit && (sizes[s] > 0 <==> counts[s] > 0)
  }

  lemma HandedCovers(sizes: seq<nat>, syms: seq<SymFreq>, counts: seq<nat>, limit: nat)
    requires Handed(sizes, syms, 0, limit) && |sizes| == |counts| && SortedSyms(syms, counts)
    ensures CoversCounts(sizes, counts, limit)
  {
  }

  /** The list as it was sorted: the symbols that occur, with their counts. */
  ghost predicate SortedList(sorted: seq<SymFreq>, counts: seq<nat>) {
    && multiset(sorted) == multiset(UsedSyms(counts, |counts|)) && SortedSyms(sorted, counts)
      && OfCounts(sorted, counts)
    && (forall i :: 0 <= i < |sorted| ==> sorted[i].key > 0) && (|sorted| >= 2 ==> Input(Keys(sorted)))
  }

  method SortSyms(counts: array<nat>) returns (syms: array<SymFreq>)
    requires CountSum(counts[..], counts.Length) < 65536
    ensures fresh(syms) && syms.Length <= counts.Length && SortedList(syms[..], counts[..])
  {
    ghost var c := counts[..];
    var syms0 := CollectSyms(counts);
    var syms1 := new SymFreq[syms0.Length](_ => SymFreq(0, 0));
    syms := RadixSort.RadixSortSyms(syms0, syms1);
    SortedIsSortedSyms(syms[..], c);
    SortedMembers(syms[..], c);
    if syms.Length >= 2 {
      SortedInput(syms[..], c);
    }
  }

  lemma SymsKept(s: seq<SymFreq>, t: seq<SymFreq>, counts: seq<nat>)
    requires SortedSyms(s, counts) && SameSyms(t, s)
    ensures SortedSyms(t, counts)
  {
    forall k | 0 <= k < |counts| && counts[k] > 0
      ensures exists i :: 0 <= i < |t| && t[i].sym == k
    {
      var i :| 0 <= i < |s| && s[i].sym == k;
      assert t[i].sym == k;
    }
  }

  /** Optimal lengths for these weights. */
  ghost predicate Optimum(w: seq<nat>, lens: seq<nat>) {
    && |w| == |lens| && Descending(lens) && Minimal(w, lens) && LightTails(w, lens)
    && KraftSum(lens, MAX_SUPPORTED_CODE_SIZE) == Pow2(MAX_SUPPORTED_CODE_SIZE)
  }

  /** Minimum-redundancy lengths replace the sorted counts; the symbols stay. */
  method KeysToLengths(syms: array<SymFreq>)
    requires syms.Length <= 65536 && (syms.Length >= 2 ==> Input(Keys(syms[..])))
    modifies syms
    ensures SameSyms(syms[..], old(syms[..]))
    ensures syms.Length >= 2 ==> Optimum(Keys(old(syms[..])), Keys(syms[..]))
    ensures forall i :: 0 <= i < syms.Length ==> 1 <= syms[i].key <= if syms.Length < 2 then 1
      else MAX_SUPPORTED_CODE_SIZE
  {
    hide Input, KraftSum, Pow2, Minimal, LightTails;
    ghost var s := syms[..];
    ghost var names := seq(|s|, i requires 0 <= i < |s| => s[i].sym);
    CalculateMinimumRedundancy(syms, syms.Length, names);
  }

  /** The lengths, counted. */
  method MinLengths(syms: array<SymFreq>, limit: nat) returns (numCodes: array<int>)
    requires syms.Length <= 288 && 1 <= limit <= MAX_CODE_SIZE && (syms.Length >= 2 ==> Input(Keys(syms[..])))
    modifies syms
    ensures SameSyms(syms[..], old(syms[..]))
    ensures fresh(numCodes) && numCodes.Length == LimitLengths.COUNTS && Tally(numCodes[..], syms.Length, limit)
    ensures Counted(numCodes[..], Keys(syms[..])) && (syms.Length >= 2 ==> Optimum(Keys(old(syms[..])), Keys(syms[..])))
  {
    hide Input, Tally, Tallied, Pow2, KraftSum, Minimal, LightTails, Descending, SameSyms, Counted;
    KeysToLengths(syms);
    numCodes := TallyLengths(syms, if syms.Length < 2 then 1 else MAX_SUPPORTED_CODE_SIZE);
    TallyDone(numCodes[..], Keys(syms[..]), limit);
  }

  /** What the limited counts are worth. */
  lemma Limited(sorted: seq<SymFreq>, counts: seq<nat>, lens: seq<nat>, before: seq<int>, after: seq<int>, limit: nat,
    low: nat)
    requires SortedList(sorted, counts) && |sorted| == |lens| <= 288 && |before| == |after| == LimitLengths.COUNTS
    requires Tally(before, |sorted|, limit) && Counted(before, lens) && LimitLengths.NonNegative(after)
      && 1 <= limit <= 15
    requires LimitLengths.Symbols(after, 1, limit + 1) == |sorted|
    requires |sorted| >= 2 ==>
      Optimum(Keys(sorted), lens)
      && LimitLengths.SplitFrom(before, after, limit, low, |sorted|)
    requires |sorted| < 2 ==> after == before && LimitLengths.Symbols(before, 1, 2) == |sorted|
    ensures limit == 15 ==> NearMinimal(Keys(sorted), after, 15)
  {
    hide LimitLengths.Symbols, LimitLengths.NonNegative, LimitLengths.SplitFrom, Counted, Minimal, LightTails, KraftSum,
      Sum, Descending, NearMinimal, Pow2;
    if limit == 15 {
      if |sorted| >= 2 {
        LimitedNearMinimal(Keys(sorted), lens, before, after, low);
      } else {
        OneNearMinimal(Keys(sorted), after);
      }
    }
  }

  /** Sorting, minimum-redundancy lengths and length limiting. */
  method ChooseLengths(counts: array<nat>, limit: nat)
    returns (syms: array<SymFreq>, numCodes: array<int>, ghost sorted: seq<SymFreq>)
    requires CountSum(counts[..], counts.Length) < 65536
    requires 1 <= limit <= MAX_CODE_SIZE && counts.Length <= 288 && counts.Length <= Pow2(limit)
    ensures fresh(syms) && fresh(numCodes) && numCodes.Length == LimitLengths.COUNTS
    ensures SortedList(sorted, counts[..]) && SameSyms(syms[..], sorted)
    ensures LimitLengths.NonNegative(numCodes[..])
    ensures LimitLengths.Symbols(numCodes[..], 1, limit + 1) == syms.Length
    ensures syms.Length >= 2 ==> LimitLengths.KraftCounts(numCodes[..], limit) == Pow2(limit)
    ensures limit == 15 ==> NearMinimal(Keys(sorted), numCodes[..], 15)
  {
    hide SortedSyms, LimitLengths.NonNegative, LimitLengths.Symbols, LimitLengths.KraftCounts, CountSum, Input, Pow2,
      Optimum, OfCounts, NearMinimal, Counted, LimitLengths.SplitFrom;
    syms := SortSyms(counts);
    sorted := syms[..];
    numCodes := MinLengths(syms, limit);
    ghost var before := numCodes[..];
    ghost var low := LimitLengths.EnforceMaxCodeSize(numCodes, syms.Length, limit);
    Limited(sorted, counts[..], Keys(syms[..]), before, numCodes[..], limit, low);
  }

  /** A table for the given counts: exactly the symbols that occur get codes, within the limit, the lengths are ones
      that the decompressor accepts, and a table limited to 15 bits is close to the cheapest that any prefix code could
      make. */
  method OptimizeTable(counts: array<nat>, sizes: array<nat>, codes: array<nat>, limit: nat)
    requires CountSum(counts[..], counts.Length) < 65536
    requires 1 <= limit <= MAX_CODE_SIZE && counts.Length <= 288 && counts.Length <= Pow2(limit)
    requires counts.Length == sizes.Length == codes.Length && counts != sizes && counts != codes && sizes != codes
    modifies sizes, codes
    ensures CoversCounts(sizes[..], counts[..], limit)
    ensures Acceptable(sizes[..])
    ensures HasCodeWords(sizes[..], codes[..])
    ensures limit == 15 ==> NearOptimal(counts[..], sizes[..])
  {
    hide SortedSyms, LimitLengths.NonNegative, LimitLengths.Symbols, LimitLengths.KraftCounts, CountSum, Input, Pow2,
      Acceptable, OfCounts, NearMinimal, TableCost, LevelsOf, Handed, CountsLengths, HasCodeWords, CoversCounts,
      NearOptimal, SameSyms;
    ghost var c := counts[..];
    var syms, numCodes, sorted := ChooseLengths(counts, limit);
    ClearSizes(sizes);
    AssignSizes(sizes, syms, numCodes, limit, sorted, c);
    SymsKept(sorted, syms[..], c);
    HandedCovers(sizes[..], syms[..], c, limit);
    TableAcceptable(sizes[..], syms[..], numCodes[..], limit);
    if limit == 15 {
      TableNearOptimal(c, sizes[..], sorted, numCodes[..]);
    }
    AssignCodes(sizes, codes, numCodes, limit);
  }

  lemma TableNearOptimal(counts: seq<nat>, sizes: seq<nat>, sorted: seq<SymFreq>, c: seq<int>)
    requires SortedList(sorted, counts) && |sizes| == |counts| && NearMinimal(Keys(sorted), c, 15)
    requires TableCost(counts, sizes, |counts|) == LevelsOf(Keys(sorted), c, 15, 15)
    ensures NearOptimal(counts, sizes)
  {
    hide TableCost, LevelsOf, Sum, CountSum, SumOf, UsedSyms, HuffmanOptimal.Code, UsedKraft, Cost, Weights, Keys,
      OfCounts, SortedSyms, LimitLengths.Symbols, LimitLengths.NonNegative, Input;
    SortedTotal(sorted, counts);
    forall m, top | PrefixLengths(counts, m, top)
      ensures 2 * TableCost(counts, sizes, |counts|)
        <= 2 * TableCost(counts, m, |counts|) + 3 * CountSum(counts, |counts|)
    {
      LeavesCode(sorted, counts, m, top);
    }
  }

  lemma TableAcceptable(sizes: seq<nat>, syms: seq<SymFreq>, numCodes: seq<int>, limit: nat)
    requires 1 <= limit <= MAX_CODE_SIZE
    requires Handed(sizes, syms, 0, limit) && CountsLengths(numCodes, sizes, limit)
    requires |syms| >= 2 ==> LimitLengths.KraftCounts(numCodes, limit) == Pow2(limit)
    ensures Acceptable(sizes)
  {
    if |syms| < 2 {
      FewSymbols(sizes, syms, limit);
    } else {
      CompleteAtLimit(numCodes, sizes, limit);
    }
  }

  /** The static_table path: codes for lengths that are already there. */
  method StaticTable(sizes: array<nat>, codes: array<nat>)
    requires sizes.Length == codes.Length && sizes != codes
    requires forall i :: 0 <= i < sizes.Length ==> sizes[i] <= MAX_CODE_SIZE
    modifies codes
    ensures HasCodeWords(sizes[..], codes[..])
  {
    var numCodes := CountSizes(sizes, MAX_CODE_SIZE);
    AssignCodes(sizes, codes, numCodes, MAX_CODE_SIZE);
  }
}
