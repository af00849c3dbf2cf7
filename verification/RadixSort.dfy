/** tdefl_radix_sort_syms: least significant digit first radix sort of 16-bit keys. */
module RadixSort {
  import opened MinRedundancy
  import opened Sums

  /** The low or the high byte of a key. */
  function Digit(x: SymFreq, high: bool): (d: nat)
    ensures d < 256
  {
    if high then (x.key / 256) % 256 else x.key % 256
  }

  /** The elements of s whose digit is b, in their order in s. */
  function Bucket(s: seq<SymFreq>, b: nat, high: bool): (r: seq<SymFreq>)
    ensures |r| <= |s|
  {
    if s == [] then []
    else
      var last := s[|s| - 1];
      Bucket(s[..|s| - 1], b, high) + (if Digit(last, high) == b then [last] else [])
  }

  /** The buckets 0..b-1, one after the other. */
  function Buckets(s: seq<SymFreq>, b: nat, high: bool): seq<SymFreq>
  {
    if b == 0 then [] else Buckets(s, b - 1, high) + Bucket(s, b - 1, high)
  }

  /** One stable distribution pass. */
  function Pass(s: seq<SymFreq>, high: bool): seq<SymFreq>
  {
    Buckets(s, 256, high)
  }

  lemma {:induction false} BucketDigits(s: seq<SymFreq>, b: nat, high: bool)
    ensures forall i :: 0 <= i < |Bucket(s, b, high)| ==> Digit(Bucket(s, b, high)[i], high) == b
  {
    if s != [] {
      BucketDigits(s[..|s| - 1], b, high);
    }
  }

  lemma {:induction false} BucketsDigits(s: seq<SymFreq>, b: nat, high: bool)
    ensures forall i :: 0 <= i < |Buckets(s, b, high)| ==> Digit(Buckets(s, b, high)[i], high) < b
  {
    if b > 0 {
      BucketsDigits(s, b - 1, high);
      BucketDigits(s, b - 1, high);
    }
  }

  // ----- a pass permutes -----

  lemma {:induction false} BucketsPush(s: seq<SymFreq>, x: SymFreq, b: nat, high: bool)
    ensures multiset(Buckets(s + [x], b, high))
         == multiset(Buckets(s, b, high)) + (if Digit(x, high) < b then multiset{x} else multiset{})
  {
    if b > 0 {
      BucketsPush(s, x, b - 1, high);
      assert (s + [x])[..|s|] == s;
    }
  }

  lemma {:induction false} BucketsEmpty(b: nat, high: bool)
    ensures Buckets([], b, high) == []
  {
    if b > 0 {
      BucketsEmpty(b - 1, high);
    }
  }

  lemma {:induction false} BucketsPermute(s: seq<SymFreq>, b: nat, high: bool)
    requires b >= 256
    ensures multiset(Buckets(s, b, high)) == multiset(s)
  {
    if s == [] {
      BucketsEmpty(b, high);
    } else {
      var r, x := s[..|s| - 1], s[|s| - 1];
      BucketsPermute(r, b, high);
      assert s == r + [x];
      BucketsPush(r, x, b, high);
    }
  }

  // ----- two passes sort -----

  ghost predicate SortedBy(s: seq<SymFreq>, high: bool)
  {
    forall i, j :: 0 <= i <= j < |s| ==> Digit(s[i], high) <= Digit(s[j], high)
  }

  /** Sorted by the high digit, and by the low digit where the high digits agree. */
  ghost predicate SortedTwice(s: seq<SymFreq>) {
    forall i, j :: 0 <= i <= j < |s| ==>
      Digit(s[i], true) < Digit(s[j], true) || (Digit(s[i], true) == Digit(s[j], true)
        && Digit(s[i], false) <= Digit(s[j], false))
  }

  lemma {:induction false} BucketsSorted(s: seq<SymFreq>, b: nat, high: bool)
    ensures SortedBy(Buckets(s, b, high), high)
  {
    if b > 0 {
      BucketsSorted(s, b - 1, high);
      BucketsDigits(s, b - 1, high);
      BucketDigits(s, b - 1, high);
      Concat(Buckets(s, b - 1, high), Bucket(s, b - 1, high), b - 1, high);
    }
  }

  lemma Concat(p: seq<SymFreq>, q: seq<SymFreq>, b: nat, high: bool)
    requires SortedBy(p, high)
    requires forall i :: 0 <= i < |p| ==> Digit(p[i], high) < b
    requires forall i :: 0 <= i < |q| ==> Digit(q[i], high) == b
    ensures SortedBy(p + q, high)
  {
  }

  ghost predicate LowAtMost(s: seq<SymFreq>, m: nat) {
    forall i :: 0 <= i < |s| ==> Digit(s[i], false) <= m
  }

  lemma {:induction false} BucketLow(s: seq<SymFreq>, b: nat, m: nat)
    requires LowAtMost(s, m)
    ensures LowAtMost(Bucket(s, b, true), m)
  {
    if s != [] {
      BucketLow(s[..|s| - 1], b, m);
    }
  }

  /** Stability: a bucket of a sorted sequence is sorted. */
  lemma {:induction false} BucketKeepsOrder(s: seq<SymFreq>, b: nat)
    requires SortedBy(s, false)
    ensures SortedBy(Bucket(s, b, true), false)
  {
    if s != [] {
      var r, x := s[..|s| - 1], s[|s| - 1];
      BucketKeepsOrder(r, b);
      BucketLow(r, b, Digit(x, false));
    }
  }

  lemma {:induction false} SecondPassSorts(s: seq<SymFreq>, b: nat)
    requires SortedBy(s, false)
    ensures SortedTwice(Buckets(s, b, true))
  {
    if b > 0 {
      SecondPassSorts(s, b - 1);
      BucketKeepsOrder(s, b - 1);
      BucketsDigits(s, b - 1, true);
      BucketDigits(s, b - 1, true);
      ConcatTwice(Buckets(s, b - 1, true), Bucket(s, b - 1, true), b - 1);
    }
  }

  lemma ConcatTwice(p: seq<SymFreq>, q: seq<SymFreq>, b: nat)
    requires SortedTwice(p) && SortedBy(q, false)
    requires forall i :: 0 <= i < |p| ==> Digit(p[i], true) < b
    requires forall i :: 0 <= i < |q| ==> Digit(q[i], true) == b
    ensures SortedTwice(p + q)
  {
  }

  ghost predicate SortedKeys(s: seq<SymFreq>) {
    forall i, j :: 0 <= i <= j < |s| ==> s[i].key <= s[j].key
  }

  lemma KeysOfDigits(x: SymFreq)
    requires x.key < 65536
    ensures x.key == 256 * Digit(x, true) + Digit(x, false)
  {
  }

  lemma SortedTwiceKeys(s: seq<SymFreq>)
    requires SortedTwice(s) && forall i :: 0 <= i < |s| ==> s[i].key < 65536
    ensures SortedKeys(s)
  {
    forall i, j | 0 <= i <= j < |s|
      ensures s[i].key <= s[j].key
    {
      KeysOfDigits(s[i]);
      KeysOfDigits(s[j]);
    }
  }

  // ----- equal keys keep their order -----

  /** The elements with a given key, in their order in s. */
  function OfKey(s: seq<SymFreq>, k: nat): (r: seq<SymFreq>) {
    if s == [] then []
    else
      var last := s[|s| - 1];
      OfKey(s[..|s| - 1], k) + (if last.key == k then [last] else [])
  }

  ghost predicate Stable(s: seq<SymFreq>, t: seq<SymFreq>) {
    forall k :: OfKey(t, k) == OfKey(s, k)
  }

  lemma {:induction false} OfKeyConcat(p: seq<SymFreq>, q: seq<SymFreq>, k: nat)
    ensures OfKey(p + q, k) == OfKey(p, k) + OfKey(q, k)
  {
    if q == [] {
      assert p + q == p;
    } else {
      OfKeyConcat(p, q[..|q| - 1], k);
      assert (p + q)[..|p + q| - 1] == p + q[..|q| - 1];
    }
  }

  /** All elements with the same key go to the same bucket, in order. */
  lemma {:induction false} OfKeyBucket(s: seq<SymFreq>, b: nat, high: bool, k: nat)
    ensures OfKey(Bucket(s, b, high), k) == if Digit(SymFreq(k, 0), high) == b then OfKey(s, k) else []
  {
    if s != [] {
      var r, last := s[..|s| - 1], s[|s| - 1];
      OfKeyBucket(r, b, high, k);
      OfKeyConcat(Bucket(r, b, high), if Digit(last, high) == b then [last] else [], k);
      OfKeyOne(last, k);
    }
  }

  lemma OfKeyOne(x: SymFreq, k: nat)
    ensures OfKey([x], k) == if x.key == k then [x] else []
    ensures OfKey([], k) == []
  {
    assert [x][..0] == [];
  }

  lemma BucketsStep(s: seq<SymFreq>, b: nat, high: bool)
    ensures Buckets(s, b, high) == if b == 0 then [] else Buckets(s, b - 1, high) + Bucket(s, b - 1, high)
  {
  }

  lemma {:induction false} OfKeyBuckets(s: seq<SymFreq>, b: nat, high: bool, k: nat)
    ensures OfKey(Buckets(s, b, high), k) == if Digit(SymFreq(k, 0), high) < b then OfKey(s, k) else []
  {
    hide *;
    BucketsStep(s, b, high);
    OfKeyOne(SymFreq(k, 0), k);
    if b > 0 {
      OfKeyBuckets(s, b - 1, high, k);
      OfKeyBucket(s, b - 1, high, k);
      OfKeyConcat(Buckets(s, b - 1, high), Bucket(s, b - 1, high), k);
    }
  }

  lemma PassStable(s: seq<SymFreq>, high: bool)
    ensures Stable(s, Pass(s, high))
  {
    forall k
      ensures OfKey(Pass(s, high), k) == OfKey(s, k)
    {
      OfKeyBuckets(s, 256, high, k);
    }
  }

  // ----- the array algorithm -----

  /** Where bucket b starts in the output. */
  function BucketStart(s: seq<SymFreq>, b: nat, high: bool): nat
  {
    if b == 0 then 0 else BucketStart(s, b - 1, high) + |Bucket(s, b - 1, high)|
  }

  lemma {:induction false} BucketsLength(s: seq<SymFreq>, b: nat, high: bool)
    ensures |Buckets(s, b, high)| == BucketStart(s, b, high)
  {
    if b > 0 {
      BucketsLength(s, b - 1, high);
    }
  }

  lemma {:induction false} StartsGrow(s: seq<SymFreq>, b: nat, c: nat, high: bool)
    requires b <= c
    ensures BucketStart(s, b, high) <= BucketStart(s, c, high)
    ensures b < c ==> BucketStart(s, b, high) + |Bucket(s, b, high)| <= BucketStart(s, c, high)
  {
    if b < c {
      StartsGrow(s, b, c - 1, high);
    }
  }

  lemma StartStep(s: seq<SymFreq>, b: nat, high: bool)
    ensures BucketStart(s, b + 1, high) == BucketStart(s, b, high) + |Bucket(s, b, high)|
    ensures BucketStart(s, 0, high) == 0
  {
  }

  lemma LastStart(s: seq<SymFreq>, high: bool)
    ensures BucketStart(s, 256, high) == |s|
  {
    BucketsLength(s, 256, high);
    BucketsPermute(s, 256, high);
    assert |multiset(s)| == |s|;
    assert |multiset(Pass(s, high))| == |Pass(s, high)|;
  }

  lemma {:induction false} BucketPrefix(s: seq<SymFreq>, i: nat, b: nat, high: bool)
    requires i <= |s|
    ensures Bucket(s[..i], b, high) <= Bucket(s, b, high)
    decreases |s|
  {
    if i < |s| {
      BucketPrefix(s[..|s| - 1], i, b, high);
      assert s[..|s| - 1][..i] == s[..i];
    } else {
      assert s[..i] == s;
    }
  }

  /** After i elements, each bucket's region holds the bucket of what was read, and its offset points past it. */
  ghost predicate Scattered(s: seq<SymFreq>, dst: seq<SymFreq>, offs: seq<nat>, i: nat, high: bool) {
    && i <= |s| == |dst| && |offs| == 256
    && (forall b :: 0 <= b < 256 ==> BucketDone(s, dst, offs[b], i, b, high))
  }

  ghost predicate BucketDone(s: seq<SymFreq>, dst: seq<SymFreq>, off: nat, i: nat, b: nat, high: bool)
    requires i <= |s|
  {
    && BucketStart(s, b, high) + |Bucket(s[..i], b, high)| == off <= |dst|
    && dst[BucketStart(s, b, high)..off] == Bucket(s[..i], b, high)
  }

  lemma BucketStep(s: seq<SymFreq>, i: nat, b: nat, high: bool)
    requires i < |s| && b < 256
    ensures Bucket(s[..i + 1], b, high) == Bucket(s[..i], b, high) + (if Digit(s[i], high) == b then [s[i]] else [])
    ensures BucketStart(s, b, high) + |Bucket(s[..i + 1], b, high)| <= BucketStart(s, b + 1, high) <= |s|
  {
    hide Bucket, BucketStart, Digit;
    BucketPush(s, i, b, high);
    BucketPrefix(s, i + 1, b, high);
    StartStep(s, b, high);
    StartsGrow(s, b + 1, 256, high);
    LastStart(s, high);
  }

  lemma BucketPush(s: seq<SymFreq>, i: nat, b: nat, high: bool)
    requires i < |s|
    ensures Bucket(s[..i + 1], b, high) == Bucket(s[..i], b, high) + (if Digit(s[i], high) == b then [s[i]] else [])
  {
    hide Digit;
    assert s[..i + 1][..i] == s[..i];
  }

  lemma UpdateOutside<T>(q: seq<T>, at: nat, x: T, lo: nat, hi: nat)
    requires at < |q| && lo <= hi <= |q| && (at < lo || hi <= at)
    ensures q[at := x][lo..hi] == q[lo..hi]
  {
  }

  lemma BucketRoom(s: seq<SymFreq>, i: nat, b: nat, high: bool)
    requires i < |s| && b < 256
    ensures BucketStart(s, b, high) + |Bucket(s[..i], b, high)| + (if Digit(s[i], high) == b then 1 else 0)
         <= BucketStart(s, b + 1, high)
    ensures Digit(s[i], high) != b ==> Bucket(s[..i + 1], b, high) == Bucket(s[..i], b, high)
  {
    hide Digit, Bucket, BucketStart;
    BucketStep(s, i, b, high);
  }

  /** The write position of one bucket is outside the region of every other bucket. */
  lemma Apart(s: seq<SymFreq>, i: nat, b: nat, high: bool)
    requires i < |s| && b < 256 && b != Digit(s[i], high)
    ensures var d := Digit(s[i], high);
      var at := BucketStart(s, d, high) + |Bucket(s[..i], d, high)|;
      at < BucketStart(s, b, high) || BucketStart(s, b, high) + |Bucket(s[..i], b, high)| <= at
    ensures Bucket(s[..i + 1], b, high) == Bucket(s[..i], b, high)
  {
    hide *;
    var d := Digit(s[i], high);
    BucketRoom(s, i, b, high);
    BucketRoom(s, i, d, high);
    if b < d {
      StartsGrow(s, b + 1, d, high);
    } else {
      StartsGrow(s, d + 1, b, high);
    }
  }

  lemma ScatterOther(s: seq<SymFreq>, dst: seq<SymFreq>, off: nat, at: nat, i: nat, b: nat, high: bool)
    requires i < |s| && b < 256 && b != Digit(s[i], high)
    requires BucketDone(s, dst, off, i, b, high)
    requires at == BucketStart(s, Digit(s[i], high), high) + |Bucket(s[..i], Digit(s[i], high), high)| < |dst|
    ensures BucketDone(s, dst[at := s[i]], off, i + 1, b, high)
  {
    hide Digit, Bucket, BucketStart;
    Apart(s, i, b, high);
    UpdateOutside(dst, at, s[i], BucketStart(s, b, high), off);
  }

  lemma ScatterSame(s: seq<SymFreq>, dst: seq<SymFreq>, off: nat, i: nat, high: bool)
    requires i < |s|
    requires BucketDone(s, dst, off, i, Digit(s[i], high), high) && off < |dst|
    ensures BucketDone(s, dst[off := s[i]], off + 1, i + 1, Digit(s[i], high), high)
  {
    hide Digit;
    var lo := BucketStart(s, Digit(s[i], high), high);
    BucketStep(s, i, Digit(s[i], high), high);
    assert dst[off := s[i]][lo..off + 1] == dst[lo..off] + [s[i]];
  }

  lemma ScatterStep(s: seq<SymFreq>, dst: seq<SymFreq>, offs: seq<nat>, i: nat, high: bool)
    requires Scattered(s, dst, offs, i, high) && i < |s|
    ensures var d := Digit(s[i], high);
      offs[d] < |dst| && Scattered(s, dst[offs[d] := s[i]], offs[d := offs[d] + 1], i + 1, high)
  {
    hide Digit, BucketStart, Bucket;
    var d := Digit(s[i], high);
    assert BucketDone(s, dst, offs[d], i, d, high);
    BucketStep(s, i, d, high);
    StartStep(s, d, high);
    var after := offs[d := offs[d] + 1];
    forall b | 0 <= b < 256
      ensures BucketDone(s, dst[offs[d] := s[i]], after[b], i + 1, b, high)
    {
      assert BucketDone(s, dst, offs[b], i, b, high);
      if b == d {
        ScatterSame(s, dst, offs[b], i, high);
      } else {
        ScatterOther(s, dst, offs[b], offs[d], i, b, high);
      }
    }
  }

  lemma ScatterStart(s: seq<SymFreq>, dst: seq<SymFreq>, offs: seq<nat>, high: bool)
    requires |s| == |dst| && |offs| == 256
    requires forall b :: 0 <= b < 256 ==> offs[b] == BucketStart(s, b, high)
    ensures Scattered(s, dst, offs, 0, high)
  {
    forall b | 0 <= b < 256
      ensures BucketDone(s, dst, offs[b], 0, b, high)
    {
      assert s[..0] == [];
      StartsGrow(s, b, 256, high);
      LastStart(s, high);
    }
  }

  lemma {:induction false} ScatterEnd(s: seq<SymFreq>, dst: seq<SymFreq>, offs: seq<nat>, b: nat, high: bool)
    requires Scattered(s, dst, offs, |s|, high) && b <= 256
    ensures BucketStart(s, b, high) <= |s|
    ensures dst[..BucketStart(s, b, high)] == Buckets(s, b, high)
  {
    hide Bucket, BucketStart, Digit;
    StartsGrow(s, b, 256, high);
    LastStart(s, high);
    StartStep(s, 0, high);
    if b > 0 {
      ScatterEnd(s, dst, offs, b - 1, high);
      StartStep(s, b - 1, high);
      assert BucketDone(s, dst, offs[b - 1], |s|, b - 1, high);
      assert s[..|s|] == s;
      var lo, hi := BucketStart(s, b - 1, high), BucketStart(s, b, high);
      assert dst[..hi] == dst[..lo] + dst[lo..hi];
    }
  }

  lemma ScatterDone(s: seq<SymFreq>, dst: seq<SymFreq>, offs: seq<nat>, high: bool)
    requires Scattered(s, dst, offs, |s|, high)
    ensures dst == Pass(s, high)
  {
    ScatterEnd(s, dst, offs, 256, high);
    LastStart(s, high);
  }

  /** The scatter loop of one pass. */
  method Scatter(src: array<SymFreq>, dst: array<SymFreq>, offsets: array<nat>, high: bool)
    requires src != dst && src.Length == dst.Length && offsets.Length == 256
    requires forall b :: 0 <= b < 256 ==> offsets[b] == BucketStart(src[..], b, high)
    modifies dst, offsets
    ensures dst[..] == Pass(old(src[..]), high)
  {
    hide *;
    ghost var s := src[..];
    ScatterStart(s, dst[..], offsets[..], high);
    var i := 0;
    while i < src.Length
      invariant 0 <= i <= src.Length && src[..] == s
      invariant Scattered(s, dst[..], offsets[..], i, high)
    {
      ScatterStep(s, dst[..], offsets[..], i, high);
      var d := Digit(src[i], high);
      ghost var was, offs := dst[..], offsets[..];
      dst[offsets[d]] := src[i];
      offsets[d] := offsets[d] + 1;
      assert dst[..] == was[offs[d] := s[i]] && offsets[..] == offs[d := offs[d] + 1];
      i := i + 1;
    }
    ScatterDone(s, dst[..], offsets[..], high);
  }

  lemma {:induction false} BucketAll(s: seq<SymFreq>, n: nat)
    requires n <= |s| && |Bucket(s[..n], 0, true)| == n
    requires forall i :: 0 <= i < |s| ==> s[i].key < 65536
    ensures forall i :: 0 <= i < n ==> s[i].key < 256
  {
    if n > 0 {
      assert s[..n][..n - 1] == s[..n - 1];
      BucketAll(s, n - 1);
      assert Digit(s[n - 1], true) == 0;
    }
  }

  /** counts[b] is how many of the first i elements have digit b. */
  ghost predicate Counted(counts: seq<nat>, s: seq<SymFreq>, i: nat, high: bool) {
    i <= |s| && |counts| == 256 && forall b :: 0 <= b < 256 ==> counts[b] == |Bucket(s[..i], b, high)|
  }

  lemma CountedStart(counts: seq<nat>, s: seq<SymFreq>, high: bool)
    requires |counts| == 256 && forall b :: 0 <= b < 256 ==> counts[b] == 0
    ensures Counted(counts, s, 0, high)
  {
    assert s[..0] == [];
  }

  lemma CountedStep(counts: seq<nat>, s: seq<SymFreq>, i: nat, high: bool)
    requires Counted(counts, s, i, high) && i < |s|
    ensures var d := Digit(s[i], high); Counted(counts[d := counts[d] + 1], s, i + 1, high)
  {
    hide Bucket, BucketStart, Digit;
    var d := Digit(s[i], high);
    var after := counts[d := counts[d] + 1];
    forall b | 0 <= b < 256
      ensures after[b] == |Bucket(s[..i + 1], b, high)|
    {
      BucketStep(s, i, b, high);
    }
  }

  /** Counts the digits of both passes, as the first loop of the C function does. */
  method Histogram(syms: array<SymFreq>) returns (hist: array<nat>)
    ensures fresh(hist) && hist.Length == 512
    ensures Counted(hist[..256], syms[..], syms.Length, false)
    ensures Counted(hist[256..], syms[..], syms.Length, true)
  {
    hist := new nat[512](_ => 0);
    ghost var s := syms[..];
    CountedStart(hist[..256], s, false);
    CountedStart(hist[256..], s, true);
    hide Counted, Digit;
    var i := 0;
    while i < syms.Length
      invariant 0 <= i <= syms.Length && syms[..] == s
      invariant Counted(hist[..256], s, i, false) && Counted(hist[256..], s, i, true)
    {
      var low, high := Digit(syms[i], false), Digit(syms[i], true);
      ghost var h0, h1 := hist[..256], hist[256..];
      CountedStep(h0, s, i, false);
      CountedStep(h1, s, i, true);
      hist[low] := hist[low] + 1;
      hist[256 + high] := hist[256 + high] + 1;
      assert hist[..256] == h0[low := h0[low] + 1];
      assert hist[256..] == h1[high := h1[high] + 1];
      i := i + 1;
    }
  }

  /** Running sums of the counts give each bucket's start. */
  method Offsets(hist: array<nat>, base: nat, ghost s: seq<SymFreq>, ghost high: bool) returns (offsets: array<nat>)
    requires base + 256 <= hist.Length
    requires Counted(hist[base..base + 256], s, |s|, high)
    ensures fresh(offsets) && offsets.Length == 256
    ensures forall b :: 0 <= b < 256 ==> offsets[b] == BucketStart(s, b, high)
  {
    hide BucketStart, Bucket;
    offsets := new nat[256];
    var curOfs := 0;
    StartStep(s, 0, high);
    assert s[..|s|] == s;
    ghost var counts := hist[base..base + 256];
    var i := 0;
    while i < 256
      invariant 0 <= i <= 256 && curOfs == BucketStart(s, i, high)
      invariant forall b :: 0 <= b < i ==> offsets[b] == BucketStart(s, b, high)
    {
      StartStep(s, i, high);
      assert counts[i] == |Bucket(s, i, high)|;
      offsets[i] := curOfs;
      curOfs := curOfs + hist[base + i];
      i := i + 1;
    }
  }

  /** What the passes done so far have made of the input. */
  function Passes(s: seq<SymFreq>, passes: nat): seq<SymFreq>
    requires passes <= 2
  {
    if passes == 0 then s else if passes == 1 then Pass(s, false) else Pass(Pass(s, false), true)
  }

  lemma {:induction false} BucketRemove(t: seq<SymFreq>, i: nat, b: nat)
    requires i < |t|
    ensures |Bucket(t, b, true)| == |Bucket(Without(t, i), b, true)| + (if Digit(t[i], true) == b then 1 else 0)
  {
    hide Digit;
    var r := Without(t, i);
    if i == |t| - 1 {
      assert r == t[..i];
    } else {
      BucketRemove(t[..|t| - 1], i, b);
      assert r[..|r| - 1] == Without(t[..|t| - 1], i);
    }
  }

  /** The size of a bucket depends only on which elements there are. */
  lemma {:induction false} BucketCounts(s: seq<SymFreq>, t: seq<SymFreq>, b: nat)
    requires multiset(s) == multiset(t)
    ensures |Bucket(s, b, true)| == |Bucket(t, b, true)|
  {
    hide Digit;
    assert |multiset(s)| == |s| && |multiset(t)| == |t|;
    if s != [] {
      MultisetIndex(s, t, |s| - 1);
      var i :| 0 <= i < |t| && t[i] == s[|s| - 1];
      MultisetRemove(s, t, i);
      BucketCounts(s[..|s| - 1], Without(t, i), b);
      BucketRemove(t, i, b);
    }
  }

  lemma PassPermutes(s: seq<SymFreq>, high: bool)
    requires forall i :: 0 <= i < |s| ==> s[i].key < 65536
    ensures multiset(Pass(s, high)) == multiset(s)
    ensures forall i :: 0 <= i < |Pass(s, high)| ==> Pass(s, high)[i].key < 65536
  {
    BucketsPermute(s, 256, high);
    var p := Pass(s, high);
    forall i | 0 <= i < |p|
      ensures p[i].key < 65536
    {
      MultisetIndex(p, s, i);
    }
  }

  lemma OnePassSorts(s: seq<SymFreq>)
    requires |Bucket(s, 0, true)| == |s| && forall i :: 0 <= i < |s| ==> s[i].key < 65536
    ensures SortedKeys(Pass(s, false))
  {
    var p := Pass(s, false);
    assert s[..|s|] == s;
    BucketAll(s, |s|);
    BucketsSorted(s, 256, false);
    BucketsPermute(s, 256, false);
    hide Bucket, Buckets;
    LowDigitOrders(s, p);
  }

  lemma LowDigitOrders(s: seq<SymFreq>, p: seq<SymFreq>)
    requires multiset(p) == multiset(s) && SortedBy(p, false)
    requires forall i :: 0 <= i < |s| ==> s[i].key < 65536 && Digit(s[i], true) == 0
    ensures SortedKeys(p)
  {
    forall i, j | 0 <= i <= j < |p|
      ensures p[i].key <= p[j].key
    {
      MultisetIndex(p, s, i);
      MultisetIndex(p, s, j);
      assert Digit(p[i], false) <= Digit(p[j], false);
    }
  }

  lemma PassesSort(s: seq<SymFreq>, passes: nat)
    requires 1 <= passes <= 2 && forall i :: 0 <= i < |s| ==> s[i].key < 65536
    requires passes == 1 ==> |Bucket(s, 0, true)| == |s|
    ensures multiset(Passes(s, passes)) == multiset(s)
    ensures SortedKeys(Passes(s, passes)) && Stable(s, Passes(s, passes))
  {
    var p := Pass(s, false);
    PassStable(s, false);
    PassStable(p, true);
    PassPermutes(s, false);
    if passes == 1 {
      OnePassSorts(s);
    } else {
      BucketsSorted(s, 256, false);
      PassPermutes(p, true);
      SecondPassSorts(p, 256);
      SortedTwiceKeys(Pass(p, true));
    }
  }

  /** The counts taken before the first pass are still right for the second. */
  lemma PassKeepsCounts(counts: seq<nat>, s: seq<SymFreq>)
    requires Counted(counts, s, |s|, true)
    ensures |Pass(s, false)| == |s| && Counted(counts, Pass(s, false), |s|, true)
  {
    hide Bucket, Buckets, Digit;
    var p := Pass(s, false);
    BucketsPermute(s, 256, false);
    assert |multiset(s)| == |s| && |multiset(p)| == |p|;
    assert s[..|s|] == s && p[..|s|] == p;
    forall b | 0 <= b < 256
      ensures counts[b] == |Bucket(p, b, true)|
    {
      BucketCounts(p, s, b);
    }
  }

  /** The two buffers are swapped after each pass; the one returned holds the sorted permutation. */
  method RadixSortSyms(syms0: array<SymFreq>, syms1: array<SymFreq>) returns (sorted: array<SymFreq>)
    requires syms0 != syms1 && syms0.Length == syms1.Length
    requires forall i :: 0 <= i < syms0.Length ==> syms0[i].key < 65536
    modifies syms0, syms1
    ensures sorted == syms0 || sorted == syms1
    ensures multiset(sorted[..]) == multiset(old(syms0[..]))
    ensures SortedKeys(sorted[..]) && Stable(old(syms0[..]), sorted[..])
  {
    ghost var s := syms0[..];
    var hist := Histogram(syms0);
    var totalPasses := 2;
    assert hist[256] == hist[256..][0] && s[..|s|] == s;
    while totalPasses > 1 && syms0.Length == hist[(totalPasses - 1) * 256]
      invariant 1 <= totalPasses <= 2
      invariant totalPasses == 1 ==> |Bucket(s, 0, true)| == |s|
    {
      totalPasses := totalPasses - 1;
    }
    PassesSort(s, totalPasses);
    var cur, next := syms0, syms1;
    var pass := 0;
    while pass < totalPasses
      invariant 0 <= pass <= totalPasses
      invariant (cur == syms0 && next == syms1) || (cur == syms1 && next == syms0)
      invariant cur[..] == Passes(s, pass)
      invariant Counted(hist[..256], s, |s|, false) && Counted(hist[256..], s, |s|, true)
    {
      var high := pass == 1;
      PassKeepsCounts(hist[256..], s);
      assert hist[..][256 * pass..256 * pass + 256] == if high then hist[256..] else hist[..256];
      var offsets := Offsets(hist, 256 * pass, cur[..], high);
      Scatter(cur, next, offsets, high);
      cur, next := next, cur;
      pass := pass + 1;
    }
    sorted := cur;
  }
}
