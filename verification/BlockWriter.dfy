/** What the header of a dynamic block rests on: tables without the unused symbols at their end, counts that fit, and
    the packed code lengths written out. */
module BlockWriter {
  import opened Bits
  import opened Canonical
  import opened LzSymbols
  import opened InflateSpec
  import opened BlockSpec
  import opened CodeLengthRle
  import opened EncoderTable
  import opened SymbolCounts
  import opened LzCodeBuffer
  import opened BitWriter
  import opened BlockStream
  import LzReader

  // ----- leaving out unused symbols at the end of a table -----

  ghost predicate Trims(full: seq<nat>, n: nat) {
    n <= |full| && forall s :: n <= s < |full| ==> full[s] == 0
  }

  lemma {:induction false} TrimCount(full: seq<nat>, n: nat, m: nat, l: nat)
    requires Trims(full, n) && m <= |full| && l > 0
    ensures CountTo(full, m, l) == CountTo(full[..n], Min(m, n), l)
  {
    if m > 0 {
      TrimCount(full, n, m - 1, l);
    }
  }

  lemma {:induction false} TrimFirst(full: seq<nat>, n: nat, l: nat)
    requires Trims(full, n)
    ensures First(full, l) == First(full[..n], l)
  {
    if l > 1 {
      TrimFirst(full, n, l - 1);
      TrimCount(full, n, |full|, l - 1);
    }
  }

  lemma {:induction false} TrimUsed(full: seq<nat>, n: nat, m: nat)
    requires Trims(full, n) && m <= |full|
    ensures Used(full, m) == Used(full[..n], Min(m, n))
  {
    if m > 0 {
      TrimUsed(full, n, m - 1);
    }
  }

  lemma TrimAcceptable(full: seq<nat>, n: nat)
    requires Trims(full, n) && Acceptable(full)
    ensures Acceptable(full[..n])
  {
    TrimFirst(full, n, MAX_CODE_SIZE + 1);
    TrimUsed(full, n, |full|);
  }

  /** The code words do not depend on the symbols left out. */
  lemma TrimWord(full: seq<nat>, n: nat, s: nat)
    requires Trims(full, n) && HasCode(full, s)
    ensures HasCode(full[..n], s) && CodeWord(full[..n], s) == CodeWord(full, s)
  {
    TrimFirst(full, n, full[s]);
    TrimCount(full, n, s, full[s]);
  }

  lemma TrimRecord(lit: seq<nat>, dst: seq<nat>, m: nat, n: nat, r: Record)
    requires Trims(lit, m) && Trims(dst, n) && Codeable(lit, dst, r)
    ensures Codeable(lit[..m], dst[..n], r) && RecordBits(lit[..m], dst[..n], r) == RecordBits(lit, dst, r)
  {
    hide CodeWord, DistSym, LenSym;
    TrimWord(lit, m, LitSym(r));
    if r.Match? {
      TrimWord(dst, n, DistSym(r.dist - 1));
    }
  }

  lemma {:induction false} TrimRecords(lit: seq<nat>, dst: seq<nat>, m: nat, n: nat, recs: seq<Record>)
    requires Trims(lit, m) && Trims(dst, n) && forall i :: 0 <= i < |recs| ==> Codeable(lit, dst, recs[i])
    ensures forall i :: 0 <= i < |recs| ==> Codeable(lit[..m], dst[..n], recs[i])
    ensures RecordsBits(lit[..m], dst[..n], recs) == RecordsBits(lit, dst, recs)
  {
    hide Trims, Codeable, RecordBits;
    if recs != [] {
      TrimRecords(lit, dst, m, n, recs[..|recs| - 1]);
      TrimRecord(lit, dst, m, n, recs[|recs| - 1]);
    }
  }

  lemma TrimBody(lit: seq<nat>, dst: seq<nat>, m: nat, n: nat, recs: seq<Record>)
    requires Trims(lit, m) && Trims(dst, n) && AllCodeable(lit, dst, recs)
    ensures AllCodeable(lit[..m], dst[..n], recs) && LzBits(lit[..m], dst[..n], recs) == LzBits(lit, dst, recs)
  {
    hide Trims, Codeable, CodeWord;
    TrimRecords(lit, dst, m, n, recs);
    TrimWord(lit, m, 256);
  }

  // ----- which symbols have codes -----

  lemma StaticCodeable(recs: seq<Record>)
    requires AllInRange(recs)
    ensures AllCodeable(StaticLit(), StaticDist(), recs)
  {
    forall i | 0 <= i < |recs|
      ensures Codeable(StaticLit(), StaticDist(), recs[i])
    {
      LitSymRange(recs[i]);
    }
  }

  /** The counts of a block: those of its records, and one end of block. */
  ghost predicate BlockCounts(lit: seq<nat>, dst: seq<nat>, recs: seq<Record>) {
    lit == LitHist(recs)[256 := 1] && dst == DistHist(recs)
  }

  lemma DynamicCodeable(lit: seq<nat>, dst: seq<nat>, litCount: seq<nat>, distCount: seq<nat>, recs: seq<Record>)
    requires AllInRange(recs) && BlockCounts(litCount, distCount, recs)
    requires CoversCounts(lit, litCount, 15) && CoversCounts(dst, distCount, 15)
    ensures AllCodeable(lit, dst, recs) && Trims(lit, 286) && Trims(dst, 30)
  {
    hide LitHist, DistHist, LitSym, DistSym;
    HistUnused(recs);
    forall i | 0 <= i < |recs|
      ensures Codeable(lit, dst, recs[i])
    {
      HistCounts(recs, i);
    }
  }

  lemma {:induction false} SetSum(h: seq<nat>, s: nat, n: nat)
    requires n <= |h| && s < |h| && h[s] == 0
    ensures CountSum(h[s := 1], n) == CountSum(h, n) + (if s < n then 1 else 0)
  {
    if n > 0 {
      SetSum(h, s, n - 1);
    }
  }

  lemma BlockSums(lit: seq<nat>, dst: seq<nat>, recs: seq<Record>)
    requires BlockCounts(lit, dst, recs) && AllInRange(recs) && |recs| < 65535
    ensures CountSum(lit, 288) < 65536 && CountSum(dst, 32) < 65536
  {
    HistSums(recs);
    HistUnused(recs);
    SetSum(LitHist(recs), 256, 288);
  }

  /** The record buffer is too small for the counters to overflow. */
  lemma FewRecords(recs: seq<Record>)
    requires Offset(recs, |recs|) <= LZ_CODE_BUF_SIZE
    ensures |recs| <= 58254
  {
  }

  // ----- the packed code lengths -----

  lemma {:induction false} FlattenAt(items: seq<Item>, k: nat)
    requires k < |items|
    ensures |Flatten(items[..k])| + |ItemBytes(items[k])| <= |Flatten(items)|
    ensures Flatten(items)[|Flatten(items[..k])|..|Flatten(items[..k])| + |ItemBytes(items[k])|] == ItemBytes(items[k])
    ensures |Flatten(items[..k + 1])| == |Flatten(items[..k])| + |ItemBytes(items[k])|
  {
    hide ItemBytes;
    var init := items[..|items| - 1];
    assert items[..k + 1][..k] == items[..k];
    if k < |init| {
      FlattenAt(init, k);
      assert init[..k] == items[..k];
    }
  }

  lemma {:induction false} ItemValid(items: seq<Item>, k: nat)
    requires ValidItems(items) && k < |items|
    ensures ValidItem(items[k])
  {
    if k < |items| - 1 {
      ItemValid(items[..|items| - 1], k);
    }
  }

  lemma {:induction false} ItemCounted(items: seq<Item>, k: nat)
    requires k < |items|
    ensures CodeCount(items, ItemCode(items[k])) > 0
  {
    if k < |items| - 1 {
      ItemCounted(items[..|items| - 1], k);
    }
  }

  function CodeSum(items: seq<Item>, n: nat): nat {
    if n == 0 then 0 else CodeSum(items, n - 1) + CodeCount(items, n - 1)
  }

  lemma {:induction false} CodeSumStep(items: seq<Item>, n: nat)
    requires items != []
    ensures CodeSum(items, n) <= CodeSum(items[..|items| - 1], n) + 1
    ensures ItemCode(items[|items| - 1]) >= n ==> CodeSum(items, n) == CodeSum(items[..|items| - 1], n)
  {
    hide ItemCode;
    if n > 0 {
      CodeSumStep(items, n - 1);
    }
  }

  lemma {:induction false} CodeSumBound(items: seq<Item>, n: nat)
    ensures CodeSum(items, n) <= |items|
  {
    if items == [] {
      CodeSumNone(n);
    } else {
      CodeSumBound(items[..|items| - 1], n);
      CodeSumStep(items, n);
    }
  }

  lemma {:induction false} CodeSumNone(n: nat)
    ensures CodeSum([], n) == 0
  {
    if n > 0 {
      CodeSumNone(n - 1);
    }
  }

  lemma {:induction false} CodeSumCounts(items: seq<Item>, counts: seq<nat>, n: nat)
    requires n <= |counts| && forall c: nat :: c < |counts| ==> counts[c] == CodeCount(items, c)
    ensures CountSum(counts, n) == CodeSum(items, n)
  {
    if n > 0 {
      CodeSumCounts(items, counts, n - 1);
    }
  }

  /** Every packed item gets a code of at most seven bits. */
  lemma ItemsSendable(items: seq<Item>, counts: seq<nat>, z: seq<nat>)
    requires ValidItems(items) && |counts| == 19 && (forall c: nat :: c < 19 ==> counts[c] == CodeCount(items, c))
    requires CoversCounts(z, counts, 7)
    ensures Sendable(z, items)
  {
    hide CodeCount;
    forall i | 0 <= i < |items|
      ensures HasCode(z, ItemCode(items[i])) && ItemExtra(items[i]) >= 0
    {
      ItemValid(items, i);
      ItemCounted(items, i);
    }
  }

  lemma ItemsBitsStep(z: seq<nat>, items: seq<Item>, k: nat)
    requires k < |items| && Sendable(z, items)
    ensures ItemsBits(z, items[..k + 1]) == ItemsBits(z, items[..k]) + ItemBits(z, items[k])
  {
    hide ItemBits;
    assert items[..k + 1][..k] == items[..k];
  }

  lemma ItemsBitsNone(z: seq<nat>)
    ensures ItemsBits(z, []) == []
  {
  }

  lemma ItemShape(it: Item)
    requires ValidItem(it)
    ensures |ItemBytes(it)| == (if it.Size? then 1 else 2) && ItemBytes(it)[0] == ItemCode(it) < 19
    ensures it.Size? <==> ItemCode(it) < 16
    ensures 0 <= ItemExtra(it)
    ensures !it.Size? ==>
      ItemBytes(it)[1] == ItemExtra(it) < Pow2(RepeatBits(ItemCode(it)))
      && RepeatBits(ItemCode(it)) <= 7
  {
    Pow2Values();
  }

  /** One packed item: its code, and its repeat count. */
  method PutItem(w: Writer, sizes: array<nat>, codes: array<nat>, packed: array<int>, index: nat, ghost it: Item)
    returns (next: nat)
    requires w.Valid() && HasCodeWords(sizes[..], codes[..]) && HasCode(sizes[..], ItemCode(it)) && ValidItem(it)
    requires sizes[ItemCode(it)] <= 7 && index + |ItemBytes(it)| <= packed.Length
    requires packed[index..index + |ItemBytes(it)|] == ItemBytes(it)
    modifies w, w.buf
    ensures w.Valid() && ItemExtra(it) >= 0
    ensures w.bits == old(w.bits) + ItemBits(sizes[..], it) && next == index + |ItemBytes(it)|
  {
    hide CodeWord, Packed, HasCodeWords, ItemBytes, ItemCode, ItemExtra, ValidItem, RepeatBits, Pow2;
    ItemShape(it);
    assert packed[index] == ItemBytes(it)[0];
    var code: nat := packed[index];
    LzReader.PutCode(w, sizes, codes, code);
    next := index + 1;
    if code >= 16 {
      assert packed[index + 1] == ItemBytes(it)[1];
      w.Put(packed[index + 1], RepeatBits(code));
      next := index + 2;
    }
  }

  lemma ItemsGuard(items: seq<Item>, k: nat)
    requires k <= |items| && ValidItems(items)
    ensures |Flatten(items[..k])| < |Flatten(items)| <==> k < |items|
    ensures |Flatten(items[..k])| <= |Flatten(items)|
  {
    if k < |items| {
      FlattenAt(items, k);
      ItemValid(items, k);
      ItemShape(items[k]);
    } else {
      assert items[..k] == items;
    }
  }

  method PutItems(w: Writer, sizes: array<nat>, codes: array<nat>, packed: array<int>, numPacked: nat,
    ghost items: seq<Item>)
    requires w.Valid() && HasCodeWords(sizes[..], codes[..]) && ValidItems(items) && Sendable(sizes[..], items)
    requires (forall s :: 0 <= s < sizes.Length ==> sizes[s] <= 7)
    requires numPacked == |Flatten(items)| <= packed.Length && packed[..numPacked] == Flatten(items)
    modifies w, w.buf
    ensures w.Valid() && w.bits == old(w.bits) + ItemsBits(sizes[..], items)
  {
    hide CodeWord, Packed, HasCodeWords, ItemsBits, ItemBits, Flatten, ValidItems, ItemBytes;
    ghost var z, k := sizes[..], 0;
    ItemsBitsNone(z);
    ItemsGuard(items, 0);
    FlattenNone();
    var index := 0;
    while index < numPacked
      invariant 0 <= k <= |items| && index == |Flatten(items[..k])| && (index < numPacked <==> k < |items|)
      invariant w.Valid() && w.bits == old(w.bits) + ItemsBits(z, items[..k])
      decreases |items| - k
    {
      FlattenAt(items, k);
      ItemValid(items, k);
      ItemsBitsStep(z, items, k);
      ghost var n := |ItemBytes(items[k])|;
      SubSlice(packed[..], numPacked, index, index + n);
      index := PutItem(w, sizes, codes, packed, index, items[k]);
      k := k + 1;
      ItemsGuard(items, k);
    }
    assert items[..k] == items;
  }

  lemma SubSlice(s: seq<int>, n: nat, i: nat, j: nat)
    requires i <= j <= n <= |s|
    ensures s[..n][i..j] == s[i..j]
  {
  }

  lemma FlattenNone()
    ensures Flatten([]) == []
  {
  }
}
