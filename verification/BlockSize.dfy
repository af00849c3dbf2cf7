/** How long a block can get: whatever the record buffer holds, a block with codes of its own or with the static codes
    fits the output buffer, with room for what a flush appends. */
module BlockSize {
  import opened Bits
  import opened Canonical
  import opened LzSymbols
  import opened InflateSpec
  import opened BlockSpec
  import opened CodeLengthRle
  import opened SymbolCounts
  import opened LzCodeBuffer
  import opened BitWriter
  import opened BlockStream
  import opened BlockWriter
  import LzReader

  // ----- a static block fits the output buffer -----

  lemma StaticWord(r: Record)
    requires RecordInRange(r)
    ensures Codeable(StaticLit(), StaticDist(), r)
    ensures |RecordBits(StaticLit(), StaticDist(), r)| <= 10 * PayloadSize(r) + 1
  {
    LitSymRange(r);
    hide CodeWord, LitSym, DistSym, DistExtra;
    match r
    case Literal(b) =>
    case Match(len, dist) =>
      StaticLen(len - 3);
      DistRoundTrip(dist - 1);
  }

  /** A length takes at most 13 bits in the static code: the 8-bit codes have at most five extra bits. */
  lemma StaticLen(l: nat)
    requires l < 256
    ensures 257 <= LenSym(l) <= 285 && StaticLit()[LenSym(l)] + LenExtra(l) <= 13
  {
    LengthRoundTrip(l);
  }

  /** A static block costs at most ten bits for every byte of the record buffer. */
  lemma {:induction false} StaticSize(recs: seq<Record>)
    requires AllInRange(recs) && forall i :: 0 <= i < |recs| ==> Codeable(StaticLit(), StaticDist(), recs[i])
    ensures |RecordsBits(StaticLit(), StaticDist(), recs)| <= 10 * (Offset(recs, |recs|) - 1) + |recs| % 8
  {
    hide Codeable, RecordBits;
    if recs != [] {
      var init, last := recs[..|recs| - 1], recs[|recs| - 1];
      StaticSize(init);
      StaticWord(last);
      assert init + [last] == recs;
      OffsetPrefix(init, last, |init|);
      OffsetStep(|recs|);
    }
  }

  lemma OffsetStep(n: nat)
    requires n > 0
    ensures n % 8 == (if (n - 1) % 8 == 7 then 0 else (n - 1) % 8 + 1)
  {
  }

  /** So the fallback to a static block always succeeds, with room for what a flush appends. */
  lemma StaticFits(recs: seq<Record>)
    requires AllInRange(recs) && Offset(recs, |recs|) <= LZ_CODE_BUF_SIZE
    ensures AllCodeable(StaticLit(), StaticDist(), recs)
    ensures |LzBits(StaticLit(), StaticDist(), recs)| + 100 < 8 * OUT_BUF_END
  {
    StaticCodeable(recs);
    StaticSize(recs);
  }

  // ----- so does a dynamic one -----

  lemma {:induction false} BumpCost(h: seq<nat>, s: nat, z: seq<nat>, n: nat)
    requires n <= |h| && n <= |z|
    ensures TableCost(Bump(h, s), z, n) == TableCost(h, z, n) + (if s < n then z[s] else 0)
  {
    if n > 0 {
      BumpCost(h, s, z, n - 1);
      if s == n - 1 {
        MulDistributes(h[s], 1, z[s]);
      }
    }
  }

  lemma {:induction false} ZeroCost(m: nat, z: seq<nat>, n: nat)
    requires n <= m && n <= |z|
    ensures TableCost(Times(0, m), z, n) == 0
  {
    if n > 0 {
      ZeroCost(m, z, n - 1);
    }
  }

  /** How one more record is counted. */
  lemma CostStep(recs: seq<Record>, lit: seq<nat>, dst: seq<nat>)
    requires |lit| == 288 && |dst| == 32 && recs != [] && AllInRange(recs)
    ensures var init, last := recs[..|recs| - 1], recs[|recs| - 1];
      && LitSym(last) < 288 && TableCost(LitHist(recs), lit, 288)
        == TableCost(LitHist(init), lit, 288) + lit[LitSym(last)]
      && (last.Literal? ==> TableCost(DistHist(recs), dst, 32) == TableCost(DistHist(init), dst, 32))
      && (last.Match? ==> DistSym(last.dist - 1) < 32)
      && (last.Match? ==>
        TableCost(DistHist(recs), dst, 32)
        == TableCost(DistHist(init), dst, 32) + dst[DistSym(last.dist - 1)])
  {
    var init, last := recs[..|recs| - 1], recs[|recs| - 1];
    LitSymRange(last);
    hide LitSym, DistSym, TableCost;
    BumpCost(LitHist(init), LitSym(last), lit, 288);
    if last.Match? {
      BumpCost(DistHist(init), DistSym(last.dist - 1), dst, 32);
    }
  }

  /** The extra bits of a record, which do not depend on the codes. */
  function RecordExtra(r: Record): nat {
    if r.Match? && r.len >= 3 && r.dist >= 1 then LenExtra(r.len - 3) + DistExtra(r.dist - 1) else 0
  }

  function ExtraBits(recs: seq<Record>): nat {
    if recs == [] then 0 else ExtraBits(recs[..|recs| - 1]) + RecordExtra(recs[|recs| - 1])
  }

  /** A match has at most five extra bits for its length and thirteen for its distance. */
  lemma {:induction false} ExtraBound(recs: seq<Record>)
    ensures ExtraBits(recs) <= 18 * Matches(recs)
  {
    hide LenExtra, DistExtra;
    if recs != [] {
      ExtraBound(recs[..|recs| - 1]);
      var last := recs[|recs| - 1];
      if last.Match? && last.len >= 3 && last.dist >= 1 {
        MatchExtra(last.len - 3, last.dist - 1);
      }
    }
  }

  lemma MatchExtra(l: nat, d: nat)
    ensures LenExtra(l) <= 5 && DistExtra(d) <= 13
  {
    LzReader.ExtraSmall(l, d);
  }

  lemma RecordSize(lit: seq<nat>, dst: seq<nat>, r: Record)
    requires Codeable(lit, dst, r)
    ensures |RecordBits(lit, dst, r)|
         == lit[LitSym(r)] + (if r.Match? then dst[DistSym(r.dist - 1)] else 0) + RecordExtra(r)
  {
    hide CodeWord, LenSym, DistSym, LenExtra, DistExtra;
  }

  /** The bits of the records are what the two tables cost, and the extra bits. */
  lemma {:induction false} RecordsSize(lit: seq<nat>, dst: seq<nat>, recs: seq<Record>)
    requires |lit| == 288 && |dst| == 32 && AllInRange(recs)
    requires forall i :: 0 <= i < |recs| ==> Codeable(lit, dst, recs[i])
    ensures |RecordsBits(lit, dst, recs)|
         == TableCost(LitHist(recs), lit, 288) + TableCost(DistHist(recs), dst, 32) + ExtraBits(recs)
  {
    hide Codeable, RecordBits, TableCost, LitSym, DistSym, LitHist, DistHist, RecordExtra;
    if recs == [] {
      NoCost(lit, dst);
    } else {
      RecordsSize(lit, dst, recs[..|recs| - 1]);
      CostStep(recs, lit, dst);
      RecordSize(lit, dst, recs[|recs| - 1]);
    }
  }

  lemma NoCost(lit: seq<nat>, dst: seq<nat>)
    requires |lit| == 288 && |dst| == 32
    ensures TableCost(LitHist([]), lit, 288) == 0 && TableCost(DistHist([]), dst, 32) == 0
  {
    hide TableCost;
    ZeroCost(288, lit, 288);
    ZeroCost(32, dst, 32);
  }

  /** A fixed-length code to compare with: nine bits for a literal, six for a length or the end of the block, and five
      for a distance. */
  function PlainLit(): (z: seq<nat>)
    ensures |z| == 288
  {
    seq(288, s => if s < 256 then 9 else 6)
  }

  function PlainDist(): (z: seq<nat>)
    ensures |z| == 32
  {
    seq(32, _ => 5)
  }

  lemma {:induction false} PlainKraft(counts: seq<nat>, n: nat)
    requires n <= |counts| == 288
    ensures UsedKraft(counts, PlainLit(), 9, n) <= if n <= 256 then n else 256 + 8 * (n - 256)
  {
    if n > 0 {
      PlainKraft(counts, n - 1);
      assert Pow2(0) == 1 && Pow2(3) == 8;
    }
  }

  lemma {:induction false} PlainDistKraft(counts: seq<nat>, n: nat)
    requires n <= |counts| == 32
    ensures UsedKraft(counts, PlainDist(), 5, n) <= n
  {
    if n > 0 {
      PlainDistKraft(counts, n - 1);
      assert Pow2(0) == 1;
    }
  }

  lemma PlainCodes(lit: seq<nat>, dst: seq<nat>)
    requires |lit| == 288 && |dst| == 32
    ensures PrefixLengths(lit, PlainLit(), 9) && PrefixLengths(dst, PlainDist(), 5)
  {
    PlainKraft(lit, 288);
    PlainDistKraft(dst, 32);
    Pow2Values();
  }

  /** What the plain code costs for these records. */
  lemma {:induction false} PlainCost(recs: seq<Record>)
    requires AllInRange(recs)
    ensures Matches(recs) <= |recs|
    ensures TableCost(LitHist(recs), PlainLit(), 288) == 9 * (|recs| - Matches(recs)) + 6 * Matches(recs)
    ensures TableCost(DistHist(recs), PlainDist(), 32) == 5 * Matches(recs)
  {
    hide TableCost;
    if recs == [] {
      ZeroCost(288, PlainLit(), 288);
      ZeroCost(32, PlainDist(), 32);
    } else {
      var last := recs[|recs| - 1];
      PlainCost(recs[..|recs| - 1]);
      CostStep(recs, PlainLit(), PlainDist());
      if last.Match? {
        LengthRoundTrip(last.len - 3);
      }
      hide LenSym, DistSym;
    }
  }

  /** Every eight records take a flag byte, a literal one byte more and a match three. */
  lemma {:induction false} OffsetBits(recs: seq<Record>, i: nat)
    requires i <= |recs|
    ensures Matches(recs[..i]) <= i && Offset(recs, i) == 1 + i + 2 * Matches(recs[..i]) + i / 8
  {
    if i > 0 {
      OffsetBits(recs, i - 1);
      assert recs[..i][..i - 1] == recs[..i - 1];
    } else {
      assert recs[..0] == [];
    }
  }

  /** Two tables that are close to the best keep a block within 32 bits for every 25 bits of the record buffer. */
  lemma LzSize(lit: seq<nat>, dst: seq<nat>, recs: seq<Record>)
    requires |lit| == 288 && |dst| == 32 && AllInRange(recs) && AllCodeable(lit, dst, recs)
    requires NearOptimal(LitHist(recs)[256 := 1], lit) && NearOptimal(DistHist(recs), dst)
    requires Offset(recs, |recs|) <= LZ_CODE_BUF_SIZE
    ensures |LzBits(lit, dst, recs)| <= 671100
  {
    hide Codeable, TableCost, LitHist, DistHist, CodeWord, RecordsBits, Offset, PlainLit, PlainDist, CountSum,
      PrefixLengths, Matches;
    var n, m := |recs|, Matches(recs);
    RecordsSize(lit, dst, recs);
    ExtraBound(recs);
    EndCost(recs, lit);
    EndCost(recs, PlainLit());
    PlainCodes(LitHist(recs)[256 := 1], DistHist(recs));
    PlainCost(recs);
    PlainEnd();
    HistUnused(recs);
    HistSums(recs);
    SetSum(LitHist(recs), 256, 288);
    OffsetBits(recs, n);
    assert recs[..n] == recs;
  }

  lemma PlainEnd()
    ensures PlainLit()[256] == 6
  {
  }

  /** The end-of-block code is counted once. */
  lemma EndCost(recs: seq<Record>, z: seq<nat>)
    requires AllInRange(recs) && |z| == 288
    ensures TableCost(LitHist(recs)[256 := 1], z, 288) == TableCost(LitHist(recs), z, 288) + z[256]
  {
    HistUnused(recs);
    hide LitHist;
    BumpCost(LitHist(recs), 256, z, 288);
    assert Bump(LitHist(recs), 256) == LitHist(recs)[256 := 1];
  }

  /** A table with the unused symbols at its end put back. */
  function Padded(z: seq<nat>, n: nat): (p: seq<nat>)
    ensures |z| <= n ==> |p| == n
  {
    if |z| <= n then z + Times(0, n - |z|) else z
  }

  lemma TrimPadded(full: seq<nat>, n: nat)
    requires Trims(full, n)
    ensures Padded(full[..n], |full|) == full
  {
  }

  /** The codes of a dynamic block are close to the best for its records, and so the block is not too long. */
  ghost predicate Thrifty(lit: seq<nat>, dst: seq<nat>, recs: seq<Record>) {
    && AllCodeable(lit, dst, recs) && |LzBits(lit, dst, recs)| <= 671100 && |lit| <= 288 && |dst| <= 32
    && NearOptimal(LitHist(recs)[256 := 1], Padded(lit, 288)) && NearOptimal(DistHist(recs), Padded(dst, 32))
  }

  lemma LzCost(lit: seq<nat>, dst: seq<nat>, recs: seq<Record>)
    requires |lit| == 288 && |dst| == 32 && AllInRange(recs) && AllCodeable(lit, dst, recs)
    ensures |LzBits(lit, dst, recs)|
         == TableCost(LitHist(recs)[256 := 1], lit, 288) + TableCost(DistHist(recs), dst, 32) + ExtraBits(recs)
  {
    hide Codeable, TableCost, LitHist, DistHist, CodeWord, RecordsBits, ExtraBits;
    RecordsSize(lit, dst, recs);
    EndCost(recs, lit);
  }

  /** Only symbols that records use are counted. */
  lemma {:induction false} HistCoded(recs: seq<Record>, lit: seq<nat>, dst: seq<nat>)
    requires |lit| == 288 && |dst| == 32 && AllInRange(recs)
    requires forall i :: 0 <= i < |recs| ==> Codeable(lit, dst, recs[i])
    ensures forall s :: 0 <= s < 288 && LitHist(recs)[s] > 0 ==> lit[s] > 0
    ensures forall s :: 0 <= s < 32 && DistHist(recs)[s] > 0 ==> dst[s] > 0
  {
    hide LitSym, DistSym;
    if recs != [] {
      HistCoded(recs[..|recs| - 1], lit, dst);
      assert Codeable(lit, dst, recs[|recs| - 1]);
    }
  }

  lemma {:induction false} UsedKraftBound(counts: seq<nat>, m: seq<nat>, n: nat)
    requires n <= |counts| == |m| && forall s :: 0 <= s < |m| && counts[s] > 0 ==> 0 < m[s] <= 15
    ensures UsedKraft(counts, m, 15, n) <= Kraft(m, n, 15)
  {
    if n > 0 {
      UsedKraftBound(counts, m, n - 1);
    }
  }

  /** Lengths that the decompressor could use are those of a prefix code. */
  lemma FitsPrefix(counts: seq<nat>, m: seq<nat>)
    requires |counts| == |m| && Fits(m) && forall s :: 0 <= s < |m| && counts[s] > 0 ==> 0 < m[s]
    ensures PrefixLengths(counts, m, 15)
  {
    hide Kraft, UsedKraft, Count;
    UsedKraftBound(counts, m, |m|);
    FirstIsKraft(m, 15);
    Pow2Values();
  }

  /** Whatever other codes could be used for the same records, they would save at most one and a half bits for each
      symbol sent. */
  lemma NearOptimalBlock(lit: seq<nat>, dst: seq<nat>, recs: seq<Record>, lit2: seq<nat>, dst2: seq<nat>)
    requires AllInRange(recs) && Thrifty(lit, dst, recs)
    requires |lit2| == 288 && |dst2| == 32 && Fits(lit2) && Fits(dst2) && AllCodeable(lit2, dst2, recs)
    ensures 2 * |LzBits(lit, dst, recs)| <= 2 * |LzBits(lit2, dst2, recs)| + 3 * (|recs| + 1 + Matches(recs))
  {
    hide TableCost, LitHist, DistHist, CodeWord, RecordsBits, ExtraBits, PrefixLengths, Matches, Fits, CountSum, LitSym,
      DistSym, LzBits;
    var l, d := Padded(lit, 288), Padded(dst, 32);
    assert Trims(l, |lit|) && Trims(d, |dst|) && l[..|lit|] == lit && d[..|dst|] == dst;
    PaddedCodeable(lit, dst, recs);
    TrimBody(l, d, |lit|, |dst|, recs);
    LzCost(l, d, recs);
    LzCost(lit2, dst2, recs);
    HistCoded(recs, lit2, dst2);
    HistUnused(recs);
    HistSums(recs);
    SetSum(LitHist(recs), 256, 288);
    FitsPrefix(LitHist(recs)[256 := 1], lit2);
    FitsPrefix(DistHist(recs), dst2);
  }

  lemma PaddedCodeable(lit: seq<nat>, dst: seq<nat>, recs: seq<Record>)
    requires |lit| <= 288 && |dst| <= 32 && AllCodeable(lit, dst, recs)
    ensures AllCodeable(Padded(lit, 288), Padded(dst, 32), recs)
  {
    hide LitSym, DistSym;
    forall i | 0 <= i < |recs|
      ensures Codeable(Padded(lit, 288), Padded(dst, 32), recs[i])
    {
      assert Codeable(lit, dst, recs[i]);
    }
  }

  // ----- the header of a dynamic block -----

  lemma {:induction false} SizesSize(z: seq<nat>, n: nat)
    requires |z| == 19
    ensures |SizesBits(z, n)| == 3 * n
  {
    hide Zigzag, ToBits;
    if n > 0 {
      SizesSize(z, n - 1);
    }
  }

  /** A packed item takes at most seven bits for every length it stands for. */
  lemma ItemSize(z: seq<nat>, got: seq<nat>, it: Item)
    requires HasCode(z, ItemCode(it)) && ItemExtra(it) >= 0 && ValidItem(it) && forall i :: 0 <= i < |z| ==> z[i] <= 7
    ensures |ItemBits(z, it)| <= 7 * (|Unpack(got, it)| - |got|)
  {
    hide CodeWord, ToBits;
  }

  lemma {:induction false} ItemsSize(z: seq<nat>, items: seq<Item>)
    requires Sendable(z, items) && ValidItems(items) && forall i :: 0 <= i < |z| ==> z[i] <= 7
    ensures |ItemsBits(z, items)| <= 7 * |UnpackAll(items)|
  {
    hide ItemBits, Unpack, ValidItem;
    if items != [] {
      ItemsSize(z, items[..|items| - 1]);
      ItemSize(z, UnpackAll(items[..|items| - 1]), items[|items| - 1]);
    }
  }

  lemma HeaderSize(lit: seq<nat>, dst: seq<nat>, z: seq<nat>, items: seq<Item>, numSizes: nat)
    requires ValidHeader(lit, dst, z, items, numSizes)
    ensures |DynamicHeader(lit, dst, z, items, numSizes)| <= 2283
  {
    hide SizesBits, ItemsBits, ToBits, UnpackAll, Acceptable, ValidItems, Sendable;
    SizesSize(z, numSizes);
    ItemsSize(z, items);
  }

  /** A dynamic block always fits the output buffer, with room for what a flush appends: the test for the case that it
      does not never succeeds. */
  lemma DynamicFits(out: seq<Byte>, body: Body, at: nat)
    requires body.Dynamic? && ValidBody(out, body) && Thrifty(body.lit, body.dst, body.recs)
    ensures |BodyBits(body, at, out)| + 100 < 8 * OUT_BUF_END
  {
    hide LzBits, DynamicHeader, ValidHeader, AllCodeable, ValidRecords, NearOptimal;
    HeaderSize(body.lit, body.dst, body.z, body.items, body.numSizes);
  }
}
