/** tdefl_start_dynamic_block, tdefl_start_static_block and tdefl_compress_block. */
module BlockCoder {
  import opened Bits
  import opened Canonical
  import opened InflateSpec
  import opened BlockSpec
  import opened CodeLengthRle
  import opened EncoderTable
  import opened SymbolCounts
  import opened LzCodeBuffer
  import opened BitWriter
  import opened BlockStream
  import opened BlockWriter
  import opened BlockSize
  import LzReader

  /** None of the three lists of lengths in a header could be shorter, and the lengths are packed run by run. */
  ghost predicate Shortest(body: Body) {
    && body.Dynamic? && |body.z| == 19 && 4 <= body.numSizes <= 19
    && (|body.lit| > 257 ==> body.lit[|body.lit| - 1] != 0) && (|body.dst| > 1 ==> body.dst[|body.dst| - 1] != 0)
    && (body.numSizes > 4 ==> body.z[Zigzag(body.numSizes - 1)] != 0)
    && body.items == RunItems(body.lit + body.dst)
  }

  /** `for (n = hi; n > lo; n--) if (sizes[n - 1]) break` */
  method LastUsed(sizes: array<nat>, hi: nat, lo: nat) returns (n: nat)
    requires lo <= hi <= sizes.Length && Trims(sizes[..], hi)
    ensures lo <= n <= hi && Trims(sizes[..], n) && (n > lo ==> sizes[n - 1] != 0)
  {
    n := hi;
    while n > lo && sizes[n - 1] == 0
      invariant lo <= n <= hi && Trims(sizes[..], n)
    {
      n := n - 1;
    }
  }

  /** The code lengths of both tables, one after the other. */
  method Gather(a: array<nat>, m: nat, b: array<nat>, n: nat) returns (all: array<nat>)
    requires m <= a.Length && n <= b.Length
    ensures fresh(all) && all[..] == a[..m] + b[..n]
  {
    all := new nat[m + n](i requires 0 <= i < m + n reads a, b => if i < m then a[i] else b[i - m]);
  }

  /** The code length codes that are sent; at least four. */
  method CountSizesSent(sizes: array<nat>) returns (n: nat)
    requires sizes.Length == 19
    ensures 4 <= n <= 19 && (forall i :: n <= i < 19 ==> sizes[Zigzag(i)] == 0)
      && (n > 4 ==> sizes[Zigzag(n - 1)] != 0)
  {
    var k := 18;
    while k >= 0 && sizes[Zigzag(k)] == 0
      invariant -1 <= k <= 18 && forall i :: k < i < 19 ==> sizes[Zigzag(i)] == 0
    {
      k := k - 1;
    }
    n := Max(4, k + 1);
  }

  method PutSizes(w: Writer, sizes: array<nat>, n: nat)
    requires w.Valid() && sizes.Length == 19 && forall i :: 0 <= i < 19 ==> sizes[i] <= 7
    modifies w, w.buf
    ensures w.Valid() && w.bits == old(w.bits) + SizesBits(sizes[..], n)
  {
    hide Packed, ToBits, Zigzag;
    Pow2Values();
    hide Pow2;
    ghost var z := sizes[..];
    var i := 0;
    while i < n
      invariant 0 <= i <= n && w.Valid() && w.bits == old(w.bits) + SizesBits(z, i)
    {
      w.Put(sizes[Zigzag(i)], 3);
      i := i + 1;
    }
  }

  class Coder {
    const litSizes: array<nat>    // m_huff_code_sizes and m_huff_codes of the three tables
    const litCodes: array<nat>
    const distSizes: array<nat>
    const distCodes: array<nat>
    const lenSizes: array<nat>
    const lenCodes: array<nat>

    constructor ()
      ensures Shape() && fresh(Tables())
    {
      litSizes, litCodes := new nat[288](_ => 0), new nat[288](_ => 0);
      distSizes, distCodes := new nat[32](_ => 0), new nat[32](_ => 0);
      lenSizes, lenCodes := new nat[19](_ => 0), new nat[19](_ => 0);
    }

    ghost function Tables(): set<object> {
      {litSizes, litCodes, distSizes, distCodes, lenSizes, lenCodes}
    }

    ghost predicate Shape() {
      && litSizes.Length == litCodes.Length == 288 && distSizes.Length == distCodes.Length == 32
      && lenSizes.Length == lenCodes.Length == 19
      && litSizes != litCodes && distSizes != distCodes && lenSizes != lenCodes
    }

    /** Both tables can send these records. */
    ghost predicate CanSend(recs: seq<Record>)
      reads litSizes, litCodes, distSizes, distCodes
    {
      && HasCodeWords(litSizes[..], litCodes[..]) && HasCodeWords(distSizes[..], distCodes[..])
      && (forall s :: 0 <= s < litSizes.Length ==> litSizes[s] <= 15)
      && (forall s :: 0 <= s < distSizes.Length ==> distSizes[s] <= 15)
      && AllCodeable(litSizes[..], distSizes[..], recs)
    }

    method StaticSizes()
      requires Shape()
      modifies litSizes, distSizes
      ensures litSizes[..] == StaticLit() && distSizes[..] == StaticDist()
    {
      var i := 0;
      while i <= 143
        invariant 0 <= i <= 144 && forall k :: 0 <= k < i ==> litSizes[k] == StaticLit()[k]
      {
        litSizes[i] := 8;
        i := i + 1;
      }
      while i <= 255
        invariant 144 <= i <= 256 && forall k :: 0 <= k < i ==> litSizes[k] == StaticLit()[k]
      {
        litSizes[i] := 9;
        i := i + 1;
      }
      while i <= 279
        invariant 256 <= i <= 280 && forall k :: 0 <= k < i ==> litSizes[k] == StaticLit()[k]
      {
        litSizes[i] := 7;
        i := i + 1;
      }
      while i <= 287
        invariant 280 <= i <= 288 && forall k :: 0 <= k < i ==> litSizes[k] == StaticLit()[k]
      {
        litSizes[i] := 8;
        i := i + 1;
      }
      DistSizes();
    }

    method DistSizes()
      requires Shape()
      modifies distSizes
      ensures distSizes[..] == StaticDist()
    {
      var i := 0;
      while i < 32
        invariant 0 <= i <= 32 && forall k :: 0 <= k < i ==> distSizes[k] == 5
      {
        distSizes[i] := 5;
        i := i + 1;
      }
    }

    /** tdefl_start_static_block */
    method StartStaticBlock(w: Writer, ghost recs: seq<Record>)
      requires Shape() && w.Valid() && AllInRange(recs)
      modifies litSizes, litCodes, distSizes, distCodes, w, w.buf
      ensures w.Valid() && w.bits == old(w.bits) + ToBits(1, 2)
      ensures litSizes[..] == StaticLit() && distSizes[..] == StaticDist() && CanSend(recs)
    {
      hide HasCodeWords, AllCodeable, Packed, ToBits;
      StaticSizes();
      StaticTable(litSizes, litCodes);
      StaticTable(distSizes, distCodes);
      StaticCodeable(recs);
      Pow2Values();
      w.Put(1, 2);
    }

    /** The two codes of a dynamic block. */
    method ChooseCodes(litCount: array<nat>, distCount: array<nat>, ghost recs: seq<Record>)
      requires Shape() && litCount as object !in Tables() && distCount as object !in Tables()
      requires litCount.Length == 288 && distCount.Length == 32
      requires AllInRange(recs) && |recs| < 65535 && BlockCounts(litCount[..], distCount[..], recs)
      modifies litSizes, litCodes, distSizes, distCodes
      ensures CanSend(recs) && Acceptable(litSizes[..]) && Acceptable(distSizes[..])
      ensures Trims(litSizes[..], 286) && Trims(distSizes[..], 30)
      ensures NearOptimal(litCount[..], litSizes[..]) && NearOptimal(distCount[..], distSizes[..])
    {
      hide NearOptimal, HasCodeWords, AllCodeable, BlockCounts, Acceptable, Trims, AllInRange, CountSum;
      BlockSums(litCount[..], distCount[..], recs);
      Pow2Values();
      OptimizeTable(litCount, litSizes, litCodes, 15);
      OptimizeTable(distCount, distSizes, distCodes, 15);
      DynamicCodeable(litSizes[..], distSizes[..], litCount[..], distCount[..], recs);
    }

    /** The code lengths of both codes, packed, and a code for the packed items. */
    method PackSizes(numLit: nat, numDist: nat) returns (packer: Packer)
      requires Shape() && 257 <= numLit <= 288 && 1 <= numDist <= 32
      requires (forall s :: 0 <= s < 288 ==> litSizes[s] <= 15) && (forall s :: 0 <= s < 32 ==> distSizes[s] <= 15)
      modifies lenSizes, lenCodes
      ensures packer.Stored() && UnpackAll(packer.items) == litSizes[..numLit] + distSizes[..numDist]
      ensures packer.items == RunItems(litSizes[..numLit] + distSizes[..numDist])
      ensures fresh(packer) && fresh(packer.packed) && fresh(packer.counts)
      ensures Sendable(lenSizes[..], packer.items) && HasCodeWords(lenSizes[..], lenCodes[..])
        && Acceptable(lenSizes[..])
      ensures forall s :: 0 <= s < 19 ==> lenSizes[s] <= 7
    {
      hide HasCodeWords, Acceptable, UnpackAll, Packer.Valid, RunItems, ValidItems, CodeCount, Flatten, Pow2, Sendable,
        CountSum;
      var all := Gather(litSizes, numLit, distSizes, numDist);
      SizesSmall(litSizes[..numLit], distSizes[..numDist], all[..]);
      packer := new Packer();
      packer.Pack(all);
      ItemsFit(packer);
      Pow2Values();
      OptimizeTable(packer.counts, lenSizes, lenCodes, 7);
      ItemsSendable(packer.items, packer.counts[..], lenSizes[..]);
    }

    /** The two codes, and how many lengths of each have to be sent. */
    method TrimCodes(litCount: array<nat>, distCount: array<nat>, ghost recs: seq<Record>)
      returns (numLit: nat, numDist: nat)
      requires Shape() && litCount as object !in Tables() && distCount as object !in Tables()
      requires litCount.Length == 288 && distCount.Length == 32 && litCount != distCount
      requires AllInRange(recs) && |recs| < 65535 && litCount[..] == LitHist(recs) && distCount[..] == DistHist(recs)
      requires Offset(recs, |recs|) <= LZ_CODE_BUF_SIZE
      modifies litSizes, litCodes, distSizes, distCodes, litCount
      ensures CanSend(recs) && 257 <= numLit <= 286 && 1 <= numDist <= 30
      ensures Acceptable(litSizes[..numLit]) && Acceptable(distSizes[..numDist])
      ensures (numLit > 257 ==> litSizes[numLit - 1] != 0) && (numDist > 1 ==> distSizes[numDist - 1] != 0)
      ensures AllCodeable(litSizes[..numLit], distSizes[..numDist], recs)
      ensures LzBits(litSizes[..numLit], distSizes[..numDist], recs) == LzBits(litSizes[..], distSizes[..], recs)
      ensures Thrifty(litSizes[..numLit], distSizes[..numDist], recs)
    {
      hide HasCodeWords, Acceptable, AllCodeable, Trims, LzBits, AllInRange, LitHist, DistHist, NearOptimal, Offset,
        Thrifty;
      litCount[256] := 1;
      ChooseCodes(litCount, distCount, recs);
      numLit := LastUsed(litSizes, 286, 257);
      numDist := LastUsed(distSizes, 30, 1);
      TrimAcceptable(litSizes[..], numLit);
      TrimAcceptable(distSizes[..], numDist);
      IsThrifty(litSizes[..], distSizes[..], numLit, numDist, recs);
    }

    /** tdefl_start_dynamic_block */
    method StartDynamicBlock(w: Writer, litCount: array<nat>, distCount: array<nat>, ghost recs: seq<Record>)
      returns (ghost body: Body)
      requires Shape() && w.Valid() && litCount as object !in Tables() && distCount as object !in Tables()
      requires litCount.Length == 288 && distCount.Length == 32 && litCount != distCount
      requires AllInRange(recs) && |recs| < 65535 && litCount[..] == LitHist(recs) && distCount[..] == DistHist(recs)
      requires Offset(recs, |recs|) <= LZ_CODE_BUF_SIZE
      modifies litSizes, litCodes, distSizes, distCodes, lenSizes, lenCodes, litCount, w, w.buf
      ensures CanSend(recs) && body.Dynamic? && body.recs == recs
      ensures ValidHeader(body.lit, body.dst, body.z, body.items, body.numSizes)
        && AllCodeable(body.lit, body.dst, recs)
      ensures LzBits(body.lit, body.dst, recs) == LzBits(litSizes[..], distSizes[..], recs)
      ensures Thrifty(body.lit, body.dst, recs) && Shortest(body)
      ensures w.Valid()
      ensures w.bits == old(w.bits) + ToBits(2, 2)
        + DynamicHeader(body.lit, body.dst, body.z, body.items, body.numSizes)
    {
      hide HasCodeWords, Acceptable, UnpackAll, RunItems, ValidItems, Flatten, CodeCount, Pow2, Sendable, AllCodeable,
        Packed, LzBits, ToBits, AllInRange, LitHist, DistHist, ItemsBits, SizesBits, Offset, Thrifty;
      var numLit, numDist := TrimCodes(litCount, distCount, recs);
      var packer := PackSizes(numLit, numDist);
      var numSizes := CountSizesSent(lenSizes);
      body := Dynamic(litSizes[..numLit], distSizes[..numDist], lenSizes[..], packer.items, numSizes, recs);
      PutHeader(w, packer, numLit, numDist, numSizes);
    }

    /** The fields of the header. */
    method PutHeader(w: Writer, packer: Packer, numLit: nat, numDist: nat, numSizes: nat)
      requires Shape() && w.Valid() && packer.Stored()
      requires 257 <= numLit <= 286 && 1 <= numDist <= 30 && 4 <= numSizes <= 19
      requires Sendable(lenSizes[..], packer.items) && HasCodeWords(lenSizes[..], lenCodes[..])
      requires forall s :: 0 <= s < 19 ==> lenSizes[s] <= 7
      modifies w, w.buf
      ensures w.Valid()
      ensures w.bits == old(w.bits) + ToBits(2, 2)
        + (ToBits(numLit - 257, 5) + ToBits(numDist - 1, 5) + ToBits(numSizes - 4, 4)
                        + SizesBits(lenSizes[..], numSizes) + ItemsBits(lenSizes[..], packer.items))
    {
      hide HasCodeWords, UnpackAll, ValidItems, Flatten, CodeCount, Pow2, Sendable, Packed, ToBits, ItemsBits,
        SizesBits;
      Pow2Values();
      w.Put(2, 2);
      w.Put(numLit - 257, 5);
      w.Put(numDist - 1, 5);
      w.Put(numSizes - 4, 4);
      PutSizes(w, lenSizes, numSizes);
      PutItems(w, lenSizes, lenCodes, packer.packed, packer.numPacked, packer.items);
    }

    /** tdefl_compress_block: codes and records of one block, static or dynamic. */
    method CompressBlock(w: Writer, lz: Buffer, isStatic: bool, ghost out: seq<Byte>)
      returns (ok: bool, ghost body: Body)
      requires Shape() && w.Valid() && lz.codeBuf != w.buf && ToSend(lz) && ValidRecords(out, lz.recs)
      requires !isStatic ==> lz.litCount[..] == LitHist(lz.recs) && lz.distCount[..] == DistHist(lz.recs)
      requires !isStatic ==> Offset(lz.recs, |lz.recs|) <= LZ_CODE_BUF_SIZE
      modifies litSizes, litCodes, distSizes, distCodes, lenSizes, lenCodes, lz.litCount, w, w.buf
      ensures w.Valid() && !body.Raw? && body.recs == lz.recs && ValidBody(out, body)
      ensures forall at :: w.bits == old(w.bits) + ToBits(Kind(body), 2) + BodyBits(body, at, out)
      ensures if isStatic then body == Fixed(lz.recs)
        else body.Dynamic? && Thrifty(body.lit, body.dst, lz.recs) && Shortest(body)
      ensures ok <==> w.pos < OUT_BUF_END
      ensures ToSend(lz)
    {
      hide HasCodeWords, AllCodeable, LzBits, DynamicHeader, ValidHeader, Packed, ToBits, Closed, CodeEnd, ValidRecords,
        AllInRange, LitHist, DistHist, Offset, Thrifty, Shortest;
      ghost var a := w.bits;
      if isStatic {
        StartStaticBlock(w, lz.recs);
        body := Fixed(lz.recs);
      } else {
        body := StartDynamicBlock(w, lz.litCount, lz.distCount, lz.recs);
      }
      ghost var b := w.bits;
      ok := LzReader.CompressLzCodes(w, litSizes, litCodes, distSizes, distCodes, lz.codeBuf, lz.codePos, lz.recs);
      assert w.bits == a + ToBits(Kind(body), 2) + BodyBits(body, 0, out);
    }

    /** The record buffer is ready to be sent, with tables of its own. */
    ghost predicate ToSend(lz: Buffer)
      reads lz, lz.codeBuf
    {
      && lz.litCount as object !in Tables() && lz.distCount as object !in Tables() && lz.litCount != lz.distCount
      && lz.litCount.Length == 288 && lz.distCount.Length == 32
      && Closed(lz.recs, lz.codeBuf[..]) && lz.codePos == CodeEnd(lz.recs) && AllInRange(lz.recs)
      && |lz.recs| < 65535
    }
  }

  lemma IsThrifty(lit: seq<nat>, dst: seq<nat>, m: nat, n: nat, recs: seq<Record>)
    requires |lit| == 288 && |dst| == 32 && Trims(lit, m) && Trims(dst, n)
    requires AllInRange(recs) && Offset(recs, |recs|) <= LZ_CODE_BUF_SIZE && AllCodeable(lit, dst, recs)
    requires NearOptimal(LitHist(recs)[256 := 1], lit) && NearOptimal(DistHist(recs), dst)
    ensures AllCodeable(lit[..m], dst[..n], recs) && LzBits(lit[..m], dst[..n], recs) == LzBits(lit, dst, recs)
    ensures Thrifty(lit[..m], dst[..n], recs)
  {
    hide AllCodeable, LzBits, NearOptimal, Offset, LitHist, DistHist, AllInRange;
    LzSize(lit, dst, recs);
    TrimBody(lit, dst, m, n, recs);
    TrimPadded(lit, m);
    TrimPadded(dst, n);
  }

  lemma SizesSmall(a: seq<nat>, b: seq<nat>, all: seq<nat>)
    requires all == a + b
    requires (forall i :: 0 <= i < |a| ==> a[i] <= 15) && (forall i :: 0 <= i < |b| ==> b[i] <= 15)
    ensures forall i :: 0 <= i < |all| ==> all[i] <= 15
  {
  }

  /** The counts of the packed items do not overflow either. */
  lemma ItemsFit(packer: Packer)
    requires packer.Stored()
    ensures CountSum(packer.counts[..], 19) < 65536
  {
    hide UnpackAll, Flatten, CodeCount, CountSum;
    UnpackGrows(packer.items);
    CodeSumCounts(packer.items, packer.counts[..], 19);
    CodeSumBound(packer.items, 19);
  }
}
