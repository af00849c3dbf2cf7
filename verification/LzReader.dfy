/** tdefl_compress_lz_codes: walking the record buffer and sending its records. */
module LzReader {
  import opened Bits
  import opened Canonical
  import opened LzSymbols
  import opened InflateSpec
  import opened BlockSpec
  import opened EncoderTable
  import opened LzCodeBuffer
  import opened BitWriter
  import BlockStream

  /** The eight flags of a group above a marker bit, of which j have been shifted out. */
  function Flags(b: Byte, j: nat): nat {
    Shr(b + 256, j)
  }

  lemma FlagsFacts(b: Byte, j: nat)
    requires j <= 8
    ensures Flags(b, 0) == b + 256 && Flags(b, 8) == 1
    ensures j < 8 ==> Flags(b, j) >= 2 && Flags(b, j + 1) == Flags(b, j) / 2
    ensures j < 8 ==> (Flags(b, j) % 2 == 1 <==> ToBits(b, 8)[j])
  {
    Pow2Values();
    ShlIsMul(1, 8);
    ToBitsConcat(b, 8, 1, 1);
    FlagsLast(b);
    if j < 8 {
      BitAt(b + 256, 9, j);
      ShrTwice(b + 256, j, 1);
      ShrLow(b + 256, j);
      FlagsLarge(b, j);
    }
  }

  lemma FlagsLast(b: Byte)
    ensures Flags(b, 8) == 1
  {
    Pow2Values();
    ShrBelow(b + 256, 9, 8);
    ShrLow(b + 256, 8);
    ShlIsMul(Flags(b, 8), 8);
  }

  lemma FlagsLarge(b: Byte, j: nat)
    requires j < 8
    ensures Flags(b, j) >= 2
  {
    ShrLow(b + 256, j);
    ShlIsMul(Flags(b, j), j);
    Pow2Monotonic(j, 7);
    Pow2Values();
    if Flags(b, j) < 2 {
      MulMonotonic(Flags(b, j), 1, Pow2(j));
    }
  }

  /** The loop is about to look at record i. */
  ghost predicate Reading(recs: seq<Record>, buf: seq<Byte>, i: nat, p: nat, flags: nat) {
    && i <= |recs| && FlagPos(recs, i) < p + (if i % 8 == 0 then 1 else 0)
    && p + (if i % 8 == 0 then 1 else 0) == Offset(recs, i)
    && (i % 8 == 0 ==> flags == 1)
    && (i % 8 != 0 ==> FlagPos(recs, i) < |buf| && flags == Flags(buf[FlagPos(recs, i)], i % 8))
  }

  /** The flags of record i's group are loaded and p is at its bytes. */
  ghost predicate Loaded(recs: seq<Record>, buf: seq<Byte>, i: nat, p: nat, flags: nat) {
    && i < |recs| && p == Offset(recs, i)
    && FlagPos(recs, i) < |buf| && flags == Flags(buf[FlagPos(recs, i)], i % 8)
  }

  lemma ReadStart(recs: seq<Record>, buf: seq<Byte>)
    ensures Reading(recs, buf, 0, 0, 1)
  {
  }

  /** The loop guard: the end of the buffer is reached exactly after the last record. */
  lemma ReadGuard(recs: seq<Record>, buf: seq<Byte>, i: nat, p: nat, flags: nat)
    requires Reading(recs, buf, i, p, flags)
    ensures p < CodeEnd(recs) <==> i < |recs|
    ensures i == |recs| ==> p == CodeEnd(recs)
  {
    if i < |recs| {
      OffsetGap(recs, i, |recs|);
    }
  }

  /** `if (flags == 1) flags = *pLZ_codes++ | 0x100` loads them. */
  ghost predicate LoadedAfter(recs: seq<Record>, buf: seq<Byte>, i: nat, p: nat, flags: nat) {
    if flags == 1 then p < |buf| && Loaded(recs, buf, i, p + 1, Flags(buf[p], 0)) else Loaded(recs, buf, i, p, flags)
  }

  lemma ReadLoad(recs: seq<Record>, buf: seq<Byte>, i: nat, p: nat, flags: nat)
    requires Closed(recs, buf) && Reading(recs, buf, i, p, flags) && i < |recs|
    ensures LoadedAfter(recs, buf, i, p, flags)
  {
    assert FlagAt(buf, FlagPos(recs, i), i % 8, recs[i]);
    FlagsFacts(buf[FlagPos(recs, i)], i % 8);
    FlagsFacts(buf[FlagPos(recs, i)], 0);
    hide Flags, ToBits, Payloads, Offset;
    if i % 8 == 0 {
      assert 8 * (i / 8) == i;
    }
  }

  lemma ReadRecord(recs: seq<Record>, buf: seq<Byte>, i: nat, p: nat, flags: nat)
    requires Closed(recs, buf) && Loaded(recs, buf, i, p, flags)
    ensures flags % 2 == 1 <==> recs[i].Match?
    ensures p + PayloadSize(recs[i]) <= |buf| && Stores(recs[i], buf[p..p + PayloadSize(recs[i])])
  {
    assert FlagAt(buf, FlagPos(recs, i), i % 8, recs[i]);
    assert PayloadAt(recs, buf, i);
    FlagsFacts(buf[FlagPos(recs, i)], i % 8);
    hide Flags, ToBits, Offset, Stores, FlagPos;
  }

  lemma ReadNext(recs: seq<Record>, buf: seq<Byte>, i: nat, p: nat, flags: nat)
    requires Loaded(recs, buf, i, p, flags)
    ensures Reading(recs, buf, i + 1, p + PayloadSize(recs[i]), flags / 2)
  {
    var j := i % 8;
    FlagsFacts(buf[FlagPos(recs, i)], j);
    BehindFlag(recs, i + 1);
    hide Flags, ToBits;
    NextInGroup(i);
  }

  lemma NextInGroup(i: nat)
    ensures (i + 1) % 8 == (if i % 8 == 7 then 0 else i % 8 + 1)
    ensures (i + 1) % 8 != 0 ==> (i + 1) / 8 == i / 8
  {
  }

  method PutCode(w: Writer, sizes: array<nat>, codes: array<nat>, s: nat)
    requires w.Valid() && HasCodeWords(sizes[..], codes[..]) && HasCode(sizes[..], s) && sizes[s] <= 16
    modifies w, w.buf
    ensures w.Valid() && w.bits == old(w.bits) + CodeWord(sizes[..], s)
  {
    hide CodeWord, Packed, Pow2;
    assert sizes[..][s] == sizes[s] && codes[..][s] == codes[s];
    w.Put(codes[s], sizes[s]);
  }

  /** `x & mz_bitmasks[n]` */
  method PutLow(w: Writer, v: nat, n: nat)
    requires w.Valid() && n <= 16
    modifies w, w.buf
    ensures w.Valid() && w.bits == old(w.bits) + ToBits(v, n)
  {
    hide Packed;
    ShrLow(v, n);
    LowBits(v, n);
    w.Put(Low(v, n), n);
  }

  lemma OrBytes(x: Byte, y: Byte)
    ensures Or(x, Shl(y, 8)) == Word(x, y)
  {
    Pow2Values();
    ShlIsMul(y, 8);
    OrDisjoint(x, y, 8);
  }

  lemma OrMarker(b: Byte)
    ensures Or(b, 256) == Flags(b, 0)
  {
    Pow2Values();
    ShlIsMul(1, 8);
    OrDisjoint(b, 1, 8);
  }

  /** The distance of a match: its code and extra bits. */
  method PutDistance(w: Writer, distSizes: array<nat>, distCodes: array<nat>, matchDist: nat)
    requires w.Valid() && HasCodeWords(distSizes[..], distCodes[..])
    requires matchDist < 32768 && HasCode(distSizes[..], DistSym(matchDist)) && distSizes[DistSym(matchDist)] <= 15
    modifies w, w.buf
    ensures w.Valid()
    ensures w.bits == old(w.bits) + CodeWord(distSizes[..], DistSym(matchDist))
      + ToBits(matchDist, DistExtra(matchDist))
  {
    hide CodeWord, SmallDistSym, SmallDistExtra, LargeDistSym, LargeDistExtra, HasCodeWords, Packed;
    ExtraSmall(0, matchDist);
    var sym, numExtraBits;
    if matchDist < 512 {
      sym := SmallDistSym(matchDist);
      numExtraBits := SmallDistExtra(matchDist);
    } else {
      sym := LargeDistSym(matchDist / 256);
      numExtraBits := LargeDistExtra(matchDist / 256);
    }
    PutCode(w, distSizes, distCodes, sym);
    PutLow(w, matchDist, numExtraBits);
  }

  /** One match: its length code and extra bits, then its distance. */
  method PutMatch(w: Writer, litSizes: array<nat>, litCodes: array<nat>, distSizes: array<nat>, distCodes: array<nat>,
                  matchLen: nat, matchDist: nat)
    requires w.Valid() && HasCodeWords(litSizes[..], litCodes[..]) && HasCodeWords(distSizes[..], distCodes[..])
    requires (forall s :: 0 <= s < litSizes.Length ==> litSizes[s] <= 15)
    requires (forall s :: 0 <= s < distSizes.Length ==> distSizes[s] <= 15)
    requires matchLen < 256 && matchDist < 32768
    requires Codeable(litSizes[..], distSizes[..], Match(matchLen + 3, matchDist + 1))
    modifies w, w.buf
    ensures w.Valid()
    ensures w.bits == old(w.bits) + RecordBits(litSizes[..], distSizes[..], Match(matchLen + 3, matchDist + 1))
  {
    hide CodeWord, LenSym, LenExtra, DistSym, DistExtra, HasCodeWords, Packed;
    ExtraSmall(matchLen, matchDist);
    PutCode(w, litSizes, litCodes, LenSym(matchLen));
    PutLow(w, matchLen, LenExtra(matchLen));
    PutDistance(w, distSizes, distCodes, matchDist);
  }

  lemma ExtraSmall(l: nat, d: nat)
    ensures LenExtra(l) <= 5 && SmallDistExtra(d) <= 7 && LargeDistExtra(d / 256) <= 13
  {
  }

  lemma RecordsBitsStep(lit: seq<nat>, dst: seq<nat>, recs: seq<Record>, i: nat)
    requires i < |recs| && forall k :: 0 <= k < |recs| ==> Codeable(lit, dst, recs[k])
    ensures RecordsBits(lit, dst, recs[..i + 1]) == RecordsBits(lit, dst, recs[..i]) + RecordBits(lit, dst, recs[i])
  {
    hide Codeable, RecordBits;
    assert recs[..i + 1][..i] == recs[..i];
  }

  /** The record at p. */
  method PutRecord(w: Writer, litSizes: array<nat>, litCodes: array<nat>, distSizes: array<nat>, distCodes: array<nat>,
                   codeBuf: array<Byte>, p: nat, flags: nat, ghost r: Record) returns (next: nat)
    requires w.Valid() && HasCodeWords(litSizes[..], litCodes[..]) && HasCodeWords(distSizes[..], distCodes[..])
    requires (forall s :: 0 <= s < litSizes.Length ==> litSizes[s] <= 15)
    requires (forall s :: 0 <= s < distSizes.Length ==> distSizes[s] <= 15)
    requires Codeable(litSizes[..], distSizes[..], r) && (flags % 2 == 1 <==> r.Match?) && codeBuf != w.buf
    requires p + PayloadSize(r) <= codeBuf.Length && Stores(r, codeBuf[p..p + PayloadSize(r)])
    modifies w, w.buf
    ensures w.Valid() && w.bits == old(w.bits) + RecordBits(litSizes[..], distSizes[..], r)
    ensures next == p + PayloadSize(r)
  {
    hide CodeWord, Packed, HasCodeWords, LenSym, DistSym, LenExtra, DistExtra;
    if flags % 2 == 1 {
      var matchLen: nat := codeBuf[p];
      OrBytes(codeBuf[p + 1], codeBuf[p + 2]);
      var matchDist := Or(codeBuf[p + 1], Shl(codeBuf[p + 2], 8));
      assert r == Match(matchLen + 3, matchDist + 1);
      PutMatch(w, litSizes, litCodes, distSizes, distCodes, matchLen, matchDist);
      next := p + 3;
    } else {
      var lit := codeBuf[p];
      assert r == Literal(lit);
      PutCode(w, litSizes, litCodes, lit);
      next := p + 1;
    }
  }

  /** The whole record buffer and the end-of-block code. */
  method CompressLzCodes(w: Writer, litSizes: array<nat>, litCodes: array<nat>, distSizes: array<nat>,
    distCodes: array<nat>, codeBuf: array<Byte>, codeEnd: nat, ghost recs: seq<Record>) returns (ok: bool)
    requires w.Valid() && HasCodeWords(litSizes[..], litCodes[..]) && HasCodeWords(distSizes[..], distCodes[..])
    requires (forall s :: 0 <= s < litSizes.Length ==> litSizes[s] <= 15)
    requires (forall s :: 0 <= s < distSizes.Length ==> distSizes[s] <= 15)
    requires BlockStream.AllCodeable(litSizes[..], distSizes[..], recs) && codeBuf != w.buf
    requires Closed(recs, codeBuf[..]) && codeEnd == CodeEnd(recs)
    modifies w, w.buf
    ensures w.Valid() && w.bits == old(w.bits) + BlockStream.LzBits(litSizes[..], distSizes[..], recs)
    ensures ok <==> w.pos < OUT_BUF_END
  {
    hide CodeWord, Packed, HasCodeWords, Codeable, RecordBits, RecordsBits, Closed, CodeEnd, Reading, Loaded, Offset,
      FlagPos, Flags, Stores;
    ghost var lit, dst, buf := litSizes[..], distSizes[..], codeBuf[..];
    ghost var i := 0;
    ReadStart(recs, buf);
    RecordsBitsNone(lit, dst);
    var flags: nat, p: nat := 1, 0;
    ReadGuard(recs, buf, 0, 0, 1);
    while p < codeEnd
      invariant i <= |recs| && Reading(recs, buf, i, p, flags) && (p < codeEnd <==> i < |recs|)
      invariant w.Valid() && w.bits == old(w.bits) + RecordsBits(lit, dst, recs[..i])
      decreases |recs| - i
    {
      ReadLoad(recs, buf, i, p, flags);
      if flags == 1 {
        OrMarker(codeBuf[p]);
        flags, p := Or(codeBuf[p], 256), p + 1;
      }
      ReadRecord(recs, buf, i, p, flags);
      ReadNext(recs, buf, i, p, flags);
      RecordsBitsStep(lit, dst, recs, i);
      assert codeBuf[p..p + PayloadSize(recs[i])] == buf[p..p + PayloadSize(recs[i])];
      p := PutRecord(w, litSizes, litCodes, distSizes, distCodes, codeBuf, p, flags, recs[i]);
      flags, i := flags / 2, i + 1;
      ReadGuard(recs, buf, i, p, flags);
    }
    assert recs[..i] == recs;
    PutCode(w, litSizes, litCodes, 256);
    ok := w.pos < OUT_BUF_END;
  }

  lemma RecordsBitsNone(lit: seq<nat>, dst: seq<nat>)
    ensures RecordsBits(lit, dst, []) == []
  {
  }
}
