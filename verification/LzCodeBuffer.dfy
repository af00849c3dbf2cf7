/** The compressor's record buffer: tdefl_record_literal and tdefl_record_match, and the layout that the block writer
    reads back.  A flag byte precedes the bytes of every eight records; while its group is open, its flags are in its
    upper bits. */
module LzCodeBuffer {
  import opened Bits
  import opened LzSymbols
  import opened InflateSpec
  import opened BlockSpec
  import opened SymbolCounts

  /** TDEFL_LZ_CODE_BUF_SIZE */
  const LZ_CODE_BUF_SIZE: nat := 65536

  predicate RecordInRange(r: Record) {
    r.Match? ==> 3 <= r.len <= 258 && 1 <= r.dist <= 32768
  }

  function RecordLen(r: Record): nat {
    if r.Match? then r.len else 1
  }

  /** The number of input bytes that records stand for: m_total_lz_bytes. */
  function TotalLen(recs: seq<Record>): nat {
    if recs == [] then 0 else TotalLen(recs[..|recs| - 1]) + RecordLen(recs[|recs| - 1])
  }

  // ----- where records lie -----

  function PayloadSize(r: Record): nat {
    if r.Match? then 3 else 1
  }

  /** Where the bytes of record i start. */
  function Offset(recs: seq<Record>, i: nat): (p: nat)
    requires i <= |recs|
    ensures p >= 1 + i + i / 8
  {
    if i == 0 then 1 else Offset(recs, i - 1) + PayloadSize(recs[i - 1]) + (if i % 8 == 0 then 1 else 0)
  }

  /** The flag byte of the group that record i is in. */
  function FlagPos(recs: seq<Record>, i: nat): nat
    requires i <= |recs|
  {
    Offset(recs, 8 * (i / 8)) - 1
  }

  /** Which bit of its flag byte belongs to record i when n records have been made. */
  function FlagBit(n: nat, i: nat): (k: nat)
    requires i < n
    ensures k < 8
  {
    if i / 8 == n / 8 then 8 - n % 8 + i % 8 else i % 8
  }

  predicate Stores(r: Record, b: seq<Byte>) {
    match r
    case Literal(lit) => b == [lit]
    case Match(len, dist) => 3 <= len && 1 <= dist && |b| == 3 && b[0] == len - 3 && Word(b[1], b[2]) == dist - 1
  }

  predicate FlagAt(buf: seq<Byte>, p: nat, k: nat, r: Record) {
    p < |buf| && k < 8 && ToBits(buf[p], 8)[k] == r.Match?
  }

  ghost predicate Payloads(recs: seq<Record>, buf: seq<Byte>) {
    && Offset(recs, |recs|) <= |buf| + 1
    && forall i :: 0 <= i < |recs| ==> PayloadAt(recs, buf, i)
  }

  ghost predicate PayloadAt(recs: seq<Record>, buf: seq<Byte>, i: nat)
    requires i < |recs|
  {
    var p := Offset(recs, i);
    p + PayloadSize(recs[i]) <= |buf| && Stores(recs[i], buf[p..p + PayloadSize(recs[i])])
  }

  /** While recording: the open group's flags are in the upper bits of its flag byte. */
  ghost predicate Layout(recs: seq<Record>, buf: seq<Byte>) {
    && Payloads(recs, buf)
    && forall i :: 0 <= i < |recs| ==> FlagAt(buf, FlagPos(recs, i), FlagBit(|recs|, i), recs[i])
  }

  /** When the buffer is read: every flag is in the place of its record. */
  ghost predicate Closed(recs: seq<Record>, buf: seq<Byte>) {
    && Payloads(recs, buf)
    && forall i :: 0 <= i < |recs| ==> FlagAt(buf, FlagPos(recs, i), i % 8, recs[i])
  }

  /** The end of what is read: an unused flag byte is given back. */
  function CodeEnd(recs: seq<Record>): nat {
    Offset(recs, |recs|) - (if |recs| % 8 == 0 then 1 else 0)
  }

  lemma {:induction false} OffsetPrefix(recs: seq<Record>, r: Record, i: nat)
    requires i <= |recs|
    ensures Offset(recs + [r], i) == Offset(recs, i)
  {
    if i > 0 {
      OffsetPrefix(recs, r, i - 1);
    }
  }

  lemma {:induction false} OffsetGap(recs: seq<Record>, i: nat, j: nat)
    requires i < j <= |recs|
    ensures Offset(recs, i) + PayloadSize(recs[i]) + (j / 8 - i / 8) <= Offset(recs, j)
  {
    if i < j - 1 {
      OffsetGap(recs, i, j - 1);
    }
  }

  lemma BehindFlag(recs: seq<Record>, i: nat)
    requires i <= |recs|
    ensures FlagPos(recs, i) < Offset(recs, i)
  {
    if i % 8 != 0 {
      OffsetGap(recs, 8 * (i / 8), i);
    }
  }

  /** A record of an earlier group lies before the flag byte of the open one. */
  lemma EarlierGroup(recs: seq<Record>, i: nat)
    requires i < |recs| && i / 8 != |recs| / 8
    ensures Offset(recs, i) + PayloadSize(recs[i]) <= FlagPos(recs, |recs|)
    ensures FlagPos(recs, i) < FlagPos(recs, |recs|) < Offset(recs, |recs|)
  {
    var g := |recs| / 8;
    assert i < 8 * g && (8 * g) / 8 == g;
    OffsetGap(recs, i, 8 * g);
    BehindFlag(recs, i);
    BehindFlag(recs, |recs|);
    hide Offset;
  }

  /** A record of the open group lies between its flag byte and the next record. */
  lemma SameGroup(recs: seq<Record>, i: nat)
    requires i < |recs| && i / 8 == |recs| / 8
    ensures FlagPos(recs, i) == FlagPos(recs, |recs|) < Offset(recs, i)
    ensures Offset(recs, i) + PayloadSize(recs[i]) <= Offset(recs, |recs|)
  {
    OffsetGap(recs, i, |recs|);
    BehindFlag(recs, i);
  }

  // ----- flag bytes -----

  /** `(*pLZ_flags >> 1) | 0x80` for a match, and without the or for a literal. */
  function PushFlag(b: Byte, isMatch: bool): Byte {
    b / 2 + (if isMatch then 128 else 0)
  }

  lemma PushFlagBits(b: Byte, isMatch: bool)
    ensures ToBits(PushFlag(b, isMatch), 8) == ToBits(b, 8)[1..] + [isMatch]
  {
    var m := if isMatch then 1 else 0;
    Pow2Values();
    ShlIsMul(m, 7);
    ToBitsConcat(b / 2, 7, m, 1);
    assert ToBits(b, 8)[1..] == ToBits(b / 2, 7);
  }

  lemma OrTop(x: nat)
    requires x < 128
    ensures Or(x, 128) == x + 128
  {
    Pow2Values();
    ShlIsMul(1, 7);
    OrDisjoint(x, 1, 7);
  }

  /** What recording r as the next record does to the buffer. */
  ghost predicate Writes(recs: seq<Record>, buf: seq<Byte>, r: Record, after: seq<Byte>) {
    var n := |recs|;
    var p, f := Offset(recs, n), FlagPos(recs, n);
    && p + PayloadSize(r) <= |buf| == |after| && f < p
    && Stores(r, after[p..p + PayloadSize(r)])
    && after[f] == PushFlag(buf[f], r.Match?)
    && forall k :: 0 <= k < p && k != f ==> after[k] == buf[k]
  }

  /** A payload that does not hold the flag byte keeps its place. */
  lemma SliceKept(buf: seq<Byte>, after: seq<Byte>, f: nat, n: nat, p: nat, m: nat)
    requires |after| == |buf| && p + m <= n <= |buf| && !(p <= f < p + m)
    requires forall k :: 0 <= k < n && k != f ==> after[k] == buf[k]
    ensures after[p..p + m] == buf[p..p + m]
  {
  }

  lemma StepPayload(recs: seq<Record>, buf: seq<Byte>, r: Record, after: seq<Byte>, i: nat)
    requires Payloads(recs, buf) && Writes(recs, buf, r, after) && i <= |recs|
    ensures PayloadAt(recs + [r], after, i)
  {
    OffsetPrefix(recs, r, i);
    hide Offset, FlagPos, PushFlag;
    if i < |recs| {
      if i / 8 == |recs| / 8 {
        SameGroup(recs, i);
      } else {
        EarlierGroup(recs, i);
      }
      assert PayloadAt(recs, buf, i);
      var p, m := Offset(recs, i), PayloadSize(recs[i]);
      SliceKept(buf, after, FlagPos(recs, |recs|), Offset(recs, |recs|), p, m);
    }
  }

  lemma FlagBitStep(n: nat, i: nat)
    requires i < n
    ensures FlagBit(n, i) == FlagBit(n + 1, i) + (if i / 8 == n / 8 then 1 else 0)
  {
  }

  lemma FlagBitLast(n: nat)
    ensures FlagBit(n + 1, n) == 7
  {
  }

  lemma FlagPosPrefix(recs: seq<Record>, r: Record, i: nat)
    requires i <= |recs|
    ensures FlagPos(recs + [r], i) == FlagPos(recs, i)
  {
    OffsetPrefix(recs, r, 8 * (i / 8));
  }

  lemma StepFlag(recs: seq<Record>, buf: seq<Byte>, r: Record, after: seq<Byte>, i: nat)
    requires Layout(recs, buf) && Writes(recs, buf, r, after) && i <= |recs|
    ensures FlagAt(after, FlagPos(recs + [r], i), FlagBit(|recs| + 1, i), (recs + [r])[i])
  {
    hide ToBits, PushFlag, Offset, Stores, Payloads, FlagBit, FlagPos;
    var n := |recs|;
    FlagPosPrefix(recs, r, i);
    PushFlagBits(buf[FlagPos(recs, n)], r.Match?);
    if i == n {
      FlagBitLast(n);
    } else {
      FlagBitStep(n, i);
      assert FlagAt(buf, FlagPos(recs, i), FlagBit(n, i), recs[i]);
      if i / 8 == n / 8 {
        SameGroup(recs, i);
      } else {
        EarlierGroup(recs, i);
      }
    }
  }

  /** Recording one more record keeps the layout. */
  lemma LayoutStep(recs: seq<Record>, buf: seq<Byte>, r: Record, after: seq<Byte>)
    requires Layout(recs, buf) && Writes(recs, buf, r, after)
    ensures Layout(recs + [r], after)
  {
    var more := recs + [r];
    forall i | 0 <= i < |more|
      ensures PayloadAt(more, after, i) && FlagAt(after, FlagPos(more, i), FlagBit(|more|, i), more[i])
    {
      StepPayload(recs, buf, r, after, i);
      StepFlag(recs, buf, r, after, i);
    }
    OffsetPrefix(recs, r, |recs|);
  }

  lemma ShiftBits(b: Byte, m: nat, k: nat)
    requires k + m < 8
    ensures Shr(b, m) < 256 && ToBits(Shr(b, m), 8)[k] == ToBits(b, 8)[k + m]
  {
    Pow2Values();
    ShrBelow(b, 8, m);
    Pow2Monotonic(8 - m, 8);
    BitAt(b, 8, k + m);
    ShrTwice(b, m, k);
    BitAt(Shr(b, m), 8, k);
  }

  lemma {:induction false} ShrSmall(v: nat, n: nat)
    ensures Shr(v, n) <= v
  {
    if n > 0 {
      ShrSmall(v / 2, n - 1);
    }
  }

  lemma ClosePlaces(n: nat, i: nat)
    requires i < n && i / 8 == n / 8
    ensures FlagBit(n, i) == i % 8 + (8 - n % 8)
  {
  }

  lemma ClosedBit(n: nat, i: nat)
    requires i < n && i / 8 != n / 8
    ensures FlagBit(n, i) == i % 8
  {
  }

  /** The shift of the open flag byte at a flush. */
  lemma CloseStep(recs: seq<Record>, buf: seq<Byte>, after: seq<Byte>)
    requires var f := FlagPos(recs, |recs|);
      && Layout(recs, buf) && |after| == |buf| && f < |buf| && after[f] == Shr(buf[f], 8 - |recs| % 8)
      && forall k :: 0 <= k < |buf| && k != f ==> after[k] == buf[k]
    ensures Closed(recs, after)
  {
    hide Offset, FlagPos, FlagBit, ToBits, Stores;
    forall i | 0 <= i < |recs|
      ensures PayloadAt(recs, after, i) && FlagAt(after, FlagPos(recs, i), i % 8, recs[i])
    {
      assert PayloadAt(recs, buf, i);
      assert FlagAt(buf, FlagPos(recs, i), FlagBit(|recs|, i), recs[i]);
      var p, m := Offset(recs, i), PayloadSize(recs[i]);
      if i / 8 == |recs| / 8 {
        SameGroup(recs, i);
        ClosePlaces(|recs|, i);
        ShiftBits(buf[FlagPos(recs, i)], 8 - |recs| % 8, i % 8);
      } else {
        EarlierGroup(recs, i);
        ClosedBit(|recs|, i);
      }
      SliceKept(buf, after, FlagPos(recs, |recs|), |buf|, p, m);
    }
  }

  // ----- symbol counts -----

  function Bump(h: seq<nat>, s: nat): (r: seq<nat>)
    ensures |r| == |h|
  {
    if s < |h| then h[s := h[s] + 1] else h
  }

  /** m_huff_count[0] after these records. */
  function LitHist(recs: seq<Record>): (h: seq<nat>)
    ensures |h| == 288
  {
    if recs == [] then Times(0, 288) else Bump(LitHist(recs[..|recs| - 1]), LitSym(recs[|recs| - 1]))
  }

  /** m_huff_count[1] after these records. */
  function DistHist(recs: seq<Record>): (h: seq<nat>)
    ensures |h| == 32
  {
    if recs == [] then Times(0, 32)
    else
      var h, last := DistHist(recs[..|recs| - 1]), recs[|recs| - 1];
      if last.Match? && last.dist >= 1 then Bump(h, DistSym(last.dist - 1)) else h
  }

  function Matches(recs: seq<Record>): nat {
    if recs == [] then 0 else Matches(recs[..|recs| - 1]) + (if recs[|recs| - 1].Match? then 1 else 0)
  }

  lemma {:induction false} BumpSum(h: seq<nat>, s: nat, n: nat)
    requires n <= |h|
    ensures CountSum(Bump(h, s), n) == CountSum(h, n) + (if s < n then 1 else 0)
  {
    if n > 0 {
      BumpSum(h, s, n - 1);
    }
  }

  lemma {:induction false} ZeroSum(m: nat, n: nat)
    requires n <= m
    ensures CountSum(Times(0, m), n) == 0
  {
    if n > 0 {
      ZeroSum(m, n - 1);
    }
  }

  /** A table's counts never add up to more than the number of records, so the 16-bit counters do not wrap. */
  lemma {:induction false} HistSums(recs: seq<Record>)
    ensures CountSum(LitHist(recs), 288) <= |recs|
    ensures CountSum(DistHist(recs), 32) <= Matches(recs) <= |recs|
  {
    if recs == [] {
      ZeroSum(288, 288);
      ZeroSum(32, 32);
    } else {
      var init, last := recs[..|recs| - 1], recs[|recs| - 1];
      HistSums(init);
      BumpSum(LitHist(init), LitSym(last), 288);
      if last.Match? && last.dist >= 1 {
        BumpSum(DistHist(init), DistSym(last.dist - 1), 32);
      }
    }
  }

  lemma LitSymRange(r: Record)
    requires RecordInRange(r)
    ensures LitSym(r) <= 285 && LitSym(r) != 256
    ensures r.Match? ==> DistSym(r.dist - 1) < 30
  {
    if r.Match? {
      LengthRoundTrip(r.len - 3);
      DistRoundTrip(r.dist - 1);
    }
  }

  predicate AllInRange(recs: seq<Record>) {
    forall i :: 0 <= i < |recs| ==> RecordInRange(recs[i])
  }

  /** Every symbol of a record is counted. */
  lemma {:induction false} HistCounts(recs: seq<Record>, i: nat)
    requires i < |recs| && AllInRange(recs)
    ensures LitSym(recs[i]) < 288 && LitHist(recs)[LitSym(recs[i])] > 0
    ensures recs[i].Match? ==> DistSym(recs[i].dist - 1) < 32 && DistHist(recs)[DistSym(recs[i].dist - 1)] > 0
  {
    LitSymRange(recs[i]);
    hide LitSym, DistSym;
    if i < |recs| - 1 {
      HistCounts(recs[..|recs| - 1], i);
    }
  }

  /** The symbols that no record has are never counted. */
  lemma {:induction false} HistUnused(recs: seq<Record>)
    requires AllInRange(recs)
    ensures LitHist(recs)[256] == 0 && LitHist(recs)[286] == 0 && LitHist(recs)[287] == 0
    ensures DistHist(recs)[30] == 0 && DistHist(recs)[31] == 0
  {
    if recs != [] {
      LitSymRange(recs[|recs| - 1]);
      hide LitSym, DistSym;
      HistUnused(recs[..|recs| - 1]);
    }
  }

  // ----- the buffer -----

  lemma Append(recs: seq<Record>, r: Record)
    requires RecordInRange(r)
    ensures var more := recs + [r];
      && TotalLen(more) == TotalLen(recs) + RecordLen(r)
      && LitHist(more) == Bump(LitHist(recs), LitSym(r))
      && DistHist(more) == (if r.Match? then Bump(DistHist(recs), DistSym(r.dist - 1)) else DistHist(recs))
  {
    hide LitSym, DistSym;
    assert (recs + [r])[..|recs|] == recs;
  }

  lemma AppendPos(recs: seq<Record>, r: Record)
    ensures var more, full := recs + [r], (|recs| + 1) % 8 == 0;
      && Offset(more, |more|) == Offset(recs, |recs|) + PayloadSize(r) + (if full then 1 else 0)
      && FlagPos(more, |more|) == (if full then Offset(recs, |recs|) + PayloadSize(r) else FlagPos(recs, |recs|))
      && 8 - |more| % 8 == (if 8 - |recs| % 8 == 1 then 8 else 8 - |recs| % 8 - 1)
  {
    hide Offset, PayloadSize;
    OffsetPrefix(recs, r, |recs|);
    OffsetPrefix(recs, r, 8 * (|recs| / 8));
    OffsetNext(recs + [r], |recs|);
  }

  lemma OffsetNext(recs: seq<Record>, i: nat)
    requires i < |recs|
    ensures Offset(recs, i + 1) == Offset(recs, i) + PayloadSize(recs[i]) + (if (i + 1) % 8 == 0 then 1 else 0)
  {
  }

  class Buffer {
    const codeBuf: array<Byte>    // m_lz_code_buf
    const litCount: array<nat>    // m_huff_count[0]
    const distCount: array<nat>   // m_huff_count[1]
    var codePos: nat              // m_pLZ_code_buf
    var flagsPos: nat             // m_pLZ_flags
    var numFlagsLeft: nat         // m_num_flags_left
    var totalBytes: nat           // m_total_lz_bytes
    ghost var recs: seq<Record>

    constructor ()
      ensures Valid() && recs == [] && codePos == 1 && fresh(codeBuf) && fresh(litCount) && fresh(distCount)
    {
      codeBuf := new Byte[LZ_CODE_BUF_SIZE](_ => 0);
      litCount := new nat[288](_ => 0);
      distCount := new nat[32](_ => 0);
      codePos, flagsPos, numFlagsLeft, totalBytes, recs := 1, 0, 8, 0, [];
    }

    ghost predicate Valid()
      reads this, codeBuf, litCount, distCount
    {
      && Arrays() && Placed() && Layout(recs, codeBuf[..]) && Counted()
    }

    ghost predicate Placed()
      reads this`recs, this`codePos, this`flagsPos, this`numFlagsLeft
    {
      && codePos == Offset(recs, |recs|) <= LZ_CODE_BUF_SIZE
      && flagsPos == FlagPos(recs, |recs|) && numFlagsLeft == 8 - |recs| % 8
    }

    ghost predicate Counted()
      reads this`recs, this`totalBytes, litCount, distCount
    {
      && totalBytes == TotalLen(recs) && AllInRange(recs)
      && litCount[..] == LitHist(recs) && distCount[..] == DistHist(recs)
    }

    /** The flag of a record, and a new flag byte after every eighth. */
    method PushFlag(isMatch: bool, ghost r: Record, ghost before: seq<Byte>)
      requires codeBuf.Length == LZ_CODE_BUF_SIZE && codePos <= LZ_CODE_BUF_SIZE
      requires isMatch == r.Match? && |before| == LZ_CODE_BUF_SIZE && Layout(recs, before)
      requires flagsPos == FlagPos(recs, |recs|) && numFlagsLeft == 8 - |recs| % 8
      requires codePos == Offset(recs, |recs|) + PayloadSize(r) < LZ_CODE_BUF_SIZE
      requires Stores(r, codeBuf[Offset(recs, |recs|)..codePos])
      requires forall k :: 0 <= k < Offset(recs, |recs|) ==> codeBuf[k] == before[k]
      modifies this`codePos, this`flagsPos, this`numFlagsLeft, this`recs, codeBuf
      ensures recs == old(recs) + [r] && Placed() && Layout(recs, codeBuf[..])
    {
      hide Offset, FlagPos, Layout, Or, Stores;
      ghost var now := codeBuf[..];
      BehindFlag(recs, |recs|);
      var flags: nat := codeBuf[flagsPos] / 2;
      if isMatch {
        OrTop(flags);
        flags := Or(flags, 128);
      }
      AppendPos(recs, r);
      codeBuf[flagsPos] := flags;
      assert codeBuf[..] == now[flagsPos := flags];
      assert codeBuf[Offset(recs, |recs|)..codePos] == now[Offset(recs, |recs|)..codePos];
      assert Writes(recs, before, r, codeBuf[..]);
      LayoutStep(recs, before, r, codeBuf[..]);
      recs := recs + [r];
      numFlagsLeft := numFlagsLeft - 1;
      if numFlagsLeft == 0 {
        numFlagsLeft := 8;
        flagsPos := codePos;
        codePos := codePos + 1;
      }
    }

    /** tdefl_record_literal */
    method RecordLiteral(lit: Byte)
      requires Valid() && codePos + 4 <= LZ_CODE_BUF_SIZE
      modifies this, codeBuf, litCount
      ensures Valid() && recs == old(recs) + [Literal(lit)] && old(codePos) < codePos <= old(codePos) + 2
    {
      hide Layout, Offset, FlagPos, LitHist, DistHist, TotalLen;
      ghost var before, r := codeBuf[..], Literal(lit);
      Append(recs, r);
      AppendPos(recs, r);
      totalBytes := totalBytes + 1;
      codeBuf[codePos] := lit;
      codePos := codePos + 1;
      PushFlag(false, r, before);
      litCount[lit] := litCount[lit] + 1;
      assert litCount[..] == Bump(old(litCount[..]), lit);
    }

    /** tdefl_record_match */
    method RecordMatch(len: nat, dist: nat)
      requires Valid() && codePos + 4 <= LZ_CODE_BUF_SIZE && RecordInRange(Match(len, dist))
      modifies this, codeBuf, litCount, distCount
      ensures Valid() && recs == old(recs) + [Match(len, dist)] && old(codePos) < codePos <= old(codePos) + 4
    {
      hide Layout, Offset, FlagPos, LitHist, DistHist, TotalLen, LenSym, SmallDistSym, LargeDistSym;
      ghost var before, r := codeBuf[..], Match(len, dist);
      Append(recs, r);
      AppendPos(recs, r);
      LitSymRange(r);
      totalBytes := totalBytes + len;
      codeBuf[codePos] := len - 3;
      var d := dist - 1;
      codeBuf[codePos + 1] := d % 256;
      codeBuf[codePos + 2] := d / 256;
      codePos := codePos + 3;
      PushFlag(true, r, before);
      var s := DistSym(d);
      distCount[s] := distCount[s] + 1;
      litCount[LenSym(len - 3)] := litCount[LenSym(len - 3)] + 1;
      assert litCount[..] == Bump(old(litCount[..]), LenSym(len - 3));
      assert distCount[..] == Bump(old(distCount[..]), s);
    }

    /** At a flush: the open group's flags go to the low end of their byte, and an unused flag byte is given back. */
    method Close()
      requires Valid()
      modifies this`codePos, codeBuf
      ensures Closed(recs, codeBuf[..]) && codePos == CodeEnd(recs)
    {
      hide Offset, FlagPos, Layout, Closed, Counted, Shr;
      ghost var before := codeBuf[..];
      BehindFlag(recs, |recs|);
      ShrSmall(codeBuf[flagsPos], numFlagsLeft);
      codeBuf[flagsPos] := Shr(codeBuf[flagsPos], numFlagsLeft);
      CloseStep(recs, before, codeBuf[..]);
      if numFlagsLeft == 8 {
        codePos := codePos - 1;
      }
    }

    ghost predicate Arrays() {
      && codeBuf.Length == LZ_CODE_BUF_SIZE && litCount.Length == 288 && distCount.Length == 32 && litCount != distCount
    }

    /** After a flush: everything starts over. */
    method Reset()
      requires Arrays()
      modifies this, litCount, distCount
      ensures Valid() && recs == [] && codePos == 1
    {
      Clear(litCount);
      Clear(distCount);
      codePos, flagsPos, numFlagsLeft, totalBytes, recs := 1, 0, 8, 0, [];
    }
  }

  method Clear(a: array<nat>)
    modifies a
    ensures a[..] == Times(0, a.Length)
  {
    var i := 0;
    while i < a.Length
      invariant 0 <= i <= a.Length && forall k :: 0 <= k < i ==> a[k] == 0
    {
      a[i] := 0;
      i := i + 1;
    }
  }
}
