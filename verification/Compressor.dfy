/** The lazy and greedy parser of tdefl_compress_normal, and what tdefl_flush_block sends. */
module Compressor {
  import opened Bits
  import opened InflateSpec
  import opened BlockSpec
  import opened HashChains
  import opened MatchSearch
  import opened Dictionary
  import opened LzCodeBuffer
  import opened LzParse
  import opened BlockStream
  import opened BitWriter
  import opened BlockCoder
  import BlockWriter
  import opened BlockSize
  import opened Restart

  datatype Flush = NoFlush | SyncFlush | FullFlush | Finish

  datatype Status = BadParam | Okay | Done

  /** m_flags and what tdefl_init derives from it. */
  datatype Options = Options(probes: nat, greedy: bool, rle: bool, filter: bool, forceStatic: bool, forceRaw: bool)

  /** m_max_probes[match_len >= 32] */
  function MaxProbes(o: Options, matchLen: nat): (n: nat)
    ensures n >= 1
  {
    if matchLen >= 32 then 1 + (o.probes / 4 + 2) / 3 else 1 + (o.probes + 2) / 3
  }

  /** All rounds of probes together: as many as were asked for, or a quarter of them for a match of 32 bytes or more,
      rounded up to threes. */
  lemma ProbesAllowed(o: Options, matchLen: nat)
    ensures var p := if matchLen >= 32 then o.probes / 4 else o.probes;
      p <= 3 * (MaxProbes(o, matchLen) - 1) < p + 3
  {
  }

  /** The two reasons to end a block while parsing. */
  predicate BlockFull(codePos: nat, totalBytes: nat, o: Options) {
    || codePos > LZ_CODE_BUF_SIZE - 8
    || (totalBytes > 31 * 1024 && (codePos * 115 / 128 >= totalBytes || o.forceRaw))
  }

  /** A block goes on while the buffer has room for a decision, and past 31 KB only if its records are shorter than
      128/115 of the bytes they stand for. */
  lemma GoesOn(codePos: nat, totalBytes: nat, o: Options)
    ensures !BlockFull(codePos, totalBytes, o) <==>
      codePos + 8 <= 65536 && (totalBytes > 31744 ==> 115 * codePos < 128 * totalBytes && !o.forceRaw)
  {
  }

  // ----- which kind of block is sent -----

  /** The records as the coder sends them: with the fixed codes if they are forced or the block is short, and otherwise
      with codes of its own. */
  ghost predicate CodedAs(o: Options, recs: seq<Record>, coded: Body, out: seq<Byte>) {
    && !coded.Raw? && coded.recs == recs && ValidBody(out, coded)
    && if o.forceStatic || TotalLen(recs) < 48 then coded.Fixed?
       else coded.Dynamic? && Thrifty(coded.lit, coded.dst, recs) && Shortest(coded)
  }

  /** How many bytes a body fills up, with its type, when `at` bits precede it. */
  ghost function BytesFilled(body: Body, at: nat, out: seq<Byte>): int
    requires ValidBody(out, body)
  {
    (at + 2 + |BodyBits(body, at + 2, out)|) / 8 - at / 8
  }

  /** A block that is still in the window is stored if that is asked for, or if what the coder made of it takes as many
      bytes as there are in it, less one; any other block is sent as the coder made it. */
  ghost predicate Chosen(o: Options, inWindow: bool, recs: seq<Record>, body: Body, coded: Body, at: nat,
    out: seq<Byte>)
  {
    if o.forceRaw && inWindow then body.Raw?
    else
      && CodedAs(o, recs, coded, out)
      && body.Raw? == (inWindow && TotalLen(recs) > 0 && BytesFilled(coded, at, out) + 1 >= TotalLen(recs))
      && (!body.Raw? ==> body == coded)
  }

  /** What the coder makes is longer than the output buffer. */
  ghost predicate Overflows(o: Options, recs: seq<Record>, coded: Body, at: nat, out: seq<Byte>) {
    CodedAs(o, recs, coded, out) && at + 2 + |BodyBits(coded, at + 2, out)| >= 8 * OUT_BUF_END
  }

  lemma NoOverflow(o: Options, recs: seq<Record>, coded: Body, at: nat, out: seq<Byte>)
    requires at <= 8 && AllInRange(recs) && Offset(recs, |recs|) <= LZ_CODE_BUF_SIZE
    ensures !Overflows(o, recs, coded, at, out)
  {
    hide LzBits, DynamicHeader, ValidHeader, AllCodeable, ValidRecords, Offset, Thrifty, AllInRange, Shortest, TotalLen;
    if CodedAs(o, recs, coded, out) {
      if coded.Fixed? {
        StaticFits(recs);
      } else {
        DynamicFits(out, coded, at + 2);
      }
    }
  }

  /** What the choice is for: a block in the window never takes more bits than in its stored form, and one that is not
      stored takes fewer bytes than there are in it.  A block is stored unasked only if the codes would save less than
      two bytes. */
  lemma SizeLaw(o: Options, recs: seq<Record>, body: Body, coded: Body, at: nat, out: seq<Byte>)
    requires Chosen(o, true, recs, body, coded, at, out) && ValidBody(out, body) && ValidRecords(out, recs)
    requires BodyOut(out, body) == ExpandAll(out, recs)
    ensures var n, bits := TotalLen(recs), 2 + |BodyBits(body, at + 2, out)|;
      && (n > 0 ==> bits <= 2 + |PadBits(at + 2)| + 32 + 8 * n)
      && (n > 0 && !body.Raw? ==> bits < 8 * (n - 1))
      && (body.Raw? && !o.forceRaw ==> 2 + |BodyBits(coded, at + 2, out)| > 8 * (n - 2))
  {
    hide LzBits, DynamicHeader, ValidHeader, AllCodeable, ValidRecords, Thrifty, Shortest, TotalLen, ExpandAll, PadBits;
    TotalIsLength(out, recs);
  }

  ghost predicate AllRaw(blocks: seq<Block>) {
    forall i :: 0 <= i < |blocks| ==> blocks[i].body.Raw?
  }

  /** How many bytes a block has before it is ended, if it is to be stored. */
  const RAW_LIMIT: nat := 31 * 1024

  lemma NothingYet()
    ensures ValidStream([]) && NoneFinal([]) && StreamOut([]) == [] && Parsed([], 0, Saved(0, 0, 0), [], [])
    ensures Split([], 0, 0) && StreamOut([][0..]) == [] && AllRaw([]) && |StreamBits([][..0])| == 0
  {
    SplitHere([]);
  }

  class State {
    const opts: Options
    const dic: Dict
    const lz: Buffer
    const coder: Coder
    const w: Writer
    var saved: Saved
    var dictPos: nat              // m_lz_code_buf_dict_pos, a 32-bit counter
    ghost var blocks: seq<Block>  // the blocks sent so far
    ghost var mark: nat           // how many of them at the last full flush

    /** The objects that make up the state. */
    ghost function Parts(): set<object> {
      {dic, dic.dict, dic.next, dic.hash, lz, lz.codeBuf, lz.litCount, lz.distCount, w, w.buf} + coder.Tables()
    }

    /** tdefl_init */
    constructor (o: Options)
      ensures fresh(Parts())
      ensures Shape() && dic.Valid() && lz.Valid() && w.Valid() && lz.Arrays()
      ensures dic.input == [] && dic.pos == 0 && lz.recs == [] && lz.codePos == 1 && w.bits == [] && w.bitsIn == 0
      ensures opts == o && saved == Saved(0, 0, 0) && dictPos == 0 && blocks == [] && mark == dic.base == 0
    {
      hide Dict.Valid, Buffer.Valid, Writer.Valid, Coder.Shape, Buffer.Arrays;
      opts := o;
      dic := new Dict();
      lz := new Buffer();
      coder := new Coder();
      w := new Writer();
      saved, dictPos, blocks, mark := Saved(0, 0, 0), 0, [], 0;
    }

    lemma LiveAtStart()
      requires dic.Valid() && dic.input == [] && dic.pos == 0 && lz.Valid() && lz.recs == [] && saved == Saved(0, 0, 0)
      requires blocks == [] && dictPos == 0 && mark == dic.base == 0
      ensures Live()
    {
      hide Dict.Valid, Buffer.Valid;
      NothingYet();
    }

    /** The parts have nothing in common. */
    ghost predicate Shape() {
      && dic.dict != lz.codeBuf && dic.dict != w.buf && lz.codeBuf != w.buf
      && coder.Shape() && lz.litCount as object !in coder.Tables() && lz.distCount as object !in coder.Tables()
      && dic.next as object !in coder.Tables() + {lz.litCount, lz.distCount}
      && dic.hash as object !in coder.Tables() + {lz.litCount, lz.distCount}
    }

    /** The blocks sent and the records made stand for the input up to the lookahead. */
    ghost predicate Progress()
      reads this, dic, lz
    {
      && ValidStream(blocks) && NoneFinal(blocks)
      && dictPos == |StreamOut(blocks)| % WORD
      && Parsed(dic.input, dic.pos, saved, StreamOut(blocks), lz.recs)
      && (opts.rle || opts.forceRaw ==> saved.len == 0)
      && Separate() && dic.base <= |StreamOut(blocks)|
      && (opts.forceRaw ==> AllRaw(blocks) && TotalLen(lz.recs) <= RAW_LIMIT + 1)
    }

    /** What was sent since the last full flush. */
    ghost function Tail(): seq<Byte>
      reads this`mark, this`blocks
    {
      if mark <= |blocks| then StreamOut(blocks[mark..]) else []
    }

    /** Nothing since then goes back before it. */
    ghost predicate Separate()
      reads this, dic, lz
    {
      && Split(blocks, mark, dic.base) && ValidRecords(Tail(), lz.recs)
      && (saved.len != 0 ==> dic.base + saved.dist < dic.pos)
    }

    /** There is room for one more decision in the block. */
    ghost predicate Roomy()
      reads this, lz
    {
      !BlockFull(lz.codePos, lz.totalBytes, opts)
    }

    /** A match at the lookahead, or none. */
    ghost predicate Found(dist: nat, len: nat)
      reads dic
    {
      && (opts.forceRaw ==> dist == 0)
      && (dist != 0 ==>
        3 <= len <= 258 && len <= dic.lookaheadSize && dist <= LZ_DICT_SIZE && dic.base + dist <= dic.pos
        && Repeats(dic.input, dic.pos, dist, len))
    }

    /** The length that a match has to exceed. */
    ghost function ToBeat(): (n: nat)
      reads this
    {
      if saved.len != 0 then saved.len else MIN_MATCH_LEN - 1
    }

    /** What there is to choose: a run of the last byte, or what the search finds, as the options ask for. */
    ghost function Offer(): (nat, nat)
      requires Sound(dic.Hunting()) && (saved.len != 0 ==> saved.len >= 3)
      reads this, dic, dic.next
    {
      if opts.forceRaw || (opts.rle && dic.dictSize == 0) then (0, ToBeat())
      else if opts.rle then
        var n := RepeatLen(dic.input, dic.pos, 1, dic.lookaheadSize);
        if n < MIN_MATCH_LEN then (0, 0) else (1, n)
      else if ToBeat() >= dic.lookaheadSize then (0, ToBeat())
      else
        Search(dic.Hunting(), dic.pos % LZ_DICT_SIZE, 0, ToBeat(), MaxProbes(opts, ToBeat()) - 1, 0)
    }

    /** The reasons not to take a match: three bytes from too far; a distance that leads to the start of the ring; a
        short one, if those are filtered. */
    predicate Dropped(dist: nat, len: nat)
      reads dic
    {
      (len == MIN_MATCH_LEN && dist >= 8 * 1024) || dic.lookaheadPos % LZ_DICT_SIZE == dist || (opts.filter && len <= 5)
    }

    /** What is on offer is taken, unless it is dropped. */
    ghost predicate Choice(dist: nat, len: nat)
      requires Sound(dic.Hunting()) && (saved.len != 0 ==> saved.len >= 3)
      reads this, dic, dic.next
    {
      && (dist != 0 ==> (dist, len) == Offer())
      && (dist != 0 <==> Offer().0 != 0 && !Dropped(Offer().0, Offer().1))
    }

    /** The search for a match, in the way the options ask for, and the three reasons to drop what was found. */
    method ChooseMatch() returns (dist: nat, len: nat)
      requires dic.Valid() && dic.lookaheadSize >= 1 && (saved.len != 0 ==> 3 <= saved.len < 128)
      requires opts.rle || opts.forceRaw ==> saved.len == 0
      ensures Found(dist, len) && Sound(dic.Hunting()) && Choice(dist, len)
      ensures saved.len != 0 && len > saved.len ==> dist != 0
    {
      hide Repeats, Holds, Linked, Search, RepeatLen, Near;
      dic.Hunts();
      dist := 0;
      len := if saved.len != 0 then saved.len else MIN_MATCH_LEN - 1;
      var curPos := dic.lookaheadPos % LZ_DICT_SIZE;
      if opts.rle || opts.forceRaw {
        if dic.dictSize != 0 && !opts.forceRaw {
          len := dic.RunLength();
          LongestRepeat(dic.input, dic.pos, 1, dic.lookaheadSize, len);
          if len < MIN_MATCH_LEN {
            len := 0;
          } else {
            dist := 1;
          }
        }
      } else {
        dist, len := dic.FindMatch(dic.dictSize, dic.lookaheadSize, len, MaxProbes(opts, len));
      }
      if (len == MIN_MATCH_LEN && dist >= 8 * 1024) || curPos == dist || (opts.filter && len <= 5) {
        dist, len := 0, 0;
      }
    }

    /** The decision between the saved match and the current one: what is recorded, what is saved, and how far to
        move. */
    method Record(dist: nat, len: nat) returns (lenToMove: nat)
      requires dic.Valid() && lz.Valid() && Progress() && Found(dist, len) && dic.lookaheadSize >= 1
        && dic.dict != lz.codeBuf
      requires dic.next != lz.litCount && dic.next != lz.distCount && dic.hash != lz.litCount
        && dic.hash != lz.distCount
      requires saved.len != 0 && len > saved.len ==> dist != 0
      requires saved.len != 0 ==> saved.len <= dic.lookaheadSize + 1
      requires Roomy()
      modifies this`saved, lz, lz.codeBuf, lz.litCount, lz.distCount
      ensures lz.Valid() && 1 <= lenToMove <= dic.lookaheadSize
      ensures saved.len != 0 ==> saved.len <= dic.lookaheadSize - lenToMove + 1
      ensures Parsed(dic.input, dic.pos + lenToMove, saved, StreamOut(blocks), lz.recs)
      ensures opts.rle || opts.forceRaw ==> saved.len == 0
      ensures ValidRecords(Tail(), lz.recs) && (saved.len != 0 ==> dic.base + saved.dist < dic.pos + lenToMove)
      ensures opts.forceRaw ==> TotalLen(lz.recs) <= RAW_LIMIT + 1
      ensures dic.pos < |dic.input|
      ensures var d := Decide(old(saved), dic.input[dic.pos], dist, len, opts.greedy || opts.rle);
        lz.recs == old(lz.recs) + d.records && SameSaved(saved, d.saved) && lenToMove == d.move
    {
      hide Repeats, Holds, ExpandAll, ValidRecords, ValidStream, StreamOut, Buffer.Valid, NoneFinal, Linked, Split,
        Tail, TotalLen;
      lenToMove := 1;
      ghost var input, flushed, base, tail := dic.input, StreamOut(blocks), dic.base, Tail();
      TailLength();
      RoomLeft();
      if saved.len != 0 {
        if len > saved.len {
          PushLiteral(input, dic.pos - 1, flushed, tail, lz.recs);
          lz.RecordLiteral(saved.lit);
          if len >= 128 {
            PushMatch(input, dic.pos, dist, len, flushed, base, tail, lz.recs);
            lz.RecordMatch(len, dist);
            saved := saved.(len := 0);
            lenToMove := len;
          } else {
            var c := dic.Current();
            saved := Saved(c, dist, len);
          }
        } else {
          PushMatch(input, dic.pos - 1, saved.dist, saved.len, flushed, base, tail, lz.recs);
          lz.RecordMatch(saved.len, saved.dist);
          lenToMove := saved.len - 1;
          saved := saved.(len := 0);
        }
      } else if dist == 0 {
        PushLiteral(input, dic.pos, flushed, tail, lz.recs);
        var c := dic.Current();
        OneMore(lz.recs, c);
        lz.RecordLiteral(c);
      } else if opts.greedy || opts.rle || len >= 128 {
        PushMatch(input, dic.pos, dist, len, flushed, base, tail, lz.recs);
        lz.RecordMatch(len, dist);
        lenToMove := len;
      } else {
        var c := dic.Current();
        saved := Saved(c, dist, len);
      }
    }

    lemma RoomAgain()
      requires lz.Valid() && lz.recs == [] && lz.codePos == 1
      ensures Roomy() && TotalLen(lz.recs) == 0
    {
      hide Layout, Offset, LitHist, DistHist;
    }

    lemma RoomLeft()
      requires lz.Valid() && Roomy()
      ensures lz.codePos + 8 <= LZ_CODE_BUF_SIZE && (opts.forceRaw ==> TotalLen(lz.recs) <= RAW_LIMIT)
    {
      hide Layout, Offset, LitHist, DistHist, TotalLen;
    }

    lemma TailLength()
      requires Progress()
      ensures mark <= |blocks| && Split(blocks, mark, dic.base) && Tail() == StreamOut(blocks[mark..])
      ensures ValidRecords(StreamOut(blocks[mark..]), lz.recs) && |StreamOut(blocks)| == dic.base + |Tail()|
    {
      hide StreamOut, ValidStream, StreamBits, ValidRecords, TotalLen, AllRaw;
    }

    /** Between the steps of the parser. */
    ghost predicate Live()
      reads this, dic, dic.dict, dic.next, dic.hash, lz, lz.codeBuf, lz.litCount, lz.distCount
    {
      && dic.Valid() && lz.Valid() && Progress() && (saved.len != 0 ==> saved.len <= dic.lookaheadSize + 1)
    }

    /** Takes input until the lookahead is full. */
    method Refill(src: seq<Byte>, from: nat) returns (to: nat)
      requires Shape() && Live() && from <= |src|
      modifies dic`lookaheadSize, dic`dictSize, dic`input, dic.dict, dic.next, dic.hash
      ensures Live() && from <= to <= |src| && dic.input == old(dic.input) + src[from..to]
      ensures dic.lookaheadSize == old(dic.lookaheadSize) + to - from
        && (to == |src| || dic.lookaheadSize == MAX_MATCH_LEN) && dic.lookaheadSize <= MAX_MATCH_LEN
    {
      hide Dict.Valid, Buffer.Valid, Parsed, ValidStream, NoneFinal, StreamOut, Split, ValidRecords, TotalLen, AllRaw;
      ghost var input := dic.input;
      to := dic.Fill(src, from);
      MoreInput(input, src[from..to], dic.pos, saved, StreamOut(blocks), lz.recs);
    }

    /** One decision of the parser: unless a flush is going on, it waits until the lookahead is full. */
    method ParseOne(ghost flushing: bool) returns (ghost dist: nat, ghost len: nat)
      requires Shape() && Live() && dic.lookaheadSize >= 1 && Roomy()
      requires flushing || dic.lookaheadSize == MAX_MATCH_LEN
      modifies this`saved, dic, lz, lz.codeBuf, lz.litCount, lz.distCount
      ensures Live() && dic.input == old(dic.input) && dic.lookaheadSize < old(dic.lookaheadSize)
        && dic.base == old(dic.base)
      ensures Sound(old(dic.Hunting())) && old(saved.len != 0 ==> saved.len >= 3) && old(Choice(dist, len))
      ensures old(dic.pos) < |dic.input|
      ensures var d := Decide(old(saved), dic.input[old(dic.pos)], dist, len, opts.greedy || opts.rle);
        lz.recs == old(lz.recs) + d.records && SameSaved(saved, d.saved) && dic.pos == old(dic.pos) + d.move
    {
      hide Dict.Valid, Buffer.Valid, ValidStream, NoneFinal, StreamOut, ValidRecords, ExpandAll, Repeats, Decide,
        Choice, Split, Tail, TotalLen, AllRaw, Roomy, Dict.Hunting;
      var matchDist, matchLen := ChooseMatch();
      dist, len := matchDist, matchLen;
      var lenToMove := Record(matchDist, matchLen);
      dic.Move(lenToMove);
    }

    /** `(d->m_lookahead_pos - d->m_lz_code_buf_dict_pos) <= d->m_dict_size`: the whole block is still in the window. */
    method InWindow() returns (ok: bool)
      requires dic.Valid() && Progress() && AllInRange(lz.recs) && |lz.recs| < 65536
      ensures ok <==> dic.pos - |StreamOut(blocks)| <= dic.dictSize
    {
      hide Holds, Linked, Split, AllRaw, Tail, ExpandAll, StreamOut, ValidRecords, ValidStream, NoneFinal, TotalLen;
      TotalIsLength(StreamOut(blocks), lz.recs);
      TotalBound(lz.recs);
      Difference(dic.pos, |StreamOut(blocks)|, dic.lookaheadPos, dictPos);
      ok := (dic.lookaheadPos - dictPos) % WORD <= dic.dictSize;
    }

    /** The bytes of a stored block, taken from the window. */
    method PutBytes(total: nat, ghost start: nat)
      requires dic.dict != w.buf && dic.Valid() && w.Valid() && dictPos == start % WORD
      requires dic.pos - start <= dic.dictSize && start + total <= dic.pos
      modifies w, w.buf
      ensures w.Valid() && start + total <= |dic.input|
      ensures w.bits == old(w.bits) + ByteBits(dic.input[start..start + total])
    {
      hide Holds, Packed, ToBits, ByteBits;
      ghost var data := dic.input[start..start + total];
      ByteBitsNone();
      var i := 0;
      while i < total
        invariant 0 <= i <= total && w.Valid() && w.bits == old(w.bits) + ByteBits(data[..i])
      {
        DstSlot(start, dictPos, i);
        var c := dic.ByteAt(dictPos + i, start + i);
        PushByte(data, i);
        ByteFits(c);
        w.Put(c, 8);
        i := i + 1;
      }
      assert data[..i] == data;
    }

    /** A stored block: its type, the length and its complement, and the bytes. */
    method PutRaw(total: nat)
      requires dic.dict != w.buf && dic.Valid() && w.Valid() && dictPos == |StreamOut(blocks)| % WORD
      requires dic.pos - |StreamOut(blocks)| <= dic.dictSize && |StreamOut(blocks)| + total <= dic.pos
      modifies w, w.buf
      ensures w.Valid() && |StreamOut(blocks)| + total <= |dic.input| && total <= LZ_DICT_SIZE
      ensures var data := dic.input[|StreamOut(blocks)|..|StreamOut(blocks)| + total];
        w.bits == old(w.bits) + ToBits(0, 2) + PadBits(|old(w.bits)| + 2) + RawBits(data)
    {
      hide Holds, HoldsAt, Packed, StreamOut, ToBits, ByteBits, PadBits, Xor, Dict.Chains;
      Pow2Values();
      hide Pow2;
      w.Put(0, 2);
      w.Pad();
      XorOnes(total);
      w.Put(total, 16);
      w.Put(Xor(total, 0xFFFF), 16);
      PutBytes(total, |StreamOut(blocks)|);
    }

    /** The body of a block stands for the records, and its bits follow what was there. */
    ghost predicate Sent(before: seq<bool>, final: bool, body: Body, out: seq<Byte>)
      reads lz, w
    {
      && ValidBody(out, body) && BodyOut(out, body) == ExpandAll(out, lz.recs)
      && w.bits == before + BlockBits(Block(final, body), |before|, out)
      && |w.bits| + 60 < 8 * OUT_BUF_END
    }

    /** The records as the coder sends them. */
    method Encode(ghost before: seq<bool>, ghost final: bool, ghost out: seq<Byte>)
      returns (ok: bool, ghost coded: Body)
      requires Shape() && w.Valid() && coder.ToSend(lz) && ValidRecords(out, lz.recs)
      requires lz.litCount[..] == LitHist(lz.recs) && lz.distCount[..] == DistHist(lz.recs)
      requires Offset(lz.recs, |lz.recs|) <= LZ_CODE_BUF_SIZE && lz.totalBytes == TotalLen(lz.recs)
      requires w.bits == before + [final] && |before| < 8
      modifies w, w.buf, lz.litCount
      modifies coder.litSizes, coder.litCodes, coder.distSizes, coder.distCodes, coder.lenSizes, coder.lenCodes
      ensures w.Valid() && coder.ToSend(lz) && CodedAs(opts, lz.recs, coded, out)
      ensures w.bits == before + [final] + ToBits(Kind(coded), 2) + BodyBits(coded, |before| + 3, out)
      ensures Overflows(opts, lz.recs, coded, |before| + 1, out)
           || (ok && w.pos - old(w.pos) == BytesFilled(coded, |before| + 1, out))
    {
      hide ValidRecords, ToBits, TotalLen, Offset, LitHist, DistHist, Closed, CodeEnd, AllInRange, ValidBody, BodyBits,
        Thrifty, Shortest, Overflows, BytesFilled, CodedAs, Packed;
      ghost var start := w.pos;
      AtStart(|before|);
      ok, coded := coder.CompressBlock(w, lz, opts.forceStatic || lz.totalBytes < 48, out);
      IsCoded(coded, out);
      assert w.bits == before + [final] + ToBits(Kind(coded), 2) + BodyBits(coded, |before| + 3, out);
      Measure(coded, before, out, ok, start);
    }

    /** The block in its stored form. */
    method StoreBlock(final: bool, ghost before: seq<bool>) returns (ghost body: Body)
      requires dic.dict != w.buf && dic.Valid() && w.Valid() && Progress() && lz.totalBytes == TotalLen(lz.recs)
      requires w.bits == before + [final] && |before| < 8 && InWindowNow()
      modifies w, w.buf
      ensures w.Valid() && body.Raw? && Sent(before, final, body, StreamOut(blocks))
    {
      hide Holds, Packed, ExpandAll, StreamOut, ValidRecords, ValidStream, NoneFinal, ToBits, TotalLen, ValidBody,
        BodyBits, Sent, PadBits, RawBits, SavedValid, Linked;
      ghost var out := StreamOut(blocks);
      RawData(dic.input, dic.pos, saved, out, lz.recs);
      ParsedRecords();
      body := Raw(dic.input[|out|..|out| + lz.totalBytes]);
      PutRaw(lz.totalBytes);
      RawSent(before, final, body, out);
    }

    /** The choice between a compressed and a stored block.  A compressed block that is too long is taken back, and one
        that did not fit is made again with the static codes. */
    method PutBody(final: bool, ghost before: seq<bool>) returns (ghost body: Body, ghost coded: Body)
      requires Shape() && dic.Valid() && w.Valid() && Progress() && coder.ToSend(lz)
      requires lz.litCount[..] == LitHist(lz.recs) && lz.distCount[..] == DistHist(lz.recs)
      requires Offset(lz.recs, |lz.recs|) <= LZ_CODE_BUF_SIZE && lz.totalBytes == TotalLen(lz.recs)
      requires w.bits == before + [final] && |before| < 8
      modifies w, w.buf, lz.litCount
      modifies coder.litSizes, coder.litCodes, coder.distSizes, coder.distCodes, coder.lenSizes, coder.lenCodes
      ensures w.Valid() && Sent(before, final, body, StreamOut(blocks))
      ensures Overflows(opts, lz.recs, coded, |before| + 1, StreamOut(blocks))
           || Chosen(opts, InWindowNow(), lz.recs, body, coded, |before| + 1, StreamOut(blocks))
    {
      hide Holds, Packed, ExpandAll, StreamOut, ValidRecords, ValidStream, NoneFinal, ToBits, TotalLen, Offset, LitHist,
        DistHist, Closed, CodeEnd, AllInRange, ValidBody, BodyBits, Parsed, Thrifty, Sent, PadBits, RawBits, Shortest,
        Overflows, Chosen, CodedAs, BytesFilled, Dict.Valid;
      ghost var out, mark, wasBuf := StreamOut(blocks), w.bits, w.buf[..];
      var inWindow := InWindow();
      var useRaw := opts.forceRaw && inWindow;
      var savedPos, savedBuffer, savedIn := w.pos, w.bitBuffer, w.bitsIn;
      var ok := false;
      coded := Fixed([]);
      ParsedRecords();
      if !useRaw {
        ok, coded := Encode(before, final, out);
        CodedFacts(coded, out);
      }
      ghost var filled := w.pos - savedPos;
      if (useRaw || (lz.totalBytes != 0 && w.pos - savedPos + 1 >= lz.totalBytes)) && inWindow {
        w.Back(savedPos, savedBuffer, savedIn, mark, wasBuf);
        body := StoreBlock(final, before);
        RawChosen(useRaw, filled, body, coded, |before| + 1, out);
      } else if !ok {
        w.Back(savedPos, savedBuffer, savedIn, mark, wasBuf);
        ok, body := coder.CompressBlock(w, lz, true, out);
        assert w.bits == mark + ToBits(Kind(body), 2) + BodyBits(body, |before| + 3, out);
        CodedSent(before, final, body, out);
      } else {
        body := coded;
        CodedSent(before, final, body, out);
        CodedChosen(filled, coded, |before| + 1, out);
      }
    }

    /** The block to be sent is still in the window. */
    ghost predicate InWindowNow()
      reads this`blocks, dic
    {
      dic.pos - |StreamOut(blocks)| <= dic.dictSize
    }

    lemma IsCoded(coded: Body, out: seq<Byte>)
      requires !coded.Raw? && coded.recs == lz.recs && ValidBody(out, coded)
      requires if opts.forceStatic || TotalLen(lz.recs) < 48 then coded == Fixed(lz.recs)
        else coded.Dynamic? && Thrifty(coded.lit, coded.dst, lz.recs) && Shortest(coded)
      ensures CodedAs(opts, lz.recs, coded, out)
    {
      hide ValidBody, Thrifty, Shortest, TotalLen;
    }

    lemma AtStart(n: nat)
      requires w.Valid() && |w.bits| == n + 1 <= 8
      ensures w.pos == (n + 1) / 8
    {
      hide ByteBits, ToBits, Pow2;
    }

    lemma CodedFacts(coded: Body, out: seq<Byte>)
      requires CodedAs(opts, lz.recs, coded, out)
      ensures !coded.Raw? && coded.recs == lz.recs && ValidBody(out, coded)
      ensures coded.Dynamic? ==> Thrifty(coded.lit, coded.dst, lz.recs)
    {
      hide ValidBody, Thrifty, Shortest, TotalLen;
    }

    /** How far the writer has got says how many bytes were filled up. */
    lemma Measure(coded: Body, before: seq<bool>, out: seq<Byte>, ok: bool, start: nat)
      requires w.Valid() && |before| < 8 && CodedAs(opts, lz.recs, coded, out) && (ok <==> w.pos < OUT_BUF_END)
      requires |w.bits| == |before| + 3 + |BodyBits(coded, |before| + 3, out)|
      requires start == (|before| + 1) / 8
      ensures Overflows(opts, lz.recs, coded, |before| + 1, out)
           || (ok && w.pos - start == BytesFilled(coded, |before| + 1, out))
    {
      hide ByteBits, ToBits, Pow2, CodedAs, ValidBody, BodyBits;
    }

    lemma RawChosen(useRaw: bool, filled: int, body: Body, coded: Body, at: nat, out: seq<Byte>)
      requires body.Raw? && InWindowNow() && (useRaw <==> opts.forceRaw && InWindowNow())
      requires !useRaw ==>
        CodedAs(opts, lz.recs, coded, out)
        && (Overflows(opts, lz.recs, coded, at, out) || filled == BytesFilled(coded, at, out))
      requires useRaw || (TotalLen(lz.recs) != 0 && filled + 1 >= TotalLen(lz.recs))
      ensures Overflows(opts, lz.recs, coded, at, out) || Chosen(opts, InWindowNow(), lz.recs, body, coded, at, out)
    {
      hide CodedAs, ValidBody, BytesFilled, Overflows, TotalLen, StreamOut;
    }

    lemma CodedChosen(filled: int, coded: Body, at: nat, out: seq<Byte>)
      requires CodedAs(opts, lz.recs, coded, out)
      requires Overflows(opts, lz.recs, coded, at, out) || filled == BytesFilled(coded, at, out)
      requires !(opts.forceRaw && InWindowNow())
      requires InWindowNow() ==> TotalLen(lz.recs) == 0 || filled + 1 < TotalLen(lz.recs)
      ensures Overflows(opts, lz.recs, coded, at, out) || Chosen(opts, InWindowNow(), lz.recs, coded, coded, at, out)
    {
      CodedFacts(coded, out);
      hide CodedAs, ValidBody, BytesFilled, Overflows, TotalLen, StreamOut;
    }

    lemma ParsedRecords()
      requires Progress()
      ensures ValidRecords(StreamOut(blocks), lz.recs) && |StreamOut(blocks)| <= dic.pos
    {
      ExpandPrefix(StreamOut(blocks), lz.recs);
    }

    lemma RawSent(before: seq<bool>, final: bool, body: Body, out: seq<Byte>)
      requires body.Raw? && |body.data| <= LZ_DICT_SIZE && |before| < 8 && out + body.data == ExpandAll(out, lz.recs)
      requires w.bits == before + [final] + ToBits(0, 2) + PadBits(|before| + 3) + RawBits(body.data)
      ensures Sent(before, final, body, out)
    {
      hide ToBits, PadBits, RawBits, ExpandAll;
      assert BodyBits(body, |before| + 3, out) == PadBits(|before| + 3) + RawBits(body.data);
      assert w.bits == before + ([final] + ToBits(0, 2) + (PadBits(|before| + 3) + RawBits(body.data)));
      assert BlockBits(Block(final, body), |before|, out)
        == [final] + ToBits(0, 2) + (PadBits(|before| + 3) + RawBits(body.data));
    }

    lemma CodedSent(before: seq<bool>, final: bool, body: Body, out: seq<Byte>)
      requires !body.Raw? && body.recs == lz.recs && ValidBody(out, body) && |before| < 8
      requires Offset(lz.recs, |lz.recs|) <= LZ_CODE_BUF_SIZE && AllInRange(lz.recs)
      requires w.bits == before + [final] + ToBits(Kind(body), 2) + BodyBits(body, |before| + 3, out)
      requires body.Dynamic? ==> Thrifty(body.lit, body.dst, lz.recs)
      ensures Sent(before, final, body, out)
    {
      hide ToBits, LzBits, DynamicHeader, ValidHeader, AllCodeable, ValidRecords, ExpandAll, Offset, Thrifty;
      if body.Fixed? {
        StaticFits(lz.recs);
      } else {
        DynamicFits(out, body, |before| + 3);
      }
    }

    /** What follows the block at a flush: padding at the end of the stream, an empty stored block at a sync point. */
    method PutTrailer(flush: Flush)
      requires w.Valid()
      modifies w, w.buf
      ensures w.Valid() && w.bits == old(w.bits) + TrailerBits(flush, |old(w.bits)|)
    {
      hide Packed, ToBits, Pow2, PadBits, RawBits;
      if flush.Finish? {
        w.Pad();
      } else if !flush.NoFlush? {
        PutSync();
      }
    }

    /** An empty stored block that is not final. */
    method PutSync()
      requires w.Valid()
      modifies w, w.buf
      ensures w.Valid() && w.bits == old(w.bits) + ([false] + ToBits(0, 2) + PadBits(|old(w.bits)| + 3) + RawBits([]))
    {
      hide Packed, ToBits, Pow2, PadBits, RawBits;
      SyncValues();
      w.Put(0, 3);
      w.Pad();
      w.Put(0, 16);
      w.Put(0xFFFF, 16);
    }

    /** The output starts at the beginning of the buffer, the record buffer is closed, and the final-block bit is
        sent. */
    method OpenBlock(final: bool)
      requires Shape() && w.Valid() && lz.Valid()
      modifies w, w.buf, lz`codePos, lz.codeBuf
      ensures w.Valid() && coder.ToSend(lz) && w.bits == old(LeftOver(w)) + [final] && |old(LeftOver(w))| < 8
      ensures lz.litCount[..] == LitHist(lz.recs) && lz.distCount[..] == DistHist(lz.recs)
      ensures Offset(lz.recs, |lz.recs|) <= LZ_CODE_BUF_SIZE && lz.totalBytes == TotalLen(lz.recs)
    {
      hide Packed, TotalLen, Offset, LitHist, DistHist, Closed, Layout, CodeEnd, AllInRange;
      Pending(w);
      w.Start();
      BlockWriter.FewRecords(lz.recs);
      lz.Close();
      FinalBit(final);
      w.Put(if final then 1 else 0, 1);
    }

    /** The bits of a flush: the block and what follows it. */
    method SendBlock(flush: Flush) returns (ghost b: Block, ghost coded: Body)
      requires Shape() && dic.Valid() && w.Valid() && lz.Valid() && Progress()
      modifies w, w.buf, lz`codePos, lz.codeBuf, lz.litCount
      modifies coder.litSizes, coder.litCodes, coder.distSizes, coder.distCodes, coder.lenSizes, coder.lenCodes
      ensures w.Valid() && lz.totalBytes == TotalLen(lz.recs)
      ensures BodyOut(StreamOut(blocks), b.body) == ExpandAll(StreamOut(blocks), lz.recs)
      ensures Appends(old(LeftOver(w)), blocks, b, w.bits, flush)
      ensures Chosen(opts, InWindowNow(), lz.recs, b.body, coded, |old(LeftOver(w))| + 1, StreamOut(blocks))
    {
      hide Dict.Valid, Buffer.Valid, Writer.Valid, StreamOut, ValidStream, NoneFinal, Parsed, Sent, TrailerBits,
        Coder.ToSend, LitHist, DistHist, Offset, LeftOver, TotalLen, ExpandAll, Appends, Chosen, Overflows, AllInRange;
      ghost var before, was := LeftOver(w), blocks;
      SendsAll();
      OpenBlock(flush.Finish?);
      ghost var body;
      body, coded := PutBody(flush.Finish?, before);
      NoOverflow(opts, lz.recs, coded, |before| + 1, StreamOut(was));
      b := Block(flush.Finish?, body);
      ghost var bits := w.bits;
      SentFacts(before, flush.Finish?, body, StreamOut(was));
      PutTrailer(flush);
      AppendsBlock(before, was, b, bits, w.bits, flush);
    }

    /** Everything tdefl_flush_block does to the stream. */
    method EmitBlock(flush: Flush) returns (ghost b: Block, ghost coded: Body)
      requires Shape() && dic.Valid() && w.Valid() && lz.Valid() && Progress() && lz.Arrays()
      modifies this`blocks, this`dictPos, w, w.buf, lz, lz.codeBuf, lz.litCount, lz.distCount
      modifies coder.litSizes, coder.litCodes, coder.distSizes, coder.distCodes, coder.lenSizes, coder.lenCodes
      ensures w.Valid() && lz.Valid() && lz.recs == [] && lz.codePos == 1
      ensures dictPos == |StreamOut(blocks)| % WORD && Parsed(dic.input, dic.pos, saved, StreamOut(blocks), [])
      ensures Separate() && dic.base <= |StreamOut(blocks)| && (opts.forceRaw ==> AllRaw(blocks))
      ensures blocks == After(old(blocks), b, flush) && Appends(old(LeftOver(w)), old(blocks), b, w.bits, flush)
      ensures Chosen(opts, old(InWindowNow()), old(lz.recs), b.body, coded, |old(LeftOver(w))| + 1,
                     StreamOut(old(blocks)))
    {
      hide *;
      ShapeParts();
      ProgressParts();
      ghost var was, input, pos, s, recs := blocks, dic.input, dic.pos, saved, lz.recs;
      ghost var inWindow, before, at := InWindowNow(), LeftOver(w), |LeftOver(w)| + 1;
      if opts.forceRaw {
        RawInWindow();
      }
      TailLength();
      b, coded := SendBlock(flush);
      BlockDone(input, pos, s, was, recs, b, flush, dictPos);
      AppendsBody(before, was, b, w.bits, flush);
      ChosenApart(opts, inWindow, recs, b, coded, at, was, mark, dic.base, flush);
      NextBlock(After(was, b, flush));
    }

    /** The end of tdefl_flush_block's work on the stream: the records are part of what was sent. */
    method NextBlock(ghost sent: seq<Block>)
      requires lz.Arrays() && w.Valid() && lz.codeBuf != w.buf
      requires Parsed(dic.input, dic.pos, saved, StreamOut(sent), [])
      requires |StreamOut(sent)| % WORD == Add32(dictPos, lz.totalBytes)
      requires Split(sent, mark, dic.base) && (saved.len != 0 ==> dic.base + saved.dist < dic.pos)
      modifies this`blocks, this`dictPos, lz, lz.codeBuf, lz.litCount, lz.distCount
      ensures lz.Valid() && lz.recs == [] && lz.codePos == 1 && blocks == sent
      ensures dictPos == |StreamOut(blocks)| % WORD && Parsed(dic.input, dic.pos, saved, StreamOut(blocks), [])
      ensures Separate() && w.Valid()
    {
      hide Buffer.Valid, Packed, StreamOut, Parsed, Add32, Split, Tail;
      dictPos := Add32(dictPos, lz.totalBytes);
      blocks := sent;
      lz.Reset();
      NoRecords();
    }

    /** A block that is to be stored is always still in the window. */
    lemma RawInWindow()
      requires dic.Valid() && Progress() && opts.forceRaw
      ensures InWindowNow()
    {
      hide Holds, Linked, ExpandAll, StreamOut, ValidRecords, ValidStream, NoneFinal, TotalLen, Split, AllRaw;
      RawData(dic.input, dic.pos, saved, StreamOut(blocks), lz.recs);
    }

    /** After a full flush nothing before it is used again. */
    method Restart()
      requires Shape() && Live() && dic.lookaheadSize == 0 && lz.recs == [] && StreamOut(blocks) == dic.input
      requires |StreamBits(blocks)| % 8 == 0
      modifies this`mark, dic`dictSize, dic`base, dic.next, dic.hash
      ensures Live() && dic.base == |dic.input| && mark == |blocks| && Split(blocks, mark, dic.base)
    {
      hide Dict.Valid, Buffer.Valid, StreamOut, StreamBits, ValidStream, NoneFinal, ValidRecords, ExpandAll, Split,
        TotalLen, AllRaw;
      AtTheEnd();
      dic.Forget();
      mark := |blocks|;
      SplitHere(blocks);
      NoRecords();
    }

    lemma AtTheEnd()
      requires Live() && dic.lookaheadSize == 0
      ensures saved.len == 0 && dic.pos == |dic.input|
    {
      hide Holds, Linked, Buffer.Valid, StreamOut, ValidStream, NoneFinal, ValidRecords, ExpandAll, Split, AllRaw;
    }

    lemma ShapeParts()
      requires Shape()
      ensures lz.codeBuf != w.buf
    {
    }

    lemma ProgressParts()
      requires Progress()
      ensures dictPos == |StreamOut(blocks)| % WORD && Parsed(dic.input, dic.pos, saved, StreamOut(blocks), lz.recs)
      ensures saved.len != 0 ==> dic.base + saved.dist < dic.pos
      ensures opts.forceRaw ==> AllRaw(blocks)
    {
      hide StreamOut, ValidStream, Parsed, Split, ValidRecords, AllRaw;
    }

    lemma NoRecords()
      ensures ValidRecords(Tail(), [])
    {
    }

    lemma SendsAll()
      requires lz.Valid()
      ensures AllInRange(lz.recs) && Offset(lz.recs, |lz.recs|) <= LZ_CODE_BUF_SIZE
    {
      hide Offset, LitHist, DistHist, Layout;
    }

    lemma SentFacts(before: seq<bool>, final: bool, body: Body, out: seq<Byte>)
      requires Sent(before, final, body, out)
      ensures ValidBody(out, body) && BodyOut(out, body) == ExpandAll(out, lz.recs)
      ensures w.bits == before + BlockBits(Block(final, body), |before|, out)
      ensures |w.bits| + 60 < 8 * OUT_BUF_END
    {
    }
  }

  lemma Pending(w: Writer)
    requires w.Valid()
    ensures LeftOver(w) == w.bits[|w.bits| - w.bitsIn..] && |LeftOver(w)| < 8
  {
  }

  lemma AppendsBlock(before: seq<bool>, was: seq<Block>, b: Block, bits: seq<bool>, all: seq<bool>, flush: Flush)
    requires ValidStream(was) && ValidBody(StreamOut(was), b.body) && b.final == flush.Finish?
    requires bits == before + BlockBits(b, |before|, StreamOut(was)) && all == bits + TrailerBits(flush, |bits|)
    requires |bits| + 60 < 8 * OUT_BUF_END
    ensures Appends(before, was, b, all, flush)
  {
    hide ValidStream, ValidBody, BlockBits, PadBits, ToBits, RawBits;
    assert |TrailerBits(flush, |bits|)| <= 42;
  }

  /** A block that is not stored has the records themselves, so it does not go back before the last full flush
      either. */
  lemma ChosenApart(o: Options, inWindow: bool, recs: seq<Record>, b: Block, coded: Body, at: nat, was: seq<Block>,
    mark: nat, base: nat, flush: Flush)
    requires Chosen(o, inWindow, recs, b.body, coded, at, StreamOut(was)) && ValidStream(was)
    requires ValidBody(StreamOut(was), b.body) && mark <= |was| && Split(was, mark, base)
      && ValidRecords(StreamOut(was[mark..]), recs)
    requires o.forceRaw ==> inWindow && AllRaw(was)
    ensures Split(After(was, b, flush), mark, base) && (o.forceRaw ==> AllRaw(After(was, b, flush)))
    ensures base <= |StreamOut(After(was, b, flush))|
  {
    hide ValidStream, StreamOut, StreamBits, ValidBody, CodedAs, BytesFilled, TotalLen, ValidRecords, Split;
    if !(o.forceRaw && inWindow) {
      CodedRecords(o, recs, coded, StreamOut(was));
    }
    assert Apart(StreamOut(was[mark..]), b.body);
    StreamPush(was, b);
    SplitPush(was, mark, base, b);
    if flush.SyncFlush? || flush.FullFlush? {
      SyncApart(was + [b], mark, base);
    }
    SplitLength(After(was, b, flush), mark, base);
  }

  lemma CodedRecords(o: Options, recs: seq<Record>, coded: Body, out: seq<Byte>)
    requires CodedAs(o, recs, coded, out)
    ensures !coded.Raw? && coded.recs == recs
  {
    hide ValidBody, Thrifty, Shortest, TotalLen;
  }

  lemma SyncApart(blocks: seq<Block>, mark: nat, base: nat)
    requires ValidStream(blocks) && Split(blocks, mark, base)
    ensures Split(blocks + [Block(false, Raw([]))], mark, base)
  {
    hide ValidStream, StreamOut, StreamBits, Split;
    SplitPush(blocks, mark, base, Block(false, Raw([])));
  }

  lemma SplitLength(blocks: seq<Block>, mark: nat, base: nat)
    requires Split(blocks, mark, base)
    ensures mark <= |blocks| && ValidStream(blocks[..mark]) && ValidStream(blocks[mark..])
    ensures base <= |StreamOut(blocks)|
  {
    hide ValidStream, StreamOut, StreamBits;
  }

  lemma OneMore(recs: seq<Record>, c: Byte)
    ensures TotalLen(recs + [Literal(c)]) == TotalLen(recs) + 1
  {
    assert (recs + [Literal(c)])[..|recs|] == recs;
  }

  /** What a flush adds to the stream after the bits that were left over. */
  ghost predicate Appends(before: seq<bool>, was: seq<Block>, b: Block, bits: seq<bool>, flush: Flush) {
    && ValidStream(was) && ValidBody(StreamOut(was), b.body) && b.final == flush.Finish?
    && (var head := before + BlockBits(b, |before|, StreamOut(was)); bits == head + TrailerBits(flush, |head|))
    && |bits| < 8 * OUT_BUF_END
  }

  lemma AppendsBody(before: seq<bool>, was: seq<Block>, b: Block, bits: seq<bool>, flush: Flush)
    requires Appends(before, was, b, bits, flush)
    ensures ValidStream(was) && ValidBody(StreamOut(was), b.body)
  {
  }

  lemma FinalBit(final: bool)
    ensures ToBits(if final then 1 else 0, 1) == [final] && Pow2(1) == 2
  {
  }

  lemma SyncValues()
    ensures ToBits(0, 3) == [false] + ToBits(0, 2) && RawBits([]) == ToBits(0, 16) + ToBits(65535, 16)
    ensures 0xFFFF < Pow2(16) && 0 < Pow2(3)
  {
    Pow2Values();
  }

  lemma AfterOut(was: seq<Block>, b: Block, flush: Flush)
    ensures StreamOut(After(was, b, flush)) == BodyOut(StreamOut(was), b.body)
  {
    hide BodyOut;
    var one := was + [b];
    assert one[..|was|] == was;
    if flush.SyncFlush? || flush.FullFlush? {
      assert (one + [Block(false, Raw([]))])[..|one|] == one;
      EmptyRaw(StreamOut(one));
    }
  }

  lemma EmptyRaw(out: seq<Byte>)
    ensures BodyOut(out, Raw([])) == out
  {
  }

  /** After the block the records are part of what has been flushed. */
  lemma BlockDone(input: seq<Byte>, pos: nat, s: Saved, was: seq<Block>, recs: seq<Record>, b: Block, flush: Flush,
    dictPos: nat)
    requires Parsed(input, pos, s, StreamOut(was), recs)
      && BodyOut(StreamOut(was), b.body) == ExpandAll(StreamOut(was), recs)
    requires dictPos == |StreamOut(was)| % WORD
    ensures var out := StreamOut(After(was, b, flush));
      Parsed(input, pos, s, out, []) && |out| % WORD == Add32(dictPos, TotalLen(recs))
  {
    hide StreamOut, BodyOut, SavedValid, After, TotalLen;
    AfterOut(was, b, flush);
    TotalIsLength(StreamOut(was), recs);
    MovePos(|StreamOut(was)|, dictPos, TotalLen(recs));
  }

  /** The bits that do not fill a byte yet. */
  ghost function LeftOver(w: Writer): seq<bool>
    reads w
  {
    if w.bitsIn <= |w.bits| then w.bits[|w.bits| - w.bitsIn..] else []
  }

  ghost function TrailerBits(flush: Flush, at: nat): seq<bool> {
    match flush
    case NoFlush => []
    case Finish => PadBits(at)
    case _ => [false] + ToBits(0, 2) + PadBits(at + 3) + RawBits([])
  }

  /** A sync point is an empty stored block. */
  function After(blocks: seq<Block>, b: Block, flush: Flush): seq<Block> {
    if flush.SyncFlush? || flush.FullFlush? then blocks + [b] + [Block(false, Raw([]))] else blocks + [b]
  }

  lemma Difference(a: nat, b: nat, x: nat, y: nat)
    requires b <= a < b + WORD && x == a % WORD && y == b % WORD
    ensures (x - y) % WORD == a - b
  {
    var p, q := a / WORD, b / WORD;
    assert a == WORD * p + x && b == WORD * q + y;
    SameWord(a - b, x - y, q - p);
  }

  lemma ByteBitsNone()
    ensures ByteBits([]) == []
  {
  }

  lemma PushByte(data: seq<Byte>, i: nat)
    requires i < |data|
    ensures ByteBits(data[..i + 1]) == ByteBits(data[..i]) + ToBits(data[i], 8)
  {
    assert data[..i + 1] == data[..i] + [data[i]];
    ByteBitsConcat(data[..i], [data[i]]);
    assert ByteBits([data[i]]) == ToBits(data[i], 8) + ByteBits([]);
  }

  lemma ByteFits(c: Byte)
    ensures c < Pow2(8)
  {
    Pow2Values();
  }
}
