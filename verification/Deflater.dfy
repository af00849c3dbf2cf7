/** tdefl_compress and its output side: the input is parsed, blocks are flushed into m_output_buf, and what the caller's
    buffer cannot take stays pending for the next call. */
module Deflater {
  import opened Bits
  import opened InflateSpec
  import opened BlockSpec
  import opened MatchSearch
  import opened Dictionary
  import opened LzCodeBuffer
  import opened LzParse
  import opened BlockStream
  import opened Restart
  import opened BitWriter
  import opened Compressor

  /** The bits of all blocks, and of the padding behind the last one. */
  ghost function Emitted(blocks: seq<Block>, ended: bool): seq<bool>
    requires ValidStream(blocks)
  {
    if ended then StreamBits(blocks) + PadBits(|StreamBits(blocks)|) else StreamBits(blocks)
  }

  /** A block's bits depend on what precedes it only through the distance to the byte boundary. */
  lemma SameAlignment(b: Block, m: nat, n: nat, out: seq<Byte>)
    requires ValidBody(out, b.body) && m % 8 == n % 8
    ensures BlockBits(b, m, out) == BlockBits(b, n, out)
  {
    hide LzBits, DynamicHeader, ValidHeader, AllCodeable, ValidRecords, RawBits, ToBits;
    hide PadBits;
    SamePad(m + 3, n + 3);
  }

  lemma SamePad(m: nat, n: nat)
    requires m % 8 == n % 8
    ensures PadBits(m) == PadBits(n)
  {
  }

  /** The block itself, after any number of whole bytes. */
  lemma BlockAppends(sofar: seq<bool>, before: seq<bool>, was: seq<Block>, b: Block)
    requires ValidStream(was) && ValidBody(StreamOut(was), b.body) && |sofar| % 8 == 0
      && sofar + before == StreamBits(was)
    ensures ValidStream(was + [b])
    ensures sofar + (before + BlockBits(b, |before|, StreamOut(was))) == StreamBits(was + [b])
  {
    hide StreamBits, StreamOut, BlockBits, ValidStream, ValidBody;
    StreamPush(was, b);
    assert |StreamBits(was)| % 8 == |before| % 8;
    SameAlignment(b, |before|, |StreamBits(was)|, StreamOut(was));
  }

  lemma EmptyRawBlock(out: seq<Byte>, at: nat)
    ensures ValidBody(out, Raw([])) && BodyOut(out, Raw([])) == out
    ensures BlockBits(Block(false, Raw([])), at, out) == [false] + ToBits(0, 2) + PadBits(at + 3) + RawBits([])
  {
    hide ToBits, PadBits, RawBits;
  }

  /** The whole flush, after any number of whole bytes. */
  lemma FlushAppends(sofar: seq<bool>, before: seq<bool>, was: seq<Block>, b: Block, bits: seq<bool>, flush: Flush)
    requires Appends(before, was, b, bits, flush) && |sofar| % 8 == 0 && sofar + before == StreamBits(was)
    ensures ValidStream(After(was, b, flush))
    ensures sofar + bits == Emitted(After(was, b, flush), flush.Finish?)
  {
    hide StreamBits, StreamOut, BlockBits, ValidStream, ValidBody, PadBits, RawBits, ToBits;
    BlockAppends(sofar, before, was, b);
    var head := before + BlockBits(b, |before|, StreamOut(was));
    if flush.Finish? {
      SamePad(|head|, |sofar + head|);
      assert sofar + (head + PadBits(|head|)) == sofar + head + PadBits(|head|);
    } else if !flush.NoFlush? {
      EmptyRawBlock(StreamOut(was + [b]), |head|);
      BlockAppends(sofar, head, was + [b], Block(false, Raw([])));
    }
  }

  /** After a flush the stream is still well formed. */
  lemma FlushValid(before: seq<bool>, was: seq<Block>, b: Block, bits: seq<bool>, flush: Flush)
    requires Appends(before, was, b, bits, flush) && NoneFinal(was)
    ensures ValidStream(After(was, b, flush))
    ensures !flush.Finish? ==> NoneFinal(After(was, b, flush))
    ensures flush.Finish? ==> After(was, b, flush) == was + [b] && b.final
  {
    hide StreamBits, StreamOut, BlockBits, ValidStream, ValidBody, PadBits, RawBits, ToBits;
    StreamPush(was, b);
    if flush.SyncFlush? || flush.FullFlush? {
      EmptyRawBlock(StreamOut(was + [b]), 0);
      StreamPush(was + [b], Block(false, Raw([])));
    }
  }

  /** The bytes of the output buffer join those produced before. */
  lemma TakeBytes(produced: seq<Byte>, bits: seq<bool>, buf: seq<Byte>, pos: nat, bitBuffer: nat, bitsIn: nat)
    requires Packed(bits, buf, pos, bitBuffer, bitsIn) && pos < OUT_BUF_END
    ensures ByteBits(produced + buf[..pos]) + bits[|bits| - bitsIn..] == ByteBits(produced) + bits
  {
    hide ByteBits, ToBits;
    ByteBitsConcat(produced, buf[..pos]);
    assert 8 * pos == |bits| - bitsIn;
    assert bits == bits[..8 * pos] + bits[8 * pos..];
  }

  class Stream {
    const s: State
    var outBuf: seq<Byte>         // what this call has put into the caller's buffer
    var outRoom: nat              // m_pOut_buf_size
    var flushOfs: nat             // m_output_flush_ofs
    var flushRemaining: nat       // m_output_flush_remaining
    var status: Status            // m_prev_return_status
    var wantsToFinish: bool
    var finished: bool
    ghost var produced: seq<Byte>   // every byte that flushes have left in the output buffer
    ghost var delivered: seq<Byte>  // those that have reached the caller
    ghost var restart: nat          // how many were produced up to the last full flush

    /** The blocks are a stream of the input, complete when it has ended. */
    ghost predicate Content(ended: bool)
      reads this`restart, s, s.dic, s.dic.dict, s.dic.next, s.dic.hash, s.lz, s.lz.codeBuf, s.lz.litCount,
        s.lz.distCount
    {
      && s.Shape() && s.lz.Arrays() && ValidStream(s.blocks) && Restarts()
      && (s.opts.forceRaw ==> AllRaw(s.blocks))
      && (!ended ==> s.Live())
      && (ended ==> s.mark < |s.blocks| && s.blocks[|s.blocks| - 1].final && NoneFinal(s.blocks[..|s.blocks| - 1])
                    && StreamOut(s.blocks) == s.dic.input)
    }

    /** What was sent since the last full flush starts with a byte of its own. */
    ghost predicate Restarts()
      reads this`restart, s, s.dic
    {
      Split(s.blocks, s.mark, s.dic.base) && |StreamBits(s.blocks[..s.mark])| == 8 * restart
    }

    /** The bytes produced are the bits of the stream. */
    ghost predicate Output(ended: bool)
      reads this`produced, s`blocks, s.w, s.w.buf
    {
      && s.w.Valid() && ValidStream(s.blocks)
      && ByteBits(produced) + LeftOver(s.w) == Emitted(s.blocks, ended)
      && (ended ==> s.w.bitsIn == 0)
    }

    /** What was produced has been delivered or waits in the output buffer. */
    ghost predicate Waiting()
      reads this`produced, this`delivered, this`flushOfs, this`flushRemaining, s.w.buf
    {
      && flushOfs + flushRemaining <= s.w.buf.Length
      && produced == delivered + s.w.buf[flushOfs..flushOfs + flushRemaining]
    }

    ghost predicate Valid()
      reads this, s, s.dic, s.dic.dict, s.dic.next, s.dic.hash, s.lz, s.lz.codeBuf, s.lz.litCount, s.lz.distCount, s.w,
        s.w.buf
    {
      Content(finished) && Output(finished) && Waiting() && (!finished ==> s.Roomy())
    }

    constructor (o: Options)
      ensures fresh(s) && fresh(s.Parts())
      ensures Valid() && s.opts == o && s.dic.input == [] && delivered == [] && outBuf == [] && flushRemaining == 0
      ensures restart == s.dic.base == 0
      ensures !finished && !wantsToFinish && status == Okay
    {
      hide Dict.Valid, Buffer.Valid, Packed, State.Shape, State.Live, Buffer.Arrays, Restarts, AllRaw;
      s := new State(o);
      outBuf, outRoom, flushOfs, flushRemaining := [], 0, 0, 0;
      status, wantsToFinish, finished := Okay, false, false;
      produced, delivered, restart := [], [], 0;
      new;
      s.LiveAtStart();
      RestartsAtStart();
      s.RoomAgain();
    }

    lemma RestartsAtStart()
      requires s.blocks == [] && s.mark == s.dic.base == restart == 0
      ensures Restarts() && AllRaw(s.blocks)
    {
      hide Split, StreamBits;
      NothingYet();
    }

    /** The stream part of tdefl_flush_block. */
    method Emit(flush: Flush) returns (ghost b: Block)
      requires Content(false) && Output(false)
      requires flush.Finish? ==> s.dic.lookaheadSize == 0
      modifies this`produced
      modifies s`blocks, s`dictPos, s.w, s.w.buf, s.lz, s.lz.codeBuf, s.lz.litCount, s.lz.distCount
      modifies s.coder.litSizes, s.coder.litCodes, s.coder.distSizes, s.coder.distCodes, s.coder.lenSizes,
        s.coder.lenCodes
      ensures Content(flush.Finish?) && Output(flush.Finish?)
      ensures s.blocks == After(old(s.blocks), b, flush) && s.lz.recs == [] && s.Roomy()
      ensures s.w.pos <= s.w.buf.Length && produced == old(produced) + s.w.buf[..s.w.pos]
      ensures s.dic.lookaheadSize == 0 ==> StreamOut(s.blocks) == s.dic.input
      ensures !flush.NoFlush? ==> s.w.bitsIn == 0
    {
      hide Dict.Valid, Buffer.Valid, StreamOut, StreamBits, ValidStream, NoneFinal, Parsed, Appends, Emitted, After,
        LeftOver, ByteBits, Packed, Chosen, State.InWindowNow, Split, State.Tail, AllRaw;
      ghost var before, was, bytes := LeftOver(s.w), s.blocks, produced;
      EmittedOpen(was);
      SplitLength(was, s.mark, s.dic.base);
      ghost var coded;
      b, coded := s.EmitBlock(flush);
      FlushValid(before, was, b, s.w.bits, flush);
      WriterFacts(s.w, b, before, was, flush);
      if s.dic.lookaheadSize == 0 {
        DictEnd(s.dic);
        EndOfInput(s.dic.input, s.dic.pos, s.saved, StreamOut(s.blocks));
      }
      SamePrefix(was, b, flush, s.mark);
      s.RoomAgain();
      FlushAppends(ByteBits(bytes), before, was, b, s.w.bits, flush);
      TakeBytes(bytes, s.w.bits, s.w.buf[..], s.w.pos, s.w.bitBuffer, s.w.bitsIn);
      produced := produced + s.w.buf[..s.w.pos];
    }

    /** What the caller's buffer can take goes there, the rest waits. */
    method HandOut(size: nat) returns (ghost more: seq<Byte>)
      requires size <= s.w.buf.Length && |outBuf| <= outRoom && produced == delivered + s.w.buf[..size]
      modifies this`delivered, this`outBuf, this`flushOfs, this`flushRemaining
      ensures Waiting() && |outBuf| <= outRoom && outBuf == old(outBuf) + more && delivered == old(delivered) + more
      ensures flushRemaining != 0 ==> |outBuf| == outRoom
    {
      var bytesToCopy := Min(size, outRoom - |outBuf|);
      more := s.w.buf[..bytesToCopy];
      outBuf, delivered := outBuf + s.w.buf[..bytesToCopy], delivered + more;
      flushOfs, flushRemaining := bytesToCopy, size - bytesToCopy;
    }

    lemma AllDelivered()
      requires Waiting() && flushRemaining == 0
      ensures produced == delivered
    {
    }

    /** tdefl_flush_block */
    method FlushBlock(flush: Flush) returns (n: nat, ghost b: Block, ghost more: seq<Byte>)
      requires Content(false) && Output(false) && Waiting() && flushRemaining == 0 && |outBuf| <= outRoom
      requires flush.Finish? ==> s.dic.lookaheadSize == 0
      modifies this`produced, this`delivered, this`outBuf, this`flushOfs, this`flushRemaining
      modifies s`blocks, s`dictPos, s.w, s.w.buf, s.lz, s.lz.codeBuf, s.lz.litCount, s.lz.distCount
      modifies s.coder.litSizes, s.coder.litCodes, s.coder.distSizes, s.coder.distCodes, s.coder.lenSizes,
        s.coder.lenCodes
      ensures Content(flush.Finish?) && Output(flush.Finish?) && Waiting() && n == flushRemaining
      ensures |outBuf| <= outRoom && outBuf == old(outBuf) + more && delivered == old(delivered) + more
      ensures s.blocks == After(old(s.blocks), b, flush) && s.lz.recs == [] && s.Roomy()
      ensures flushRemaining != 0 ==> |outBuf| == outRoom
      ensures s.dic.lookaheadSize == 0 ==> StreamOut(s.blocks) == s.dic.input
      ensures !flush.NoFlush? ==> s.w.bitsIn == 0
    {
      hide *;
      AllDelivered();
      b := Emit(flush);
      more := HandOut(s.w.pos);
      n := flushRemaining;
    }

    /** One round of the loop of tdefl_compress_normal. */
    method Step(src: seq<Byte>, from: nat, flush: Flush) returns (to: nat, stop: bool, ghost more: seq<Byte>)
      requires Content(false) && Output(false) && Waiting() && flushRemaining == 0 && |outBuf| <= outRoom
      requires s.Roomy() && from <= |src|
      requires from < |src| || s.dic.lookaheadSize > 0
      modifies this`produced, this`delivered, this`outBuf, this`flushOfs, this`flushRemaining
      modifies s, s.dic, s.dic.dict, s.dic.next, s.dic.hash, s.w, s.w.buf, s.lz, s.lz.codeBuf, s.lz.litCount,
        s.lz.distCount
      modifies s.coder.litSizes, s.coder.litCodes, s.coder.distSizes, s.coder.distCodes, s.coder.lenSizes,
        s.coder.lenCodes
      ensures Content(false) && Output(false) && Waiting() && s.Roomy()
      ensures from <= to <= |src| && s.dic.input == old(s.dic.input) + src[from..to]
      ensures |outBuf| <= outRoom && outBuf == old(outBuf) + more && delivered == old(delivered) + more
      ensures flushRemaining != 0 ==> |outBuf| == outRoom
      ensures s.dic.lookaheadSize + |src| - to <= old(s.dic.lookaheadSize) + |src| - from
      ensures !stop || flushRemaining != 0 ==>
        s.dic.lookaheadSize + |src| - to < old(s.dic.lookaheadSize) + |src| - from
      ensures !stop ==> flushRemaining == 0
      ensures stop && flushRemaining == 0 ==> to == |src| && flush.NoFlush?
      ensures s.dic.base == old(s.dic.base)
    {
      hide Dict.Valid, Buffer.Valid, State.Live, Output, Waiting, ValidStream, StreamOut, NoneFinal;
      more := [];
      to := s.Refill(src, from);
      if flush.NoFlush? && s.dic.lookaheadSize < MAX_MATCH_LEN {
        return to, true, [];
      }
      ghost var dist, len;
      dist, len := s.ParseOne(!flush.NoFlush?);
      stop := false;
      if BlockFull(s.lz.codePos, s.lz.totalBytes, s.opts) {
        var n;
        ghost var b;
        n, b, more := FlushBlock(NoFlush);
        stop := n != 0;
      }
    }

    /** tdefl_compress_normal */
    method CompressNormal(src: seq<Byte>, flush: Flush) returns (used: nat, ghost more: seq<Byte>)
      requires Content(false) && Output(false) && Waiting() && flushRemaining == 0 && |outBuf| <= outRoom
      requires s.Roomy()
      modifies this`produced, this`delivered, this`outBuf, this`flushOfs, this`flushRemaining
      modifies s, s.dic, s.dic.dict, s.dic.next, s.dic.hash, s.w, s.w.buf, s.lz, s.lz.codeBuf, s.lz.litCount,
        s.lz.distCount
      modifies s.coder.litSizes, s.coder.litCodes, s.coder.distSizes, s.coder.distCodes, s.coder.lenSizes,
        s.coder.lenCodes
      ensures Content(false) && Output(false) && Waiting() && s.Roomy()
      ensures used <= |src| && s.dic.input == old(s.dic.input) + src[..used]
      ensures |outBuf| <= outRoom && outBuf == old(outBuf) + more && delivered == old(delivered) + more
      ensures flushRemaining != 0 ==> |outBuf| == outRoom
      ensures s.dic.lookaheadSize + |src| - used <= old(s.dic.lookaheadSize) + |src|
      ensures flushRemaining != 0 ==> s.dic.lookaheadSize + |src| - used < old(s.dic.lookaheadSize) + |src|
      ensures flushRemaining == 0 ==> used == |src| && (flush.NoFlush? || s.dic.lookaheadSize == 0)
      ensures s.dic.base == old(s.dic.base)
    {
      hide *;
      used, more := 0, [];
      var stop := false;
      while !stop && (used < |src| || (!flush.NoFlush? && s.dic.lookaheadSize != 0))
        invariant Content(false) && Output(false) && Waiting() && s.Roomy()
        invariant used <= |src| && s.dic.input == old(s.dic.input) + src[..used]
        invariant |outBuf| <= outRoom && outBuf == old(outBuf) + more && delivered == old(delivered) + more
        invariant !stop ==> flushRemaining == 0
        invariant s.dic.lookaheadSize + |src| - used <= old(s.dic.lookaheadSize) + |src|
        invariant flushRemaining != 0 ==> s.dic.lookaheadSize + |src| - used < old(s.dic.lookaheadSize) + |src|
        invariant flushRemaining != 0 ==> |outBuf| == outRoom
        invariant stop && flushRemaining == 0 ==> used == |src| && flush.NoFlush?
        invariant s.dic.base == old(s.dic.base)
        decreases !stop, s.dic.lookaheadSize + |src| - used
      {
        ghost var part;
        ghost var was := used;
        used, stop, part := Step(src, used, flush);
        assert src[..was] + src[was..used] == src[..used];
        more := more + part;
      }
    }

    /** tdefl_flush_output_buffer */
    method FlushOutputBuffer() returns (r: Status, ghost more: seq<Byte>)
      requires Waiting() && |outBuf| <= outRoom
      modifies this`outBuf, this`delivered, this`flushOfs, this`flushRemaining
      ensures Waiting() && |outBuf| <= outRoom && outBuf == old(outBuf) + more && delivered == old(delivered) + more
      ensures r == if finished && flushRemaining == 0 then Done else Okay
      ensures |old(outBuf)| == outRoom ==> flushRemaining == old(flushRemaining)
      ensures flushRemaining != 0 ==> |outBuf| == outRoom
      ensures flushRemaining == old(flushRemaining) - |more|
        && |more| == Min(outRoom - |old(outBuf)|, old(flushRemaining))
    {
      var n := Min(outRoom - |outBuf|, flushRemaining);
      more := s.w.buf[flushOfs..flushOfs + n];
      outBuf, delivered := outBuf + s.w.buf[flushOfs..flushOfs + n], delivered + more;
      flushOfs, flushRemaining := flushOfs + n, flushRemaining - n;
      r := if finished && flushRemaining == 0 then Done else Okay;
    }

    /** Everything taken from the caller is in the blocks sent, and they end at a byte boundary. */
    ghost predicate Synced()
      reads s`blocks, s.dic`input, s.w`bitsIn
    {
      StreamOut(s.blocks) == s.dic.input && s.w.bitsIn == 0
    }

    /** The same, and their bytes are delivered. */
    ghost predicate Flushed()
      reads s`blocks, s.dic`input, s.w`bitsIn, this`delivered, this`produced
    {
      Synced() && delivered == produced
    }

    lemma Boundary()
      requires Output(false) && s.w.bitsIn == 0
      ensures |StreamBits(s.blocks)| == 8 * |produced|
    {
      hide StreamBits, ValidStream, Packed, ByteBits;
    }

    /** The last full flush was here. */
    ghost predicate RestartsHere()
      reads this`restart, this`produced, s.dic
    {
      s.dic.base == |s.dic.input| && restart == |produced|
    }

    /** The end of tdefl_compress: when the input is used up, the block that was asked for. */
    method Complete(flush: Flush) returns (ghost more: seq<Byte>)
      requires !finished && !flush.NoFlush? && s.dic.lookaheadSize == 0 && flushRemaining == 0 && |outBuf| <= outRoom
      requires Content(false) && Output(false) && Waiting()
      modifies this`finished, this`produced, this`delivered, this`outBuf, this`flushOfs, this`flushRemaining,
        this`restart
      modifies s`blocks, s`dictPos, s`mark, s.dic`dictSize, s.dic`base, s.dic.next, s.dic.hash, s.w, s.w.buf, s.lz,
        s.lz.codeBuf, s.lz.litCount, s.lz.distCount
      modifies s.coder.litSizes, s.coder.litCodes, s.coder.distSizes, s.coder.distCodes, s.coder.lenSizes,
        s.coder.lenCodes
      ensures Valid() && finished == flush.Finish? && StreamOut(s.blocks) == s.dic.input && s.w.bitsIn == 0
      ensures Synced()
      ensures if flush.FullFlush? then RestartsHere() else s.dic.base == old(s.dic.base) && restart == old(restart)
      ensures |outBuf| <= outRoom && outBuf == old(outBuf) + more && delivered == old(delivered) + more
      ensures flushRemaining != 0 ==> |outBuf| == outRoom
    {
      hide *;
      var n;
      ghost var b;
      n, b, more := FlushBlock(flush);
      finished := flush.Finish?;
      IsSynced();
      if flush.FullFlush? {
        StartAfresh();
      }
      PartsValid();
    }

    lemma IsSynced()
      requires StreamOut(s.blocks) == s.dic.input && s.w.bitsIn == 0
      ensures Synced()
    {
    }

    /** TDEFL_FULL_FLUSH: the dictionary is forgotten. */
    method StartAfresh()
      requires Content(false) && Output(false) && Waiting() && s.Roomy() && Synced() && s.lz.recs == []
        && s.dic.lookaheadSize == 0
      modifies this`restart, s`mark, s.dic`dictSize, s.dic`base, s.dic.next, s.dic.hash
      ensures Content(false) && Output(false) && Waiting() && s.Roomy() && Synced() && RestartsHere()
        && StreamOut(s.blocks) == s.dic.input && s.w.bitsIn == 0
    {
      hide Dict.Valid, Buffer.Valid, Writer.Valid, ValidStream, StreamOut, StreamBits, NoneFinal, Emitted, LeftOver,
        ByteBits, Parsed, Split, AllRaw, State.Live;
      Boundary();
      s.Restart();
      restart := |produced|;
      Whole(s.blocks, s.mark);
    }

    /** The part of tdefl_compress that consumes input. */
    method Run(src: seq<Byte>, flush: Flush) returns (used: nat, ghost more: seq<Byte>)
      requires Content(false) && Output(false) && Waiting() && flushRemaining == 0 && |outBuf| <= outRoom && !finished
      requires s.Roomy()
      modifies this`restart, this`finished, this`produced, this`delivered, this`outBuf, this`flushOfs,
        this`flushRemaining
      modifies s, s.dic, s.dic.dict, s.dic.next, s.dic.hash, s.w, s.w.buf, s.lz, s.lz.codeBuf, s.lz.litCount,
        s.lz.distCount
      modifies s.coder.litSizes, s.coder.litCodes, s.coder.distSizes, s.coder.distCodes, s.coder.lenSizes,
        s.coder.lenCodes
      ensures Content(finished) && Output(finished) && Waiting() && (!finished ==> s.Roomy())
      ensures used <= |src| && s.dic.input == old(s.dic.input) + src[..used] && (flushRemaining == 0 ==> used == |src|)
      ensures |outBuf| <= outRoom && outBuf == old(outBuf) + more && delivered == old(delivered) + more
      ensures flushRemaining != 0 ==> |outBuf| == outRoom
      ensures flushRemaining == 0 && !flush.NoFlush? ==> Synced()
      ensures flushRemaining == 0 && flush.FullFlush? ==> RestartsHere()
      ensures (flush.FullFlush? && RestartsHere()) || (s.dic.base == old(s.dic.base) && restart == old(restart))
      ensures s.dic.lookaheadSize + |src| - used <= old(s.dic.lookaheadSize) + |src|
      ensures flushRemaining != 0 ==>
        s.dic.lookaheadSize + |src| - used < old(s.dic.lookaheadSize) + |src| || (!flush.NoFlush? && Synced())
      ensures flush.Finish? ==> finished || s.dic.lookaheadSize + |src| - used < old(s.dic.lookaheadSize) + |src|
      ensures (finished ==> flush.Finish? && used == |src|) && (flushRemaining == 0 && flush.Finish? ==> finished)
    {
      hide *;
      used, more := CompressNormal(src, flush);
      if !flush.NoFlush? && s.dic.lookaheadSize == 0 && used == |src| && flushRemaining == 0 {
        ghost var last := Complete(flush);
        more := more + last;
        ValidParts();
      }
    }

    method Begin(room: nat, flush: Flush)
      requires Content(finished) && Output(finished) && Waiting()
      modifies this`outRoom, this`wantsToFinish
      ensures Content(finished) && Output(finished) && Waiting() && outRoom == room
      ensures wantsToFinish == (old(wantsToFinish) || flush.Finish?)
    {
      hide *;
      outRoom, wantsToFinish := room, wantsToFinish || flush.Finish?;
    }

    /** A call that is not refused. */
    method Proceed(src: seq<Byte>, room: nat, flush: Flush) returns (r: Status, used: nat)
      requires Content(finished) && Output(finished) && Waiting()
        && (!finished ==> s.Roomy())
      requires outBuf == []
      modifies this`outRoom, this`wantsToFinish
      modifies this`restart, this`finished, this`produced, this`delivered, this`outBuf, this`flushOfs,
        this`flushRemaining
      modifies s, s.dic, s.dic.dict, s.dic.next, s.dic.hash, s.w, s.w.buf, s.lz, s.lz.codeBuf, s.lz.litCount,
        s.lz.distCount
      modifies s.coder.litSizes, s.coder.litCodes, s.coder.distSizes, s.coder.distCodes, s.coder.lenSizes,
        s.coder.lenCodes
      ensures Content(finished) && Output(finished) && Waiting() && (!finished ==> s.Roomy())
      ensures used <= |src| && s.dic.input == old(s.dic.input) + src[..used]
      ensures |outBuf| <= room && delivered == old(delivered) + outBuf
      ensures r == if finished && flushRemaining == 0 then Done else Okay
      ensures flushRemaining == 0 && old(!finished && flushRemaining == 0)
        ==> used == |src| && (flush.NoFlush? || Flushed())
      ensures flushRemaining != 0 ==> |outBuf| == room
      ensures old(finished || flushRemaining != 0) ==>
        used == 0 && s.dic.lookaheadSize == old(s.dic.lookaheadSize) && finished == old(finished)
        && flushRemaining == old(flushRemaining) - |outBuf| && |outBuf| == Min(room, old(flushRemaining))
        && (old(Synced()) ==> Synced())
      ensures s.dic.lookaheadSize + |src| - used <= old(s.dic.lookaheadSize) + |src|
      ensures old(!finished && flushRemaining == 0) && flushRemaining != 0 ==>
        s.dic.lookaheadSize + |src| - used < old(s.dic.lookaheadSize) + |src| || (!flush.NoFlush? && Synced())
      ensures old(!finished && flushRemaining == 0) && flush.Finish? ==>
        finished || s.dic.lookaheadSize + |src| - used < old(s.dic.lookaheadSize) + |src|
      ensures flushRemaining == 0 && Synced() ==> Flushed()
      ensures flushRemaining == 0 && flush.FullFlush? && old(!finished && flushRemaining == 0) ==> RestartsHere()
      ensures (flush.FullFlush? && RestartsHere()) || (s.dic.base == old(s.dic.base) && restart == old(restart))
      ensures wantsToFinish == (old(wantsToFinish) || flush.Finish?)
      ensures finished ==> old(finished) || (flush.Finish? && (old(flushRemaining == 0) ==> used == |src|))
      ensures flushRemaining == 0 && old(!finished && flushRemaining == 0) && flush.Finish? ==> finished
    {
      hide *;
      ghost var more;
      used := 0;
      Begin(room, flush);
      if flushRemaining == 0 && !finished {
        used, more := Run(src, flush);
      }
      r, more := FlushOutputBuffer();
      if Synced() && flushRemaining == 0 {
        WhenFlushed();
      }
    }

    /** tdefl_compress, with an output buffer of `room` bytes. */
    method Compress(src: seq<Byte>, room: nat, flush: Flush) returns (r: Status, used: nat)
      requires Valid()
      modifies this`outRoom, this`status, this`wantsToFinish
      modifies this`restart, this`finished, this`produced, this`delivered, this`outBuf, this`flushOfs,
        this`flushRemaining
      modifies s, s.dic, s.dic.dict, s.dic.next, s.dic.hash, s.w, s.w.buf, s.lz, s.lz.codeBuf, s.lz.litCount,
        s.lz.distCount
      modifies s.coder.litSizes, s.coder.litCodes, s.coder.distSizes, s.coder.distCodes, s.coder.lenSizes,
        s.coder.lenCodes
      ensures Valid() && r == status
      ensures used <= |src| && s.dic.input == old(s.dic.input) + src[..used]
      ensures |outBuf| <= room && delivered == old(delivered) + outBuf
      ensures r.BadParam? == old(!status.Okay? || (wantsToFinish && !flush.Finish?))
      ensures r.BadParam? ==> used == 0 && outBuf == []
      ensures !r.BadParam? ==> (r.Done? <==> finished && flushRemaining == 0)
      ensures !r.BadParam? && flushRemaining == 0 && old(!finished && flushRemaining == 0) && flush.Finish? ==> r.Done?
      ensures finished ==> old(finished) || (flush.Finish? && (old(flushRemaining == 0) ==> used == |src|))
      ensures r.BadParam? ==> finished == old(finished) && flushRemaining == old(flushRemaining)
      ensures !r.BadParam? && flushRemaining == 0 && old(!finished && flushRemaining == 0)
              ==> used == |src| && (flush.NoFlush? || Flushed())
      ensures !r.BadParam? && flushRemaining != 0 ==> |outBuf| == room
      ensures !r.BadParam? && old(finished || flushRemaining != 0) ==>
        used == 0 && s.dic.lookaheadSize == old(s.dic.lookaheadSize) && finished == old(finished)
        && flushRemaining == old(flushRemaining) - |outBuf| && |outBuf| == Min(room, old(flushRemaining))
        && (old(Synced()) ==> Synced())
      ensures s.dic.lookaheadSize + |src| - used <= old(s.dic.lookaheadSize) + |src|
      ensures !r.BadParam? && old(!finished && flushRemaining == 0) && flushRemaining != 0 ==>
        s.dic.lookaheadSize + |src| - used < old(s.dic.lookaheadSize) + |src| || (!flush.NoFlush? && Synced())
      ensures !r.BadParam? && old(!finished && flushRemaining == 0) && flush.Finish? ==>
        finished || s.dic.lookaheadSize + |src| - used < old(s.dic.lookaheadSize) + |src|
      ensures !r.BadParam? && flushRemaining == 0 && Synced() ==> Flushed()
      ensures !r.BadParam? && flushRemaining == 0 && flush.FullFlush? && old(!finished && flushRemaining == 0) ==>
        RestartsHere()
      ensures (flush.FullFlush? && RestartsHere()) || (s.dic.base == old(s.dic.base) && restart == old(restart))
      ensures !r.BadParam? ==> wantsToFinish == (old(wantsToFinish) || flush.Finish?)
    {
      hide *;
      ValidParts();
      outBuf, used := [], 0;
      if !status.Okay? || (wantsToFinish && !flush.Finish?) {
        r := BadParam;
      } else {
        r, used := Proceed(src, room, flush);
      }
      status := r;
      PartsValid();
    }

    lemma WhenFlushed()
      requires Synced() && Waiting() && flushRemaining == 0
      ensures Flushed()
    {
    }

    lemma PartsValid()
      requires Content(finished) && Output(finished) && Waiting()
        && (!finished ==> s.Roomy())
      ensures Valid()
    {
    }

    lemma ValidParts()
      requires Valid()
      ensures Content(finished) && Output(finished) && Waiting() && (!finished ==> s.Roomy())
    {
    }
  }

  lemma DictEnd(dic: Dict)
    requires dic.Valid()
    ensures |dic.input| == dic.pos + dic.lookaheadSize
  {
  }

  /** With nothing in the lookahead nothing is saved either, and the blocks are the whole input. */
  lemma EndOfInput(input: seq<Byte>, pos: nat, saved: Saved, out: seq<Byte>)
    requires Parsed(input, pos, saved, out, []) && pos == |input| && (saved.len != 0 ==> saved.len <= 1)
    ensures out == input
  {
  }

  lemma Whole(blocks: seq<Block>, mark: nat)
    requires mark == |blocks|
    ensures blocks[..mark] == blocks
  {
  }

  lemma SamePrefix(was: seq<Block>, b: Block, flush: Flush, mark: nat)
    requires mark <= |was|
    ensures mark < |After(was, b, flush)| && After(was, b, flush)[..mark] == was[..mark]
  {
  }

  lemma EmittedOpen(blocks: seq<Block>)
    requires ValidStream(blocks)
    ensures Emitted(blocks, false) == StreamBits(blocks)
  {
  }

  /** No flush reaches the end of the output buffer, so no byte is dropped. */
  lemma WriterFacts(w: Writer, b: Block, before: seq<bool>, was: seq<Block>, flush: Flush)
    requires w.Valid() && Appends(before, was, b, w.bits, flush)
    ensures w.pos < OUT_BUF_END && w.buf.Length == OUT_BUF_SIZE
    ensures Packed(w.bits, w.buf[..], w.pos, w.bitBuffer, w.bitsIn) && |LeftOver(w)| < 8
    ensures w.bitsIn <= |w.bits| && LeftOver(w) == w.bits[|w.bits| - w.bitsIn..]
    ensures !flush.NoFlush? ==> w.bitsIn == 0
  {
    hide ValidStream, ValidBody, BlockBits, ByteBits, ToBits, PadBits, RawBits;
    var head := before + BlockBits(b, |before|, StreamOut(was));
    TrailerAligns(flush, |head|);
    hide TrailerBits;
  }

  /** A flush other than the end of a block ends at a byte boundary. */
  lemma TrailerAligns(flush: Flush, at: nat)
    ensures !flush.NoFlush? ==> (at + |TrailerBits(flush, at)|) % 8 == 0
  {
    hide PadBits, RawBits, ToBits;
  }

  // ----- what the decompressor makes of it -----

  /** When the compressor is done, what it delivered over all calls decompresses to what it took over all calls, and not
      a byte is left over. */
  lemma RoundTrip(w: Window, d: Stream)
    requires FullWindow(w) && d.Valid() && d.finished && d.flushRemaining == 0
    ensures Inflate(w, ByteBits(d.delivered)) == Ended(d.s.dic.input, [])
  {
    hide ByteBits, StreamBits, PadBits, Inflate, ValidStream, NoneFinal, StreamOut;
    StreamRoundTrip(w, d.s.blocks, []);
    assert LeftOver(d.s.w) == [] && d.produced == d.delivered;
    assert StreamBits(d.s.blocks) + PadBits(|StreamBits(d.s.blocks)|) + [] == ByteBits(d.delivered);
  }

  lemma LiveBlocks(s: State)
    ensures s.Live() ==> ValidStream(s.blocks) && NoneFinal(s.blocks)
  {
    hide Dict.Valid, Buffer.Valid, Parsed;
  }

  /** What was delivered since the last full flush decompresses alone, to what was taken since then. */
  lemma FullFlushPoint(w: Window, d: Stream)
    requires FullWindow(w) && d.Valid() && d.finished && d.flushRemaining == 0
    ensures d.restart <= |d.delivered| && d.s.dic.base <= |d.s.dic.input|
    ensures Inflate(w, ByteBits(d.delivered[d.restart..])) == Ended(d.s.dic.input[d.s.dic.base..], [])
  {
    hide ByteBits, StreamBits, PadBits, Inflate, ValidStream, NoneFinal, StreamOut, Split, AllRaw;
    var blocks, mark, base := d.s.blocks, d.s.mark, d.s.dic.base;
    SplitLength(blocks, mark, base);
    TailRoundTrip(w, blocks, mark, base, []);
    assert LeftOver(d.s.w) == [] && d.produced == d.delivered;
    var pad := PadBits(|StreamBits(blocks)|);
    var a, b := StreamBits(blocks[..mark]), StreamBits(blocks[mark..]) + pad;
    assert ByteBits(d.delivered) + [] == StreamBits(blocks) + pad;
    assert a + b == StreamBits(blocks) + pad;
    Suffix(d.delivered, d.restart, a, b);
    assert b + [] == b;
  }

  lemma Suffix(bytes: seq<Byte>, n: nat, a: seq<bool>, b: seq<bool>)
    requires ByteBits(bytes) == a + b && |a| == 8 * n
    ensures n <= |bytes| && ByteBits(bytes[n..]) == b
  {
    ByteBitsConcat(bytes[..n], bytes[n..]);
    assert bytes[..n] + bytes[n..] == bytes;
    hide ByteBits;
    assert b == (a + b)[|a|..];
    assert ByteBits(bytes[n..]) == (ByteBits(bytes[..n]) + ByteBits(bytes[n..]))[8 * n..];
  }

  /** After a sync or full flush the decompressor can produce everything taken so far from what was delivered so far,
      whatever bytes come next. */
  lemma SyncPoint(w: Window, d: Stream, more: seq<Byte>)
    requires FullWindow(w) && d.Valid() && !d.finished && d.Flushed()
    ensures Blocks(w, ByteBits(d.delivered + more), []) == Blocks(w, ByteBits(more), d.s.dic.input)
  {
    hide ByteBits, StreamBits, Blocks, ValidStream, NoneFinal, StreamOut, State.Shape, State.Live, Packed;
    LiveBlocks(d.s);
    ByteBitsConcat(d.delivered, more);
    assert LeftOver(d.s.w) == [];
    assert StreamBits(d.s.blocks) == ByteBits(d.delivered);
    StreamPrefix(w, d.s.blocks, ByteBits(more));
  }
}
