/** Both halves together: what the compressor delivers, cut in any way and given to the decompressor piece by piece,
    comes back as the bytes that were compressed. */
module Codec {
  import opened Bits
  import opened InflateSpec
  import opened InflateResume
  import opened Inflater
  import OutWindow
  import opened Deflater
  import opened Compressor
  import EmptyEntries
  import InflateGrowth
  import opened InflateStream
  import opened BlockSpec

  /** The pieces, one after the other. */
  function Join(pieces: seq<seq<Byte>>): seq<Byte> {
    if pieces == [] then [] else pieces[0] + Join(pieces[1..])
  }

  lemma JoinStep(pieces: seq<seq<Byte>>, i: nat)
    requires i < |pieces|
    ensures Join(pieces[i..]) == pieces[i] + Join(pieces[i + 1..])
  {
    assert pieces[i..][1..] == pieces[i + 1..];
  }

  lemma InflateIs(bits: seq<bool>)
    ensures Inflate(Linear, bits) == Blocks(Linear, bits, [])
  {
    hide Blocks;
  }

  lemma NothingShown(d: Decompressor, buf: array<Byte>)
    requires d.AtStart()
    ensures d.out == [] && OutWindow.Shows(Linear, buf[..], d.out, 0) && d.course.Straight? && d.state == PBlock
  {
  }

  lemma EndsThere(r: Outcome, bits: seq<bool>)
    ensures LeftBehind(r, bits) || r.Ended? ==> Ends(r)
  {
  }

  lemma Accepting(d: Decompressor, buf: array<Byte>, n: nat)
    requires d.w.Linear? && n <= buf.Length && OutWindow.Shows(Linear, buf[..], d.out, n)
    ensures d.Accepts(buf, n, buf.Length - n, false)
  {
  }

  /** What a status other than "more input" says about the whole stream. */
  lemma PieceEnds(d: Decompressor, piece: seq<Byte>, last: bool, buf: array<Byte>, status: Inflater.Status, used: nat,
    produced: nat, size: nat, n: nat, target: Outcome, future: seq<bool>)
    requires used <= |piece| && n <= buf.Length && OutWindow.Shows(Linear, buf[..], d.out, n)
    requires d.On(target, ByteBits(piece[used..]) + future) && (last ==> future == [])
    requires !status.NeedsMoreInput? && !status.BadParam?
    requires status.CannotMakeProgress? ==> last && d.Hungry(used, piece)
    requires OutputOf(d.out, target)
    requires status.HasMoreOutput? ==> produced == size && (Ends(target) ==> |d.out| < |target.out|)
    requires status.HasMoreOutput? && produced == size ==> n == buf.Length
    requires status.Done? ==> Ends(target) && target.out == d.out
    requires status.Failed? ==> target.Failed? || target.BadCode?
    ensures status.Done? <==> Ends(target) && |target.out| <= buf.Length
    ensures status.Done? ==> buf[..n] == target.out
    ensures OutputOf(buf[..n], target)
  {
    hide Decompressor.On, Decompressor.Hungry, ByteBits;
    if status.CannotMakeProgress? {
      HungryUses(d, used, piece);
      NoMoreBytes(piece, used, future);
      HungryForMore(d, used, piece, target);
    }
  }

  /** tinfl_decompress, called once for every piece, with TINFL_FLAG_HAS_MORE_INPUT for all but the last, until it asks
      for something other than more input.  It is done if and only if the stream ends within the pieces and its output
      fits.  It fails only on a bad stream, and on an empty entry for a literal only if a piece is long enough. */
  method DecompressPieces(d: Decompressor, pieces: seq<seq<Byte>>, buf: array<Byte>)
    returns (status: Inflater.Status, n: nat)
    requires d.Paused() && d.AtStart() && d.w.Linear? && pieces != []
    modifies d, d.rd, buf, d.lenCodes, d.lit, d.lit.codeSize, d.lit.lookUp, d.lit.tree
    modifies d.dst, d.dst.codeSize, d.dst.lookUp, d.dst.tree, d.len, d.len.codeSize, d.len.lookUp, d.len.tree
    ensures n <= buf.Length
    ensures var outcome := Inflate(Linear, ByteBits(Join(pieces)));
      && (status.Done? <==> Ends(outcome) && |outcome.out| <= buf.Length)
      && (status.Done? ==> buf[..n] == outcome.out)
      && OutputOf(buf[..n], outcome)
      && (status.Failed? ==> outcome.Failed? || (outcome.BadCode? && exists i :: 0 <= i < |pieces| && |pieces[i]| >= 4))
      && (|pieces| == 1 && outcome.BadCode? && |outcome.rest| >= 95 && buf.Length >= |outcome.out| + 2
        ==> status.Failed?)
  {
    hide *;
    ghost var bits := ByteBits(Join(pieces));
    ghost var target := Inflate(Linear, bits);
    d.StartsOn(bits);
    InflateGrowth.RestAligned(Linear, bits, []);
    InflateIs(bits);
    NothingShown(d, buf);
    n := 0;
    var i := 0;
    assert pieces[0..] == pieces;
    while true
      invariant i < |pieces| && n <= buf.Length && d.Paused() && OutWindow.Shows(Linear, buf[..], d.out, n)
      invariant d.On(target, ByteBits(Join(pieces[i..])))
      invariant d.course.GivenUp? ==> exists k :: 0 <= k < i && |pieces[k]| >= 4
      invariant i == 0 ==> d.course.Straight? && d.state == PBlock && d.out == [] && n == 0
      decreases |pieces| - i
    {
      ghost var future := ByteBits(Join(pieces[i + 1..]));
      JoinStep(pieces, i);
      ByteBitsConcat(pieces[i], Join(pieces[i + 1..]));
      Accepting(d, buf, n);
      JoinNone(pieces, i);
      var used, produced;
      status, used, produced := d.Decompress(pieces[i], buf, n, buf.Length - n, i + 1 < |pieces|, false, target,
        future);
      if !status.NeedsMoreInput? {
        EndsThere(target, ByteBits(pieces[i][used..]) + future);
        PieceEnds(d, pieces[i], i + 1 == |pieces|, buf, status, used, produced, buf.Length - n, n + produced, target,
          future);
        n := n + produced;
        return;
      }
      HungryUses(d, used, pieces[i]);
      NoMoreBytes(pieces[i], used, future);
      n := n + produced;
      i := i + 1;
    }
  }

  /** Where the cuts show: on every stream that comes upon a literal from an empty entry with at least twelve bytes
      behind it, one call gives up, and calls with less than four bytes each do not. */
  method CutsDiffer(data: seq<Byte>, pieces: seq<seq<Byte>>, room: nat)
    returns (whole: Inflater.Status, cut: Inflater.Status)
    requires pieces != [] && Join(pieces) == data && forall i :: 0 <= i < |pieces| ==> |pieces[i]| < 4
    requires var outcome := Inflate(Linear, ByteBits(data));
      outcome.BadCode? && |outcome.rest| >= 95 && room >= |outcome.out| + 2
    ensures whole.Failed? && !cut.Failed? && !cut.Done?
  {
    hide *;
    JoinOne(data);
    EndsNot(Inflate(Linear, ByteBits(data)));
    var d := new Decompressor(Linear);
    var buf := new Byte[room];
    var n;
    whole, n := DecompressPieces(d, [data], buf);
    var e := new Decompressor(Linear);
    buf := new Byte[room];
    cut, n := DecompressPieces(e, pieces, buf);
  }

  lemma JoinOne(data: seq<Byte>)
    ensures Join([data]) == data
  {
    assert [data][1..] == [];
  }

  lemma EndsNot(r: Outcome)
    ensures r.BadCode? ==> !Ends(r)
  {
  }

  /** There is such a stream. */
  lemma SomeCutsDiffer() returns (data: seq<Byte>)
    ensures var outcome := Inflate(Linear, ByteBits(data)); outcome.BadCode? && |outcome.rest| >= 95
  {
    var zeros: seq<Byte> := seq(15, _ => 0);
    data := [5] + zeros;
    EmptyEntries.ZeroBlock(Linear, 15);
  }

  lemma JoinNone(pieces: seq<seq<Byte>>, i: nat)
    requires i < |pieces|
    ensures i + 1 == |pieces| ==> ByteBits(Join(pieces[i + 1..])) == []
  {
  }

  /** One call of tdefl_compress: the input offered, the room for output, and the kind of flush. */
  datatype Call = Call(src: seq<Byte>, room: nat, flush: Flush)

  /** Any calls at all, on a compressor that starts from tdefl_init: the bytes taken are those the calls have used, the
      bytes made are those the calls have put out, and once one call has returned "done" the latter decompress to the
      former, whatever was tried after it, through any window of at least 32 KB. */
  method RunCalls(opts: Options, calls: seq<Call>) returns (d: Stream, taken: seq<Byte>, made: seq<Byte>)
    ensures fresh(d) && fresh(d.s) && fresh(d.s.Parts())
    ensures d.Valid() && d.s.dic.input == taken && d.delivered == made
    ensures d.status.Done? ==> d.finished && d.flushRemaining == 0
    ensures d.finished && d.flushRemaining == 0 ==>
      forall w: Window | FullWindow(w) :: Inflate(w, ByteBits(made)) == Ended(taken, [])
  {
    hide *;
    d := new Stream(opts);
    taken, made := [], [];
    PartsFresh(d);
    var i := 0;
    while i < |calls|
      invariant i <= |calls| && fresh(d) && fresh(d.s) && fresh(d.s.Parts())
      invariant d.Valid() && d.s.dic.input == taken && d.delivered == made
      invariant d.status.Done? ==> d.finished && d.flushRemaining == 0
    {
      PartsFresh(d);
      var c := calls[i];
      var r, used := d.Compress(c.src, c.room, c.flush);
      taken, made := taken + c.src[..used], made + d.outBuf;
      i := i + 1;
    }
    if d.finished && d.flushRemaining == 0 {
      forall w: Window | FullWindow(w)
        ensures Inflate(w, ByteBits(made)) == Ended(taken, [])
      {
        RoundTrip(w, d);
      }
    }
  }

  /** All of the data, in portions of any size and with room of any size for the output: the calls come to an end, and
      the last one returns "done". */
  method CompressAll(d: Stream, data: seq<Byte>, chunk: nat -> nat, room: nat -> nat) returns (made: seq<Byte>)
    requires d.Valid() && d.status.Okay? && !d.finished && !d.wantsToFinish
    requires forall k: nat :: chunk(k) > 0 && room(k) > 0
    modifies d, d.s, d.s.dic, d.s.dic.dict, d.s.dic.next, d.s.dic.hash, d.s.w, d.s.w.buf, d.s.lz, d.s.lz.codeBuf
    modifies d.s.lz.litCount, d.s.lz.distCount, d.s.coder.litSizes, d.s.coder.litCodes, d.s.coder.distSizes
    modifies d.s.coder.distCodes, d.s.coder.lenSizes, d.s.coder.lenCodes
    ensures d.Valid() && d.status.Done? && d.finished && d.flushRemaining == 0
    ensures d.s.dic.input == old(d.s.dic.input) + data && d.delivered == old(d.delivered) + made
  {
    hide *;
    var k: nat, taken: nat := 0, 0;
    made := [];
    while !d.status.Done?
      invariant d.Valid() && (d.status.Okay? || (d.status.Done? && d.finished && d.flushRemaining == 0))
      invariant taken <= |data| && d.s.dic.input == old(d.s.dic.input) + data[..taken]
      invariant d.finished ==> taken == |data|
      invariant d.delivered == old(d.delivered) + made
      decreases !d.finished, 2 * (|data| - taken) + d.s.dic.lookaheadSize, d.flushRemaining, d.status.Okay?
    {
      var n := if d.wantsToFinish || chunk(k) >= |data| - taken then |data| - taken else chunk(k);
      var flush := if n == |data| - taken then Flush.Finish else Flush.NoFlush;
      var r, used := d.Compress(data[taken..taken + n], room(k), flush);
      NextPart(data, taken, n, used);
      made, taken, k := made + d.outBuf, taken + used, k + 1;
    }
  }

  /** The bytes of a sync point that did not fit in one call: as many calls as it takes deliver them. */
  method DeliverSync(d: Stream, room: nat -> nat) returns (made: seq<Byte>)
    requires d.Valid() && d.status.Okay? && !d.finished && !d.wantsToFinish && d.Synced()
    requires forall k: nat :: room(k) > 0
    modifies d, d.s, d.s.dic, d.s.dic.dict, d.s.dic.next, d.s.dic.hash, d.s.w, d.s.w.buf, d.s.lz, d.s.lz.codeBuf
    modifies d.s.lz.litCount, d.s.lz.distCount, d.s.coder.litSizes, d.s.coder.litCodes, d.s.coder.distSizes
    modifies d.s.coder.distCodes, d.s.coder.lenSizes, d.s.coder.lenCodes
    ensures d.Valid() && d.Flushed() && !d.finished
    ensures d.s.dic.input == old(d.s.dic.input) && d.delivered == old(d.delivered) + made
  {
    hide *;
    var k: nat := 0;
    made := [];
    while d.flushRemaining != 0
      invariant d.Valid() && d.status.Okay? && !d.finished && !d.wantsToFinish && d.Synced()
      invariant d.s.dic.input == old(d.s.dic.input) && d.delivered == old(d.delivered) + made
      decreases d.flushRemaining
    {
      var r, used := d.Compress([], room(k), Flush.SyncFlush);
      made, k := made + d.outBuf, k + 1;
    }
    d.ValidParts();
    d.WhenFlushed();
  }

  lemma NextPart(data: seq<Byte>, taken: nat, n: nat, used: nat)
    requires used <= n && taken + n <= |data|
    ensures data[..taken] + data[taken..taken + n][..used] == data[..taken + used]
  {
  }

  lemma PartsFresh(d: Stream)
    ensures {d.s.dic, d.s.dic.dict, d.s.dic.next, d.s.dic.hash, d.s.lz, d.s.lz.codeBuf, d.s.lz.litCount,
      d.s.lz.distCount, d.s.w, d.s.w.buf, d.s.coder.litSizes, d.s.coder.litCodes, d.s.coder.distSizes,
      d.s.coder.distCodes, d.s.coder.lenSizes, d.s.coder.lenCodes} <= d.s.Parts()
  {
  }

  /** A finished stream, cut in any way, comes back whole: the decompressor never runs out of input before its end. */
  method DecompressStream(d: Stream, e: Decompressor, pieces: seq<seq<Byte>>, buf: array<Byte>)
    returns (status: Inflater.Status, n: nat)
    requires d.Valid() && d.finished && d.flushRemaining == 0 && pieces != [] && Join(pieces) == d.delivered
    requires e.Paused() && e.AtStart() && e.w.Linear? && |d.s.dic.input| <= buf.Length
    modifies e, e.rd, buf, e.lenCodes, e.lit, e.lit.codeSize, e.lit.lookUp, e.lit.tree
    modifies e.dst, e.dst.codeSize, e.dst.lookUp, e.dst.tree, e.len, e.len.codeSize, e.len.lookUp, e.len.tree
    ensures status.Done? && n <= buf.Length && buf[..n] == old(d.s.dic.input)
  {
    hide *;
    FullLinear();
    RoundTrip(Linear, d);
    EndsThere(Inflate(Linear, ByteBits(d.delivered)), []);
    status, n := DecompressPieces(e, pieces, buf);
  }

  /** The same through mz_inflate, with portions and room of any size: all of the input comes back, and nothing of the
      stream is left over. */
  method InflateFinished(d: Stream, z: InflateState, data: seq<Byte>, chunk: nat -> nat, room: nat -> nat)
    returns (r: Code, out: seq<Byte>)
    requires d.Valid() && d.finished && d.flushRemaining == 0 && data == d.delivered && z.Valid() && z.firstCall
    requires forall k: nat :: chunk(k) > 0 && room(k) > 0
    modifies z, z.dict, z.decomp, z.decomp.rd, z.decomp.lenCodes
    modifies z.decomp.lit, z.decomp.lit.codeSize, z.decomp.lit.lookUp, z.decomp.lit.tree
    modifies z.decomp.dst, z.decomp.dst.codeSize, z.decomp.dst.lookUp, z.decomp.dst.tree
    modifies z.decomp.len, z.decomp.len.codeSize, z.decomp.len.lookUp, z.decomp.len.tree
    ensures r.StreamEnd? && out == old(d.s.dic.input)
  {
    hide *;
    FullRing(z);
    RoundTrip(z.decomp.w, d);
    EndsThere(Inflate(z.decomp.w, ByteBits(data)), []);
    var left;
    r, out, left := InflateAll(z, data, chunk, room);
  }

  lemma FullRing(z: InflateState)
    requires z.Valid() && z.firstCall
    ensures FullWindow(z.decomp.w)
  {
    hide Decompressor.Paused, Decompressor.AtStart;
  }

  lemma FullLinear()
    ensures FullWindow(Linear)
  {
  }
}
