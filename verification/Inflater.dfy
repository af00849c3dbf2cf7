/** tinfl_decompress: the decompressor as a coroutine that can stop wherever it needs another byte of input or another
    byte of room. */
module Inflater {
  import opened Bits
  import opened Canonical
  import opened Decoding
  import opened LzSymbols
  import opened InflateSpec
  import opened InflateResume
  import opened DecoderTable
  import opened BitReader
  import opened OutWindow
  import InflateGrowth

  /** m_state: where the coroutine goes on.  In a state that is `filling`, it waits for a byte inside
      TINFL_HUFF_BITBUF_FILL. */
  datatype Point =
    | PBlock | PType | PRawHeader | PRawByte | PRawPut | PRawRoom | PRawInput
    | PCount | PSize | PCode(filling: bool) | PRepeat | PTables
    | PSymbol(filling: bool) | PLiteral | PLenExtra | PDist(filling: bool) | PDistExtra | PCopy
    | PEnd | PDone | PFailed

  datatype Status = NeedsMoreInput | CannotMakeProgress | HasMoreOutput | Done | Failed | BadParam

  /** What a step leads to. */
  datatype Signal = Continue | NeedInput | NeedRoom

  /** Later points of a block come first, so that a step that neither reads nor writes moves down. */
  function Rank(p: Point): nat {
    match p
    case PType => 17
    case PCount => 16
    case PSize => 15
    case PRepeat => 14
    case PCode(_) => 13
    case PTables => 12
    case PRawHeader => 11
    case PRawByte => 10
    case PRawPut => 10
    case PRawRoom => 9
    case PRawInput => 8
    case PLenExtra => 7
    case PDist(_) => 6
    case PDistExtra => 5
    case PCopy => 4
    case PSymbol(_) => 3
    case PLiteral => 2
    case PBlock => 1
    case PEnd => 1
    case _ => 0
  }

  const LEN_CODES: nat := 457

  /** `!((n) & (n - 1))` */
  predicate PowerOfTwo(n: nat) {
    n <= 1 || (n % 2 == 0 && PowerOfTwo(n / 2))
  }

  class Decompressor {
    const rd: Reader
    const lit: DecoderTable.Table      // m_look_up[0], m_tree_0 and m_code_size_0
    const dst: DecoderTable.Table
    const len: DecoderTable.Table
    const lenCodes: array<nat>         // m_len_codes
    var state: Point
    var final: bool                    // m_final & 1
    var kind: nat                      // m_type
    var counter: nat
    var dist: nat
    var numExtra: nat
    var rawHeader: seq<Byte>           // m_raw_header, as far as it is known
    var tableSizes: seq<nat>           // m_table_sizes, as far as they are known
    var distFromStart: nat             // m_dist_from_out_buf_start
    var outCur: nat                    // pOut_buf_cur and pOut_buf_end
    var outEnd: nat
    var wrapping: bool                 // not TINFL_FLAG_USING_NON_WRAPPING_OUTPUT_BUF
    ghost const w: Window
    ghost var out: seq<Byte>           // everything output so far
    ghost var cont: Rest               // what remains to be done
    ghost var course: Course           // whether empty table entries have been used
    ghost var callOut: seq<Byte>       // what had been output before this call, and where its output starts
    ghost var callOfs: nat

    /** The parts have nothing in common. */
    ghost predicate Shape() {
      && lit.Valid() && dst.Valid() && len.Valid()
      && lit.codeSize.Length == 288 && dst.codeSize.Length == 32 && len.codeSize.Length == 19
        && lenCodes.Length == LEN_CODES
      && lit != dst && lit != len && dst != len
      && lenCodes != lit.codeSize && lenCodes != dst.codeSize && lenCodes != len.codeSize
      && {lit.lookUp, lit.tree} !! {dst.lookUp, dst.tree, len.lookUp, len.tree}
        && {dst.lookUp, dst.tree} !! {len.lookUp, len.tree}
    }

    /** The caller's buffer shows the output, and what this call has added to it lies where the caller asked for it. */
    ghost predicate OutputAt(buf: array<Byte>, o: seq<Byte>)
      reads this`outCur, this`outEnd, this`wrapping, this`callOut, this`callOfs, buf
    {
      && callOfs <= outCur <= outEnd <= buf.Length && Shows(w, buf[..], o, outCur) && wrapping == w.Ring?
      && (w.Ring? ==> outEnd == buf.Length) && o == callOut + buf[callOfs..outCur]
    }

    ghost predicate Output(buf: array<Byte>)
      reads this`outCur, this`outEnd, this`wrapping, this`callOut, this`callOfs, this`out, buf
    {
      OutputAt(buf, out)
    }

    /** A decoding loop that was interrupted has no whole code yet. */
    ghost predicate Waits(filling: bool, t: DecoderTable.Table)
      reads rd, t
    {
      filling ==> rd.numBits < MAX_CODE_SIZE && Undecided(t.sizes, rd.Held())
    }

    /** Both codes of the block are in their tables. */
    ghost predicate Coded()
      reads lit, lit.lookUp, lit.tree, dst, dst.lookUp, dst.tree
    {
      lit.Ready() && dst.Ready() && |lit.sizes| <= 288 && |dst.sizes| <= 32
    }

    ghost predicate HeaderState()
      reads this`state, this`cont, this`counter, this`tableSizes, len, len.codeSize
    {
      match state
      case PCount => cont == InCounts(tableSizes) && counter == |tableSizes| <= 3 && SizesInRange()
      case PSize =>
        && cont.InSizes? && cont.counts == tableSizes && |tableSizes| == 3 && SizesInRange()
        && counter == |cont.got| <= tableSizes[2] && len.codeSize.Length == 19
          && len.codeSize[..] == Dezigzag(cont.got, counter)
        && forall i :: 0 <= i < 19 ==> len.codeSize[i] <= 7
      case _ => false
    }

    ghost predicate SizesInRange()
      reads this`tableSizes
    {
      && (|tableSizes| > 0 ==> tableSizes[0] <= 288) && (|tableSizes| > 1 ==> tableSizes[1] <= 32)
      && (|tableSizes| > 2 ==> tableSizes[2] <= 19)
    }

    /** What reading the code lengths needs throughout. */
    ghost predicate LenBase()
      reads this`tableSizes, this`counter, len, len.lookUp, len.tree, lenCodes
    {
      && |tableSizes| == 3 && SizesInRange() && len.Ready() && |len.sizes| <= 19 && lenCodes.Length == LEN_CODES
      && counter <= LEN_CODES && forall i :: 0 <= i < counter ==> lenCodes[i] <= 15
    }

    /** The lengths read so far, for the two codes that are being sent. */
    ghost predicate Lengths(counts: seq<nat>, z: seq<nat>, got: seq<nat>)
      reads this`tableSizes, this`counter, len, lenCodes
    {
      && |tableSizes| >= 2 && counter <= lenCodes.Length && |counts| == 3
      && counts[0] == tableSizes[0] && counts[1] == tableSizes[1] && z == len.sizes && got == lenCodes[..counter]
    }

    ghost predicate LengthsState()
      reads this`state, this`cont, this`counter, this`dist, this`numExtra, this`tableSizes, rd, len, len.lookUp,
        len.tree, lenCodes
    {
      && LenBase()
      && match state
         case PCode(filling) =>
           && cont.InLengths? && Lengths(cont.counts, cont.z, cont.got) && Waits(filling, len)
           && (filling ==> counter < tableSizes[0] + tableSizes[1])
         case PRepeat =>
           && cont.InRepeat? && Lengths(cont.counts, cont.z, cont.got) && counter < tableSizes[0] + tableSizes[1]
           && cont.s == dist && 16 <= dist <= 18 && numExtra == RepeatBits(dist) && (dist == 16 ==> counter > 0)
         case _ => false
    }

    ghost predicate TablesState()
      reads this`cont, this`tableSizes, lit, lit.codeSize, dst, dst.codeSize
    {
      && cont.InTables? && |tableSizes| >= 2 && SizesInRange() && lit.codeSize.Length == 288
        && dst.codeSize.Length == 32
      && cont.lit == lit.codeSize[..tableSizes[0]] && cont.dst == dst.codeSize[..tableSizes[1]]
      && (forall i :: 0 <= i < |cont.lit| ==> cont.lit[i] <= 15)
        && (forall i :: 0 <= i < |cont.dst| ==> cont.dst[i] <= 15)
    }

    ghost predicate SymbolsState()
      reads this`state, this`cont, this`counter, this`dist, this`numExtra, this`distFromStart, this`out, rd, lit,
        lit.lookUp, lit.tree, dst, dst.lookUp, dst.tree
    {
      && Coded()
      && match state
         case PSymbol(filling) => cont == InSymbols(lit.sizes, dst.sizes) && Waits(filling, lit)
         case PLiteral => counter < 256 && cont == InLiteral(lit.sizes, dst.sizes, counter)
         case PLenExtra => cont == InLength(lit.sizes, dst.sizes, numExtra, counter) && numExtra <= 5
         case PDist(filling) => cont == InDistance(lit.sizes, dst.sizes, counter) && Waits(filling, dst)
         case PDistExtra => cont == InDistBits(lit.sizes, dst.sizes, counter, numExtra, dist) && numExtra <= 13
         case PCopy => cont == InCopy(lit.sizes, dst.sizes, counter + 1, dist) && CanCopy(w, out, dist)
           && PacedAt(w, out, distFromStart)
         case _ => false
    }

    ghost predicate RawState()
      reads this`state, this`cont, this`counter, this`dist, this`rawHeader, rd
    {
      match state
      case PRawHeader => cont == InHeader(rawHeader) && counter == |rawHeader| <= 4
      case PRawByte => cont == InStored(counter)
      case PRawPut => counter > 0 && dist < 256 && cont == InStoredByte(dist, counter - 1)
      case PRawRoom => cont == InStored(counter) && rd.numBits == 0
      case PRawInput => cont == InStored(counter) && counter > 0 && rd.numBits == 0
      case _ => false
    }

    /** The fields hold what the point needs. */
    ghost predicate Matches()
      reads this`state, this`cont, this`kind, this`counter, this`dist, this`numExtra, this`rawHeader, this`tableSizes
      reads this`distFromStart, this`out, rd, lit, lit.lookUp, lit.tree, lit.codeSize, dst, dst.lookUp, dst.tree,
        dst.codeSize
      reads len, len.lookUp, len.tree, len.codeSize, lenCodes
    {
      && WellFormed(cont)
      && match state
         case PBlock => cont == InBlock
         case PType => kind < 4 && cont == InType(kind)
         case PCount => HeaderState()
         case PSize => HeaderState()
         case PCode(_) => LengthsState()
         case PRepeat => LengthsState()
         case PTables => TablesState()
         case PSymbol(_) => SymbolsState()
         case PLiteral => SymbolsState()
         case PLenExtra => SymbolsState()
         case PDist(_) => SymbolsState()
         case PDistExtra => SymbolsState()
         case PCopy => SymbolsState()
         case PEnd => cont == AtStreamEnd
         case PDone => cont == Finished
         case PFailed => cont == Broken
         case _ => RawState()
    }

    /** Nothing is in the bit buffer that could not be put back, unless the next field or code needs all of it. */
    ghost predicate Tight()
      reads this`state, this`cont, rd
    {
      || rd.Lean() || rd.numBits < Wants(cont)
      || state == PCode(true) || state == PSymbol(true) || state == PDist(true)
    }

    /** What remains to be done on these bits leads to an outcome that is right for `target`. */
    ghost predicate LeadsIf(now: Course, target: Outcome, fin: bool, c: Rest, bits: seq<bool>, o: seq<Byte>) {
      WellFormed(c) && Meets(target, now, Resume(w, fin, c, bits, o))
    }

    ghost predicate Leads(target: Outcome, fin: bool, c: Rest, bits: seq<bool>, o: seq<Byte>)
      reads this`course
    {
      LeadsIf(course, target, fin, c, bits, o)
    }

    /** It has failed over a literal from an empty entry. */
    ghost predicate GivenUp(target: Outcome)
      reads this`course, this`state, this`cont, this`out
    {
      course.GivenUp? && state.PFailed? && cont == Broken && target.BadCode? && OutputOf(out, target)
    }

    /** The stream is still going to end in `target` when `future` follows what has been read. */
    ghost predicate On(target: Outcome, future: seq<bool>)
      reads this`state, this`final, this`cont, this`out, this`course, rd
    {
      && rd.cur <= |rd.input| && (!course.Straight? || Tight())
      && (Leads(target, final, cont, rd.Rest() + future, out) || GivenUp(target))
    }

    constructor (ghost window: Window)
      ensures Paused() && AtStart() && w == window && out == []
      ensures fresh(rd) && fresh(lenCodes) && fresh(lit) && fresh(lit.codeSize) && fresh(lit.lookUp) && fresh(lit.tree)
      ensures fresh(dst) && fresh(dst.codeSize) && fresh(dst.lookUp) && fresh(dst.tree)
      ensures fresh(len) && fresh(len.codeSize) && fresh(len.lookUp) && fresh(len.tree)
    {
      hide Reader.Valid, HeaderState, TablesState, LengthsState, SymbolsState, RawState, DecoderTable.Table.Ready;
      rd := new Reader();
      lit := new DecoderTable.Table(288);
      dst := new DecoderTable.Table(32);
      len := new DecoderTable.Table(19);
      lenCodes := new nat[LEN_CODES](_ => 0);
      state, final, kind, counter, dist, numExtra := PBlock, false, 0, 0, 0, 0;
      rawHeader, tableSizes, distFromStart, outCur, outEnd, wrapping := [], [], 0, 0, 0, false;
      w, out, cont, callOut, callOfs, course := window, [], InBlock, [], 0, Straight;
    }

    /** tinfl_init */
    ghost predicate AtStart()
      reads this`state, this`cont, this`out, this`course, rd
    {
      && state == PBlock && cont == InBlock && out == [] && rd.numBits == 0 && rd.cur <= |rd.input| && rd.Rest() == []
      && course.Straight?
    }

    /** Nothing has been read: the outcome is that of whatever is going to be read. */
    lemma StartsOn(bits: seq<bool>)
      requires AtStart()
      ensures On(Inflate(w, bits), bits)
    {
      hide Blocks, Reader.Rest;
      assert rd.Rest() + bits == bits;
    }

    /** What decreases while nothing is read or written. */
    ghost function Left(): nat
      reads this`state, this`counter
    {
      1000 * Rank(state) + (if state.PCode? && counter <= LEN_CODES then LEN_CODES - counter else 0)
    }

    /** The input is used up, and the stream could not have ended with it. */
    ghost predicate Stuck()
      reads this`state, this`final, this`cont, this`out, rd
    {
      && WellFormed(cont) && rd.cur == |rd.input|
      && (rd.numBits < Wants(cont) || state == PCode(true) || state == PSymbol(true) || state == PDist(true))
      && Resume(w, final, cont, rd.Rest(), out).Truncated?
    }

    lemma StuckOnField()
      requires WellFormed(cont) && rd.cur == |rd.input| && |rd.Rest()| < Wants(cont)
      ensures Stuck() && Tight()
    {
      StuckField(w, final, cont, rd.Rest(), out);
    }

    // ----- block headers and stored blocks -----

    lemma AlignBits(rest: seq<bool>, n: nat, future: seq<bool>)
      requires |future| % 8 == 0 && n <= |rest| && (|rest| - n) % 8 == 0
      ensures Align(rest + future) == rest[n % 8..] + future
    {
      assert |rest + future| % 8 == n % 8;
    }

    /** A step keeps the outcome of the stream when what remains now means what remained before. */
    lemma Moved(target: Outcome, future: seq<bool>, fin: bool, was: Rest, before: seq<bool>, o: seq<Byte>)
      requires WellFormed(was) && WellFormed(cont) && rd.cur <= |rd.input|
      requires Leads(target, fin, was, before + future, o) && (!course.Straight? || Tight())
      requires Resume(w, fin, was, before + future, o) == Resume(w, final, cont, rd.Rest() + future, out)
      ensures On(target, future)
    {
      hide Resume;
    }

    lemma OnParts(target: Outcome, future: seq<bool>)
      requires On(target, future) && !state.PFailed? && rd.cur <= |rd.input|
      ensures Leads(target, final, cont, rd.Rest() + future, out) && (!course.Straight? || Tight())
    {
    }

    lemma LeanIsTight()
      ensures rd.Lean() ==> Tight()
    {
    }

    lemma TightField()
      requires Tight() && !(state.PCode? || state.PSymbol? || state.PDist?)
      ensures rd.Lean() || rd.numBits < Wants(cont)
    {
    }

    /** Reads the field that the current point waits for. */
    method ReadField(n: nat, ghost target: Outcome, ghost future: seq<bool>)
      returns (ok: bool, v: nat, ghost before: seq<bool>)
      requires rd.Valid() && WellFormed(cont) && n == Wants(cont) <= 13 && On(target, future)
      requires !(state.PCode? || state.PSymbol? || state.PDist? || state.PFailed?)
      modifies rd`cur, rd`bitBuf, rd`numBits
      ensures rd.Valid() && rd.cur <= |rd.input| && before == old(rd.Rest())
      ensures !ok ==> Stuck() && On(target, future)
      ensures ok ==> |rd.Rest()| + n == |before| && Took(before + future, n, v, rd.Rest() + future)
      ensures ok ==> Leads(target, final, cont, before + future, out) && (!course.Straight? || rd.Lean())
    {
      hide Resume, Meets, LeadsIf, Reader.Valid, Reader.Rest, Reader.Lean, FromBits, On, Tight, Stuck, Took;
      ReaderFacts();
      OnParts(target, future);
      before := rd.Rest();
      if course.Straight? {
        TightField();
      }
      ok, v := rd.GetBits(n);
      ReaderFacts();
      if ok {
        GotBits(before, n, v, rd.Rest(), future);
      } else {
        StuckOnField();
        Moved(target, future, final, cont, before, out);
      }
    }

    /** The header of a block. */
    method DoBlock(ghost target: Outcome, ghost future: seq<bool>) returns (r: Signal)
      requires rd.Valid() && Matches() && state.PBlock? && On(target, future)
      modifies this`state, this`final, this`kind, this`cont, rd`cur, rd`bitBuf, rd`numBits
      ensures rd.Valid() && Matches() && On(target, future) && !r.NeedRoom?
      ensures r.NeedInput? ==> Stuck()
      ensures r.Continue? ==> |rd.Rest()| < old(|rd.Rest()|)
      ensures r.Continue? ==> state != PSymbol(true)
    {
      hide Resume, Meets, LeadsIf, Reader.Valid, Reader.Rest, Reader.Lean, Took, On, Tight, Stuck, HeaderState,
        RawState, LengthsState, TablesState, SymbolsState;
      var ok, v;
      ghost var before;
      ghost var fin := final;
      ok, v, before := ReadField(3, target, future);
      if !ok {
        return NeedInput;
      }
      StepBlock(w, fin, v, before + future, rd.Rest() + future, out);
      final, kind, state, cont := v % 2 == 1, v / 2, PType, InType(v / 2);
      LeanIsTight();
      Moved(target, future, fin, InBlock, before, out);
      r := Continue;
    }

    lemma IsSimple()
      requires match state
               case PType => kind < 4 && cont == InType(kind)
               case PBlock => cont == InBlock
               case PEnd => cont == AtStreamEnd
               case PDone => cont == Finished
               case PFailed => cont == Broken
               case PRawHeader => cont == InHeader(rawHeader) && counter == |rawHeader| <= 4
               case PRawByte => cont == InStored(counter)
               case PCount => cont == InCounts(tableSizes) && counter == 0 && tableSizes == []
               case _ => false
      ensures Matches() && WellFormed(cont)
    {
    }

    /** A stored block starts at the next byte boundary. */
    method SkipToByte(ghost target: Outcome, ghost future: seq<bool>)
      requires rd.Valid() && state.PType? && kind == 0 && cont == InType(kind) && On(target, future)
        && |future| % 8 == 0
      modifies this`state, this`counter, this`rawHeader, this`cont, rd`bitBuf, rd`numBits
      ensures rd.Valid() && Matches() && On(target, future) && state.PRawHeader? && |rd.Rest()| <= old(|rd.Rest()|)
    {
      hide Resume, Meets, LeadsIf, Reader.Valid, Reader.Rest, Reader.Lean, On, Tight, Matches, Align;
      ReaderFacts();
      OnParts(target, future);
      ghost var before := rd.Rest();
      StepType(w, final, kind, before + future, out);
      LeanHere();
      AlignBits(before, rd.numBits, future);
      var skipped := rd.Drop(rd.numBits % 8);
      ReaderFacts();
      rawHeader, counter, state, cont := [], 0, PRawHeader, InHeader([]);
      IsSimple();
      LeanIsTight();
      Moved(target, future, final, InType(kind), before, out);
    }

    /** A block with the static codes. */
    method StartStatic(ghost target: Outcome, ghost future: seq<bool>)
      requires Shape() && rd.Valid() && state.PType? && kind == 1 && cont == InType(kind) && On(target, future)
      modifies this`state, this`tableSizes, this`cont, lit.codeSize, dst.codeSize
      ensures Matches() && On(target, future) && state.PTables?
    {
      hide Resume, Meets, LeadsIf, Reader.Valid, Reader.Rest, Reader.Lean, On, Tight, Matches, StaticLit, StaticDist;
      ReaderFacts();
      OnParts(target, future);
      StepType(w, final, kind, rd.Rest() + future, out);
      LeanHere();
      StaticSizes();
      StaticSmall();
      tableSizes, state, cont := [288, 32], PTables, InTables(StaticLit(), StaticDist());
      IsTables();
      LeanIsTight();
      Moved(target, future, final, InType(kind), rd.Rest(), out);
    }

    lemma IsTables()
      requires state.PTables? && TablesState()
      ensures Matches()
    {
    }

    lemma TypeFacts()
      requires Matches() && state.PType?
      ensures kind < 4 && cont == InType(kind)
    {
    }

    /** What follows a block header. */
    method DoType(ghost target: Outcome, ghost future: seq<bool>)
      requires Shape() && rd.Valid() && Matches() && state.PType? && On(target, future) && |future| % 8 == 0
      modifies this`state, this`counter, this`rawHeader, this`tableSizes, this`cont
      modifies rd`bitBuf, rd`numBits, lit.codeSize, dst.codeSize
      ensures rd.Valid() && Matches() && On(target, future)
      ensures |rd.Rest()| <= old(|rd.Rest()|) && Left() < old(Left())
      ensures state != PSymbol(true)
    {
      hide Resume, Meets, Reader.Valid, Reader.Rest, Reader.Lean, On, Tight, Matches, Shape;
      TypeFacts();
      if kind == 0 {
        SkipToByte(target, future);
      } else if kind == 1 {
        StartStatic(target, future);
      } else {
        StartOther(target, future);
      }
    }

    /** A block with its own codes, or of the reserved type. */
    method StartOther(ghost target: Outcome, ghost future: seq<bool>)
      requires rd.Valid() && state.PType? && 2 <= kind < 4 && cont == InType(kind) && On(target, future)
      modifies this`state, this`counter, this`tableSizes, this`cont
      ensures Matches() && On(target, future) && (state.PFailed? || state.PCount?)
    {
      hide Resume, Meets, Reader.Valid, Reader.Rest, Reader.Lean, On, Tight, Matches;
      ReaderFacts();
      OnParts(target, future);
      StepType(w, final, kind, rd.Rest() + future, out);
      LeanHere();
      if kind == 3 {
        state, cont := PFailed, Broken;
      } else {
        tableSizes, counter, state, cont := [], 0, PCount, InCounts([]);
      }
      IsSimple();
      Arrives(target, future);
    }

    /** At a point that waits for nothing. */
    lemma LeanHere()
      requires Wants(cont) == 0 && !(state.PCode? || state.PSymbol? || state.PDist?)
      ensures Tight() ==> rd.Lean()
    {
    }

    lemma ReaderFacts()
      requires rd.Valid()
      ensures rd.cur <= |rd.input| && rd.numBits < 64
      ensures rd.numBits <= 7 + 8 * rd.cur <==> rd.Lean()
    {
    }

    lemma GotBits(before: seq<bool>, n: nat, v: nat, after: seq<bool>, future: seq<bool>)
      requires n <= |before| && v == FromBits(before[..n]) && after == before[n..]
      ensures Took(before + future, n, v, after + future)
    {
      TookMore(before, n, v, after, future);
    }

    lemma StaticSmall()
      ensures forall i :: 0 <= i < 288 ==> StaticLit()[i] <= 15
      ensures forall i :: 0 <= i < 32 ==> StaticDist()[i] <= 15
    {
    }

    method StaticSizes()
      requires Shape()
      modifies lit.codeSize, dst.codeSize
      ensures lit.codeSize[..] == StaticLit() && dst.codeSize[..] == StaticDist()
    {
      var i := 0;
      while i < 32
        invariant 0 <= i <= 32 && forall k :: 0 <= k < i ==> dst.codeSize[k] == 5
      {
        dst.codeSize[i] := 5;
        i := i + 1;
      }
      assert dst.codeSize[..] == StaticDist();
      LitSizes();
    }

    method LitSizes()
      requires lit.codeSize.Length == 288
      modifies lit.codeSize
      ensures lit.codeSize[..] == StaticLit()
    {
      var p, i := lit.codeSize, 0;
      while i <= 143
        invariant 0 <= i <= 144 && forall k :: 0 <= k < i ==> p[k] == StaticLit()[k]
      {
        p[i] := 8;
        i := i + 1;
      }
      while i <= 255
        invariant 144 <= i <= 256 && forall k :: 0 <= k < i ==> p[k] == StaticLit()[k]
      {
        p[i] := 9;
        i := i + 1;
      }
      while i <= 279
        invariant 256 <= i <= 280 && forall k :: 0 <= k < i ==> p[k] == StaticLit()[k]
      {
        p[i] := 7;
        i := i + 1;
      }
      while i <= 287
        invariant 280 <= i <= 288 && forall k :: 0 <= k < i ==> p[k] == StaticLit()[k]
      {
        p[i] := 8;
        i := i + 1;
      }
    }

    // ----- stored blocks -----

    /** A byte: from the bit buffer while there are bits in it, straight from the input otherwise. */
    method ReadByte(ghost target: Outcome, ghost future: seq<bool>) returns (ok: bool, v: nat, ghost before: seq<bool>)
      requires rd.Valid() && WellFormed(cont) && Wants(cont) == 8 && On(target, future)
      requires !(state.PCode? || state.PSymbol? || state.PDist? || state.PFailed?)
      modifies rd`cur, rd`bitBuf, rd`numBits
      ensures rd.Valid() && rd.cur <= |rd.input| && before == old(rd.Rest())
      ensures !ok ==> Stuck() && On(target, future)
      ensures ok ==> v < 256 && |rd.Rest()| + 8 == |before| && Took(before + future, 8, v, rd.Rest() + future)
      ensures ok ==> Leads(target, final, cont, before + future, out) && (!course.Straight? || rd.Lean())
    {
      hide Resume, Meets, LeadsIf, Reader.Valid, Reader.Rest, FromBits, On, Tight, Stuck, Took;
      ReaderFacts();
      OnParts(target, future);
      before := rd.Rest();
      if rd.numBits != 0 {
        ok, v, before := ReadField(8, target, future);
        if ok {
          TookByte(before + future, v, rd.Rest() + future);
        }
      } else {
        ok, v := rd.GetByte();
        ReaderFacts();
        if ok {
          GotBits(before, 8, v, rd.Rest(), future);
        } else {
          StuckOnField();
          Moved(target, future, final, cont, before, out);
        }
      }
    }

    lemma TookByte(before: seq<bool>, v: nat, after: seq<bool>)
      requires Took(before, 8, v, after)
      ensures v < 256
    {
      ToFromByte(before[..8]);
    }

    /** LEN and its complement. */
    method DoRawHeader(ghost target: Outcome, ghost future: seq<bool>) returns (r: Signal)
      requires rd.Valid() && Matches() && state.PRawHeader? && On(target, future)
      modifies this`state, this`counter, this`rawHeader, this`cont, rd`cur, rd`bitBuf, rd`numBits
      ensures rd.Valid() && Matches() && On(target, future) && !r.NeedRoom?
      ensures r.NeedInput? ==> Stuck()
      ensures r.Continue? ==>
        |rd.Rest()| < old(|rd.Rest()|)
        || (|rd.Rest()| == old(|rd.Rest()|) && Left() < old(Left()))
      ensures r.Continue? ==> state != PSymbol(true)
    {
      hide Resume, Meets, LeadsIf, Reader.Valid, Reader.Rest, Reader.Lean, On, Tight, Stuck, Took, Matches, FromBits;
      HeaderFacts();
      if counter < 4 {
        var ok, v;
        ghost var before;
        ok, v, before := ReadByte(target, future);
        if !ok {
          HeaderMatches();
          return NeedInput;
        }
        StepHeader(w, final, rawHeader, v, before + future, rd.Rest() + future, out);
        ghost var was := cont;
        rawHeader, counter := rawHeader + [v], counter + 1;
        cont := InHeader(rawHeader);
        IsSimple();
        LeanIsTight();
        Moved(target, future, final, was, before, out);
      } else {
        CheckHeader(target, future);
      }
      r := Continue;
    }

    lemma HeaderFacts()
      requires Matches() && state.PRawHeader?
      ensures cont == InHeader(rawHeader) && counter == |rawHeader| <= 4 && WellFormed(cont)
    {
    }

    lemma HeaderMatches()
      requires state.PRawHeader? && cont == InHeader(rawHeader) && counter == |rawHeader| <= 4
      ensures Matches()
    {
    }

    method CheckHeader(ghost target: Outcome, ghost future: seq<bool>)
      requires rd.Valid() && cont == InHeader(rawHeader) && counter == |rawHeader| == 4 && state.PRawHeader?
        && On(target, future)
      modifies this`state, this`counter, this`cont
      ensures Matches() && On(target, future) && (state.PRawByte? || state.PFailed?)
    {
      hide *;
      ReaderFacts();
      OnParts(target, future);
      RestFacts(cont);
      LeanHere();
      StepHeaderDone(w, final, rawHeader, rd.Rest() + future, out);
      ghost var was := cont;
      counter := Word(rawHeader[0], rawHeader[1]);
      XorOnes(Word(rawHeader[2], rawHeader[3]));
      if counter != Xor(Word(rawHeader[2], rawHeader[3]), 0xFFFF) {
        state, cont := PFailed, Broken;
      } else {
        state, cont := PRawByte, InStored(counter);
      }
      IsSimple();
      LeanIsTight();
      Moved(target, future, final, was, rd.Rest(), out);
    }

    /** After the last byte of a block. */
    method EndBlock(ghost target: Outcome, ghost future: seq<bool>)
      requires rd.Valid() && cont == InStored(0) && On(target, future)
        && !(state.PCode? || state.PSymbol? || state.PDist? || state.PFailed?)
      modifies this`state, this`cont
      ensures Matches() && On(target, future) && (state.PBlock? || state.PEnd?)
    {
      hide Resume, Meets, LeadsIf, Reader.Valid, Reader.Rest, Reader.Lean, On, Tight, Matches;
      ReaderFacts();
      OnParts(target, future);
      LeanHere();
      StepStoredEnd(w, final, rd.Rest() + future, out);
      state := if final then PEnd else PBlock;
      cont := InflateResume.Next(final);
      IsSimple();
      LeanIsTight();
      Moved(target, future, final, InStored(0), rd.Rest(), out);
    }

    lemma RawFacts()
      requires Matches() && (state.PRawByte? || state.PRawPut? || state.PRawRoom? || state.PRawInput?)
      ensures RawState() && WellFormed(cont)
    {
    }

    lemma RawMatches()
      requires WellFormed(cont) && RawState()
      ensures Matches()
    {
    }

    /** `while (counter && num_bits)`: the bytes that are already in the bit buffer. */
    method DoRawByte(ghost target: Outcome, ghost future: seq<bool>) returns (r: Signal)
      requires rd.Valid() && Matches() && state.PRawByte? && On(target, future)
      modifies this`state, this`dist, this`cont, rd`cur, rd`bitBuf, rd`numBits
      ensures rd.Valid() && Matches() && On(target, future) && !r.NeedRoom?
      ensures r.NeedInput? ==> Stuck()
      ensures r.Continue? ==>
        |rd.Rest()| < old(|rd.Rest()|)
        || (|rd.Rest()| == old(|rd.Rest()|) && Left() < old(Left()))
      ensures r.Continue? ==> state != PSymbol(true)
    {
      hide Resume, Meets, LeadsIf, Reader.Valid, Reader.Rest, Reader.Lean, On, Tight, Stuck, Took, Matches, FromBits,
        Plain;
      RawFacts();
      r := Continue;
      if counter == 0 {
        EndBlock(target, future);
      } else if rd.numBits != 0 {
        var ok, v;
        ghost var before;
        ok, v, before := ReadByte(target, future);
        if !ok {
          RawMatches();
          return NeedInput;
        }
        StepStored(w, final, counter, v, before + future, rd.Rest() + future, out);
        ghost var was := cont;
        dist, state, cont := v, PRawPut, InStoredByte(v, counter - 1);
        RawMatches();
        LeanIsTight();
        Moved(target, future, final, was, before, out);
      } else {
        PlainParts(target, future);
        state := PRawRoom;
        RawMatches();
        PlainOn(target, future);
      }
    }

    /** At points that wait for a field or for nothing, the outcome depends only on what remains. */
    lemma PlainParts(target: Outcome, future: seq<bool>)
      requires On(target, future) && !(state.PCode? || state.PSymbol? || state.PDist? || state.PFailed?)
      ensures Plain(target, future)
    {
    }

    lemma PlainOn(target: Outcome, future: seq<bool>)
      requires Plain(target, future)
      ensures On(target, future)
    {
    }

    ghost predicate Plain(target: Outcome, future: seq<bool>)
      reads this`final, this`cont, this`out, this`course, rd
    {
      && rd.cur <= |rd.input| && Leads(target, final, cont, rd.Rest() + future, out)
      && (!course.Straight? || rd.Lean() || rd.numBits < Wants(cont))
    }

    // ----- output -----

    /** `*pOut_buf_cur++ = c` */
    method PutByte(buf: array<Byte>, c: Byte)
      requires Output(buf) && outCur < outEnd
      modifies this`outCur, this`out, buf
      ensures Output(buf) && outCur == old(outCur) + 1 && out == old(out) + [c]
    {
      hide Shows;
      ghost var was: seq<Byte> := buf[..];
      ShowsPut(w, was, out, outCur, c);
      buf[outCur] := c;
      assert buf[..] == was[outCur := c];
      outCur, out := outCur + 1, out + [c];
    }

    lemma PutFacts()
      requires RawState() && state.PRawPut?
      ensures counter > 0 && dist < 256 && cont == InStoredByte(dist, counter - 1) && WellFormed(cont)
      ensures Wants(cont) == 0 && AwaitsRoom() && Rank(PRawPut) == Rank(PRawByte)
    {
    }

    /** The byte of a stored block that was read through the bit buffer. */
    method DoRawPut(buf: array<Byte>, ghost target: Outcome, ghost future: seq<bool>) returns (r: Signal)
      requires rd.Valid() && Output(buf) && Matches() && state.PRawPut? && On(target, future)
      modifies this`state, this`counter, this`cont, this`outCur, this`out, buf
      ensures Output(buf) && Matches() && On(target, future) && !r.NeedInput? && outCur <= outEnd
      ensures r.NeedRoom? ==> outCur == outEnd && AwaitsRoom()
      ensures r.Continue? ==> outCur == old(outCur) + 1
      ensures r.Continue? ==> state != PSymbol(true)
    {
      hide *;
      ReaderFacts();
      RawFacts();
      PutFacts();
      OutputBounds(buf);
      OnParts(target, future);
      if outCur >= outEnd {
        return NeedRoom;
      }
      LeanHere();
      ghost var was, o := cont, out;
      StepStoredPut(w, final, dist, counter - 1, rd.Rest() + future, out);
      PutByte(buf, dist);
      counter, state := counter - 1, PRawByte;
      cont := InStored(counter);
      IsSimple();
      LeanIsTight();
      Moved(target, future, final, was, rd.Rest(), o);
      OutputBounds(buf);
      r := Continue;
    }

    /** Whole bytes: first there must be room. */
    method DoRawRoom(ghost target: Outcome, ghost future: seq<bool>) returns (r: Signal)
      requires rd.Valid() && Matches() && state.PRawRoom? && On(target, future) && outCur <= outEnd
      modifies this`state, this`cont
      ensures Matches() && On(target, future) && !r.NeedInput?
      ensures r.NeedRoom? ==> outCur == outEnd && AwaitsRoom()
      ensures r.NeedRoom? <==> old(counter) > 0 && outCur == outEnd
      ensures r.Continue? ==> Left() < old(Left())
      ensures r.Continue? ==> state != PSymbol(true)
    {
      hide Resume, Meets, Reader.Valid, Reader.Rest, Reader.Lean, On, Tight, Matches, Plain;
      RawFacts();
      r := Continue;
      if counter == 0 {
        EndBlock(target, future);
      } else if outCur >= outEnd {
        r := NeedRoom;
      } else {
        PlainParts(target, future);
        state := PRawInput;
        RawMatches();
        PlainOn(target, future);
      }
    }

    /** Then as many bytes as there are and as fit. */
    method DoRawInput(buf: array<Byte>, ghost target: Outcome, ghost future: seq<bool>) returns (r: Signal)
      requires rd.Valid() && Output(buf) && Matches() && state.PRawInput? && On(target, future)
      modifies this`state, this`counter, this`cont, this`outCur, this`out, rd`cur, buf
      ensures rd.Valid() && Output(buf) && Matches() && On(target, future) && outCur <= outEnd
      ensures r.NeedInput? ==> Stuck()
      ensures r.NeedRoom? ==> outCur == outEnd && AwaitsRoom()
      ensures r.Continue? ==> |rd.Rest()| < old(|rd.Rest()|)
      ensures r.Continue? ==> state != PSymbol(true)
    {
      hide Resume, Meets, Reader.Valid, Reader.Rest, Reader.Lean, On, Tight, Matches, Shows, Plain, Stuck;
      ReaderFacts();
      RawFacts();
      PlainParts(target, future);
      r := Continue;
      if rd.cur >= |rd.input| {
        StuckOnField();
        return NeedInput;
      }
      var n := Min(Min(outEnd - outCur, |rd.input| - rd.cur), counter);
      state := PRawRoom;
      if n == 0 {
        RawMatches();
        PlainOn(target, future);
        return NeedRoom;
      }
      CopyRaw(buf, n, target, future);
    }

    /** TINFL_MEMCPY from the input to the output. */
    method PutBytes(buf: array<Byte>, n: nat)
      requires Output(buf) && outCur + n <= outEnd && rd.cur + n <= |rd.input|
      modifies this`outCur, this`out, buf
      ensures Output(buf) && out == old(out) + rd.input[rd.cur..rd.cur + n] && outCur == old(outCur) + n
    {
      hide Output, Shows;
      ghost var o, data := out, rd.input[rd.cur..rd.cur + n];
      var i := 0;
      while i < n
        invariant 0 <= i <= n && Output(buf) && out == o + data[..i] && outCur == old(outCur) + i
      {
        PutByte(buf, rd.input[rd.cur + i]);
        assert data[..i] + [data[i]] == data[..i + 1];
        i := i + 1;
      }
      assert data[..i] == data;
    }

    method CopyRaw(buf: array<Byte>, n: nat, ghost target: Outcome, ghost future: seq<bool>)
      requires rd.Valid() && Output(buf) && rd.numBits == 0 && cont == InStored(counter) && state.PRawRoom?
      requires n <= counter && outCur + n <= outEnd && rd.cur + n <= |rd.input|
      requires Plain(target, future)
      modifies this`counter, this`cont, this`outCur, this`out, rd`cur, buf
      ensures rd.Valid() && Output(buf) && Matches() && On(target, future)
      ensures |rd.Rest()| + 8 * n == old(|rd.Rest()|)
    {
      hide Resume, Meets, Reader.Valid, Matches, Shows, Reader.Rest;
      ghost var before, o, from, data := rd.Rest(), out, rd.cur, rd.input[rd.cur..rd.cur + n];
      ghost var c0 := counter;
      PutBytes(buf, n);
      rd.TakeBytes(n);
      ReaderFacts();
      counter := counter - n;
      cont := InStored(counter);
      RawMatches();
      StoredAgain(target, future, c0, data, before, o);
    }

    lemma StoredAgain(target: Outcome, future: seq<bool>, n: nat, data: seq<Byte>, before: seq<bool>, o: seq<Byte>)
      requires |data| <= n && cont == InStored(n - |data|) && out == o + data && rd.cur <= |rd.input| && rd.numBits == 0
      requires before == ByteBits(data) + rd.Rest()
      requires Leads(target, final, InStored(n), before + future, o)
      ensures On(target, future)
    {
      hide *;
      StepStoredMany(w, final, n, data, rd.Rest() + future, o);
      assert before + future == ByteBits(data) + (rd.Rest() + future);
      StoredLeads(target, InStored(n), before + future, o, rd.Rest() + future);
      StoredTight();
      IsOn(target, future);
    }

    /** Whoever goes on in the same way leads to the same outcome. */
    lemma StoredLeads(target: Outcome, c: Rest, bits: seq<bool>, o: seq<Byte>, rest: seq<bool>)
      requires Leads(target, final, c, bits, o) && cont.InStored?
      requires Resume(w, final, c, bits, o) == Resume(w, final, cont, rest, out)
      ensures Leads(target, final, cont, rest, out)
    {
      hide Resume, Meets;
    }

    lemma StoredTight()
      requires rd.numBits == 0
      ensures Tight()
    {
    }

    lemma IsOn(target: Outcome, future: seq<bool>)
      requires rd.cur <= |rd.input| && Tight() && Leads(target, final, cont, rd.Rest() + future, out)
      ensures On(target, future)
    {
      hide Tight, Leads, Reader.Rest;
    }

    // ----- dynamic headers -----

    lemma HeaderParts()
      requires Matches() && (state.PCount? || state.PSize?)
      ensures HeaderState() && WellFormed(cont)
    {
    }

    lemma IsHeader()
      requires HeaderState()
      ensures Matches()
    {
    }

    /** HLIT, HDIST and HCLEN. */
    method DoCount(ghost target: Outcome, ghost future: seq<bool>) returns (r: Signal)
      requires Shape() && rd.Valid() && Matches() && state.PCount? && On(target, future)
      modifies this`state, this`counter, this`tableSizes, this`cont, rd`cur, rd`bitBuf, rd`numBits, len.codeSize
      ensures rd.Valid() && Matches() && On(target, future) && !r.NeedRoom?
      ensures r.NeedInput? ==> Stuck()
      ensures r.Continue? ==>
        |rd.Rest()| < old(|rd.Rest()|)
        || (|rd.Rest()| == old(|rd.Rest()|) && Left() < old(Left()))
      ensures r.Continue? ==> state != PSymbol(true)
    {
      hide Resume, Meets, Reader.Valid, Reader.Rest, Reader.Lean, On, Tight, Stuck, Took, Matches, FromBits;
      HeaderParts();
      r := Continue;
      if counter < 3 {
        var ok, v;
        ghost var before;
        ok, v, before := ReadField(HeaderBits(counter), target, future);
        if !ok {
          IsHeader();
          return NeedInput;
        }
        TakeCount(v, before, target, future);
      } else {
        StartSizes(target, future);
      }
    }

    method TakeCount(v: nat, ghost before: seq<bool>, ghost target: Outcome, ghost future: seq<bool>)
      requires rd.cur <= |rd.input| && state.PCount? && cont == InCounts(tableSizes) && counter == |tableSizes| < 3
        && SizesInRange()
      requires Took(before + future, HeaderBits(counter), v, rd.Rest() + future)
      requires Leads(target, final, cont, before + future, out) && (!course.Straight? || rd.Lean())
      modifies this`counter, this`tableSizes, this`cont
      ensures Matches() && On(target, future)
    {
      hide Resume, Meets, Reader.Rest, Reader.Lean, On, Tight, Took, Matches, FromBits;
      StepCount(w, final, tableSizes, v, before + future, rd.Rest() + future, out);
      FieldBelow(before + future, HeaderBits(counter), v, rd.Rest() + future);
      tableSizes := tableSizes + [v + HeaderMin(counter)];
      counter := counter + 1;
      cont := InCounts(tableSizes);
      IsHeader();
      Arrives(target, future);
    }

    lemma FieldBelow(before: seq<bool>, n: nat, v: nat, after: seq<bool>)
      requires Took(before, n, v, after) && (n == 3 || n == 4 || n == 5)
      ensures v < if n == 3 then 8 else if n == 4 then 16 else 32
    {
      ToFromBits(before[..n]);
      Pow2Values();
    }

    method StartSizes(ghost target: Outcome, ghost future: seq<bool>)
      requires Shape() && rd.Valid() && HeaderState() && state.PCount? && counter == 3 && On(target, future)
      modifies this`state, this`counter, this`cont, len.codeSize
      ensures Matches() && On(target, future) && state.PSize?
    {
      hide Resume, Meets, LeadsIf, Reader.Valid, Reader.Rest, Reader.Lean, On, Tight, Matches;
      ReaderFacts();
      OnParts(target, future);
      LeanHere();
      StepCountsDone(w, final, tableSizes, rd.Rest() + future, out);
      ghost var was := cont;
      ClearLenSizes();
      counter, state, cont := 0, PSize, InSizes(tableSizes, []);
      IsHeader();
      LeanIsTight();
      Moved(target, future, final, was, rd.Rest(), out);
    }

    method ClearLenSizes()
      requires len.codeSize.Length == 19
      modifies len.codeSize
      ensures len.codeSize[..] == Dezigzag([], 0)
    {
      var i := 0;
      while i < 19
        invariant 0 <= i <= 19 && forall k :: 0 <= k < i ==> len.codeSize[k] == 0
      {
        len.codeSize[i] := 0;
        i := i + 1;
      }
    }

    /** The lengths of the code length code. */
    method DoSize(ghost target: Outcome, ghost future: seq<bool>) returns (r: Signal)
      requires Shape() && rd.Valid() && Matches() && state.PSize? && On(target, future)
      modifies this`state, this`counter, this`cont, rd`cur, rd`bitBuf, rd`numBits, len, len.codeSize, len.lookUp,
        len.tree
      ensures rd.Valid() && Matches() && On(target, future) && !r.NeedRoom?
      ensures r.NeedInput? ==> Stuck()
      ensures r.Continue? ==>
        |rd.Rest()| < old(|rd.Rest()|)
        || (|rd.Rest()| == old(|rd.Rest()|) && Left() < old(Left()))
      ensures r.Continue? ==> state != PSymbol(true)
    {
      hide Resume, Meets, LeadsIf, Reader.Valid, Reader.Rest, Reader.Lean, On, Tight, Stuck, Took, Matches, FromBits,
        Dezigzag, Shape, DecoderTable.Table.Valid;
      HeaderParts();
      r := Continue;
      if counter < tableSizes[2] {
        var ok, v;
        ghost var before;
        ok, v, before := ReadField(3, target, future);
        if !ok {
          IsHeader();
          return NeedInput;
        }
        TakeSize(v, before, target, future);
      } else {
        BuildLen(target, future);
      }
    }

    /** `r->m_code_size_2[s_length_dezigzag[counter]] = (mz_uint8)s` */
    method TakeSize(v: nat, ghost before: seq<bool>, ghost target: Outcome, ghost future: seq<bool>)
      requires rd.cur <= |rd.input| && HeaderState() && state.PSize? && counter < tableSizes[2]
      requires Took(before + future, 3, v, rd.Rest() + future)
      requires Leads(target, final, cont, before + future, out) && (!course.Straight? || rd.Lean())
      modifies this`counter, this`cont, len.codeSize
      ensures Matches() && On(target, future)
    {
      hide Resume, Meets, LeadsIf, Reader.Rest, Reader.Lean, On, Tight, Took, Matches, FromBits, Dezigzag;
      StepSize(w, final, tableSizes, cont.got, v, before + future, rd.Rest() + future, out);
      FieldBelow(before + future, 3, v, rd.Rest() + future);
      ghost var was, z := cont, len.codeSize[..];
      DezigzagStep(cont.got, v);
      len.codeSize[Zigzag(counter)] := v;
      assert len.codeSize[..] == z[Zigzag(counter) := v];
      counter := counter + 1;
      cont := InSizes(tableSizes, cont.got + [v]);
      IsHeader();
      LeanIsTight();
      Moved(target, future, final, was, before, out);
    }

    lemma DezigzagStep(got: seq<nat>, v: nat)
      ensures Dezigzag(got + [v], |got| + 1) == Dezigzag(got, |got|)[Zigzag(|got|) := v]
    {
      DezigzagPrefix(got, v, |got|);
    }

    lemma {:induction false} DezigzagPrefix(got: seq<nat>, v: nat, n: nat)
      requires n <= |got|
      ensures Dezigzag(got + [v], n) == Dezigzag(got, n)
    {
      if n > 0 {
        DezigzagPrefix(got, v, n - 1);
      }
    }

    lemma LenParts()
      requires Matches() && (state.PCode? || state.PRepeat?)
      ensures LengthsState() && WellFormed(cont)
    {
    }

    lemma SizeFacts()
      requires HeaderState() && state.PSize?
      ensures cont.InSizes? && cont.counts == tableSizes && |tableSizes| == 3 && SizesInRange() && counter == |cont.got|
      ensures len.codeSize.Length == 19 && len.codeSize[..] == Dezigzag(cont.got, counter)
      ensures forall i :: 0 <= i < 19 ==> len.codeSize[i] <= 7
    {
    }

    lemma LengthsStart()
      requires state == PCode(false) && counter == 0 && |tableSizes| == 3 && SizesInRange() && len.Ready()
        && lenCodes.Length == LEN_CODES
      requires |len.sizes| <= 19
      requires cont == InLengths(tableSizes, len.sizes, [])
      ensures Matches()
    {
      assert lenCodes[..0] == [];
    }

    /** The table of the code length code. */
    method BuildLen(ghost target: Outcome, ghost future: seq<bool>)
      requires Shape() && rd.Valid() && HeaderState() && state.PSize? && counter == tableSizes[2] && On(target, future)
      modifies this`state, this`counter, this`cont, len, len.lookUp, len.tree
      ensures Matches() && On(target, future) && (state.PCode? || state.PFailed?)
    {
      hide Resume, Meets, Reader.Valid, Reader.Rest, Reader.Lean, On, Tight, Matches, Dezigzag,
        DecoderTable.Table.Ready, Acceptable, HeaderState, LengthsState, SizesInRange;
      SizeFacts();
      ghost var z := len.codeSize[..];
      assert z == len.codeSize[..19];
      var ok := len.Build(19);
      StartLengths(ok, z, target, future);
    }

    method StartLengths(ok: bool, ghost z: seq<nat>, ghost target: Outcome, ghost future: seq<bool>)
      requires rd.Valid() && cont.InSizes? && cont.counts == tableSizes && |tableSizes| == 3 && SizesInRange()
      requires |cont.got| == tableSizes[2] && Dezigzag(cont.got, |cont.got|) == z && lenCodes.Length == LEN_CODES
      requires ok == Acceptable(z) && (ok ==> len.Ready() && len.sizes == z) && |z| == 19
      requires state.PSize? && On(target, future)
      modifies this`state, this`counter, this`cont
      ensures Matches() && On(target, future) && (state.PCode? || state.PFailed?)
    {
      hide Resume, Meets, LeadsIf, Reader.Valid, Reader.Rest, Reader.Lean, On, Tight, Matches, Dezigzag,
        DecoderTable.Table.Ready, Acceptable, HeaderState, LengthsState, SizesInRange;
      ReaderFacts();
      OnParts(target, future);
      LeanHere();
      ghost var was := cont;
      StepSizesDone(w, final, tableSizes, cont.got, rd.Rest() + future, out);
      counter := 0;
      if ok {
        state, cont := PCode(false), InLengths(tableSizes, z, []);
        LengthsStart();
      } else {
        state, cont := PFailed, Broken;
        IsSimple();
      }
      LeanIsTight();
      Moved(target, future, final, was, rd.Rest(), out);
    }

    // ----- Huffman codes -----

    function Filling(): bool
      reads this`state
    {
      state == PCode(true) || state == PSymbol(true) || state == PDist(true)
    }

    /** It has something to output before it reads on. */
    predicate AwaitsRoom()
      reads this`state, this`counter
    {
      state.PRawPut? || (state.PRawRoom? && counter > 0) || state.PLiteral? || state.PCopy?
    }

    lemma CodeTight(z: seq<nat>)
      requires Tight() && Wants(cont) == 0 && (Filling() ==> Undecided(z, rd.Held()))
      ensures rd.Lean() || Undecided(z, rd.Held())
    {
    }

    /** What is known once a symbol of the code z has been read. */
    ghost predicate CodeRead(target: Outcome, future: seq<bool>, z: seq<nat>, before: seq<bool>, sym: nat)
      reads this`final, this`cont, this`out, this`course, rd
    {
      && rd.cur <= |rd.input| && |rd.Rest()| <= |before|
      && (sym == 0 || (sym < |z| && |rd.Rest()| < |before|))
      && Leads(target, final, cont, before + future, out)
      && match NextSymbol(z, before + future)
         case Sym(s, n) =>
           sym == s && n <= |before| && rd.Rest() + future == (before + future)[n..] && (!course.Straight? || rd.Lean())
         case NoEntry => sym == 0 && rd.Rest() == before
         case NeedBits => false
    }

    /** Why a symbol could not be read. */
    ghost predicate CodeWaits(target: Outcome, future: seq<bool>, z: seq<nat>)
      reads this`final, this`cont, this`out, this`course, rd
    {
      && rd.cur == |rd.input| && rd.numBits < MAX_CODE_SIZE && Undecided(z, rd.Held())
      && Leads(target, final, cont, rd.Rest() + future, out)
      && Resume(w, final, cont, rd.Rest(), out).Truncated?
    }

    /** TINFL_HUFF_DECODE at the current point. */
    method ReadCode(t: DecoderTable.Table, ghost target: Outcome, ghost future: seq<bool>)
      returns (ok: bool, sym: nat, ghost before: seq<bool>)
      requires rd.Valid() && t.Ready() && WellFormed(cont) && AtCode(cont) && InflateResume.Table(cont) == t.sizes
      requires (state.PCode? || state.PSymbol? || state.PDist?) && Waits(Filling(), t) && On(target, future)
      modifies rd`cur, rd`bitBuf, rd`numBits
      ensures rd.Valid() && before == old(rd.Rest())
      ensures ok ==> CodeRead(target, future, t.sizes, before, sym)
      ensures !ok ==> CodeWaits(target, future, t.sizes)
    {
      hide Resume, Meets, Reader.Valid, Reader.Rest, Reader.Held, Reader.Lean, On, Tight, Undecided, Decoded,
        DecoderTable.Table.Ready, CodeRead, CodeWaits;
      ReaderFacts();
      OnParts(target, future);
      before := rd.Rest();
      if course.Straight? {
        CodeTight(t.sizes);
      }
      ghost var tight := rd.Lean() || Undecided(t.sizes, rd.Held());
      ok, sym := rd.HuffDecode(t, Filling(), future);
      ReaderFacts();
      if ok {
        DecodedLean(t.sizes, before, future, sym, rd.Rest(), tight ==> rd.Lean(), !course.Straight? || rd.Lean());
        CodeIsRead(target, future, t.sizes, before, sym);
      } else {
        CodeIsStuck(target, future, t.sizes);
      }
    }

    lemma CodeIsRead(target: Outcome, future: seq<bool>, z: seq<nat>, before: seq<bool>, sym: nat)
      requires rd.cur <= |rd.input| && Decoded(z, before, future, sym, rd.Rest(), !course.Straight? || rd.Lean())
      requires Leads(target, final, cont, before + future, out)
      ensures CodeRead(target, future, z, before, sym)
    {
      hide Leads, Reader.Rest, NextSymbol, Reader.Lean;
      if NextSymbol(z, before + future).Sym? {
        var n := NextSymbol(z, before + future).len;
        assert (before + future)[n..] == before[n..] + future;
      }
    }

    lemma DecodedLean(z: seq<nat>, before: seq<bool>, future: seq<bool>, sym: nat, after: seq<bool>, a: bool, b: bool)
      requires Decoded(z, before, future, sym, after, a) && (a ==> b)
      ensures Decoded(z, before, future, sym, after, b)
    {
      hide NextSymbol;
    }

    lemma CodeIsStuck(target: Outcome, future: seq<bool>, z: seq<nat>)
      requires WellFormed(cont) && AtCode(cont) && InflateResume.Table(cont) == z && rd.cur == |rd.input|
        && rd.numBits < MAX_CODE_SIZE
      requires Undecided(z, rd.Held()) && rd.Rest() == rd.Held()
      requires Leads(target, final, cont, rd.Rest() + future, out)
      ensures CodeWaits(target, future, z)
    {
      hide Resume, Meets, Leads, Reader.Rest, Reader.Held, NextSymbol;
      StuckCode(w, final, cont, rd.Rest(), out);
    }

    lemma WaitsOn(target: Outcome, future: seq<bool>, z: seq<nat>)
      requires Filling() && CodeWaits(target, future, z)
      ensures On(target, future) && Stuck()
    {
    }

    // ----- the code lengths of a dynamic block -----

    /** One code length, or the start of a repetition. */
    method DoCode(ghost target: Outcome, ghost future: seq<bool>) returns (r: Signal)
      requires Shape() && rd.Valid() && Matches() && state.PCode? && On(target, future)
      modifies this`state, this`counter, this`dist, this`numExtra, this`cont, this`course, rd`cur, rd`bitBuf, rd`numBits
      modifies lenCodes, lit.codeSize, dst.codeSize
      ensures rd.Valid() && Matches() && On(target, future) && !r.NeedRoom?
      ensures course == old(course) || course.Loose?
      ensures r.NeedInput? ==> Stuck()
      ensures r.Continue? ==>
        |rd.Rest()| < old(|rd.Rest()|)
        || (|rd.Rest()| == old(|rd.Rest()|) && Left() < old(Left()))
      ensures r.Continue? ==> state != PSymbol(true)
    {
      hide Resume, Meets, Reader.Valid, Reader.Rest, Reader.Lean, On, Tight, Stuck, Matches, CodeRead, CodeWaits,
        LenBase, Shape, DecoderTable.Table.Ready, Leads, LeadsIf, GivenUp, NextSymbol;
      LenParts();
      LenBaseFacts();
      if counter < tableSizes[0] + tableSizes[1] {
        var ok, sym;
        ghost var before;
        ok, sym, before := ReadCode(len, target, future);
        if !ok {
          state := PCode(true);
          WaitsOn(target, future, len.sizes);
          WaitsLen(target, future);
          return NeedInput;
        }
        ghost var c := counter;
        CodeTarget(target, future, len.sizes, before, sym);
        TakeCode(sym, before, target, future);
        LeftCode(c);
      } else {
        EndLengths(target, future);
      }
      r := Continue;
    }

    lemma LeftCode(c: nat)
      ensures state.PCode? && counter == c + 1 <= LEN_CODES ==> Left() == 1000 * Rank(PCode(false)) + LEN_CODES - c - 1
    {
    }

    lemma LenBaseFacts()
      requires LenBase()
      ensures |tableSizes| == 3 && SizesInRange() && len.Ready() && |len.sizes| <= 19 && lenCodes.Length == LEN_CODES
      ensures counter <= LEN_CODES
    {
    }

    lemma WaitsLen(target: Outcome, future: seq<bool>)
      requires state == PCode(true) && CodeWaits(target, future, len.sizes) && LenBase() && cont.InLengths?
      requires Lengths(cont.counts, cont.z, cont.got) && counter < tableSizes[0] + tableSizes[1]
      ensures Matches()
    {
    }

    lemma CodeTarget(target: Outcome, future: seq<bool>, z: seq<nat>, before: seq<bool>, sym: nat)
      requires CodeRead(target, future, z, before, sym)
      ensures rd.cur <= |rd.input| && |rd.Rest()| <= |before| && Leads(target, final, cont, before + future, out)
      ensures sym == 0 || (sym < |z| && |rd.Rest()| < |before|)
      ensures NextSymbol(z, before + future).NoEntry? ==> sym == 0 && rd.Rest() == before
      ensures !NextSymbol(z, before + future).NoEntry? ==>
        NextSymbol(z, before + future).Sym? && NextSymbol(z, before + future).s == sym
        && NextSymbol(z, before + future).len <= |before|
        && rd.Rest() + future == (before + future)[NextSymbol(z, before + future).len..]
          && (!course.Straight? || rd.Lean())
    {
      hide Leads, NextSymbol, Reader.Rest;
    }

    /** Where it has arrived is where the bits lead. */
    lemma Leading(target: Outcome, future: seq<bool>)
      requires rd.cur <= |rd.input| && LeadsIf(course, target, final, cont, rd.Rest() + future, out)
      ensures Leads(target, final, cont, rd.Rest() + future, out)
    {
      hide LeadsIf;
    }

    lemma Arrives(target: Outcome, future: seq<bool>)
      requires rd.cur <= |rd.input|
      requires Leads(target, final, cont, rd.Rest() + future, out) && (!course.Straight? || rd.Lean())
      ensures On(target, future)
    {
      hide Leads;
    }

    /** `r->m_len_codes[counter++] = (mz_uint8)dist` */
    method StoreLength(size: nat, ghost counts: seq<nat>, ghost z: seq<nat>, ghost got: seq<nat>)
      requires LenBase() && Lengths(counts, z, got) && counter < 320 && size <= 15
      modifies this`counter, lenCodes
      ensures LenBase() && Lengths(counts, z, got + [size]) && counter == old(counter) + 1
    {
      hide DecoderTable.Table.Ready;
      lenCodes[counter] := size;
      counter := counter + 1;
    }

    lemma IsRepeat(counts: seq<nat>, z: seq<nat>, got: seq<nat>)
      requires state.PRepeat? && cont == InRepeat(counts, z, got, dist) && 16 <= dist <= 18
        && numExtra == RepeatBits(dist)
      requires LenBase() && Lengths(counts, z, got) && counter < tableSizes[0] + tableSizes[1]
        && (dist == 16 ==> counter > 0)
      ensures Matches()
    {
    }

    lemma IsCode(counts: seq<nat>, z: seq<nat>, got: seq<nat>)
      requires state == PCode(false) && cont == InLengths(counts, z, got) && LenBase() && Lengths(counts, z, got)
      ensures Matches()
    {
    }

    lemma LengthsEmpty(counts: seq<nat>, z: seq<nat>, got: seq<nat>)
      requires Lengths(counts, z, got)
      ensures |got| == counter && |counts| == 3 && |tableSizes| >= 2 && z == len.sizes
      ensures counts[0] == tableSizes[0] && counts[1] == tableSizes[1]
    {
    }

    function AfterCode(counts: seq<nat>, z: seq<nat>, got: seq<nat>, sym: nat): Rest {
      if sym < 16 then InLengths(counts, z, got + [sym]) else if sym == 16 && |got| == 0 then Broken
        else InRepeat(counts, z, got, sym)
    }

    lemma CodeMoves(sym: nat, before: seq<bool>, target: Outcome, future: seq<bool>)
      requires cont.InLengths? && |cont.counts| == 3 && |cont.got| < cont.counts[0] + cont.counts[1]
        && cont.z == len.sizes
      requires CodeRead(target, future, len.sizes, before, sym)
      ensures rd.cur <= |rd.input| && |rd.Rest()| <= |before|
        && (sym == 0 || (sym < |len.sizes| && |rd.Rest()| < |before|))
      ensures var now := if NextSymbol(len.sizes, before + future).NoEntry? then Stray(course) else course;
        LeadsIf(now, target, final, AfterCode(cont.counts, cont.z, cont.got, sym), rd.Rest() + future, out)
        && (!now.Straight? || rd.Lean())
    {
      hide Resume, Meets, Reader.Rest, Reader.Lean, CodeRead, NextSymbol;
      CodeTarget(target, future, len.sizes, before, sym);
      if NextSymbol(len.sizes, before + future).NoEntry? {
        StepCodeNone(w, final, cont.counts, cont.z, cont.got, before + future, out);
        MeetsLoosely(target, course, Resume(w, final, cont, before + future, out),
          Resume(w, final, InLengths(cont.counts, cont.z, cont.got + [0]), before + future, out));
      } else {
        StepCode(w, final, cont.counts, cont.z, cont.got, sym, before + future, rd.Rest() + future, out);
      }
    }

    method TakeCode(sym: nat, ghost before: seq<bool>, ghost target: Outcome, ghost future: seq<bool>)
      requires rd.cur <= |rd.input| && |tableSizes| == 3 && |len.sizes| <= 19
      requires counter < tableSizes[0] + tableSizes[1] <= 320 && state.PCode? && cont.InLengths?
      requires CodeRead(target, future, len.sizes, before, sym)
      requires Lengths(cont.counts, cont.z, cont.got)
      requires LenBase()
      modifies this`state, this`counter, this`dist, this`numExtra, this`cont, this`course, lenCodes
      ensures course == old(course) || course.Loose?
      ensures Matches() && On(target, future)
      ensures |rd.Rest()| < |before| || (|rd.Rest()| == |before| && state.PCode? && counter == old(counter) + 1)
      ensures state != PSymbol(true)
    {
      hide Resume, Meets, LeadsIf, Reader.Rest, Reader.Lean, On, Matches, CodeRead, LenBase, NextSymbol, Lengths;
      ghost var counts, z, got := cont.counts, cont.z, cont.got;
      LengthsEmpty(counts, z, got);
      CodeMoves(sym, before, target, future);
      course := if NextSymbol(len.sizes, before + future).NoEntry? then Stray(course) else course;
      PlaceCode(sym, counts, z, got);
      Arrives(target, future);
    }

    /** What a code length symbol leads to. */
    method PlaceCode(sym: nat, ghost counts: seq<nat>, ghost z: seq<nat>, ghost got: seq<nat>)
      requires |tableSizes| == 3 && sym < 19 && counter < tableSizes[0] + tableSizes[1] <= 320 && state.PCode?
      requires LenBase() && Lengths(counts, z, got) && |got| == counter
      modifies this`state, this`counter, this`dist, this`numExtra, this`cont, lenCodes
      ensures Matches() && cont == AfterCode(counts, z, got, sym)
      ensures sym < 16 ==> state.PCode? && counter == old(counter) + 1
      ensures state != PSymbol(true)
    {
      hide Matches, LenBase, Lengths;
      if sym < 16 {
        StoreLength(sym, counts, z, got);
        state, cont := PCode(false), InLengths(counts, z, got + [sym]);
        IsCode(counts, z, got + [sym]);
      } else if sym == 16 && counter == 0 {
        state, cont := PFailed, Broken;
        IsSimple();
      } else {
        dist, numExtra := sym, RepeatBits(sym);
        state, cont := PRepeat, InRepeat(counts, z, got, sym);
        IsRepeat(counts, z, got);
      }
    }

    lemma NotFilling()
      ensures Waits(false, len) && Waits(false, lit) && Waits(false, dst)
    {
    }

    lemma RepeatFacts()
      requires Matches() && state.PRepeat?
      ensures LenBase() && |tableSizes| == 3 && tableSizes[0] + tableSizes[1] <= 320
        && counter < tableSizes[0] + tableSizes[1]
      ensures cont.InRepeat? && Lengths(cont.counts, cont.z, cont.got) && WellFormed(cont)
      ensures cont.s == dist && 16 <= dist <= 18 && numExtra == RepeatBits(dist) && (dist == 16 ==> counter > 0)
    {
      hide DecoderTable.Table.Ready, HeaderState, RawState, SymbolsState, TablesState, Waits, Lengths;
    }

    /** A repetition's count. */
    method DoRepeat(ghost target: Outcome, ghost future: seq<bool>) returns (r: Signal)
      requires rd.Valid() && Matches() && state.PRepeat? && On(target, future)
      modifies this`state, this`counter, this`cont, rd`cur, rd`bitBuf, rd`numBits, lenCodes
      ensures rd.Valid() && Matches() && On(target, future) && !r.NeedRoom?
      ensures r.NeedInput? ==> Stuck()
      ensures r.Continue? ==> |rd.Rest()| < old(|rd.Rest()|)
      ensures r.Continue? ==> state != PSymbol(true)
    {
      hide Resume, Meets, Reader.Valid, Reader.Rest, Reader.Lean, On, Tight, Stuck, Matches, Took, LenBase, Lengths,
        RepeatBase, RepeatSize;
      RepeatFacts();
      ghost var counts, z, got := cont.counts, cont.z, cont.got;
      LengthsEmpty(counts, z, got);
      var ok, v;
      ghost var before;
      ok, v, before := ReadField(numExtra, target, future);
      if !ok {
        IsRepeat(counts, z, got);
        return NeedInput;
      }
      StepRepeat(w, final, counts, z, got, dist, v, before + future, rd.Rest() + future, out);
      RepeatBelow(before + future, dist, v, rd.Rest() + future);
      FillLengths(v + RepeatBase(dist), counts, z, got);
      state, cont := PCode(false), InLengths(counts, z, got + Times(RepeatSize(dist, got), v + RepeatBase(dist)));
      IsCode(counts, z, cont.got);
      Arrives(target, future);
      r := Continue;
    }

    lemma RepeatBelow(before: seq<bool>, s: nat, v: nat, after: seq<bool>)
      requires Took(before, RepeatBits(s), v, after) && 16 <= s <= 18
      ensures v + RepeatBase(s) <= 138
    {
      ToFromBits(before[..RepeatBits(s)]);
      Pow2Values();
    }

    /** `TINFL_MEMSET(r->m_len_codes + counter, (dist == 16) ? r->m_len_codes[counter - 1] : 0, s)`: the array has room
        for the longest repetition behind the last length. */
    method FillLengths(n: nat, ghost counts: seq<nat>, ghost z: seq<nat>, ghost got: seq<nat>)
      requires LenBase() && Lengths(counts, z, got)
      requires counter < 320 && n <= 138 && 16 <= dist <= 18 && (dist == 16 ==> counter > 0)
      modifies this`counter, lenCodes
      ensures LenBase() && Lengths(counts, z, got + Times(RepeatSize(dist, got), n)) && counter == old(counter) + n
    {
      hide DecoderTable.Table.Ready;
      var size := if dist == 16 then lenCodes[counter - 1] else 0;
      var i := 0;
      while i < n
        invariant 0 <= i <= n && counter == old(counter) && lenCodes[..counter] == got
        invariant forall k :: counter <= k < counter + i ==> lenCodes[k] == size
      {
        lenCodes[counter + i] := size;
        i := i + 1;
      }
      counter := counter + n;
      assert lenCodes[..counter] == got + Times(size, n);
    }

    /** All lengths are read: they must be exactly as many as announced, and go to the two tables. */
    method EndLengths(ghost target: Outcome, ghost future: seq<bool>)
      requires Shape() && rd.Valid() && LenBase() && cont.InLengths? && Lengths(cont.counts, cont.z, cont.got)
        && state == PCode(false)
      requires |tableSizes| == 3 && tableSizes[0] <= 288 && tableSizes[1] <= 32
        && counter >= tableSizes[0] + tableSizes[1]
      requires On(target, future)
      modifies this`state, this`cont, lit.codeSize, dst.codeSize
      ensures Matches() && On(target, future) && (state.PTables? || state.PFailed?)
    {
      hide Resume, Meets, Reader.Valid, Reader.Rest, Reader.Lean, On, Tight, Matches, LenBase, Lengths, Shape;
      ReaderFacts();
      ShapeLengths();
      ghost var counts, z, got := cont.counts, cont.z, cont.got;
      LengthsEmpty(counts, z, got);
      OnParts(target, future);
      LeanAtCode();
      StepLengthsDone(w, final, counts, z, got, rd.Rest() + future, out);
      if tableSizes[0] + tableSizes[1] != counter {
        state, cont := PFailed, Broken;
        IsSimple();
      } else {
        CopyLengths(counts, z, got);
        state, cont := PTables, InTables(got[..tableSizes[0]], got[tableSizes[0]..]);
        TablesRead();
      }
      Arrives(target, future);
    }

    lemma ShapeLengths()
      requires Shape()
      ensures lit.codeSize.Length == 288 && dst.codeSize.Length == 32 && lenCodes != lit.codeSize
        && lenCodes != dst.codeSize
    {
    }

    lemma TablesRead()
      requires state.PTables? && cont.InTables? && |tableSizes| == 3 && tableSizes[0] <= 288 && tableSizes[1] <= 32
        && LenBase()
      requires lit.codeSize.Length == 288 && dst.codeSize.Length == 32
      requires cont.lit == lit.codeSize[..tableSizes[0]] && cont.dst == dst.codeSize[..tableSizes[1]]
      requires (forall i :: 0 <= i < |cont.lit| ==> cont.lit[i] <= 15)
        && (forall i :: 0 <= i < |cont.dst| ==> cont.dst[i] <= 15)
      ensures Matches()
    {
      hide DecoderTable.Table.Ready;
    }

    lemma LeanAtCode()
      requires Wants(cont) == 0 && !Filling()
      ensures Tight() ==> rd.Lean()
    {
    }

    method CopyLengths(ghost counts: seq<nat>, ghost z: seq<nat>, ghost got: seq<nat>)
      requires lit.codeSize.Length == 288 && dst.codeSize.Length == 32 && lenCodes != lit.codeSize
        && lenCodes != dst.codeSize
      requires |tableSizes| == 3 && tableSizes[0] <= 288 && tableSizes[1] <= 32
        && |got| == counter == tableSizes[0] + tableSizes[1]
      requires LenBase() && Lengths(counts, z, got)
      modifies lit.codeSize, dst.codeSize
      ensures lit.codeSize[..tableSizes[0]] == got[..tableSizes[0]]
        && dst.codeSize[..tableSizes[1]] == got[tableSizes[0]..]
      ensures forall i :: 0 <= i < |got| ==> got[i] <= 15
    {
      hide DecoderTable.Table.Ready;
      var m, n := tableSizes[0], tableSizes[1];
      var i := 0;
      while i < m
        invariant 0 <= i <= m && forall k :: 0 <= k < i ==> lit.codeSize[k] == lenCodes[k]
      {
        lit.codeSize[i] := lenCodes[i];
        i := i + 1;
      }
      i := 0;
      while i < n
        invariant 0 <= i <= n && forall k :: 0 <= k < i ==> dst.codeSize[k] == lenCodes[m + k]
        invariant forall k :: 0 <= k < m ==> lit.codeSize[k] == lenCodes[k]
      {
        dst.codeSize[i] := lenCodes[m + i];
        i := i + 1;
      }
    }

    // ----- the tables of a block -----

    lemma TablesParts()
      requires Matches() && state.PTables?
      ensures TablesState() && WellFormed(cont)
    {
      hide HeaderState, RawState, SymbolsState, LengthsState;
    }

    /** The distance table, then the literal table. */
    method BuildTables(m: nat, n: nat) returns (ok: bool)
      requires Shape() && m <= 288 && n <= 32
      requires (forall i :: 0 <= i < m ==> lit.codeSize[i] <= 15) && (forall i :: 0 <= i < n ==> dst.codeSize[i] <= 15)
      modifies lit, lit.lookUp, lit.tree, dst, dst.lookUp, dst.tree
      ensures ok <==> Acceptable(lit.codeSize[..m]) && Acceptable(dst.codeSize[..n])
      ensures ok ==> Coded() && lit.sizes == lit.codeSize[..m] && dst.sizes == dst.codeSize[..n]
    {
      hide Acceptable, Built, Fits;
      ok := dst.Build(n);
      if ok {
        ok := lit.Build(m);
      }
    }

    lemma IsSymbols()
      requires SymbolsState()
      ensures Matches() && WellFormed(cont)
    {
      hide DecoderTable.Table.Ready;
    }

    lemma SymbolStart()
      requires state == PSymbol(false) && Coded() && cont == InSymbols(lit.sizes, dst.sizes)
      ensures Matches() && WellFormed(cont)
    {
      hide DecoderTable.Table.Ready;
    }

    lemma TablesFacts()
      requires TablesState()
      ensures cont.InTables? && |tableSizes| >= 2 && tableSizes[0] <= 288 && tableSizes[1] <= 32
      ensures lit.codeSize.Length == 288 && dst.codeSize.Length == 32
      ensures cont.lit == lit.codeSize[..tableSizes[0]] && cont.dst == dst.codeSize[..tableSizes[1]]
      ensures forall i :: 0 <= i < |cont.lit| ==> cont.lit[i] <= 15
      ensures forall i :: 0 <= i < |cont.dst| ==> cont.dst[i] <= 15
    {
    }

    method DoTables(ghost target: Outcome, ghost future: seq<bool>)
      requires Shape() && rd.Valid() && Matches() && state.PTables? && On(target, future)
      modifies this`state, this`cont, lit, lit.lookUp, lit.tree, dst, dst.lookUp, dst.tree
      ensures Matches() && On(target, future) && (state.PSymbol? || state.PFailed?)
      ensures state != PSymbol(true)
    {
      hide *;
      ReaderFacts();
      TablesParts();
      TablesFacts();
      OnParts(target, future);
      RestFacts(cont);
      LeanHere();
      ghost var was := cont;
      StepTables(w, final, cont.lit, cont.dst, rd.Rest() + future, out);
      BelowLimit(lit.codeSize, tableSizes[0]);
      BelowLimit(dst.codeSize, tableSizes[1]);
      var ok := BuildTables(tableSizes[0], tableSizes[1]);
      if ok {
        state, cont := PSymbol(false), InSymbols(lit.sizes, dst.sizes);
        SymbolStart();
      } else {
        state, cont := PFailed, Broken;
        IsSimple();
      }
      RestFacts(cont);
      LeanIsTight();
      Moved(target, future, final, was, rd.Rest(), out);
    }

    lemma BelowLimit(a: array<nat>, n: nat)
      requires n <= a.Length && forall i :: 0 <= i < |a[..n]| ==> a[..n][i] <= 15
      ensures forall i :: 0 <= i < n ==> a[i] <= 15
    {
      forall i | 0 <= i < n
        ensures a[i] <= 15
      {
        assert a[..n][i] == a[i];
      }
    }

    // ----- symbols -----

    lemma SymbolParts()
      requires Matches() && (state.PSymbol? || state.PLiteral? || state.PLenExtra? || state.PDist? || state.PDistExtra?
        || state.PCopy?)
      ensures SymbolsState() && WellFormed(cont)
    {
      hide HeaderState, RawState, TablesState, LengthsState;
    }

    lemma SymbolMoves(sym: nat, before: seq<bool>, target: Outcome, future: seq<bool>)
      requires cont == InSymbols(lit.sizes, dst.sizes) && CodeRead(target, future, lit.sizes, before, sym)
      ensures rd.cur <= |rd.input| && |rd.Rest()| <= |before| && (sym == 0 || |rd.Rest()| < |before|)
      ensures var now := if NextSymbol(lit.sizes, before + future).NoEntry? then Padded else course;
        LeadsIf(now, target, final, AfterSymbol(lit.sizes, dst.sizes, final, sym), rd.Rest() + future, out)
        && (!now.Straight? || rd.Lean())
    {
      hide Resume, Meets, Reader.Rest, Reader.Lean, CodeRead, NextSymbol, Meets, LengthExtra, LengthBase;
      CodeTarget(target, future, lit.sizes, before, sym);
      if NextSymbol(lit.sizes, before + future).NoEntry? {
        StepSymbolNone(w, final, lit.sizes, dst.sizes, before + future, out);
        MeetsNone(target, course, BadCode(out, before + future), BadCode(out + [0], before + future));
      } else {
        StepSymbol(w, final, lit.sizes, dst.sizes, sym, before + future, rd.Rest() + future, out);
      }
    }

    /** What a literal/length symbol leads to. */
    method TakeSymbol(sym: nat, ghost before: seq<bool>, ghost target: Outcome, ghost future: seq<bool>)
      requires rd.cur <= |rd.input| && sym < 288 && cont == InSymbols(lit.sizes, dst.sizes)
      requires Coded() && CodeRead(target, future, lit.sizes, before, sym)
      modifies this`state, this`counter, this`numExtra, this`cont, this`course
      ensures Matches() && On(target, future) && state != PSymbol(true)
      ensures |rd.Rest()| < |before| || (|rd.Rest()| == |before| && state.PLiteral?)
      ensures course == old(course) || (course.Padded? && NextSymbol(lit.sizes, before + future).NoEntry?)
      ensures sym < 256 ==> state.PLiteral? && counter == sym
    {
      hide *;
      SymbolMoves(sym, before, target, future);
      course := if NextSymbol(lit.sizes, before + future).NoEntry? then Padded else course;
      if sym < 256 {
        counter, state := sym, PLiteral;
      } else if sym == 256 {
        state := if final then PEnd else PBlock;
      } else {
        numExtra, counter, state := LengthExtra(sym - 257), LengthBase(sym - 257), PLenExtra;
      }
      cont := AfterSymbol(lit.sizes, dst.sizes, final, sym);
      IsAfter(sym);
      Leading(target, future);
      Arrives(target, future);
    }

    lemma IsAfter(sym: nat)
      requires cont == AfterSymbol(lit.sizes, dst.sizes, final, sym)
      requires sym < 256 ==> state.PLiteral? && counter == sym
      requires sym == 256 ==> state == if final then PEnd else PBlock
      requires sym > 256 ==> state.PLenExtra? && numExtra == LengthExtra(sym - 257) && counter == LengthBase(sym - 257)
      requires Coded()
      ensures Matches()
    {
      hide DecoderTable.Table.Ready, LengthBase;
    }

    lemma WaitsLit(target: Outcome, future: seq<bool>)
      requires state == PSymbol(true) && CodeWaits(target, future, lit.sizes) && Coded()
        && cont == InSymbols(lit.sizes, dst.sizes)
      ensures Matches()
    {
      hide DecoderTable.Table.Ready;
    }

    lemma CodedFacts()
      requires Coded()
      ensures lit.Ready() && dst.Ready() && |lit.sizes| <= 288 && |dst.sizes| <= 32
    {
    }

    lemma SymbolFacts()
      requires Matches() && state.PSymbol?
      ensures Coded() && cont == InSymbols(lit.sizes, dst.sizes) && Waits(Filling(), lit) && WellFormed(cont)
    {
      hide HeaderState, RawState, TablesState, LengthsState, Coded;
    }

    /** Near the end of either buffer, one symbol at a time.  An empty entry is a literal 0 here, and takes no bits. */
    method DoSymbolSlow(ghost target: Outcome, ghost future: seq<bool>) returns (r: Signal)
      requires rd.Valid() && Matches() && state.PSymbol? && On(target, future)
      modifies this`state, this`counter, this`numExtra, this`cont, this`course, rd`cur, rd`bitBuf, rd`numBits
      ensures rd.Valid() && Matches() && On(target, future) && !r.NeedRoom?
      ensures course == old(course) || (course.Padded? && NextSymbol(lit.sizes, old(rd.Rest()) + future).NoEntry?)
      ensures r.NeedInput? ==> Stuck()
      ensures r.Continue? ==> |rd.Rest()| < old(|rd.Rest()|) || (|rd.Rest()| == old(|rd.Rest()|) && state.PLiteral?)
      ensures r.Continue? && NextSymbol(lit.sizes, old(rd.Rest()) + future).NoEntry? ==>
        state.PLiteral? && counter == 0 && rd.Rest() == old(rd.Rest())
      ensures r.Continue? ==> state != PSymbol(true)
    {
      hide Resume, Meets, Reader.Valid, Reader.Rest, Reader.Lean, On, Tight, Stuck, Matches, CodeRead, CodeWaits, Coded,
        Waits, DecoderTable.Table.Ready, NextSymbol;
      SymbolFacts();
      CodedFacts();
      var ok, sym;
      ghost var before;
      ok, sym, before := ReadCode(lit, target, future);
      if !ok {
        state := PSymbol(true);
        WaitsOn(target, future, lit.sizes);
        WaitsLit(target, future);
        return NeedInput;
      }
      CodeTarget(target, future, lit.sizes, before, sym);
      TakeSymbol(sym, before, target, future);
      r := Continue;
    }

    /** A decoded literal. */
    method DoLiteral(buf: array<Byte>, ghost target: Outcome, ghost future: seq<bool>) returns (r: Signal)
      requires rd.Valid() && Output(buf) && Matches() && state.PLiteral? && On(target, future)
      modifies this`state, this`cont, this`outCur, this`out, buf
      ensures Output(buf) && Matches() && On(target, future) && !r.NeedInput? && outCur <= outEnd
      ensures r.NeedRoom? ==> outCur == outEnd && AwaitsRoom()
      ensures r.Continue? ==> outCur == old(outCur) + 1 && state == PSymbol(false)
    {
      hide Resume, Meets, Reader.Valid, Reader.Rest, Reader.Lean, On, Tight, Matches, Shows, Coded;
      ReaderFacts();
      SymbolParts();
      OnParts(target, future);
      if outCur >= outEnd {
        return NeedRoom;
      }
      LeanHere();
      ghost var was, o := cont, out;
      StepPut(w, final, lit.sizes, dst.sizes, counter, rd.Rest() + future, out);
      PutByte(buf, counter);
      state, cont := PSymbol(false), InSymbols(lit.sizes, dst.sizes);
      SymbolStart();
      Arrives(target, future);
      r := Continue;
    }

    /** A length's extra bits; there is nothing to read when there are none. */
    method DoLenExtra(ghost target: Outcome, ghost future: seq<bool>) returns (r: Signal)
      requires rd.Valid() && Matches() && state.PLenExtra? && On(target, future)
      modifies this`state, this`counter, this`cont, rd`cur, rd`bitBuf, rd`numBits
      ensures rd.Valid() && Matches() && On(target, future) && !r.NeedRoom?
      ensures r.NeedInput? ==> Stuck()
      ensures r.Continue? ==> |rd.Rest()| <= old(|rd.Rest()|) && state == PDist(false)
    {
      hide Resume, Meets, Reader.Valid, Reader.Rest, Reader.Lean, On, Tight, Stuck, Took, Matches, Coded;
      SymbolParts();
      var ok, v;
      ghost var before;
      ok, v, before := ReadField(numExtra, target, future);
      if !ok {
        IsSymbols();
        return NeedInput;
      }
      StepLength(w, final, lit.sizes, dst.sizes, numExtra, counter, v, before + future, rd.Rest() + future, out);
      counter, state := counter + v, PDist(false);
      cont := InDistance(lit.sizes, dst.sizes, counter);
      NotFilling();
      IsSymbols();
      Arrives(target, future);
      r := Continue;
    }

    lemma WaitsDst(target: Outcome, future: seq<bool>)
      requires state == PDist(true) && CodeWaits(target, future, dst.sizes) && Coded()
        && cont == InDistance(lit.sizes, dst.sizes, counter)
      ensures Matches()
    {
      hide DecoderTable.Table.Ready;
    }

    lemma DistFacts()
      requires Matches() && state.PDist?
      ensures Coded() && cont == InDistance(lit.sizes, dst.sizes, counter) && Waits(Filling(), dst) && WellFormed(cont)
    {
      hide HeaderState, RawState, TablesState, LengthsState, Coded;
    }

    /** A distance symbol. */
    method DoDist(ghost target: Outcome, ghost future: seq<bool>) returns (r: Signal)
      requires rd.Valid() && Matches() && state.PDist? && On(target, future)
      modifies this`state, this`dist, this`numExtra, this`cont, this`course, rd`cur, rd`bitBuf, rd`numBits
      ensures rd.Valid() && Matches() && On(target, future) && !r.NeedRoom?
      ensures course == old(course) || course.Loose?
      ensures r.NeedInput? ==> Stuck()
      ensures r.Continue? ==> |rd.Rest()| <= old(|rd.Rest()|) && state.PDistExtra?
    {
      hide Resume, Meets, Reader.Valid, Reader.Rest, Reader.Lean, On, Tight, Stuck, Matches, CodeRead, CodeWaits, Coded,
        Waits, DecoderTable.Table.Ready, NextSymbol, DistExtraBits, DistBase;
      DistFacts();
      CodedFacts();
      var ok, sym;
      ghost var before;
      ok, sym, before := ReadCode(dst, target, future);
      if !ok {
        state := PDist(true);
        WaitsOn(target, future, dst.sizes);
        WaitsDst(target, future);
        return NeedInput;
      }
      CodeTarget(target, future, dst.sizes, before, sym);
      TakeDist(sym, before, target, future);
      r := Continue;
    }

    lemma DistMoves(sym: nat, before: seq<bool>, target: Outcome, future: seq<bool>)
      requires cont == InDistance(lit.sizes, dst.sizes, counter) && CodeRead(target, future, dst.sizes, before, sym)
      ensures rd.cur <= |rd.input| && |rd.Rest()| <= |before|
      ensures var now := if NextSymbol(dst.sizes, before + future).NoEntry? then Stray(course) else course;
        var c := InDistBits(lit.sizes, dst.sizes, counter, DistExtraBits(sym), DistBase(sym));
        LeadsIf(now, target, final, c, rd.Rest() + future, out) && (!now.Straight? || rd.Lean())
    {
      hide Resume, Meets, Reader.Rest, Reader.Lean, CodeRead, NextSymbol, Meets, DistExtraBits, DistBase;
      CodeTarget(target, future, dst.sizes, before, sym);
      if NextSymbol(dst.sizes, before + future).NoEntry? {
        var c := InDistBits(lit.sizes, dst.sizes, counter, DistExtraBits(0), DistBase(0));
        StepDistanceNone(w, final, lit.sizes, dst.sizes, counter, before + future, out);
        MeetsLoosely(target, course, Resume(w, final, cont, before + future, out),
          Resume(w, final, c, before + future, out));
      } else {
        StepDistance(w, final, lit.sizes, dst.sizes, counter, sym, before + future, rd.Rest() + future, out);
      }
    }

    method TakeDist(sym: nat, ghost before: seq<bool>, ghost target: Outcome, ghost future: seq<bool>)
      requires rd.cur <= |rd.input| && cont == InDistance(lit.sizes, dst.sizes, counter)
      requires Coded() && CodeRead(target, future, dst.sizes, before, sym)
      modifies this`state, this`dist, this`numExtra, this`cont, this`course
      ensures course == old(course) || course.Loose?
      ensures Matches() && On(target, future) && state.PDistExtra?
    {
      hide Resume, Meets, Reader.Valid, Reader.Rest, Reader.Lean, On, Tight, Matches, CodeRead, Coded, NextSymbol,
        DistExtraBits, DistBase;
      DistMoves(sym, before, target, future);
      course := if NextSymbol(dst.sizes, before + future).NoEntry? then Stray(course) else course;
      numExtra, dist, state := DistExtraBits(sym), DistBase(sym), PDistExtra;
      cont := InDistBits(lit.sizes, dst.sizes, counter, numExtra, dist);
      IsSymbols();
      Arrives(target, future);
    }

    // ----- the fast path: two literals at a time while both buffers have room -----

    /** The inlined lookup of the fast path: 15 bits are at hand. */
    method ReadFast(ghost target: Outcome, ghost future: seq<bool>)
      returns (sym: nat, codeLen: nat, ghost before: seq<bool>)
      requires rd.cur <= |rd.input| && rd.numBits >= MAX_CODE_SIZE && cont == InSymbols(lit.sizes, dst.sizes)
      requires Leads(target, final, cont, rd.Rest() + future, out) && (!course.Straight? || rd.Lean())
      requires rd.Valid() && Coded()
      modifies rd`bitBuf, rd`numBits
      ensures rd.Valid() && before == old(rd.Rest()) && CodeRead(target, future, lit.sizes, before, sym)
      ensures codeLen <= MAX_CODE_SIZE && rd.numBits == old(rd.numBits) - codeLen && sym < 288
      ensures codeLen == 0 <==> NextSymbol(lit.sizes, before + future).NoEntry?
    {
      hide Resume, Meets, Reader.Valid, Reader.Rest, Reader.Held, NextSymbol, Decoded, DecoderTable.Table.Ready,
        CodeRead, Coded, Leads;
      ReaderFacts();
      CodedFacts();
      before := rd.Rest();
      ghost var held, lean := rd.Held(), rd.Lean();
      rd.Enough(lit);
      sym, codeLen := rd.DecodeNow(lit, held, rd.cur, future);
      ReaderFacts();
      DecodedLean(lit.sizes, before, future, sym, rd.Rest(),
        |held| <= 7 + 8 * rd.cur || Undecided(lit.sizes, held) ==> rd.Lean(), !course.Straight? || rd.Lean());
      DecodedLen(lit.sizes, before, future, sym, rd.Rest(), !course.Straight? || rd.Lean());
      CodeIsRead(target, future, lit.sizes, before, sym);
      CodeTarget(target, future, lit.sizes, before, sym);
    }

    lemma DecodedLen(z: seq<nat>, before: seq<bool>, future: seq<bool>, sym: nat, after: seq<bool>, lean: bool)
      requires Decoded(z, before, future, sym, after, lean)
      ensures |before| == |after| <==> NextSymbol(z, before + future).NoEntry?
      ensures sym == 0 || sym < |z|
    {
    }

    /** With an empty entry for a literal in the fast path, that is the end. */
    lemma GivesUp(was: Course, target: Outcome, future: seq<bool>, o: seq<Byte>)
      requires course.GivenUp? && state.PFailed? && cont == Broken && rd.cur <= |rd.input|
      requires NextSymbol(lit.sizes, rd.Rest() + future).NoEntry? && o == out
      requires LeadsIf(was, target, final, InSymbols(lit.sizes, dst.sizes), rd.Rest() + future, o)
      ensures On(target, future) && GivenUp(target)
    {
      hide Resume, NextSymbol, Reader.Rest;
      StepSymbolNone(w, final, lit.sizes, dst.sizes, rd.Rest() + future, out);
    }

    method DoSymbolFast(buf: array<Byte>, ghost target: Outcome, ghost future: seq<bool>)
      requires rd.Valid() && Output(buf) && Matches() && state == PSymbol(false) && On(target, future)
      requires rd.cur + 4 <= |rd.input| && outCur + 2 <= outEnd
      modifies this`state, this`counter, this`numExtra, this`cont, this`outCur, this`out, this`course
      modifies rd`cur, rd`bitBuf, rd`numBits, buf
      ensures rd.Valid() && Output(buf) && Matches() && On(target, future) && outCur <= outEnd
      ensures |rd.Rest()| < old(|rd.Rest()|) || (|rd.Rest()| == old(|rd.Rest()|) && state.PFailed?
        && outCur == old(outCur))
      ensures course == old(course) || course.GivenUp?
      ensures NextSymbol(lit.sizes, old(rd.Rest()) + future).NoEntry? ==> state.PFailed? && out == old(out)
      ensures state != PSymbol(true)
    {
      hide Resume, Meets, Reader.Valid, Reader.Rest, Reader.Lean, On, Tight, Matches, Coded, Shows, NextSymbol;
      SymbolFacts();
      ReaderFacts();
      OnParts(target, future);
      LeanAtCode();
      if rd.numBits < 30 {
        rd.LoadFour();
        ReaderFacts();
      }
      FirstSymbol(buf, target, future);
    }

    method FirstSymbol(buf: array<Byte>, ghost target: Outcome, ghost future: seq<bool>)
      requires rd.cur <= |rd.input| && rd.numBits >= 30 && outCur + 2 <= outEnd
        && cont == InSymbols(lit.sizes, dst.sizes)
      requires Leads(target, final, cont, rd.Rest() + future, out) && (!course.Straight? || rd.Lean())
      requires rd.Valid() && Output(buf) && state == PSymbol(false)
      requires Coded()
      modifies this`state, this`counter, this`numExtra, this`cont, this`outCur, this`out, this`course
      modifies rd`cur, rd`bitBuf, rd`numBits, buf
      ensures rd.Valid() && rd.cur <= |rd.input| && Output(buf) && Matches() && On(target, future) && outCur <= outEnd
      ensures |rd.Rest()| < old(|rd.Rest()|) || (|rd.Rest()| == old(|rd.Rest()|) && state.PFailed?
        && outCur == old(outCur))
      ensures course == old(course) || course.GivenUp?
      ensures NextSymbol(lit.sizes, old(rd.Rest()) + future).NoEntry? ==> state.PFailed? && out == old(out)
      ensures state != PSymbol(true)
    {
      hide Resume, Meets, Reader.Valid, Reader.Rest, Reader.Lean, On, Tight, Matches, CodeRead, Coded, Shows,
        NextSymbol;
      var sym, codeLen;
      ghost var before;
      sym, codeLen, before := ReadFast(target, future);
      ReaderFacts();
      CodeTarget(target, future, lit.sizes, before, sym);
      if codeLen == 0 {
        GiveUp(before, target, future);
        return;
      }
      TakeSymbol(sym, before, target, future);
      if sym < 256 {
        SecondSymbol(buf, target, future);
      }
    }

    /** `TINFL_CR_RETURN_FOREVER(40, TINFL_STATUS_FAILED)` */
    method GiveUp(ghost before: seq<bool>, ghost target: Outcome, ghost future: seq<bool>)
      requires rd.cur <= |rd.input| && rd.Rest() == before && NextSymbol(lit.sizes, before + future).NoEntry?
      requires Leads(target, final, InSymbols(lit.sizes, dst.sizes), before + future, out)
      modifies this`state, this`cont, this`course
      ensures Matches() && On(target, future) && state.PFailed? && cont == Broken && GivenUp(target)
    {
      hide Resume, Meets, Reader.Rest, On, Matches, NextSymbol;
      ghost var was := course;
      state, cont, course := PFailed, Broken, Course.GivenUp;
      IsSimple();
      assert LeadsIf(was, target, final, InSymbols(lit.sizes, dst.sizes), before + future, out);
      GivesUp(was, target, future, out);
    }

    lemma LiteralFacts()
      requires Matches() && state.PLiteral?
      ensures Coded() && counter < 256 && cont == InLiteral(lit.sizes, dst.sizes, counter)
    {
      hide HeaderState, RawState, TablesState, LengthsState, Coded;
    }

    /** With a literal in hand: the second symbol is decoded before the literal is stored. */
    method SecondSymbol(buf: array<Byte>, ghost target: Outcome, ghost future: seq<bool>)
      requires rd.Valid() && Output(buf) && Matches() && state.PLiteral? && On(target, future)
      requires rd.numBits >= MAX_CODE_SIZE && outCur + 2 <= outEnd
      modifies this`state, this`counter, this`numExtra, this`cont, this`outCur, this`out, this`course
      modifies rd`bitBuf, rd`numBits, buf
      ensures rd.Valid() && Output(buf) && Matches() && On(target, future) && outCur <= outEnd
      ensures course == old(course) || course.GivenUp?
      ensures rd.cur <= |rd.input| && |rd.Rest()| <= old(|rd.Rest()|)
      ensures state != PSymbol(true)
    {
      hide Resume, Meets, Reader.Valid, Reader.Rest, Reader.Lean, On, Tight, Matches, CodeRead, Coded, Shows;
      LiteralFacts();
      ReaderFacts();
      OnParts(target, future);
      LeanHere();
      var first: Byte := counter;
      ghost var o := out;
      StepPut(w, final, lit.sizes, dst.sizes, first, rd.Rest() + future, out);
      out, cont := out + [first], InSymbols(lit.sizes, dst.sizes);
      var sym, codeLen;
      ghost var before;
      sym, codeLen, before := ReadFast(target, future);
      ReaderFacts();
      ghost var o1 := out;
      StoreFirst(buf, first, o, codeLen, sym, before, target, future);
    }

    lemma RoomPoint()
      ensures AwaitsRoom() ==> state != PSymbol(true)
    {
    }

    lemma GivenUpFacts(target: Outcome)
      requires GivenUp(target)
      ensures course.GivenUp? && state.PFailed? && cont == Broken && target.BadCode? && OutputOf(out, target)
    {
    }

    lemma IsOutput(buf: array<Byte>)
      requires OutputAt(buf, out)
      ensures Output(buf)
    {
    }

    lemma StillGivenUp(target: Outcome, future: seq<bool>)
      requires rd.cur <= |rd.input| && course.GivenUp? && state.PFailed? && cont == Broken
      requires target.BadCode? && OutputOf(out, target)
      ensures On(target, future) && Matches()
    {
      hide Resume, Meets, Reader.Rest;
      IsSimple();
    }

    /** The literal is stored, and then the second symbol if it is a literal too. */
    method StoreFirst(buf: array<Byte>, first: Byte, ghost o: seq<Byte>, codeLen: nat, sym: nat,
      ghost before: seq<bool>, ghost target: Outcome, ghost future: seq<bool>)
      requires rd.cur <= |rd.input| && sym < 288 && cont == InSymbols(lit.sizes, dst.sizes) && out == o + [first]
      requires outCur + 2 <= outEnd && OutputAt(buf, o)
      requires rd.Valid() && CodeRead(target, future, lit.sizes, before, sym)
      requires codeLen == 0 <==> NextSymbol(lit.sizes, before + future).NoEntry?
      requires Coded()
      modifies this`state, this`counter, this`numExtra, this`cont, this`outCur, this`out, this`course, buf
      ensures course == old(course) || course.GivenUp?
      ensures Output(buf) && Matches() && On(target, future) && outCur <= outEnd
      ensures state != PSymbol(true)
    {
      hide *;
      CodeTarget(target, future, lit.sizes, before, sym);
      if codeLen == 0 {
        GiveUp(before, target, future);
        GivenUpFacts(target);
        OutputPrefix(o, o + [first], target);
        out := o;
        IsOutput(buf);
        OutputBounds(buf);
        StillGivenUp(target, future);
        return;
      }
      out := o;
      IsOutput(buf);
      PutByte(buf, first);
      TakeSymbol(sym, before, target, future);
      if sym < 256 {
        var r := DoLiteral(buf, target, future);
        RoomPoint();
      }
      OutputBounds(buf);
    }

    // ----- copies -----

    /** A copy of n more bytes is what remains to be done. */
    ghost predicate Copying(n: nat, target: Outcome, future: seq<bool>)
      reads this`final, this`cont, this`out, this`dist, this`course, rd, lit, dst
    {
      && cont == InCopy(lit.sizes, dst.sizes, n, dist) && CanCopy(w, out, dist) && rd.cur <= |rd.input|
      && (Leads(target, final, cont, rd.Rest() + future, out) && (!course.Straight? || rd.Lean()))
    }

    /** One byte of a copy. */
    method CopyByte(buf: array<Byte>, i: nat, ghost n: nat, ghost target: Outcome, ghost future: seq<bool>)
      requires Output(buf) && Copying(n, target, future) && n > 0 && outCur < outEnd && i < buf.Length
      requires PacedAt(w, out, i + dist)
      modifies this`cont, this`outCur, this`out, buf
      ensures Output(buf) && Copying(n - 1, target, future) && outCur == old(outCur) + 1
      ensures PacedAt(w, out, i + 1 + dist) && out == old(out) + [old(buf[i])]
    {
      hide Shows, Resume, CanCopy, Source, Reader.Rest, Reader.Lean, PacedAt;
      IndexSource(w, buf[..], out, outCur, i, dist);
      PacedNext(w, out, i + dist, buf[i]);
      StepCopy(w, final, lit.sizes, dst.sizes, n, dist, rd.Rest() + future, out);
      PutByte(buf, buf[i]);
      cont := InCopy(lit.sizes, dst.sizes, n - 1, dist);
    }

    lemma CopyEnds(target: Outcome, future: seq<bool>)
      requires Copying(0, target, future)
      ensures Leads(target, final, InSymbols(lit.sizes, dst.sizes), rd.Rest() + future, out)
        && (!course.Straight? || rd.Lean())
    {
      hide Resume, Meets, CanCopy, Reader.Rest, Reader.Lean;
      StepCopy(w, final, lit.sizes, dst.sizes, 0, dist, rd.Rest() + future, out);
    }

    method EndCopy(ghost target: Outcome, ghost future: seq<bool>)
      requires Copying(0, target, future) && Coded()
      modifies this`state, this`cont
      ensures Matches() && On(target, future) && state == PSymbol(false)
    {
      hide Resume, Meets, CanCopy, Reader.Rest, Reader.Lean, On, Matches, Coded, Copying;
      CopyEnds(target, future);
      CopyingFacts(0, target, future);
      state, cont := PSymbol(false), InSymbols(lit.sizes, dst.sizes);
      SymbolStart();
      Arrives(target, future);
    }

    lemma CopyingFacts(n: nat, target: Outcome, future: seq<bool>)
      requires Copying(n, target, future)
      ensures cont == InCopy(lit.sizes, dst.sizes, n, dist) && CanCopy(w, out, dist) && rd.cur <= |rd.input|
        && WellFormed(cont)
      ensures Leads(target, final, cont, rd.Rest() + future, out) && (!course.Straight? || rd.Lean())
    {
    }

    /** `*pOut_buf_cur++ = pOut_buf_start[(dist_from_out_buf_start++ - dist) & out_buf_size_mask]` */
    method CopyNext(buf: array<Byte>, ghost target: Outcome, ghost future: seq<bool>)
      requires Output(buf) && Copying(counter + 1, target, future) && PacedAt(w, out, distFromStart) && outCur < outEnd
      modifies this`distFromStart, this`cont, this`outCur, this`out, buf
      ensures Output(buf) && Copying(counter, target, future) && PacedAt(w, out, distFromStart)
        && outCur == old(outCur) + 1
    {
      hide Resume, Meets, CanCopy, Reader.Rest, Reader.Lean, Copying, Shows, PacedAt;
      CopyingFacts(counter + 1, target, future);
      MaskedSource(w, buf[..], out, outCur, distFromStart, dist);
      var i := MaskedIndex(distFromStart, dist, buf.Length, wrapping);
      PacedNext(w, out, distFromStart, buf[i]);
      CopyByte(buf, i, counter + 1, target, future);
      distFromStart := distFromStart + 1;
    }

    /** The byte loop, which stops when the output is full; `pending` when it was interrupted inside. */
    method CopySlow(buf: array<Byte>, pending0: bool, ghost target: Outcome, ghost future: seq<bool>)
      returns (r: Signal)
      requires Output(buf) && Copying(counter + (if pending0 then 1 else 0), target, future)
        && PacedAt(w, out, distFromStart)
      requires Coded()
      modifies this`state, this`counter, this`distFromStart, this`cont, this`outCur, this`out, buf
      ensures Output(buf) && Matches() && On(target, future) && !r.NeedInput? && old(outCur) <= outCur <= outEnd
      ensures r.NeedRoom? ==> outCur == outEnd && AwaitsRoom()
      ensures r.Continue? ==> state == PSymbol(false)
    {
      hide Resume, Meets, CanCopy, Reader.Rest, Reader.Lean, On, Matches, Coded, Copying, Shows, PacedAt;
      var pending := pending0;
      while pending || counter > 0
        invariant Output(buf) && Copying(counter + (if pending then 1 else 0), target, future)
          && PacedAt(w, out, distFromStart)
        invariant old(outCur) <= outCur <= outEnd
        decreases counter + (if pending then 1 else 0)
      {
        if !pending {
          counter := counter - 1;
        }
        if outCur >= outEnd {
          state := PCopy;
          CopyWaits(target, future);
          return NeedRoom;
        }
        CopyNext(buf, target, future);
        pending := false;
      }
      EndCopy(target, future);
      r := Continue;
    }

    lemma CopyWaits(target: Outcome, future: seq<bool>)
      requires state.PCopy? && Copying(counter + 1, target, future) && PacedAt(w, out, distFromStart) && Coded()
      ensures Matches() && On(target, future)
    {
      hide Resume, Meets, CanCopy, Reader.Rest, DecoderTable.Table.Ready, PacedAt;
    }

    lemma OutputBounds(buf: array<Byte>)
      requires Output(buf)
      ensures outCur <= outEnd <= buf.Length
    {
      hide Shows;
    }

    /** The whole copy fits and does not cross the end of the buffer: three bytes at a time. */
    method CopyFast(buf: array<Byte>, src0: nat, ghost target: Outcome, ghost future: seq<bool>)
      requires Output(buf) && Copying(counter, target, future) && PacedAt(w, out, src0 + dist)
      requires Max(outCur, src0) + counter <= outEnd
      requires Coded()
      modifies this`state, this`counter, this`cont, this`outCur, this`out, buf
      ensures Output(buf) && Matches() && On(target, future) && old(outCur) <= outCur <= outEnd
        && state == PSymbol(false)
    {
      hide Resume, Meets, CanCopy, Reader.Rest, Reader.Lean, On, Matches, Coded, Copying, OutputAt, PacedAt;
      OutputBounds(buf);
      var src: nat := src0;
      while counter > 2
        invariant Output(buf) && Copying(counter, target, future) && PacedAt(w, out, src + dist)
        invariant Max(outCur, src) + counter <= outEnd <= buf.Length && old(outCur) <= outCur
        decreases counter
      {
        CopyByte(buf, src, counter, target, future);
        CopyByte(buf, src + 1, counter - 1, target, future);
        CopyByte(buf, src + 2, counter - 2, target, future);
        src, counter := src + 3, counter - 3;
      }
      if counter > 0 {
        CopyByte(buf, src, counter, target, future);
        if counter > 1 {
          CopyByte(buf, src + 1, counter - 1, target, future);
        }
      }
      EndCopy(target, future);
    }

    /** The distance is known: it must reach no further back than the output goes, unless the buffer is a ring. */
    method StartCopy(buf: array<Byte>, ghost target: Outcome, ghost future: seq<bool>) returns (r: Signal)
      requires Output(buf) && rd.cur <= |rd.input|
      requires cont == (if CanCopy(w, out, dist) then InCopy(lit.sizes, dst.sizes, counter, dist) else Broken)
      requires Leads(target, final, cont, rd.Rest() + future, out) && (!course.Straight? || rd.Lean())
      requires Coded()
      modifies this`state, this`counter, this`distFromStart, this`cont, this`outCur, this`out, buf
      ensures Output(buf) && Matches() && On(target, future) && !r.NeedInput? && old(outCur) <= outCur <= outEnd
      ensures r.NeedRoom? ==> outCur == outEnd && AwaitsRoom()
      ensures r.Continue? ==> state == PSymbol(false) || state == PFailed
    {
      hide Resume, Meets, CanCopy, Reader.Rest, Reader.Lean, On, Matches, Coded, Copying, Shows, PacedAt;
      PacedShows(w, buf[..], out, outCur);
      distFromStart := outCur;
      CopyAllowed(buf);
      if (dist == 0 || dist > distFromStart || distFromStart == 0) && !wrapping {
        state := PFailed;
        IsSimple();
        Arrives(target, future);
        return Continue;
      }
      CopyStarts(target, future);
      MaskedSource(w, buf[..], out, outCur, distFromStart, dist);
      var src := MaskedIndex(distFromStart, dist, buf.Length, wrapping);
      if Max(outCur, src) + counter > outEnd {
        r := CopySlow(buf, false, target, future);
      } else {
        CopyFast(buf, src, target, future);
        r := Continue;
      }
    }

    lemma CopyAllowed(buf: array<Byte>)
      requires Output(buf) && distFromStart == outCur
      ensures CanCopy(w, out, dist) <==> wrapping || !(dist == 0 || dist > distFromStart || distFromStart == 0)
    {
      PacedShows(w, buf[..], out, outCur);
    }

    lemma CopyStarts(target: Outcome, future: seq<bool>)
      requires CanCopy(w, out, dist) && cont == InCopy(lit.sizes, dst.sizes, counter, dist) && rd.cur <= |rd.input|
      requires Leads(target, final, cont, rd.Rest() + future, out) && (!course.Straight? || rd.Lean())
      ensures Copying(counter, target, future)
    {
    }

    /** A distance's extra bits, and the copy. */
    method DoDistExtra(buf: array<Byte>, ghost target: Outcome, ghost future: seq<bool>) returns (r: Signal)
      requires rd.Valid() && Output(buf) && Matches() && state.PDistExtra? && On(target, future)
      modifies this`state, this`counter, this`dist, this`distFromStart, this`cont, this`outCur, this`out
      modifies rd`cur, rd`bitBuf, rd`numBits, buf
      ensures rd.Valid() && Output(buf) && Matches() && On(target, future) && old(outCur) <= outCur <= outEnd
      ensures r.NeedInput? ==> Stuck()
      ensures r.NeedRoom? ==> outCur == outEnd && AwaitsRoom()
      ensures r.Continue? ==> |rd.Rest()| <= old(|rd.Rest()|) && (state == PSymbol(false) || state == PFailed)
    {
      hide Resume, Meets, Reader.Valid, Reader.Rest, Reader.Lean, On, Tight, Stuck, Took, Matches, Coded, CanCopy,
        Shows;
      SymbolParts();
      var ok, v;
      ghost var before;
      ok, v, before := ReadField(numExtra, target, future);
      if !ok {
        IsSymbols();
        return NeedInput;
      }
      StepDistBits(w, final, lit.sizes, dst.sizes, counter, numExtra, dist, v, before + future, rd.Rest() + future,
        out);
      dist := dist + v;
      cont := if CanCopy(w, out, dist) then InCopy(lit.sizes, dst.sizes, counter, dist) else Broken;
      r := StartCopy(buf, target, future);
    }

    lemma CopyFacts(target: Outcome, future: seq<bool>)
      requires rd.Valid() && Matches() && state.PCopy? && On(target, future)
      ensures Copying(counter + 1, target, future) && PacedAt(w, out, distFromStart) && Coded()
    {
      hide Resume, Meets, CanCopy, Reader.Rest, Coded, PacedAt, HeaderState, RawState, TablesState, LengthsState;
    }

    /** An interrupted copy goes on. */
    method DoCopy(buf: array<Byte>, ghost target: Outcome, ghost future: seq<bool>) returns (r: Signal)
      requires rd.Valid() && Output(buf) && Matches() && state.PCopy? && On(target, future)
      modifies this`state, this`counter, this`distFromStart, this`cont, this`outCur, this`out, buf
      ensures Output(buf) && Matches() && On(target, future) && !r.NeedInput? && old(outCur) <= outCur <= outEnd
      ensures r.NeedRoom? ==> outCur == outEnd && AwaitsRoom()
      ensures r.Continue? ==> state == PSymbol(false)
    {
      hide Resume, Meets, Reader.Valid, Reader.Rest, Reader.Lean, On, Matches, Coded, Copying, Shows, PacedAt;
      CopyFacts(target, future);
      r := CopySlow(buf, true, target, future);
    }

    // ----- the end of the stream -----

    lemma EndFacts()
      requires Matches() && state.PEnd?
      ensures cont == AtStreamEnd
    {
    }

    /** `TINFL_SKIP_BITS(32, num_bits & 7)`, and the whole bytes go back. */
    method ToBoundary()
      requires rd.Valid()
      modifies rd`cur, rd`bitBuf, rd`numBits
      ensures rd.Valid() && rd.cur <= |rd.input| && |old(rd.Rest())| >= old(rd.numBits) % 8
      ensures rd.Rest() == old(rd.Rest())[old(rd.numBits) % 8..]
      ensures old(rd.Lean()) ==> rd.Lean() && rd.numBits == 0
    {
      hide Reader.Valid, Reader.Rest;
      ReaderFacts();
      var skipped := rd.Drop(rd.numBits % 8);
      ReaderFacts();
      rd.PutBack();
      ReaderFacts();
    }

    /** After the last block: the bits up to the byte boundary are dropped, and whole bytes that were read ahead are put
        back.  Then the bit buffer is empty. */
    method DoEnd(ghost target: Outcome, ghost future: seq<bool>)
      requires rd.Valid() && Matches() && state.PEnd? && On(target, future) && |future| % 8 == 0
      modifies this`state, this`cont, rd`cur, rd`bitBuf, rd`numBits
      ensures rd.Valid() && Matches() && On(target, future) && state.PDone?
      ensures rd.cur <= |rd.input| && |rd.Rest()| <= old(|rd.Rest()|) && (!course.Straight? || rd.numBits == 0)
    {
      hide Resume, Meets, LeadsIf, Reader.Valid, Reader.Rest, Reader.Lean, On, Tight, Matches, Align;
      ReaderFacts();
      EndFacts();
      OnParts(target, future);
      LeanHere();
      ghost var before := rd.Rest();
      StepFinish(w, final, before + future, out);
      AlignBits(before, rd.numBits, future);
      ToBoundary();
      state, cont := PDone, Finished;
      IsSimple();
      LeanIsTight();
      Moved(target, future, final, AtStreamEnd, before, out);
    }

    // ----- all steps together -----

    /** Progress: bits read, room used, or a later point. */
    ghost predicate Down(bits: nat, room: int, left: nat)
      reads this`state, this`counter, this`outCur, this`outEnd, rd
    {
      && rd.cur <= |rd.input|
      && (|rd.Rest()| < bits
          || (|rd.Rest()| == bits && (outEnd - outCur < room || (outEnd - outCur == room && Left() < left))))
    }

    method StepHeaders(ghost target: Outcome, ghost future: seq<bool>) returns (r: Signal)
      requires Shape() && rd.Valid() && Matches() && On(target, future) && |future| % 8 == 0
      requires state.PBlock? || state.PType? || state.PCount? || state.PSize? || state.PRawHeader? || state.PRawByte?
        || state.PEnd?
      modifies this`state, this`final, this`kind, this`counter, this`dist, this`rawHeader, this`tableSizes, this`cont
      modifies rd`cur, rd`bitBuf, rd`numBits, lit.codeSize, dst.codeSize, len, len.codeSize, len.lookUp, len.tree
      ensures rd.Valid() && Matches() && On(target, future) && !r.NeedRoom?
      ensures r.NeedInput? ==> Stuck()
      ensures r.Continue? ==> Down(old(|rd.Rest()|), outEnd - outCur, old(Left()))
      ensures r.Continue? ==> state != PSymbol(true)
    {
      hide Resume, Meets, Reader.Valid, Reader.Rest, Reader.Lean, On, Matches, Shape, Stuck, Rank;
      ReaderFacts();
      r := Continue;
      if state.PBlock? {
        r := DoBlock(target, future);
      } else if state.PType? {
        DoType(target, future);
      } else if state.PCount? {
        r := DoCount(target, future);
      } else if state.PSize? {
        r := DoSize(target, future);
      } else if state.PRawHeader? {
        r := DoRawHeader(target, future);
      } else if state.PRawByte? {
        r := DoRawByte(target, future);
      } else {
        Ranks();
        DoEnd(target, future);
      }
      ReaderFacts();
    }

    method StepCodes(ghost target: Outcome, ghost future: seq<bool>) returns (r: Signal)
      requires Shape() && rd.Valid() && Matches() && On(target, future)
      requires state.PCode? || state.PRepeat? || state.PTables? || state.PLenExtra? || state.PDist?
      modifies this`course, this`state, this`counter, this`dist, this`numExtra, this`cont, rd`cur, rd`bitBuf,
        rd`numBits, lenCodes
      modifies lit, lit.codeSize, lit.lookUp, lit.tree, dst, dst.codeSize, dst.lookUp, dst.tree
      ensures rd.Valid() && Matches() && On(target, future) && !r.NeedRoom?
      ensures course == old(course) || course.Loose?
      ensures r.NeedInput? ==> Stuck()
      ensures r.Continue? ==> Down(old(|rd.Rest()|), outEnd - outCur, old(Left()))
      ensures r.Continue? ==> state != PSymbol(true)
    {
      hide Resume, Meets, Reader.Valid, Reader.Rest, Reader.Lean, On, Matches, Shape, Stuck;
      ReaderFacts();
      r := Continue;
      if state.PCode? {
        r := DoCode(target, future);
      } else if state.PRepeat? {
        r := DoRepeat(target, future);
      } else if state.PTables? {
        DoTables(target, future);
      } else if state.PLenExtra? {
        r := DoLenExtra(target, future);
      } else {
        r := DoDist(target, future);
      }
      ReaderFacts();
    }

    method StepOutput(buf: array<Byte>, ghost target: Outcome, ghost future: seq<bool>) returns (r: Signal)
      requires rd.Valid() && Output(buf) && Matches() && On(target, future)
      requires state.PRawPut? || state.PRawRoom? || state.PRawInput? || state.PLiteral? || state.PDistExtra?
        || state.PCopy?
      modifies this`state, this`counter, this`dist, this`distFromStart, this`cont, this`outCur, this`out
      modifies rd`cur, rd`bitBuf, rd`numBits, buf
      ensures rd.Valid() && Output(buf) && Matches() && On(target, future)
      ensures r.NeedInput? ==> Stuck()
      ensures r.NeedRoom? ==> outCur == outEnd && AwaitsRoom()
      ensures r.Continue? ==> Down(old(|rd.Rest()|), old(outEnd - outCur), old(Left()))
      ensures r.Continue? ==> state != PSymbol(true)
    {
      hide Resume, Meets, Reader.Valid, Reader.Rest, Reader.Lean, On, Matches, Stuck, Shows;
      ReaderFacts();
      if state.PRawPut? {
        r := DoRawPut(buf, target, future);
      } else if state.PRawRoom? {
        r := DoRawRoom(target, future);
      } else if state.PRawInput? {
        r := DoRawInput(buf, target, future);
      } else if state.PLiteral? {
        r := DoLiteral(buf, target, future);
      } else if state.PDistExtra? {
        r := DoDistExtra(buf, target, future);
      } else {
        r := DoCopy(buf, target, future);
      }
      ReaderFacts();
    }

    /** There is enough behind a literal from an empty entry, and room for it, that the fast path will meet it. */
    ghost predicate Plenty(target: Outcome, future: seq<bool>)
      reads this`outEnd, this`callOfs, this`callOut
    {
      && target.BadCode? && |target.rest| >= 95 + |future|
      && outEnd - callOfs + |callOut| >= |target.out| + 2
    }

    /** So it takes the fast path there. */
    lemma PlentyIsFast(buf: array<Byte>, target: Outcome, future: seq<bool>)
      requires rd.Valid() && Output(buf) && Matches() && state == PSymbol(false) && On(target, future)
      requires Plenty(target, future) && !course.Padded? && NextSymbol(lit.sizes, rd.Rest() + future).NoEntry?
      ensures rd.cur + 4 <= |rd.input| && outCur + 2 <= outEnd
    {
      hide *;
      SymbolFacts();
      ReaderFacts();
      OnParts(target, future);
      PlentyFacts(target, future);
      BadHere(target, rd.Rest() + future);
      OutputLength(buf);
    }

    lemma PlentyFacts(target: Outcome, future: seq<bool>)
      requires Plenty(target, future)
      ensures target.BadCode? && |target.rest| >= 95 + |future|
      ensures outEnd - callOfs + |callOut| >= |target.out| + 2
    {
    }

    lemma BadHere(target: Outcome, bits: seq<bool>)
      requires Leads(target, final, InSymbols(lit.sizes, dst.sizes), bits, out) && !course.Padded? && target.BadCode?
      requires NextSymbol(lit.sizes, bits).NoEntry?
      ensures target == BadCode(out, bits)
    {
      hide Resume, NextSymbol;
      StepSymbolNone(w, final, lit.sizes, dst.sizes, bits, out);
    }

    lemma OutputLength(buf: array<Byte>)
      requires Output(buf)
      ensures |out| == |callOut| + outCur - callOfs
    {
      hide Shows;
    }

    /** Enough input and room for the fast path. */
    ghost predicate Roomy()
      reads this`outEnd, this`callOfs, rd`input
    {
      |rd.input| >= 4 && outEnd - callOfs >= 2
    }

    lemma FastIsRoomy(buf: array<Byte>)
      requires Output(buf) && rd.cur + 4 <= |rd.input| && outCur + 2 <= outEnd
      ensures Roomy()
    {
      hide Shows;
    }

    lemma RoomyFacts()
      ensures Roomy() ==> |rd.input| >= 4 && outEnd - callOfs >= 2
    {
    }

    /** The choice between the two ways to decode symbols; an interrupted one goes on where it was. */
    method DoSymbol(buf: array<Byte>, ghost target: Outcome, ghost future: seq<bool>) returns (r: Signal)
      requires rd.Valid() && Output(buf) && Matches() && state.PSymbol? && On(target, future)
      modifies this`course, this`state, this`counter, this`numExtra, this`cont, this`outCur, this`out, rd`cur,
        rd`bitBuf, rd`numBits, buf
      ensures rd.Valid() && Output(buf) && Matches() && On(target, future) && !r.NeedRoom?
      ensures r.NeedInput? ==> Stuck()
      ensures course.GivenUp? ==> old(course.GivenUp?) || Roomy()
      ensures r.Continue? ==> Down(old(|rd.Rest()|), old(outEnd - outCur), old(Left()))
      ensures r.Continue? ==> state != PSymbol(true)
      ensures course.Padded? ==> old(course.Padded? || state == PSymbol(true)) || !Plenty(target, future)
    {
      hide Resume, Meets, Reader.Valid, Reader.Rest, Reader.Lean, On, Matches, Stuck, Shows, NextSymbol, Plenty;
      ReaderFacts();
      if state == PSymbol(false) && Plenty(target, future) && !course.Padded?
        && NextSymbol(lit.sizes, rd.Rest() + future).NoEntry? {
        PlentyIsFast(buf, target, future);
      }
      if state == PSymbol(true) || |rd.input| - rd.cur < 4 || outEnd - outCur < 2 {
        r := DoSymbolSlow(target, future);
      } else {
        FastIsRoomy(buf);
        DoSymbolFast(buf, target, future);
        r := Continue;
      }
      ReaderFacts();
    }

    /** One step from any point but the last ones. */
    method Step(buf: array<Byte>, ghost target: Outcome, ghost future: seq<bool>) returns (r: Signal)
      requires Shape() && rd.Valid() && Output(buf) && Matches() && On(target, future) && |future| % 8 == 0
      requires !state.PDone? && !state.PFailed?
      modifies this`course, this`state, this`final, this`kind, this`counter, this`dist, this`numExtra, this`rawHeader,
        this`tableSizes
      modifies this`distFromStart, this`cont, this`outCur, this`out, rd`cur, rd`bitBuf, rd`numBits, buf, lenCodes
      modifies lit, lit.codeSize, lit.lookUp, lit.tree, dst, dst.codeSize, dst.lookUp, dst.tree
      modifies len, len.codeSize, len.lookUp, len.tree
      ensures rd.Valid() && Output(buf) && Matches() && On(target, future)
      ensures r.NeedInput? ==> Stuck()
      ensures r.NeedRoom? ==> outCur == outEnd && AwaitsRoom()
      ensures course.GivenUp? ==> old(course.GivenUp?) || Roomy()
      ensures r.Continue? ==> Down(old(|rd.Rest()|), old(outEnd - outCur), old(Left()))
      ensures r.Continue? ==> state != PSymbol(true)
      ensures course.Padded? ==> old(course.Padded? || state == PSymbol(true)) || !Plenty(target, future)
    {
      hide *;
      if state.PSymbol? {
        r := DoSymbol(buf, target, future);
      } else if state.PCode? || state.PRepeat? || state.PTables? || state.PLenExtra? || state.PDist? {
        r := StepCodes(target, future);
      } else if state.PRawPut? || state.PRawRoom? || state.PRawInput? || state.PLiteral? || state.PDistExtra?
        || state.PCopy? {
        r := StepOutput(buf, target, future);
      } else {
        r := StepHeaders(target, future);
      }
    }

    lemma Ranks()
      ensures Rank(PEnd) > Rank(PDone)
    {
    }

    // ----- one call -----

    /** Between two calls all input is the caller's again. */
    ghost predicate Paused()
      reads this`state, this`cont, this`kind, this`counter, this`dist, this`numExtra, this`rawHeader, this`tableSizes
      reads this`distFromStart, this`out, rd, lit, lit.lookUp, lit.tree, lit.codeSize, dst, dst.lookUp, dst.tree,
        dst.codeSize
      reads len, len.lookUp, len.tree, len.codeSize, lenCodes
    {
      Shape() && rd.Valid() && rd.input == [] && rd.cur == 0 && Matches() && rd.numBits <= 14
    }

    lemma PausedParts()
      requires Paused()
      ensures Shape() && rd.Valid() && rd.input == [] && rd.cur == 0 && Matches() && rd.numBits <= 14
    {
    }

    lemma PartsPaused()
      requires Shape() && rd.Valid() && rd.input == [] && rd.cur == 0 && Matches() && rd.numBits <= 14
      ensures Paused()
    {
    }

    /** The input of the call arrives: bits that were expected after the buffer are now at hand. */
    method Attach(input: seq<Byte>, ghost target: Outcome, ghost future: seq<bool>)
      requires rd.Valid() && rd.input == [] && rd.cur == 0 && Matches() && On(target, ByteBits(input) + future)
      modifies rd
      ensures rd.Valid() && rd.input == input && rd.cur == 0 && Matches() && On(target, future)
      ensures rd.carried == old(rd.numBits)
    {
      hide Reader.Valid, Reader.Rest, Reader.Held, Resume, ByteBits, DecoderTable.Table.Ready, Wants, SizesInRange,
        Undecided;
      rd.Attach(input);
      assert rd.Rest() + future == old(rd.Rest()) + (ByteBits(input) + future);
    }

    /** Steps until the stream has ended or failed, or a buffer is used up. */
    method Run(buf: array<Byte>, ghost target: Outcome, ghost future: seq<bool>) returns (r: Signal)
      requires Shape() && rd.Valid() && Output(buf) && Matches() && On(target, future) && |future| % 8 == 0
      modifies this`course, this`state, this`final, this`kind, this`counter, this`dist, this`numExtra, this`rawHeader,
        this`tableSizes
      modifies this`distFromStart, this`cont, this`outCur, this`out, rd`cur, rd`bitBuf, rd`numBits, buf, lenCodes
      modifies lit, lit.codeSize, lit.lookUp, lit.tree, dst, dst.codeSize, dst.lookUp, dst.tree
      modifies len, len.codeSize, len.lookUp, len.tree
      ensures rd.Valid() && Output(buf) && Matches() && On(target, future)
      ensures course.GivenUp? ==> old(course.GivenUp?) || Roomy()
      ensures r.NeedInput? ==> Stuck()
      ensures r.NeedRoom? ==> outCur == outEnd && AwaitsRoom()
      ensures r.Continue? ==> state.PDone? || state.PFailed?
      ensures course.Padded? ==> old(course.Padded? || state == PSymbol(true)) || !Plenty(target, future)
    {
      hide *;
      r := Continue;
      ReaderFacts();
      while r.Continue? && !state.PDone? && !state.PFailed?
        invariant rd.Valid() && Output(buf) && Matches() && On(target, future) && rd.cur <= |rd.input|
        invariant course.GivenUp? ==> old(course.GivenUp?) || Roomy()
        invariant r.Continue? && old(state != PSymbol(true)) ==> state != PSymbol(true)
        invariant course.Padded? ==> old(course.Padded? || state == PSymbol(true)) || !Plenty(target, future)
        invariant r.NeedInput? ==> Stuck()
        invariant r.NeedRoom? ==> outCur == outEnd && AwaitsRoom()
        decreases r.Continue?, |rd.Rest()|, outEnd - outCur, Left()
      {
        ghost var bits, room, left := |rd.Rest()|, outEnd - outCur, Left();
        r := Step(buf, target, future);
        ReaderFacts();
        OutputRoom(buf);
        if r.Continue? {
          DownFacts(bits, room, left);
        }
      }
    }

    lemma DownFacts(bits: nat, room: int, left: nat)
      requires Down(bits, room, left)
      ensures rd.cur <= |rd.input|
      ensures |rd.Rest()| < bits
           || (|rd.Rest()| == bits && (outEnd - outCur < room || (outEnd - outCur == room && Left() < left)))
    {
    }

    lemma OutputRoom(buf: array<Byte>)
      requires Output(buf)
      ensures outCur <= outEnd
    {
    }

    /** At common_exit, when the call does not wait for input: whole bytes in the bit buffer are given back. */
    method Release(ghost target: Outcome, ghost future: seq<bool>)
      requires rd.Valid() && Matches() && On(target, future) && !Filling()
      modifies rd`cur, rd`bitBuf, rd`numBits
      ensures rd.Valid() && Matches() && On(target, future)
        && (!course.Straight? || rd.numBits <= 7 || rd.numBits < Wants(cont)) && rd.numBits <= Max(7, rd.carried)
      ensures rd.cur <= old(rd.cur) && rd.cur <= |rd.input| && rd.Rest() == old(rd.Rest())
    {
      hide Reader.Valid, Reader.Rest, Reader.Held, Resume, DecoderTable.Table.Ready, Wants, SizesInRange, Undecided;
      ReaderFacts();
      rd.PutBack();
      ReaderFacts();
    }

    /** The unread input is the caller's again, and the outcome is still the same with it. */
    method Detach(ghost target: Outcome, ghost future: seq<bool>)
      requires rd.Valid() && Matches() && On(target, future) && (!course.Straight? || rd.numBits <= 7 || Owed())
      modifies rd
      ensures rd.Valid() && rd.input == [] && rd.cur == 0 && Matches()
      ensures old(rd.cur) <= |old(rd.input)| && On(target, old(ByteBits(rd.input[rd.cur..])) + future)
      ensures old(Stuck()) ==> Stuck()
      ensures rd.numBits == old(rd.numBits)
    {
      hide Reader.Valid, Reader.Rest, Reader.Held, Resume, ByteBits, DecoderTable.Table.Ready, Wants, SizesInRange,
        Undecided;
      ReaderFacts();
      ghost var rest, more := rd.Rest(), ByteBits(rd.input[rd.cur..]);
      rd.Detach();
      assert rest + future == rd.Rest() + (more + future);
      assert |more| == 0 ==> rest == rd.Rest();
    }

    ghost predicate Owed()
      reads this`state, this`cont, rd
    {
      rd.numBits < Wants(cont) || Filling()
    }

    lemma StuckOwes()
      requires Stuck()
      ensures Owed()
    {
    }

    lemma StuckEmpty()
      requires Stuck()
      ensures rd.cur == |rd.input|
    {
    }

    /** The caller's buffer takes up the output where the last call left off. */
    ghost predicate Accepts(buf: array<Byte>, ofs: nat, size: nat, wrap: bool)
      reads this`out, buf
    {
      && ofs + size <= buf.Length && Shows(w, buf[..], out, ofs) && wrap == w.Ring?
        && (w.Ring? ==> ofs + size == buf.Length)
    }

    method Enter(input: seq<Byte>, buf: array<Byte>, ofs: nat, size: nat, wrap: bool, ghost target: Outcome,
      ghost future: seq<bool>)
      requires Paused() && Accepts(buf, ofs, size, wrap) && On(target, ByteBits(input) + future)
      modifies this`outCur, this`outEnd, this`wrapping, this`callOut, this`callOfs, rd
      ensures Shape() && rd.Valid() && Output(buf) && Matches() && On(target, future) && rd.input == input
      ensures outEnd == ofs + size && callOfs == ofs && callOut == out && rd.carried == old(rd.numBits) <= 14
    {
      hide *;
      PausedParts();
      SetOutput(buf, ofs, size, wrap);
      Attach(input, target, future);
    }

    method SetOutput(buf: array<Byte>, ofs: nat, size: nat, wrap: bool)
      requires Accepts(buf, ofs, size, wrap)
      modifies this`outCur, this`outEnd, this`wrapping, this`callOut, this`callOfs
      ensures Output(buf) && outEnd == ofs + size && callOfs == ofs && callOut == out
    {
      hide Shows;
      outCur, outEnd, wrapping, callOut, callOfs := ofs, ofs + size, wrap, out, ofs;
    }

    /** What a call that waits for input has found out: all input is used, and it was not the whole stream. */
    ghost predicate Hungry(used: nat, input: seq<Byte>)
      reads this`state, this`final, this`cont, this`out, rd
    {
      used == |input| && Stuck()
    }

    /** What the outcome of the stream is once the decompressor says that it is done.  The bit buffer is empty, unless
        an empty entry was used and more than seven bits were left in the buffer when the call began. */
    lemma AtDone(target: Outcome, future: seq<bool>)
      requires rd.Valid() && Matches() && On(target, future) && state.PDone? && |future| % 8 == 0
        && rd.cur == |rd.input| && Aligned(target) && rd.numBits <= 14
      requires !course.Straight? || rd.numBits <= 7
      ensures LeftBehind(target, future) && out == target.out && (rd.numBits <= 7 ==> target.rest == future)
    {
      DoneCont();
      hide Matches, Reader.Rest, Reader.Valid, Tight;
      assert Meets(target, course, Ended(out, rd.Rest() + future));
      assert |rd.Rest() + future| == rd.numBits + |future|;
      assert (rd.Rest() + future)[rd.numBits..] == future;
    }

    lemma DoneCont()
      requires Matches() && state.PDone?
      ensures cont == Finished
    {
      hide DecoderTable.Table.Ready, HeaderState, TablesState, LengthsState, SymbolsState, RawState;
    }

    /** Once the decompressor is done, all that was not read follows the stream. */
    lemma DoneOn(target: Outcome, future: seq<bool>)
      requires Paused() && On(target, future) && state.PDone? && |future| % 8 == 0 && Aligned(target)
      ensures LeftBehind(target, future) && out == target.out
    {
      hide Shape, DecoderTable.Table.Ready, Reader.Valid, Leads;
      AtDone(target, future);
    }

    lemma AtFailed(target: Outcome, future: seq<bool>)
      requires Matches() && On(target, future) && state.PFailed?
      ensures target.Failed? || (target.BadCode? && course.GivenUp?)
    {
      hide DecoderTable.Table.Ready, HeaderState, TablesState, LengthsState, SymbolsState, RawState, Tight, Reader.Rest,
        OutputOf;
    }

    lemma EndWants()
      requires Matches() && (state.PDone? || state.PFailed?)
      ensures !Filling() && Wants(cont) == 0
    {
      hide DecoderTable.Table.Ready;
    }

    /** A refused call changes nothing. */
    lemma Nothing(buf: array<Byte>, ofs: nat, size: nat, wrap: bool)
      requires Accepts(buf, ofs, size, wrap)
      ensures Shows(w, buf[..], out, ofs) && out == out + buf[ofs..ofs]
    {
      hide Shows;
    }

    lemma Delivered(buf: array<Byte>)
      requires Output(buf)
      ensures callOfs <= outCur <= outEnd <= buf.Length && Shows(w, buf[..], out, outCur)
        && out == callOut + buf[callOfs..outCur]
    {
    }

    /** The end of a call. */
    method Leave(r: Signal, hasMore: bool, input: seq<Byte>, ghost target: Outcome, ghost future: seq<bool>)
      returns (status: Status, used: nat)
      requires rd.Valid() && rd.input == input && Matches() && On(target, future) && |future| % 8 == 0
      requires Aligned(target) && rd.carried <= 14
      requires r.NeedInput? ==> Stuck()
      requires r.NeedRoom? ==> AwaitsRoom()
      requires r.Continue? ==> state.PDone? || state.PFailed?
      modifies rd
      ensures rd.Valid() && rd.input == [] && rd.cur == 0 && Matches() && used <= |input| && rd.numBits <= 14
      ensures On(target, ByteBits(input[used..]) + future)
      ensures r.NeedInput? ==> Hungry(used, input) && status == if hasMore then NeedsMoreInput else CannotMakeProgress
      ensures r.NeedRoom? ==> status == HasMoreOutput
      ensures r.Continue? ==> status == if state.PDone? then Done else Status.Failed
      ensures status.Done? <==> state.PDone?
      ensures status.HasMoreOutput? ==> AwaitsRoom()
      ensures status.Done? ==>
        LeftBehind(target, ByteBits(input[used..]) + future) && out == target.out
        && (old(rd.carried) <= 7 ==> target.rest == ByteBits(input[used..]) + future)
      ensures status.Failed? ==> target.Failed? || (target.BadCode? && course.GivenUp?)
    {
      hide *;
      if r.NeedInput? {
        StuckOwes();
        StuckEmpty();
        StuckOpen();
        StuckShort();
        status := if hasMore then NeedsMoreInput else CannotMakeProgress;
      } else {
        status := if r.NeedRoom? then HasMoreOutput else if state.PDone? then Done else Status.Failed;
        if r.Continue? {
          EndWants();
        } else {
          RoomWaits();
        }
        Release(target, future);
        OwedByField();
        MaxSeven(rd.carried);
      }
      ReaderFacts();
      used := rd.cur;
      Detach(target, future);
      if status.Done? {
        AtDone(target, ByteBits(input[used..]) + future);
      } else if status.Failed? {
        AtFailed(target, ByteBits(input[used..]) + future);
      } else if r.NeedInput? {
        IsHungry(used, input);
      }
    }

    lemma MaxSeven(n: nat)
      ensures n <= 14 ==> Max(7, n) <= 14
      ensures n <= 7 ==> Max(7, n) == 7
    {
    }

    lemma StuckShort()
      requires Stuck() && Matches()
      ensures rd.numBits <= 14
    {
      hide DecoderTable.Table.Ready;
    }

    lemma RoomWaits()
      requires AwaitsRoom()
      ensures !Filling() && !state.PDone?
    {
    }

    /** Who waits for input is not done. */
    lemma StuckOpen()
      requires Stuck() && Matches()
      ensures !state.PDone?
    {
      hide DecoderTable.Table.Ready, HeaderState, TablesState, LengthsState, SymbolsState, RawState, Reader.Rest;
    }

    lemma PausedOutput(target: Outcome, future: seq<bool>)
      requires On(target, future) && Paused()
      ensures OutputOf(out, target)
    {
      hide *;
      PausedParts();
      OutputIsFinal(target, future);
    }

    /** What is output is what the outcome starts with, and there is more when the decompressor waits for room. */
    lemma OutputIsFinal(target: Outcome, future: seq<bool>)
      requires On(target, future) && Matches()
      ensures OutputOf(out, target) && (Ends(target) && AwaitsRoom() ==> |out| < |target.out|)
    {
      hide Resume, Reader.Rest, Tight, DecoderTable.Table.Ready, Undecided, PacedAt, CanCopy, HeaderState, TablesState,
        LengthsState;
      if !GivenUp(target) {
        InflateGrowth.ResumeExtends(w, final, cont, rd.Rest() + future, out);
        OutputExtends(out, target, course, Resume(w, final, cont, rd.Rest() + future, out));
      }
    }

    /** With nothing to come, who waits for room has more to output, and who waits for input does not end. */
    lemma WaitOutcome(target: Outcome)
      requires Paused() && On(target, [])
      ensures AwaitsRoom() && Ends(target) ==> |out| < |target.out|
      ensures Stuck() ==> target.Truncated?
    {
      hide *;
      PausedParts();
      OutputIsFinal(target, []);
      if Stuck() {
        StuckTruncated(target);
      }
    }

    lemma StuckTruncated(target: Outcome)
      requires Stuck() && On(target, [])
      ensures target.Truncated?
    {
      hide Resume;
      assert rd.Rest() + [] == rd.Rest();
    }

    lemma IsHungry(used: nat, input: seq<Byte>)
      requires used == |input| && Stuck()
      ensures Hungry(used, input)
    {
    }

    lemma OwedByField()
      ensures rd.numBits < Wants(cont) ==> Owed()
    {
    }

    lemma IsPlenty(target: Outcome, future: seq<bool>)
      ensures target.BadCode? && |target.rest| >= 95 + |future| && outEnd - callOfs + |callOut| >= |target.out| + 2 ==>
        Plenty(target, future)
    {
    }

    /** With plenty of both, a literal from an empty entry is where the decompressor gives up. */
    lemma PlentyFails(r: Signal, target: Outcome, future: seq<bool>)
      requires rd.Valid() && Matches() && On(target, future) && !course.Padded?
      requires target.BadCode? && |target.rest| >= 95 + |future|
      requires r.NeedInput? ==> Stuck()
      requires r.NeedRoom? ==> AwaitsRoom() && |out| > |target.out|
      requires r.Continue? ==> state.PDone? || state.PFailed?
      ensures r.Continue? && state.PFailed?
    {
      hide Reader.Valid, HeaderState, TablesState, LengthsState, SymbolsState, RawState, Reader.Rest, Tight, OutputOf;
      ReaderFacts();
      if !GivenUp(target) {
        ghost var bits := rd.Rest() + future;
        InflateGrowth.ResumeExtends(w, final, cont, bits, out);
        InflateGrowth.ResumeWithin(w, final, cont, bits, out);
      }
    }

    /** The coroutine runs until it stops for one of its reasons. */
    method Work(input: seq<Byte>, buf: array<Byte>, ofs: nat, size: nat, wrap: bool, ghost target: Outcome,
      ghost future: seq<bool>) returns (r: Signal)
      requires Paused() && Accepts(buf, ofs, size, wrap) && On(target, ByteBits(input) + future) && |future| % 8 == 0
      modifies this, rd, buf, lenCodes, lit, lit.codeSize, lit.lookUp, lit.tree, dst, dst.codeSize, dst.lookUp, dst.tree
      modifies len, len.codeSize, len.lookUp, len.tree
      ensures Shape() && rd.Valid() && rd.input == input && Matches() && On(target, future)
      ensures rd.carried == old(rd.numBits) <= 14 && ofs <= outCur <= ofs + size <= buf.Length
      ensures Shows(w, buf[..], out, outCur) && out == old(out) + buf[ofs..outCur]
      ensures course.GivenUp? ==> old(course.GivenUp?) || (|input| >= 4 && size >= 2)
      ensures target.BadCode? && |target.rest| >= 95 + |future| && size + |old(out)| >= |target.out| + 2 ==>
        !course.Padded? || old(course.Padded? || state == PSymbol(true))
      ensures r.NeedInput? ==> Stuck()
      ensures r.NeedRoom? ==> outCur == ofs + size && AwaitsRoom()
      ensures r.Continue? ==> state.PDone? || state.PFailed?
    {
      hide *;
      Enter(input, buf, ofs, size, wrap, target, future);
      r := Run(buf, target, future);
      RoomyFacts();
      IsPlenty(target, future);
      Delivered(buf);
    }

    /** tinfl_decompress.  However the stream is cut into calls, the outcome stays the one that the specification gives
        for the whole of it: `target` is the outcome of everything decoded before, followed by this input and by
        whatever is still to come. */
    method Decompress(input: seq<Byte>, buf: array<Byte>, ofs: nat, size: nat, hasMore: bool, wrap: bool,
                      ghost target: Outcome, ghost future: seq<bool>)
      returns (status: Status, used: nat, produced: nat)
      requires Paused() && Accepts(buf, ofs, size, wrap) && On(target, ByteBits(input) + future) && |future| % 8 == 0
      requires Aligned(target)
      modifies this, rd, buf, lenCodes, lit, lit.codeSize, lit.lookUp, lit.tree, dst, dst.codeSize, dst.lookUp, dst.tree
      modifies len, len.codeSize, len.lookUp, len.tree
      ensures Paused() && used <= |input| && produced <= size
      ensures status.BadParam? <==> wrap && !PowerOfTwo(ofs + size)
      ensures status.BadParam? ==> used == produced == 0
      ensures On(target, ByteBits(input[used..]) + future)
      ensures Shows(w, buf[..], out, ofs + produced) && out == old(out) + buf[ofs..ofs + produced]
      ensures status.NeedsMoreInput? ==> hasMore && Hungry(used, input)
      ensures status.CannotMakeProgress? ==> !hasMore && Hungry(used, input)
      ensures OutputOf(out, target)
      ensures status.HasMoreOutput? ==> AwaitsRoom() && produced == size && (Ends(target) ==> |out| < |target.out|)
      ensures !status.BadParam? ==> (status.Done? <==> state.PDone?)
      ensures status.Done? ==>
        LeftBehind(target, ByteBits(input[used..]) + future) && out == target.out
        && (old(rd.numBits) <= 7 ==> target.rest == ByteBits(input[used..]) + future)
      ensures status.Failed? ==> target.Failed? || target.BadCode?
      ensures status.Failed? && target.BadCode? ==> old(course.GivenUp?) || (|input| >= 4 && size >= 2)
      ensures target.BadCode? && |target.rest| >= 95 + |future| && size + |old(out)| >= |target.out| + 2 ==>
        old(course.Padded? || state == PSymbol(true)) || status.BadParam? || status.Failed?
      ensures course.GivenUp? ==> old(course.GivenUp?) || (|input| >= 4 && size >= 2)
    {
      hide *;
      assert input[0..] == input;
      if wrap && !PowerOfTwo(ofs + size) {
        PausedParts();
        OutputIsFinal(target, ByteBits(input) + future);
        Nothing(buf, ofs, size, wrap);
        return BadParam, 0, 0;
      }
      var r := Work(input, buf, ofs, size, wrap, target, future);
      produced := outCur - ofs;
      if target.BadCode? && |target.rest| >= 95 + |future| && size + |old(out)| >= |target.out| + 2
        && !old(course.Padded? || state == PSymbol(true)) {
        PlentyFails(r, target, future);
      }
      status, used := Leave(r, hasMore, input, target, future);
      OutputIsFinal(target, ByteBits(input[used..]) + future);
      PartsPaused();
    }
  }

  /** The end of the input cannot come before the end of the stream. */
  lemma HungryForMore(d: Decompressor, used: nat, input: seq<Byte>, target: Outcome)
    requires d.Hungry(used, input) && d.On(target, [])
    ensures target.Truncated?
  {
    d.StuckTruncated(target);
  }

  lemma NoMoreBytes(piece: seq<Byte>, used: nat, future: seq<bool>)
    requires used == |piece|
    ensures ByteBits(piece[used..]) + future == future
  {
    assert piece[used..] == [];
  }

  lemma HungryUses(d: Decompressor, used: nat, input: seq<Byte>)
    requires d.Hungry(used, input)
    ensures used == |input|
  {
  }
}
