/** mz_inflate: the decompressor behind a ring of 32 KB, for callers whose buffers have any size.  Raw streams only. */
module InflateStream {
  import opened Bits
  import opened InflateSpec
  import opened InflateResume
  import opened Inflater
  import OutWindow
  import InflateGrowth

  const DICT_SIZE: nat := 32768

  datatype FlushKind = None | Partial | Sync | Full | Finish | ToBlock

  datatype Code = Ok | StreamEnd | StreamError | DataError | BufError

  /** The status codes below zero. */
  predicate Negative(s: Status) {
    s.Failed? || s.CannotMakeProgress? || s.BadParam?
  }

  /** inflate_state, with the bytes that have been handed to the caller. */
  class InflateState {
    const dict: array<Byte>
    var decomp: Decompressor
    var dictOfs: nat
    var dictAvail: nat
    var lastStatus: Status
    var firstCall: bool
    var hasFlushed: bool
    ghost var handed: seq<Byte>

    /** Whatever has been output was handed to the caller or waits in the ring.  A decompressor that writes to the
        caller's buffer instead does so in one call. */
    ghost predicate Kept()
      reads this, dict, decomp, decomp.rd
    {
      && dict.Length == DICT_SIZE && dictOfs < DICT_SIZE && dictOfs + dictAvail <= DICT_SIZE
      && decomp.out == handed + dict[dictOfs..dictOfs + dictAvail]
      && Accounts(lastStatus)
      && if decomp.w.Ring? then OutWindow.Shows(decomp.w, dict[..], decomp.out, dictOfs + dictAvail)
         else hasFlushed && !firstCall && dictAvail == 0 && (lastStatus.Done? || Negative(lastStatus))
    }

    /** What the last status says about where the decompressor has stopped. */
    ghost predicate Accounts(status: Status)
      reads this`decomp, decomp, decomp.rd
    {
      && (status.Done? <==> decomp.state.PDone?) && (status.NeedsMoreInput? ==> decomp.Stuck())
      && (status.HasMoreOutput? ==> decomp.AwaitsRoom())
    }

    /** The stream has ended, and the caller has all of it. */
    ghost predicate Over()
      reads this`decomp, this`dictAvail, decomp
    {
      decomp.state.PDone? && dictAvail == 0
    }

    ghost predicate Valid()
      reads this, dict, decomp, decomp.rd, decomp.lenCodes
      reads decomp.lit, decomp.lit.codeSize, decomp.lit.lookUp, decomp.lit.tree
      reads decomp.dst, decomp.dst.codeSize, decomp.dst.lookUp, decomp.dst.tree
      reads decomp.len, decomp.len.codeSize, decomp.len.lookUp, decomp.len.tree
    {
      && decomp.Paused() && Kept()
      && (firstCall ==> decomp.AtStart() && handed == [] && dictAvail == 0 && !hasFlushed && lastStatus.NeedsMoreInput?)
    }

    /** mz_inflateInit2.  The ring starts with whatever the allocator returned. */
    constructor (memory: seq<Byte>)
      requires |memory| == DICT_SIZE
      ensures Valid() && firstCall && decomp.w == Ring(memory) && handed == []
      ensures fresh(dict) && fresh(decomp) && fresh(decomp.rd) && fresh(decomp.lenCodes)
      ensures fresh(decomp.lit) && fresh(decomp.lit.codeSize) && fresh(decomp.lit.lookUp) && fresh(decomp.lit.tree)
      ensures fresh(decomp.dst) && fresh(decomp.dst.codeSize) && fresh(decomp.dst.lookUp) && fresh(decomp.dst.tree)
      ensures fresh(decomp.len) && fresh(decomp.len.codeSize) && fresh(decomp.len.lookUp) && fresh(decomp.len.tree)
    {
      hide Decompressor.Paused, Decompressor.AtStart, Accounts;
      decomp := new Decompressor(Ring(memory));
      dict := new Byte[DICT_SIZE](i requires 0 <= i < DICT_SIZE => memory[i]);
      dictOfs, dictAvail, lastStatus, firstCall, hasFlushed, handed := 0, 0, NeedsMoreInput, true, false, [];
      new;
      assert dict[..] == memory;
      FreshRing(memory);
      StartAccounts();
    }

    lemma ValidParts()
      requires Valid()
      ensures decomp.Paused() && Kept() && (firstCall ==> decomp.AtStart() && handed == [] && decomp.w.Ring?)
    {
      hide Decompressor.Paused, Decompressor.AtStart, OutWindow.Shows;
    }

    lemma PartsValid()
      requires decomp.Paused() && Kept() && !firstCall
      ensures Valid()
    {
      hide Decompressor.Paused, Decompressor.AtStart, OutWindow.Shows;
    }

    lemma PartsLater()
      requires Kept() && decomp.w.Ring?
      ensures OutWindow.Shows(decomp.w, dict[..], decomp.out, dictOfs + dictAvail)
      ensures dict.Length == DICT_SIZE && dictOfs < DICT_SIZE && dictOfs + dictAvail <= DICT_SIZE
      ensures decomp.out == handed + dict[dictOfs..dictOfs + dictAvail]
    {
      hide OutWindow.Shows;
    }

    lemma DirectDone()
      requires Kept() && decomp.w.Linear? && !Negative(lastStatus)
      ensures lastStatus.Done?
    {
    }

    lemma DoneState()
      requires Kept()
      ensures lastStatus.Done? <==> decomp.state.PDone?
      ensures lastStatus.NeedsMoreInput? ==> decomp.Stuck()
      ensures lastStatus.HasMoreOutput? ==> decomp.AwaitsRoom()
    {
      hide Decompressor.Stuck, OutWindow.Shows;
    }

    lemma StartAccounts()
      requires decomp.AtStart() && decomp.Paused()
      ensures Accounts(NeedsMoreInput)
    {
      hide Decompressor.Matches, Decompressor.Shape;
    }

    /** The call of tinfl_decompress that fills the ring up to its end. */
    method Refill(input: seq<Byte>, hasMore: bool, ghost target: Outcome, ghost future: seq<bool>)
      returns (status: Status, used: nat)
      requires Valid() && !firstCall && dictAvail == 0 && !Negative(lastStatus) && |future| % 8 == 0
      requires decomp.On(target, ByteBits(input) + future) && Aligned(target)
      modifies this`lastStatus, this`dictAvail, dict, decomp, decomp.rd, decomp.lenCodes
      modifies decomp.lit, decomp.lit.codeSize, decomp.lit.lookUp, decomp.lit.tree
      modifies decomp.dst, decomp.dst.codeSize, decomp.dst.lookUp, decomp.dst.tree
      modifies decomp.len, decomp.len.codeSize, decomp.len.lookUp, decomp.len.tree
      ensures Valid() && lastStatus == status && used <= |input| && !status.BadParam?
      ensures decomp.On(target, ByteBits(input[used..]) + future)
      ensures status.NeedsMoreInput? ==> hasMore && decomp.Hungry(used, input)
      ensures status.CannotMakeProgress? ==> !hasMore && decomp.Hungry(used, input)
      ensures status.HasMoreOutput? ==> dictAvail > 0 && (Ends(target) ==> |decomp.out| < |target.out|)
      ensures status.Done? ==> LeftBehind(target, ByteBits(input[used..]) + future) && decomp.out == target.out
      ensures status.Failed? ==> target.BadCode? || target.Failed?
    {
      hide *;
      ValidParts();
      assert input[0..] == input;
      if lastStatus.Done? {
        // A decompressor that is done only says so again.
        DoneState();
        AlignedBytes(input, future);
        decomp.DoneOn(target, ByteBits(input) + future);
        return Status.Done, 0;
      }
      if decomp.w.Linear? {
        DirectDone();
      }
      PartsLater();
      RingAccepts();
      RingPower();
      ghost var o := decomp.out;
      var produced;
      status, used, produced := decomp.Decompress(input, dict, dictOfs, DICT_SIZE - dictOfs, hasMore, true, target,
        future);
      dictAvail, lastStatus := produced, status;
      assert dict[dictOfs..dictOfs] == [];
      Stopped(status, used, input);
      Refilled(o);
      PartsValid();
    }

    lemma Stopped(status: Status, used: nat, input: seq<Byte>)
      requires status.Done? <==> decomp.state.PDone?
      requires status.NeedsMoreInput? ==> decomp.Hungry(used, input)
      requires status.HasMoreOutput? ==> decomp.AwaitsRoom()
      ensures Accounts(status)
    {
      hide Decompressor.Stuck;
    }

    lemma RingAccepts()
      requires decomp.w.Ring? && dict.Length == DICT_SIZE && dictOfs < DICT_SIZE
      requires OutWindow.Shows(decomp.w, dict[..], decomp.out, dictOfs)
      ensures decomp.Accepts(dict, dictOfs, DICT_SIZE - dictOfs, true)
    {
      hide OutWindow.Shows;
    }

    lemma Refilled(o: seq<Byte>)
      requires dict.Length == DICT_SIZE && dictOfs < DICT_SIZE && dictOfs + dictAvail <= DICT_SIZE && decomp.w.Ring?
      requires handed == o && decomp.out == o + dict[dictOfs..dictOfs + dictAvail]
      requires OutWindow.Shows(decomp.w, dict[..], decomp.out, dictOfs + dictAvail)
      requires Accounts(lastStatus)
      ensures Kept()
    {
      hide OutWindow.Shows, Accounts;
    }

    /** What waits in the ring goes to the caller, as far as there is room. */
    method HandOut(dest: array<Byte>, at: nat) returns (n: nat)
      requires Valid() && !firstCall && at <= dest.Length && dest != dict
      modifies this`handed, this`dictOfs, this`dictAvail, dest
      ensures Valid() && at + n <= dest.Length && n + dictAvail == old(dictAvail)
        && (dictAvail == 0 || at + n == dest.Length)
      ensures dest[..at + n] == old(dest[..at]) + dest[at..at + n] && handed == old(handed) + dest[at..at + n]
    {
      hide Valid, Kept, Decompressor.Paused, Decompressor.AtStart, OutWindow.Shows;
      ValidParts();
      n := Min(dictAvail, dest.Length - at);
      CopyOut(dest, at, n);
      KeptFacts();
      Advance(dest[at..at + n]);
      assert dest[..at + n] == dest[..at] + dest[at..at + n];
      PartsValid();
    }

    method CopyOut(dest: array<Byte>, at: nat, n: nat)
      requires Kept() && n <= dictAvail && at + n <= dest.Length && dest != dict
      modifies dest
      ensures dest[..at] == old(dest[..at]) && Kept() && dest[at..at + n] == dict[..][dictOfs..dictOfs + n]
    {
      hide OutWindow.Shows, Accounts;
      forall i | 0 <= i < n {
        dest[at + i] := dict[dictOfs + i];
      }
    }

    method Advance(data: seq<Byte>)
      requires Kept() && |data| <= dictAvail && dictOfs + |data| <= dict.Length
      requires data == dict[..][dictOfs..dictOfs + |data|]
      modifies this`handed, this`dictOfs, this`dictAvail
      ensures Kept() && handed == old(handed) + data && dictAvail == old(dictAvail) - |data|
    {
      hide *;
      KeptFacts();
      ghost var ring := dict[..];
      var next, rest := (dictOfs + |data|) % DICT_SIZE, dictAvail - |data|;
      RingMoves(decomp.w, ring, decomp.out, handed, dictOfs, |data|, dictAvail, next, rest);
      handed := handed + data;
      dictOfs, dictAvail := next, rest;
      IsKept(ring);
    }

    lemma KeptFacts()
      requires Kept()
      ensures dict.Length == DICT_SIZE && dictOfs < DICT_SIZE && dictOfs + dictAvail <= DICT_SIZE
      ensures decomp.out == handed + dict[..][dictOfs..dictOfs + dictAvail] && Accounts(lastStatus)
      ensures if decomp.w.Ring? then OutWindow.Shows(decomp.w, dict[..], decomp.out, dictOfs + dictAvail)
        else hasFlushed && !firstCall && dictAvail == 0 && (lastStatus.Done? || Negative(lastStatus))
    {
      hide OutWindow.Shows, Accounts;
    }

    lemma IsKept(ring: seq<Byte>)
      requires ring == dict[..] && dict.Length == DICT_SIZE && dictOfs < DICT_SIZE && dictOfs + dictAvail <= DICT_SIZE
      requires decomp.out == handed + ring[dictOfs..dictOfs + dictAvail] && Accounts(lastStatus)
      requires if decomp.w.Ring? then OutWindow.Shows(decomp.w, ring, decomp.out, dictOfs + dictAvail)
        else hasFlushed && !firstCall && dictAvail == 0 && (lastStatus.Done? || Negative(lastStatus))
      ensures Kept()
    {
      hide OutWindow.Shows, Accounts;
    }

    /** What the caller has is the start of what the stream means. */
    lemma HandedIsFinal(target: Outcome, future: seq<bool>)
      requires Valid() && decomp.On(target, future)
      ensures handed <= decomp.out && |decomp.out| == |handed| + dictAvail
      ensures OutputOf(decomp.out, target) && OutputOf(handed, target)
    {
      hide Valid, Decompressor.On, Decompressor.Paused, OutWindow.Shows, OutputOf;
      ValidParts();
      decomp.PausedOutput(target, future);
      OutputPrefix(handed, decomp.out, target);
    }

    /** What a return code says about the stream as a whole, when all but `future` has been offered. */
    ghost predicate Tells(r: Code, finish: bool, input: seq<Byte>, left: seq<Byte>, full: bool, target: Outcome,
      future: seq<bool>)
      reads this`handed
    {
      match r
      case StreamEnd => LeftBehind(target, ByteBits(left) + future) && handed == target.out
      case DataError => target.Failed? || target.BadCode? || (finish && (future == [] ==> target.Truncated?))
      case BufError =>
        if finish then full && (Ends(target) ==> |handed| < |target.out|)
        else input == [] && (future == [] ==> target.Truncated?)
      case Ok => future == [] && left == [] && Ends(target) ==> |handed| < |target.out|
      case StreamError => true
    }

    /** What the status of the last call of tinfl_decompress says, once the caller has got what fits. */
    ghost predicate Passed(status: Status, hasMore: bool, left: seq<Byte>, full: bool, target: Outcome,
      future: seq<bool>)
      reads this`handed, this`dictAvail
    {
      && (dictAvail == 0 || full) && !status.BadParam?
      && (status.NeedsMoreInput? ==> hasMore) && (status.CannotMakeProgress? ==> !hasMore)
      && (status.NeedsMoreInput? || status.CannotMakeProgress? ==>
            left == [] && (future == [] ==> target.Truncated?))
      && (status.HasMoreOutput? && Ends(target) ==> |handed| < |target.out|)
      && (status.Done? ==>
            LeftBehind(target, ByteBits(left) + future)
            && if dictAvail == 0 then handed == target.out else |handed| < |target.out|)
      && (status.Failed? ==> target.BadCode? || target.Failed?)
    }

    /** What it says before that. */
    static ghost predicate Filled(status: Status, hasMore: bool, out: seq<Byte>, avail: nat, left: seq<Byte>,
      target: Outcome, future: seq<bool>)
    {
      && !status.BadParam? && (status.NeedsMoreInput? ==> hasMore) && (status.CannotMakeProgress? ==> !hasMore)
      && (status.NeedsMoreInput? || status.CannotMakeProgress? ==>
            left == [] && (future == [] ==> target.Truncated?))
      && (status.HasMoreOutput? ==> avail > 0 && (Ends(target) ==> |out| < |target.out|))
      && (status.Done? ==> LeftBehind(target, ByteBits(left) + future) && out == target.out)
      && (status.Failed? ==> target.BadCode? || target.Failed?)
    }

    method Fill(hasMore: bool, input: seq<Byte>, from: nat, ghost target: Outcome, ghost future: seq<bool>)
      returns (status: Status, used: nat)
      requires Valid() && !firstCall && dictAvail == 0 && !Negative(lastStatus) && |future| % 8 == 0 && from <= |input|
      requires decomp.On(target, ByteBits(input[from..]) + future) && Aligned(target)
      modifies this`lastStatus, this`dictAvail, dict, decomp, decomp.rd, decomp.lenCodes
      modifies decomp.lit, decomp.lit.codeSize, decomp.lit.lookUp, decomp.lit.tree
      modifies decomp.dst, decomp.dst.codeSize, decomp.dst.lookUp, decomp.dst.tree
      modifies decomp.len, decomp.len.codeSize, decomp.len.lookUp, decomp.len.tree
      ensures Valid() && lastStatus == status && from <= used <= |input|
      ensures decomp.On(target, ByteBits(input[used..]) + future)
      ensures Filled(status, hasMore, decomp.out, dictAvail, input[used..], target, future)
    {
      hide Valid, Decompressor.On, Decompressor.Hungry, ByteBits;
      status, used := Refill(input[from..], hasMore, target, future);
      RestOfRest(input, from, used);
      used := from + used;
      Starved(input, from, used, target, future);
    }

    /** One pass of the loop: the ring is filled up, and handed out as far as there is room. */
    method Pass(hasMore: bool, input: seq<Byte>, from: nat, dest: array<Byte>, at: nat, ghost h: seq<Byte>,
      ghost target: Outcome, ghost future: seq<bool>)
      returns (status: Status, used: nat, given: nat)
      requires Valid() && !firstCall && dictAvail == 0 && !Negative(lastStatus) && dest != dict && |future| % 8 == 0
      requires from <= |input| && at <= dest.Length && handed == h + dest[..at]
      requires decomp.On(target, ByteBits(input[from..]) + future) && Aligned(target)
      modifies this`lastStatus, this`dictAvail, this`dictOfs, this`handed, dest, dict
      modifies decomp, decomp.rd, decomp.lenCodes
      modifies decomp.lit, decomp.lit.codeSize, decomp.lit.lookUp, decomp.lit.tree
      modifies decomp.dst, decomp.dst.codeSize, decomp.dst.lookUp, decomp.dst.tree
      modifies decomp.len, decomp.len.codeSize, decomp.len.lookUp, decomp.len.tree
      ensures Valid() && lastStatus == status && from <= used <= |input| && at <= given <= dest.Length
      ensures handed == h + dest[..given] && decomp.On(target, ByteBits(input[used..]) + future)
      ensures Passed(status, hasMore, input[used..], given == dest.Length, target, future)
      ensures status.HasMoreOutput? ==> given > at || given == dest.Length
    {
      hide *;
      ghost var before := dest[..at];
      status, used := Fill(hasMore, input, from, target, future);
      ghost var avail := dictAvail;
      var n := HandOut(dest, at);
      given := at + n;
      HandedIsFinal(target, ByteBits(input[used..]) + future);
      HasPassed(status, hasMore, avail, input[used..], given == dest.Length, target, future);
      Appended(h, before, dest[at..given]);
    }

    lemma HasPassed(status: Status, hasMore: bool, avail: nat, left: seq<Byte>, full: bool, target: Outcome,
      future: seq<bool>)
      requires (dictAvail == 0 || full) && Filled(status, hasMore, decomp.out, avail, left, target, future)
      requires handed <= decomp.out && |decomp.out| == |handed| + dictAvail
      ensures Passed(status, hasMore, left, full, target, future) && (status.HasMoreOutput? ==> avail > 0)
    {
      hide ByteBits;
    }

    /** The loop of mz_inflate. */
    method Pump(flush: FlushKind, input: seq<Byte>, dest: array<Byte>, ghost target: Outcome, ghost future: seq<bool>)
      returns (r: Code, used: nat, given: nat)
      requires Valid() && !firstCall && dictAvail == 0 && !Negative(lastStatus) && dest != dict && |future| % 8 == 0
      requires decomp.On(target, ByteBits(input) + future) && Aligned(target)
      modifies this`lastStatus, this`dictAvail, this`dictOfs, this`handed, dest, dict
      modifies decomp, decomp.rd, decomp.lenCodes
      modifies decomp.lit, decomp.lit.codeSize, decomp.lit.lookUp, decomp.lit.tree
      modifies decomp.dst, decomp.dst.codeSize, decomp.dst.lookUp, decomp.dst.tree
      modifies decomp.len, decomp.len.codeSize, decomp.len.lookUp, decomp.len.tree
      ensures Valid() && used <= |input| && given <= dest.Length && handed == old(handed) + dest[..given]
      ensures decomp.On(target, ByteBits(input[used..]) + future)
      ensures Tells(r, flush.Finish?, input, input[used..], given == dest.Length, target, future)
      ensures !r.StreamError? && (r.Ok? && dest.Length > 0 ==> used > 0 || given > 0)
      ensures (r.StreamEnd? <==> Over()) && (r.DataError? <==> Negative(lastStatus))
      ensures r.Ok? ==> used == |input| || given == dest.Length
    {
      hide Valid, Decompressor.On, Decompressor.Stuck, ByteBits, LeftBehind, OutputOf, Aligned;
      ghost var h := handed;
      used, given := 0, 0;
      assert input[0..] == input;
      while true
        invariant used <= |input| && given <= dest.Length && Valid() && dictAvail == 0 && !Negative(lastStatus)
        invariant handed == h + dest[..given] && decomp.On(target, ByteBits(input[used..]) + future)
        decreases dest.Length - given
      {
        var status;
        status, used, given := Pass(!flush.Finish?, input, used, dest, given, h, target, future);
        EndsWith();
        if Negative(status) {
          return DataError, used, given;
        } else if status.NeedsMoreInput? && |input| == 0 {
          return BufError, used, given;
        } else if flush.Finish? {
          if status.Done? {
            return if dictAvail != 0 then BufError else StreamEnd, used, given;
          } else if given == dest.Length {
            return BufError, used, given;
          }
        } else if status.Done? || used == |input| || given == dest.Length || dictAvail != 0 {
          return if status.Done? && dictAvail == 0 then StreamEnd else Ok, used, given;
        }
      }
    }

    /** MZ_FINISH on the first call: straight to the caller's buffer, which has to hold everything.  The window of a
        decompressor is fixed when it is made, so this one, which has not been called yet, is made anew. */
    method Direct(input: seq<Byte>, dest: array<Byte>, ghost target: Outcome, ghost future: seq<bool>)
      returns (r: Code, used: nat, given: nat)
      requires Kept() && !firstCall && hasFlushed && dictAvail == 0 && handed == [] && dest != dict
      requires |future| % 8 == 0 && Aligned(target)
      requires target == Inflate(Linear, ByteBits(input) + future)
      modifies this`decomp, this`lastStatus, this`handed, dest
      ensures Valid() && used <= |input| && given <= dest.Length && handed == dest[..given]
      ensures fresh(decomp) && decomp.On(target, ByteBits(input[used..]) + future)
      ensures Tells(r, true, input, input[used..], given == dest.Length, target, future)
      ensures !r.StreamError? && !r.Ok? && (r.StreamEnd? <==> Over())
      ensures if r.StreamEnd? then !Negative(lastStatus) else Negative(lastStatus)
    {
      hide Valid, Kept, Decompressor.On, Decompressor.Hungry, Decompressor.Paused, Decompressor.AtStart,
        OutWindow.Shows, ByteBits, Inflate, OutputOf, LeftBehind;
      assert input[0..] == input;
      KeptRing();
      decomp := new Decompressor(Linear);
      decomp.StartsOn(ByteBits(input) + future);
      NothingShown(dest[..]);
      var status;
      status, used, given := decomp.Decompress(input, dest, 0, dest.Length, false, false, target, future);
      lastStatus, handed := if Negative(status) || status.Done? then status else Status.Failed, dest[..given];
      assert dest[0..given] == dest[..given];
      KeptDirect();
      DoneState();
      PartsValid();
      Starved(input, 0, used, target, future);
      r := if Negative(status) then DataError else if status.Done? then StreamEnd else BufError;
    }

    lemma KeptRing()
      requires Kept()
      ensures dict.Length == DICT_SIZE && dictOfs < DICT_SIZE && dictOfs + dictAvail <= DICT_SIZE
    {
      hide OutWindow.Shows;
    }

    lemma KeptDirect()
      requires dict.Length == DICT_SIZE && dictOfs < DICT_SIZE && !firstCall && hasFlushed && dictAvail == 0
      requires decomp.w.Linear? && (lastStatus.Done? || Negative(lastStatus)) && handed == decomp.out
      requires Accounts(lastStatus)
      ensures Kept()
    {
      hide Accounts;
      assert dict[dictOfs..dictOfs] == [];
    }

    /** The outcome to expect: of what is still to come, or of the whole stream in one buffer. */
    ghost predicate Expects(flush: FlushKind, target: Outcome, bits: seq<bool>)
      reads this, decomp, decomp.rd
    {
      if firstCall && flush.Finish? then target == Inflate(Linear, bits) else decomp.On(target, bits)
    }

    /** mz_inflate. */
    method MzInflate(flush: FlushKind, input: seq<Byte>, dest: array<Byte>, ghost target: Outcome,
      ghost future: seq<bool>)
      returns (r: Code, used: nat, given: nat)
      requires Valid() && dest != dict && |future| % 8 == 0 && Aligned(target)
      requires Expects(flush, target, ByteBits(input) + future)
      modifies this, dest, dict, decomp, decomp.rd, decomp.lenCodes
      modifies decomp.lit, decomp.lit.codeSize, decomp.lit.lookUp, decomp.lit.tree
      modifies decomp.dst, decomp.dst.codeSize, decomp.dst.lookUp, decomp.dst.tree
      modifies decomp.len, decomp.len.codeSize, decomp.len.lookUp, decomp.len.tree
      ensures Valid() && used <= |input| && given <= dest.Length && handed == old(handed) + dest[..given]
      ensures decomp.On(target, ByteBits(input[used..]) + future) && OutputOf(handed, target)
      ensures r.StreamError? <==>
        flush.Full? || flush.ToBlock? || (!Negative(old(lastStatus)) && old(hasFlushed) && !flush.Finish?)
      ensures r.StreamError? ==> used == given == 0
      ensures Negative(old(lastStatus)) && !r.StreamError? ==> r.DataError? && used == given == 0
      ensures Negative(old(lastStatus))
           || Tells(r, flush.Finish?, input, input[used..], given == dest.Length, target, future)
      ensures !r.StreamError? ==> (r.StreamEnd? <==> Over())
      ensures old(dictAvail) == 0 && r.Ok? ==> used == |input| || given == dest.Length
      ensures old(dictAvail) > 0 && !r.StreamError? && !r.DataError? ==>
        used == 0 && given == Min(old(dictAvail), dest.Length)
      ensures r.Ok? && dest.Length > 0 ==> used > 0 || given > 0
      ensures Negative(lastStatus) <==>
        Negative(old(lastStatus)) || r.DataError? || (r.BufError? && old(firstCall) && flush.Finish?)
      ensures !flush.Finish? ==> decomp == old(decomp) && hasFlushed == old(hasFlushed)
      ensures decomp == old(decomp) || fresh(decomp)
    {
      hide Valid, Kept, Decompressor.On, ByteBits, Inflate;
      used, given := 0, 0;
      assert input[0..] == input;
      if flush.Full? || flush.ToBlock? {
        HandedIsFinal(target, ByteBits(input) + future);
        return StreamError, used, given;
      }
      var first := firstCall;
      CallLater();
      if Negative(lastStatus) {
        EndsWith();
        HandedIsFinal(target, ByteBits(input) + future);
        return DataError, used, given;
      }
      if hasFlushed && !flush.Finish? {
        HandedIsFinal(target, ByteBits(input) + future);
        return StreamError, used, given;
      }
      r, used, given := Deliver(flush, first, input, dest, target, future);
    }

    /** mz_inflate, once the call has been accepted. */
    method Deliver(flush: FlushKind, first: bool, input: seq<Byte>, dest: array<Byte>, ghost target: Outcome,
      ghost future: seq<bool>)
      returns (r: Code, used: nat, given: nat)
      requires Valid() && !firstCall && !Negative(lastStatus) && dest != dict
      requires |future| % 8 == 0 && Aligned(target)
      requires if first && flush.Finish?
        then handed == [] && dictAvail == 0 && target == Inflate(Linear, ByteBits(input) + future)
        else decomp.On(target, ByteBits(input) + future)
      modifies this, dest, dict, decomp, decomp.rd, decomp.lenCodes
      modifies decomp.lit, decomp.lit.codeSize, decomp.lit.lookUp, decomp.lit.tree
      modifies decomp.dst, decomp.dst.codeSize, decomp.dst.lookUp, decomp.dst.tree
      modifies decomp.len, decomp.len.codeSize, decomp.len.lookUp, decomp.len.tree
      ensures Valid() && used <= |input| && given <= dest.Length && handed == old(handed) + dest[..given]
      ensures decomp.On(target, ByteBits(input[used..]) + future) && OutputOf(handed, target)
      ensures Tells(r, flush.Finish?, input, input[used..], given == dest.Length, target, future)
      ensures !r.StreamError? && (r.StreamEnd? <==> Over()) && (r.Ok? && dest.Length > 0 ==> used > 0 || given > 0)
      ensures Negative(lastStatus) <==> r.DataError? || (r.BufError? && first && flush.Finish?)
      ensures if old(dictAvail) > 0 then used == 0 && given == Min(old(dictAvail), dest.Length)
        else r.Ok? ==> used == |input| || given == dest.Length
      ensures !flush.Finish? ==> decomp == old(decomp) && hasFlushed == old(hasFlushed)
      ensures decomp == old(decomp) || fresh(decomp)
    {
      hide Valid, Kept, Decompressor.On, ByteBits, Inflate, OutputOf, LeftBehind;
      used, given := 0, 0;
      assert input[0..] == input;
      Flushing(flush.Finish?);
      if flush.Finish? && first {
        r, used, given := Direct(input, dest, target, future);
      } else if dictAvail != 0 {
        given := HandOut(dest, 0);
        r := if lastStatus.Done? && dictAvail == 0 then StreamEnd else Ok;
        HandedOut(target, input, future);
        EndsWith();
      } else {
        r, used, given := Pump(flush, input, dest, target, future);
      }
      HandedIsFinal(target, ByteBits(input[used..]) + future);
    }

    /** The decompressor has ended if and only if its last status says so. */
    lemma EndsWith()
      requires Valid()
      ensures lastStatus.Done? <==> decomp.state.PDone?
    {
      hide Decompressor.Paused, Decompressor.AtStart, Decompressor.Stuck, OutWindow.Shows;
    }

    method CallLater()
      requires Valid()
      modifies this`firstCall
      ensures Valid() && !firstCall
      ensures old(firstCall) ==>
        decomp.w.Ring? && handed == [] && dictAvail == 0 && !hasFlushed && !Negative(lastStatus)
    {
      hide Decompressor.Paused, Decompressor.AtStart, OutWindow.Shows;
      firstCall := false;
    }

    method Flushing(finish: bool)
      requires Valid() && !firstCall
      modifies this`hasFlushed
      ensures Valid() && Kept() && hasFlushed == (old(hasFlushed) || finish)
    {
      hide Decompressor.Paused, Decompressor.AtStart, OutWindow.Shows;
      hasFlushed := hasFlushed || finish;
    }

    /** When the last bytes have been handed out, the stream ends if the decompressor has said so. */
    lemma HandedOut(target: Outcome, input: seq<Byte>, future: seq<bool>)
      requires Valid() && decomp.On(target, ByteBits(input) + future) && |future| % 8 == 0
      requires Aligned(target)
      ensures lastStatus.Done? && dictAvail == 0 ==>
        LeftBehind(target, ByteBits(input) + future) && handed == target.out
      ensures (lastStatus.Done? ==> dictAvail > 0) && !Negative(lastStatus) && future == [] && input == [] ==>
        Ends(target) ==> |handed| < |target.out|
    {
      hide *;
      HandedIsFinal(target, ByteBits(input) + future);
      if lastStatus.Done? {
        ValidParts();
        DoneState();
        AlignedBytes(input, future);
        decomp.DoneOn(target, ByteBits(input) + future);
      } else if future == [] && input == [] {
        NothingToCome(input, future);
        HandedOpen(target);
      }
    }

    lemma HandedOpen(target: Outcome)
      requires Valid() && decomp.On(target, []) && |decomp.out| == |handed| + dictAvail
      ensures !lastStatus.Done? && !Negative(lastStatus) && Ends(target) ==> |handed| < |target.out|
    {
      hide Valid, Kept, Decompressor.On, Decompressor.Paused, Decompressor.Stuck;
      ValidParts();
      DoneState();
      decomp.WaitOutcome(target);
    }

    /** Waiting for input means that all of it is used, and that there has to be more. */
    lemma Starved(input: seq<Byte>, from: nat, used: nat, target: Outcome, future: seq<bool>)
      requires from <= used <= |input| && decomp.On(target, ByteBits(input[used..]) + future)
      ensures decomp.Hungry(used - from, input[from..]) ==>
        input[used..] == [] && (future == [] ==> target.Truncated?)
    {
      hide Decompressor.On, Decompressor.Hungry;
      if decomp.Hungry(used - from, input[from..]) {
        HungryUses(decomp, used - from, input[from..]);
        NoMoreBytes(input, used, future);
        if future == [] {
          HungryForMore(decomp, used - from, input[from..], target);
        }
      }
    }
  }

  lemma RestOfRest(input: seq<Byte>, from: nat, n: nat)
    requires from + n <= |input|
    ensures input[from..][n..] == input[from + n..]
  {
  }

  lemma NothingShown(dest: seq<Byte>)
    ensures OutWindow.Shows(Linear, dest, [], 0)
  {
  }

  lemma Appended(a: seq<Byte>, b: seq<Byte>, c: seq<Byte>)
    ensures a + b + c == a + (b + c)
  {
  }

  lemma RingPower()
    ensures PowerOfTwo(DICT_SIZE)
  {
    assert PowerOfTwo(32) && PowerOfTwo(1024);
  }

  lemma FreshRing(memory: seq<Byte>)
    requires |memory| == DICT_SIZE
    ensures OutWindow.Shows(Ring(memory), memory, [], 0)
  {
    forall a: nat | a < |memory|
      ensures OutWindow.ShowsAt(memory, memory, [], a)
    {
      assert a % |memory| == a;
    }
  }

  /** The end of the ring is its start. */
  lemma RingTurns(w: Window, ring: seq<Byte>, out: seq<Byte>, ofs: nat, n: nat, avail: nat)
    requires |ring| == DICT_SIZE && ofs < DICT_SIZE && n <= avail && ofs + avail <= DICT_SIZE
    ensures var next := (ofs + n) % DICT_SIZE;
      && next + (avail - n) <= DICT_SIZE && (n < avail ==> next == ofs + n)
        && (n == avail ==> next + (avail - n) == next)
    ensures var next := (ofs + n) % DICT_SIZE;
      w.Ring? && OutWindow.Shows(w, ring, out, ofs + avail) ==> OutWindow.Shows(w, ring, out, next + (avail - n))
  {
    hide OutWindow.ShowsAt;
  }

  /** What waits is what is handed out and what is left, also when nothing is. */
  lemma RingRest(ring: seq<Byte>, out: seq<Byte>, handed: seq<Byte>, ofs: nat, n: nat, avail: nat)
    requires |ring| == DICT_SIZE && ofs < DICT_SIZE && n <= avail && ofs + avail <= DICT_SIZE
    requires out == handed + ring[ofs..ofs + avail]
    ensures var next := (ofs + n) % DICT_SIZE;
      next + (avail - n) <= DICT_SIZE && out == handed + ring[ofs..ofs + n] + ring[next..next + (avail - n)]
  {
    var next := (ofs + n) % DICT_SIZE;
    assert ring[next..next + (avail - n)] == ring[ofs + n..ofs + avail];
    assert ring[ofs..ofs + avail] == ring[ofs..ofs + n] + ring[ofs + n..ofs + avail];
  }

  lemma RingMoves(w: Window, ring: seq<Byte>, out: seq<Byte>, handed: seq<Byte>, ofs: nat, n: nat, avail: nat,
    next: nat, rest: nat)
    requires |ring| == DICT_SIZE && ofs < DICT_SIZE && n <= avail && ofs + avail <= DICT_SIZE
    requires next == (ofs + n) % DICT_SIZE && rest == avail - n && out == handed + ring[ofs..ofs + avail]
    ensures next < DICT_SIZE && next + rest <= DICT_SIZE && out == handed + ring[ofs..ofs + n] + ring[next..next + rest]
    ensures w.Ring? && OutWindow.Shows(w, ring, out, ofs + avail) ==> OutWindow.Shows(w, ring, out, next + rest)
  {
    hide OutWindow.Shows;
    RingTurns(w, ring, out, ofs, n, avail);
    RingRest(ring, out, handed, ofs, n, avail);
  }

  lemma NothingToCome(input: seq<Byte>, future: seq<bool>)
    requires input == [] && future == []
    ensures ByteBits(input) + future == []
  {
  }

  lemma AlignedBytes(input: seq<Byte>, future: seq<bool>)
    requires |future| % 8 == 0
    ensures |ByteBits(input) + future| % 8 == 0
  {
  }

  lemma Divided(left: seq<Byte>, n: nat, used: nat)
    requires used <= n <= |left|
    ensures ByteBits(left[..n][used..]) + ByteBits(left[n..]) == ByteBits(left[used..])
  {
    ByteBitsConcat(left[..n][used..], left[n..]);
    assert left[..n][used..] + left[n..] == left[used..];
  }

  lemma SuffixRest(data: seq<Byte>, left: seq<Byte>, n: nat)
    requires |left| <= |data| && left == data[|data| - |left|..] && n <= |left|
    ensures left[n..] == data[|data| - |left[n..]|..]
  {
  }

  lemma StartsAligned(z: InflateState, bits: seq<bool>)
    requires z.Valid() && z.firstCall
    ensures var target := Inflate(z.decomp.w, bits);
      z.decomp.On(target, bits) && Aligned(target) && z.handed == [] && !z.hasFlushed
    ensures !Negative(z.lastStatus)
  {
    hide Blocks, Decompressor.Paused, Decompressor.AtStart, Decompressor.On, OutWindow.Shows;
    z.decomp.StartsOn(bits);
    InflateGrowth.RestAligned(z.decomp.w, bits, []);
  }

  /** A stream that ends, offered to mz_inflate in portions of any size and with room of any size: every call makes
      progress, the last one says that the stream has ended, and by then the caller has all of its bytes. */
  method InflateAll(z: InflateState, data: seq<Byte>, chunk: nat -> nat, room: nat -> nat)
    returns (r: Code, out: seq<Byte>, left: seq<Byte>)
    requires z.Valid() && z.firstCall && Ends(Inflate(z.decomp.w, ByteBits(data)))
    requires forall k: nat :: chunk(k) > 0 && room(k) > 0
    modifies z, z.dict, z.decomp, z.decomp.rd, z.decomp.lenCodes
    modifies z.decomp.lit, z.decomp.lit.codeSize, z.decomp.lit.lookUp, z.decomp.lit.tree
    modifies z.decomp.dst, z.decomp.dst.codeSize, z.decomp.dst.lookUp, z.decomp.dst.tree
    modifies z.decomp.len, z.decomp.len.codeSize, z.decomp.len.lookUp, z.decomp.len.tree
    ensures var outcome := Inflate(old(z.decomp.w), ByteBits(data));
      r.StreamEnd? && LeftBehind(outcome, ByteBits(left)) && out == outcome.out
    ensures |left| <= |data| && left == data[|data| - |left|..]
  {
    hide InflateState.Valid, Decompressor.On, ByteBits, Inflate;
    ghost var target := Inflate(z.decomp.w, ByteBits(data));
    StartsAligned(z, ByteBits(data));
    r, out, left := Ok, [], data;
    var k := 0;
    while r.Ok?
      invariant z.Valid() && z.handed == out && z.decomp == old(z.decomp) && !z.hasFlushed && out <= target.out
      invariant |left| <= |data| && left == data[|data| - |left|..]
      invariant r.Ok? ==> !Negative(z.lastStatus) && z.decomp.On(target, ByteBits(left))
      invariant !r.Ok? ==> r.StreamEnd? && LeftBehind(target, ByteBits(left)) && out == target.out
      decreases r.Ok?, |left| + (|target.out| - |out|)
    {
      var n := Min(chunk(k), |left|);
      var dest := new Byte[room(k)];
      Divided(left, n, 0);
      assert left[..n][0..] == left[..n] && left[0..] == left;
      var used, given;
      r, used, given := z.MzInflate(Sync, left[..n], dest, target, ByteBits(left[n..]));
      Divided(left, n, used);
      SuffixRest(data, left, used);
      NoneLeft(left, n);
      out, left, k := out + dest[..given], left[used..], k + 1;
    }
  }

  lemma NoneLeft(left: seq<Byte>, n: nat)
    requires n <= |left|
    ensures |left[..n]| == n && |ByteBits(left[n..])| % 8 == 0 && (n == |left| ==> ByteBits(left[n..]) == [])
  {
  }
}
