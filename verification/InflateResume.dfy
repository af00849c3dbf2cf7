/** What remains to be done at each point where tinfl_decompress can be interrupted, as a function of the bits to come.
    A step of the decompressor is correct when it leaves the final outcome of the stream as it was. */
module InflateResume {
  import opened Bits
  import opened Canonical
  import opened Decoding
  import opened InflateSpec
  import opened LzSymbols
  import StaticCodes
  import BlockStream

  datatype Rest =
    | InBlock                                                     // before a block header
    | InType(kind: nat)                                           // after it
    | InHeader(known: seq<Byte>)                                  // in the header of a stored block
    | InStored(n: nat)                                            // n bytes of a stored block to go
    | InStoredByte(b: Byte, n: nat)                               // a byte read but not yet output, and n more
    | InCounts(got: seq<nat>)
    | InSizes(counts: seq<nat>, got: seq<nat>)
    | InLengths(counts: seq<nat>, z: seq<nat>, got: seq<nat>)
    | InRepeat(counts: seq<nat>, z: seq<nat>, got: seq<nat>, s: nat)
    | InTables(lit: seq<nat>, dst: seq<nat>)
    | InSymbols(lit: seq<nat>, dst: seq<nat>)
    | InLiteral(lit: seq<nat>, dst: seq<nat>, b: Byte)            // a literal decoded but not yet output
    | InLength(lit: seq<nat>, dst: seq<nat>, num: nat, base: nat)
    | InDistance(lit: seq<nat>, dst: seq<nat>, len: nat)
    | InDistBits(lit: seq<nat>, dst: seq<nat>, len: nat, num: nat, base: nat)
    | InCopy(lit: seq<nat>, dst: seq<nat>, len: nat, dist: nat)   // len bytes of a copy to go
    | AtStreamEnd                                                 // after the last block
    | Finished
    | Broken

  /** After a block: the stream goes on or ends. */
  ghost function Then(w: Window, final: bool, r: Outcome): Outcome {
    if r.Ended? then if final then Ended(r.out, Align(r.rest)) else Blocks(w, r.rest, r.out)
    else if r.EndedLoosely? then
      Loosen(if final then Ended(r.out, Align(r.rest)) else Blocks(w, r.rest, r.out))
    else r
  }

  lemma ThenLoosens(w: Window, final: bool, r: Outcome)
    ensures Then(w, final, Loosen(r)) == Loosen(Then(w, final, r))
  {
    hide Blocks, Align;
  }

  predicate WellFormed(c: Rest) {
    match c
    case InHeader(known) => |known| <= 4
    case InCounts(got) => |got| <= 3
    case InSizes(counts, _) => |counts| == 3
    case InLengths(counts, _, _) => |counts| == 3
    case InRepeat(counts, _, _, _) => |counts| == 3
    case _ => true
  }

  ghost function Resume(w: Window, final: bool, c: Rest, bits: seq<bool>, out: seq<Byte>): Outcome
    requires WellFormed(c)
  {
    match c
    case InBlock => Blocks(w, bits, out)
    case InType(kind) => Then(w, final, Block(w, kind, bits, out))
    case InHeader(known) => Then(w, final, StoredHeader(known, bits, out))
    case InStored(n) => Then(w, final, StoredBytes(n, bits, out))
    case InStoredByte(b, n) => Then(w, final, StoredBytes(n, bits, out + [b]))
    case InCounts(got) => Then(w, final, DynamicCounts(w, got, bits, out))
    case InSizes(counts, got) => Then(w, final, DynamicSizes(w, counts, got, bits, out))
    case InLengths(counts, z, got) => Then(w, final, CodeLengths(w, counts, z, got, bits, out))
    case InRepeat(counts, z, got, s) => Then(w, final, RepeatCount(w, counts, z, got, s, bits, out))
    case InTables(lit, dst) => Then(w, final, TwoTables(w, lit, dst, bits, out))
    case InSymbols(lit, dst) => Then(w, final, Symbols(w, lit, dst, bits, out))
    case InLiteral(lit, dst, b) => Then(w, final, Symbols(w, lit, dst, bits, out + [b]))
    case InLength(lit, dst, num, base) => Then(w, final, LengthBits(w, lit, dst, num, base, bits, out))
    case InDistance(lit, dst, len) => Then(w, final, DistCode(w, lit, dst, len, bits, out))
    case InDistBits(lit, dst, len, num, base) => Then(w, final, DistBits(w, lit, dst, len, num, base, bits, out))
    case InCopy(lit, dst, len, dist) =>
      if CanCopy(w, out, dist) then Then(w, final, Symbols(w, lit, dst, bits, Copy(w, out, len, dist))) else Failed
    case AtStreamEnd => Ended(out, Align(bits))
    case Finished => Ended(out, bits)
    case Broken => Failed
  }

  /** Reading a field of n bits at the front. */
  predicate Took(before: seq<bool>, n: nat, v: nat, after: seq<bool>) {
    n <= |before| && v == FromBits(before[..n]) && after == before[n..]
  }

  lemma TookMore(before: seq<bool>, n: nat, v: nat, after: seq<bool>, more: seq<bool>)
    requires Took(before, n, v, after)
    ensures Took(before + more, n, v, after + more)
  {
    hide FromBits;
    assert (before + more)[..n] == before[..n];
  }

  lemma StepBlock(w: Window, fin: bool, v: nat, before: seq<bool>, after: seq<bool>, out: seq<Byte>)
    requires Took(before, 3, v, after)
    ensures v / 2 < 4 && Resume(w, fin, InBlock, before, out) == Resume(w, v % 2 == 1, InType(v / 2), after, out)
  {
    BlockField(before, v);
    hide FromBits, Block, Align;
  }

  lemma StepType(w: Window, final: bool, kind: nat, bits: seq<bool>, out: seq<Byte>)
    requires kind < 4
    ensures kind == 0 ==> Resume(w, final, InType(kind), bits, out) == Resume(w, final, InHeader([]), Align(bits), out)
    ensures kind == 1 ==>
      Resume(w, final, InType(kind), bits, out)
      == Resume(w, final, InTables(StaticLit(), StaticDist()), bits, out)
    ensures kind == 2 ==> Resume(w, final, InType(kind), bits, out) == Resume(w, final, InCounts([]), bits, out)
    ensures kind == 3 ==> Resume(w, final, InType(kind), bits, out) == Resume(w, final, Broken, bits, out)
  {
    StaticTables(w, bits, out);
    hide StoredHeader, Symbols, DynamicCounts, TwoTables, StaticLit, StaticDist, Align;
  }

  lemma BlockField(bits: seq<bool>, v: nat)
    requires |bits| >= 3 && v == FromBits(bits[..3])
    ensures bits[0] == (v % 2 == 1) && FromBits(bits[1..3]) == v / 2 < 4
  {
    assert bits[..3][1..] == bits[1..3];
    ToFromBits(bits[1..3]);
    Pow2Values();
  }

  lemma StaticTables(w: Window, bits: seq<bool>, out: seq<Byte>)
    ensures TwoTables(w, StaticLit(), StaticDist(), bits, out) == Symbols(w, StaticLit(), StaticDist(), bits, out)
  {
    StaticCodes.StaticLitComplete();
    StaticCodes.StaticDistComplete();
    hide Symbols, Acceptable, StaticLit, StaticDist;
  }

  /** After the last block of a stream comes the end, after any other one the next block. */
  function Next(final: bool): Rest {
    if final then AtStreamEnd else InBlock
  }

  lemma StepEnd(w: Window, final: bool, bits: seq<bool>, out: seq<Byte>)
    ensures Then(w, final, Ended(out, bits)) == Resume(w, final, Next(final), bits, out)
  {
    hide Blocks;
  }

  lemma StepHeader(w: Window, final: bool, known: seq<Byte>, v: Byte, before: seq<bool>, after: seq<bool>,
    out: seq<Byte>)
    requires |known| < 4 && Took(before, 8, v, after)
    ensures Resume(w, final, InHeader(known), before, out) == Resume(w, final, InHeader(known + [v]), after, out)
  {
    hide FromBits, StoredBytes;
  }

  lemma StepHeaderDone(w: Window, final: bool, known: seq<Byte>, bits: seq<bool>, out: seq<Byte>)
    requires |known| == 4
    ensures var len, nlen := Word(known[0], known[1]), Word(known[2], known[3]);
      Resume(w, final, InHeader(known), bits, out)
        == Resume(w, final, if len + nlen != 65535 then Broken else InStored(len), bits, out)
  {
    hide StoredBytes;
  }

  lemma StepStored(w: Window, final: bool, n: nat, v: nat, before: seq<bool>, after: seq<bool>, out: seq<Byte>)
    requires n > 0 && Took(before, 8, v, after)
    ensures v < 256 && Resume(w, final, InStored(n), before, out)
      == Resume(w, final, InStoredByte(v, n - 1), after, out)
  {
    ToFromByte(before[..8]);
    hide FromBits, Then;
  }

  lemma StepStoredEnd(w: Window, final: bool, bits: seq<bool>, out: seq<Byte>)
    ensures Resume(w, final, InStored(0), bits, out) == Resume(w, final, Next(final), bits, out)
  {
    StepEnd(w, final, bits, out);
    hide Then, Blocks;
  }

  lemma {:induction false} StepStoredMany(w: Window, final: bool, n: nat, data: seq<Byte>, rest: seq<bool>,
    out: seq<Byte>)
    requires |data| <= n
    ensures Resume(w, final, InStored(n), ByteBits(data) + rest, out)
      == Resume(w, final, InStored(n - |data|), rest, out + data)
    decreases |data|
  {
    hide Then, Align, Blocks;
    if data == [] {
      assert ByteBits(data) + rest == rest && out + data == out;
    } else {
      var more := ByteBits(data[1..]) + rest;
      assert ByteBits(data) + rest == ToBits(data[0], 8) + more;
      BlockStream.ReadByte(data[0], more);
      StepStored(w, final, n, data[0], ToBits(data[0], 8) + more, more, out);
      StepStoredMany(w, final, n - 1, data[1..], rest, out + [data[0]]);
      assert out + [data[0]] + data[1..] == out + data;
    }
  }

  // ----- dynamic headers -----

  lemma StepCount(w: Window, final: bool, got: seq<nat>, v: nat, before: seq<bool>, after: seq<bool>, out: seq<Byte>)
    requires |got| < 3 && Took(before, HeaderBits(|got|), v, after)
    ensures Resume(w, final, InCounts(got), before, out)
      == Resume(w, final, InCounts(got + [v + HeaderMin(|got|)]), after, out)
  {
    hide FromBits, DynamicSizes, Then;
  }

  lemma StepCountsDone(w: Window, final: bool, got: seq<nat>, bits: seq<bool>, out: seq<Byte>)
    requires |got| == 3
    ensures Resume(w, final, InCounts(got), bits, out) == Resume(w, final, InSizes(got, []), bits, out)
  {
    hide DynamicSizes, Then;
  }

  lemma StepSize(w: Window, final: bool, counts: seq<nat>, got: seq<nat>, v: nat, before: seq<bool>, after: seq<bool>,
    out: seq<Byte>)
    requires |counts| == 3 && |got| < counts[2] && Took(before, 3, v, after)
    ensures Resume(w, final, InSizes(counts, got), before, out)
      == Resume(w, final, InSizes(counts, got + [v]), after, out)
  {
    hide FromBits, CodeLengths, Then, Acceptable, Dezigzag;
  }

  lemma StepSizesDone(w: Window, final: bool, counts: seq<nat>, got: seq<nat>, bits: seq<bool>, out: seq<Byte>)
    requires |counts| == 3 && |got| == counts[2]
    ensures var z := Dezigzag(got, |got|);
      Resume(w, final, InSizes(counts, got), bits, out)
        == Resume(w, final, if Acceptable(z) then InLengths(counts, z, []) else Broken, bits, out)
  {
    hide CodeLengths, Acceptable, Dezigzag;
  }

  lemma StepCode(w: Window, final: bool, counts: seq<nat>, z: seq<nat>, got: seq<nat>, s: nat, before: seq<bool>,
    after: seq<bool>, out: seq<Byte>)
    requires |counts| == 3 && |got| < counts[0] + counts[1]
    requires NextSymbol(z, before).Sym? && NextSymbol(z, before).s == s && after == before[NextSymbol(z, before).len..]
    ensures s < 16 ==>
      Resume(w, final, InLengths(counts, z, got), before, out)
        == Resume(w, final, InLengths(counts, z, got + [s]), after, out)
    ensures s == 16 && |got| == 0 ==>
      Resume(w, final, InLengths(counts, z, got), before, out) == Resume(w, final, Broken, after, out)
    ensures s >= 16 && !(s == 16 && |got| == 0) ==>
      Resume(w, final, InLengths(counts, z, got), before, out)
        == Resume(w, final, InRepeat(counts, z, got, s), after, out)
  {
    hide NextSymbol, RepeatCount;
  }

  /** An empty entry stands for a code length of 0, and takes no bits. */
  lemma StepCodeNone(w: Window, final: bool, counts: seq<nat>, z: seq<nat>, got: seq<nat>, bits: seq<bool>,
    out: seq<Byte>)
    requires |counts| == 3 && |got| < counts[0] + counts[1] && NextSymbol(z, bits).NoEntry?
    ensures Resume(w, final, InLengths(counts, z, got), bits, out)
      == Loosen(Resume(w, final, InLengths(counts, z, got + [0]), bits, out))
  {
    hide NextSymbol, RepeatCount, TwoTables, Then, Loosen;
    ThenLoosens(w, final, CodeLengths(w, counts, z, got + [0], bits, out));
  }

  lemma StepRepeat(w: Window, final: bool, counts: seq<nat>, z: seq<nat>, got: seq<nat>, s: nat, v: nat,
    before: seq<bool>, after: seq<bool>, out: seq<Byte>)
    requires |counts| == 3 && Took(before, RepeatBits(s), v, after)
    ensures Resume(w, final, InRepeat(counts, z, got, s), before, out)
         == Resume(w, final, InLengths(counts, z, got + Times(RepeatSize(s, got), v + RepeatBase(s))), after, out)
  {
    hide FromBits, CodeLengths, Then, RepeatBits, RepeatSize, RepeatBase;
  }

  lemma StepLengthsDone(w: Window, final: bool, counts: seq<nat>, z: seq<nat>, got: seq<nat>, bits: seq<bool>,
    out: seq<Byte>)
    requires |counts| == 3 && |got| >= counts[0] + counts[1]
    ensures Resume(w, final, InLengths(counts, z, got), bits, out)
         == Resume(w, final, if |got| != counts[0] + counts[1] then Broken
                             else InTables(got[..counts[0]], got[counts[0]..]), bits, out)
  {
    hide TwoTables, NextSymbol;
  }

  lemma StepTables(w: Window, final: bool, lit: seq<nat>, dst: seq<nat>, bits: seq<bool>, out: seq<Byte>)
    ensures Resume(w, final, InTables(lit, dst), bits, out)
         == Resume(w, final, if Acceptable(dst) && Acceptable(lit) then InSymbols(lit, dst) else Broken, bits, out)
  {
    hide Symbols, Acceptable;
  }

  // ----- symbols -----

  function AfterSymbol(lit: seq<nat>, dst: seq<nat>, final: bool, s: nat): (c: Rest)
    ensures WellFormed(c)
  {
    if s < 256 then InLiteral(lit, dst, s)
    else if s == 256 then Next(final)
    else InLength(lit, dst, LengthExtra(s - 257), LengthBase(s - 257))
  }

  lemma StepSymbol(w: Window, final: bool, lit: seq<nat>, dst: seq<nat>, s: nat, before: seq<bool>, after: seq<bool>,
    out: seq<Byte>)
    requires NextSymbol(lit, before).Sym? && NextSymbol(lit, before).s == s
    requires after == before[NextSymbol(lit, before).len..]
    ensures Resume(w, final, InSymbols(lit, dst), before, out)
         == Resume(w, final, AfterSymbol(lit, dst, final, s), after, out)
  {
    StepEnd(w, final, after, out);
    hide NextSymbol, LengthExtra, LengthBase, LengthBits, Blocks, Then;
  }

  /** An empty entry for a literal: both ways on are wrong. */
  lemma StepSymbolNone(w: Window, final: bool, lit: seq<nat>, dst: seq<nat>, bits: seq<bool>, out: seq<Byte>)
    requires NextSymbol(lit, bits).NoEntry?
    ensures Resume(w, final, InSymbols(lit, dst), bits, out) == BadCode(out, bits)
    ensures Resume(w, final, InLiteral(lit, dst, 0), bits, out) == BadCode(out + [0], bits)
  {
    hide NextSymbol, LengthBits, Blocks;
  }

  lemma StepLength(w: Window, final: bool, lit: seq<nat>, dst: seq<nat>, num: nat, base: nat, v: nat, before: seq<bool>,
                   after: seq<bool>, out: seq<Byte>)
    requires Took(before, num, v, after)
    ensures Resume(w, final, InLength(lit, dst, num, base), before, out)
         == Resume(w, final, InDistance(lit, dst, base + v), after, out)
  {
    hide FromBits, DistCode, Then;
  }

  lemma StepDistance(w: Window, final: bool, lit: seq<nat>, dst: seq<nat>, len: nat, s: nat, before: seq<bool>,
    after: seq<bool>, out: seq<Byte>)
    requires NextSymbol(dst, before).Sym? && NextSymbol(dst, before).s == s
    requires after == before[NextSymbol(dst, before).len..]
    ensures Resume(w, final, InDistance(lit, dst, len), before, out)
         == Resume(w, final, InDistBits(lit, dst, len, DistExtraBits(s), DistBase(s)), after, out)
  {
    hide NextSymbol, DistExtraBits, DistBase, DistBits, Then;
  }

  /** An empty entry stands for distance symbol 0, and takes no bits. */
  lemma StepDistanceNone(w: Window, final: bool, lit: seq<nat>, dst: seq<nat>, len: nat, bits: seq<bool>,
    out: seq<Byte>)
    requires NextSymbol(dst, bits).NoEntry?
    ensures Resume(w, final, InDistance(lit, dst, len), bits, out)
      == Loosen(Resume(w, final, InDistBits(lit, dst, len, DistExtraBits(0), DistBase(0)), bits, out))
  {
    hide NextSymbol, DistExtraBits, DistBase, DistBits, Then, Loosen;
    ThenLoosens(w, final, DistBits(w, lit, dst, len, DistExtraBits(0), DistBase(0), bits, out));
  }

  lemma StepDistBits(w: Window, final: bool, lit: seq<nat>, dst: seq<nat>, len: nat, num: nat, base: nat, v: nat,
    before: seq<bool>, after: seq<bool>, out: seq<Byte>)
    requires Took(before, num, v, after)
    ensures Resume(w, final, InDistBits(lit, dst, len, num, base), before, out)
         == Resume(w, final, if CanCopy(w, out, base + v) then InCopy(lit, dst, len, base + v) else Broken, after, out)
  {
    hide FromBits, Symbols, CanCopy, Copy;
  }

  lemma StepCopy(w: Window, final: bool, lit: seq<nat>, dst: seq<nat>, len: nat, dist: nat, bits: seq<bool>,
    out: seq<Byte>)
    requires CanCopy(w, out, dist)
    ensures len == 0 ==>
      Resume(w, final, InCopy(lit, dst, len, dist), bits, out)
      == Resume(w, final, InSymbols(lit, dst), bits, out)
    ensures CanCopy(w, out + [Source(w, out, dist)], dist)
    ensures len > 0 ==>
      Resume(w, final, InCopy(lit, dst, len, dist), bits, out)
        == Resume(w, final, InCopy(lit, dst, len - 1, dist), bits, out + [Source(w, out, dist)])
  {
    hide Symbols, Then, Source;
  }

  // ----- output and the end -----

  lemma StepPut(w: Window, final: bool, lit: seq<nat>, dst: seq<nat>, b: Byte, bits: seq<bool>, out: seq<Byte>)
    ensures Resume(w, final, InLiteral(lit, dst, b), bits, out)
      == Resume(w, final, InSymbols(lit, dst), bits, out + [b])
  {
    hide Symbols, Then;
  }

  lemma StepStoredPut(w: Window, final: bool, b: Byte, n: nat, bits: seq<bool>, out: seq<Byte>)
    ensures Resume(w, final, InStoredByte(b, n), bits, out) == Resume(w, final, InStored(n), bits, out + [b])
  {
    hide StoredBytes, Then;
  }

  lemma StepFinish(w: Window, final: bool, bits: seq<bool>, out: seq<Byte>)
    ensures Resume(w, final, AtStreamEnd, bits, out) == Resume(w, final, Finished, Align(bits), out)
  {
    hide Align;
  }

  // ----- running out of input -----

  /** The field that a point waits for. */
  function Wants(c: Rest): nat {
    match c
    case InBlock => 3
    case InHeader(known) => if |known| < 4 then 8 else 0
    case InStored(n) => if n > 0 then 8 else 0
    case InCounts(got) => if |got| < 3 then HeaderBits(|got|) else 0
    case InSizes(counts, got) => if |counts| == 3 && |got| < counts[2] then 3 else 0
    case InRepeat(_, _, _, s) => RepeatBits(s)
    case InLength(_, _, num, _) => num
    case InDistBits(_, _, _, num, _) => num
    case _ => 0
  }

  lemma RestFacts(c: Rest)
    ensures c.InHeader? && |c.known| == 4 ==> WellFormed(c) && Wants(c) == 0
    ensures c.InStored? || c.InTables? || c.InSymbols? || c.InLiteral? || c.AtStreamEnd? || c.Broken? ==> WellFormed(c)
    ensures c.InTables? || c.InSymbols? || c.InLiteral? || c.AtStreamEnd? ==> Wants(c) == 0
  {
  }

  lemma StuckField(w: Window, final: bool, c: Rest, bits: seq<bool>, out: seq<Byte>)
    requires WellFormed(c) && |bits| < Wants(c)
    ensures Resume(w, final, c, bits, out) == Truncated
  {
    hide FromBits, Acceptable, Dezigzag, CodeLengths, Symbols, DistCode, CanCopy, Copy;
  }

  /** The code that a point waits for. */
  function Table(c: Rest): seq<nat> {
    match c
    case InLengths(_, z, _) => z
    case InSymbols(lit, _) => lit
    case InDistance(_, dst, _) => dst
    case _ => []
  }

  predicate AtCode(c: Rest) {
    match c
    case InLengths(counts, _, got) => |counts| == 3 && |got| < counts[0] + counts[1]
    case InSymbols(_, _) => true
    case InDistance(_, _, _) => true
    case _ => false
  }

  lemma StuckCode(w: Window, final: bool, c: Rest, bits: seq<bool>, out: seq<Byte>)
    requires WellFormed(c) && AtCode(c)
    requires NextSymbol(Table(c), bits).NeedBits?
    ensures Resume(w, final, c, bits, out) == Truncated
  {
    hide NextSymbol, TwoTables;
  }

  // ----- what a decompressor can make of a stream -----

  predicate AllZero(s: seq<Byte>) {
    forall i :: 0 <= i < |s| ==> s[i] == 0
  }

  /** How a decompressor has gone about a stream: no empty table entry used; one used for a distance or a code length;
      one used for a literal, as a zero byte; and, in the fast path, as a reason to give up. */
  datatype Course = Straight | Loose | Padded | GivenUp

  /** The outcome to come, r, is right for a stream whose outcome is `target`. */
  predicate Meets(target: Outcome, course: Course, r: Outcome) {
    match course
    case Straight => r == target
    case Loose => Loosen(r) == target
    case Padded =>
      && target.BadCode? && r.BadCode? && r.rest == target.rest && target.out <= r.out
      && AllZero(r.out[|target.out|..])
    case GivenUp => false
  }

  function Stray(course: Course): Course {
    if course.Padded? then Padded else Loose
  }

  lemma MeetsLoosely(target: Outcome, course: Course, r: Outcome, next: Outcome)
    requires Meets(target, course, r) && r == Loosen(next)
    ensures Meets(target, Stray(course), next)
  {
  }

  lemma MeetsNone(target: Outcome, course: Course, r: Outcome, more: Outcome)
    requires Meets(target, course, r) && r.BadCode? && more == BadCode(r.out + [0], r.rest)
    ensures Meets(target, Padded, more)
  {
  }

  /** What has been output is the start of what the stream means, or, after a literal from an empty entry, that and zero
      bytes. */
  predicate OutputOf(out: seq<Byte>, target: Outcome) {
    && (Ends(target) ==> out <= target.out)
    && (target.BadCode? ==> out <= target.out || (target.out <= out && AllZero(out[|target.out|..])))
  }

  lemma OutputPrefix(o: seq<Byte>, out: seq<Byte>, target: Outcome)
    requires o <= out && OutputOf(out, target)
    ensures OutputOf(o, target)
  {
    if HasOutput(target) {
      assert o == out[..|o|];
      if out <= target.out {
        assert o == target.out[..|o|];
      } else if |o| < |target.out| {
        assert o == target.out[..|o|];
      } else {
        assert target.out == out[..|target.out|] == o[..|target.out|];
        assert o[|target.out|..] == out[|target.out|..][..|o| - |target.out|];
      }
    }
  }

  /** Output that the outcome to come starts with. */
  lemma OutputExtends(out: seq<Byte>, target: Outcome, course: Course, r: Outcome)
    requires Meets(target, course, r) && (HasOutput(r) ==> out <= r.out)
    ensures OutputOf(out, target)
  {
    if target.BadCode? && |out| >= |target.out| {
      assert target.out == r.out[..|target.out|] == out[..|target.out|];
      assert out[|target.out|..] == r.out[|target.out|..][..|out| - |target.out|];
    } else if target.BadCode? {
      assert out == r.out[..|out|] == target.out[..|out|];
    }
  }

  /** Everything behind the end is in whole bytes. */
  predicate Aligned(target: Outcome) {
    Ends(target) ==> |target.rest| % 8 == 0
  }

  /** The bits left behind the end of the stream, or all of them but the byte that an empty entry can cost. */
  predicate LeftBehind(target: Outcome, bits: seq<bool>) {
    && Ends(target) && |bits| <= |target.rest| <= |bits| + (if target.Ended? then 0 else 8)
    && target.rest[|target.rest| - |bits|..] == bits
  }
}
