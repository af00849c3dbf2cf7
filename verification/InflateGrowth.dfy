/** Output is final: whatever a decompressor has output is the start of what the whole stream means. */
module InflateGrowth {
  import opened Bits
  import opened Canonical
  import opened Decoding
  import opened InflateSpec
  import opened InflateResume
  import opened LzSymbols

  /** The outcome, if there is one, starts with this output. */
  predicate Extends(out: seq<Byte>, r: Outcome) {
    HasOutput(r) ==> out <= r.out
  }

  lemma {:induction false} SymbolsExtends(w: Window, lit: seq<nat>, dst: seq<nat>, bits: seq<bool>, out: seq<Byte>)
    ensures Extends(out, Symbols(w, lit, dst, bits, out))
    decreases |bits|, 4
  {
    hide NextSymbol, LengthExtra, LengthBase, LengthBits;
    if NextSymbol(lit, bits).Sym? {
      var s := NextSymbol(lit, bits).s;
      var rest := bits[NextSymbol(lit, bits).len..];
      if s < 256 {
        SymbolsExtends(w, lit, dst, rest, out + [s]);
      } else if s > 256 {
        LengthBitsExtends(w, lit, dst, LengthExtra(s - 257), LengthBase(s - 257), rest, out);
      }
    }
  }

  lemma {:induction false} LengthBitsExtends(w: Window, lit: seq<nat>, dst: seq<nat>, num: nat, base: nat,
    bits: seq<bool>, out: seq<Byte>)
    ensures Extends(out, LengthBits(w, lit, dst, num, base, bits, out))
    decreases |bits|, 7
  {
    hide FromBits, DistCode;
    if |bits| >= num {
      DistCodeExtends(w, lit, dst, base + FromBits(bits[..num]), bits[num..], out);
    }
  }

  lemma {:induction false} DistCodeExtends(w: Window, lit: seq<nat>, dst: seq<nat>, len: nat, bits: seq<bool>,
    out: seq<Byte>)
    ensures Extends(out, DistCode(w, lit, dst, len, bits, out))
    decreases |bits|, 6
  {
    hide NextSymbol, DistExtraBits, DistBase, DistBits;
    match NextSymbol(dst, bits)
    case Sym(s, n) => DistBitsExtends(w, lit, dst, len, DistExtraBits(s), DistBase(s), bits[n..], out);
    case NoEntry => DistBitsExtends(w, lit, dst, len, DistExtraBits(0), DistBase(0), bits, out);
    case NeedBits =>
  }

  lemma {:induction false} DistBitsExtends(w: Window, lit: seq<nat>, dst: seq<nat>, len: nat, num: nat, base: nat,
    bits: seq<bool>, out: seq<Byte>)
    ensures Extends(out, DistBits(w, lit, dst, len, num, base, bits, out))
    decreases |bits|, 5
  {
    hide FromBits, Symbols, CanCopy, Copy;
    if |bits| >= num {
      var dist := base + FromBits(bits[..num]);
      if CanCopy(w, out, dist) {
        CopyExtends(w, out, len, dist);
        SymbolsExtends(w, lit, dst, bits[num..], Copy(w, out, len, dist));
      }
    }
  }

  lemma {:induction false} StoredBytesExtends(n: nat, bits: seq<bool>, out: seq<Byte>)
    ensures var r := StoredBytes(n, bits, out);
      && (HasOutput(r) ==> r.Ended?)
      && (r.Ended? ==> out <= r.out && |r.out| == |out| + n)
    decreases n
  {
    hide FromBits;
    if n > 0 && |bits| >= 8 {
      ToFromByte(bits[..8]);
      StoredBytesExtends(n - 1, bits[8..], out + [FromBits(bits[..8])]);
    }
  }

  lemma {:induction false} StoredHeaderExtends(known: seq<Byte>, bits: seq<bool>, out: seq<Byte>)
    requires |known| <= 4
    ensures Extends(out, StoredHeader(known, bits, out))
    decreases 4 - |known|
  {
    hide FromBits, StoredBytes;
    if |known| == 4 {
      if Word(known[0], known[1]) + Word(known[2], known[3]) == 65535 {
        StoredBytesExtends(Word(known[0], known[1]), bits, out);
      }
    } else if |bits| >= 8 {
      ToFromByte(bits[..8]);
      StoredHeaderExtends(known + [FromBits(bits[..8])], bits[8..], out);
    }
  }

  lemma {:induction false} CountsExtends(w: Window, known: seq<nat>, bits: seq<bool>, out: seq<Byte>)
    requires |known| <= 3
    ensures Extends(out, DynamicCounts(w, known, bits, out))
    decreases 3 - |known|
  {
    hide FromBits, DynamicSizes, HeaderBits, HeaderMin;
    if |known| == 3 {
      SizesExtends(w, known, [], bits, out);
    } else {
      var n := HeaderBits(|known|);
      if |bits| >= n {
        CountsExtends(w, known + [FromBits(bits[..n]) + HeaderMin(|known|)], bits[n..], out);
      }
    }
  }

  lemma {:induction false} SizesExtends(w: Window, counts: seq<nat>, got: seq<nat>, bits: seq<bool>, out: seq<Byte>)
    requires |counts| == 3
    ensures Extends(out, DynamicSizes(w, counts, got, bits, out))
    decreases counts[2] - |got|
  {
    hide FromBits, CodeLengths, Acceptable, Dezigzag;
    if |got| >= counts[2] {
      LengthsExtends(w, counts, Dezigzag(got, |got|), [], bits, out);
    } else if |bits| >= 3 {
      SizesExtends(w, counts, got + [FromBits(bits[..3])], bits[3..], out);
    }
  }

  lemma {:induction false} LengthsExtends(w: Window, counts: seq<nat>, z: seq<nat>, got: seq<nat>, bits: seq<bool>,
    out: seq<Byte>)
    requires |counts| == 3
    ensures Extends(out, CodeLengths(w, counts, z, got, bits, out))
    decreases |bits|, if |got| <= counts[0] + counts[1] then counts[0] + counts[1] - |got| else 0, 1
  {
    hide NextSymbol, RepeatCount, TwoTables;
    if |got| >= counts[0] + counts[1] {
      if |got| == counts[0] + counts[1] {
        TablesExtends(w, got[..counts[0]], got[counts[0]..], bits, out);
      }
    } else if NextSymbol(z, bits).Sym? {
      var s, rest := NextSymbol(z, bits).s, bits[NextSymbol(z, bits).len..];
      if s < 16 {
        LengthsExtends(w, counts, z, got + [s], rest, out);
      } else if !(s == 16 && got == []) {
        RepeatExtends(w, counts, z, got, s, rest, out);
      }
    } else if NextSymbol(z, bits).NoEntry? {
      LengthsExtends(w, counts, z, got + [0], bits, out);
    }
  }

  lemma {:induction false} RepeatExtends(w: Window, counts: seq<nat>, z: seq<nat>, got: seq<nat>, s: nat,
    bits: seq<bool>, out: seq<Byte>)
    requires |counts| == 3
    ensures Extends(out, RepeatCount(w, counts, z, got, s, bits, out))
    decreases |bits|, 0, 2
  {
    hide FromBits, CodeLengths, RepeatSize, RepeatBase;
    var n := RepeatBits(s);
    if |bits| >= n {
      LengthsExtends(w, counts, z, got + Times(RepeatSize(s, got), FromBits(bits[..n]) + RepeatBase(s)), bits[n..],
        out);
    }
  }

  lemma TablesExtends(w: Window, lit: seq<nat>, dst: seq<nat>, bits: seq<bool>, out: seq<Byte>)
    ensures Extends(out, TwoTables(w, lit, dst, bits, out))
  {
    hide Symbols, Acceptable;
    SymbolsExtends(w, lit, dst, bits, out);
  }

  lemma BlockExtends(w: Window, kind: nat, bits: seq<bool>, out: seq<Byte>)
    ensures Extends(out, Block(w, kind, bits, out))
  {
    hide StoredHeader, Symbols, DynamicCounts, Align, StaticLit, StaticDist;
    StoredHeaderExtends([], Align(bits), out);
    SymbolsExtends(w, StaticLit(), StaticDist(), bits, out);
    CountsExtends(w, [], bits, out);
  }

  lemma {:induction false} BlocksExtends(w: Window, bits: seq<bool>, out: seq<Byte>)
    ensures Extends(out, Blocks(w, bits, out))
    decreases |bits|
  {
    hide FromBits, Block, Align;
    if |bits| >= 3 {
      var r := Block(w, FromBits(bits[1..3]), bits[3..], out);
      BlockExtends(w, FromBits(bits[1..3]), bits[3..], out);
      if Ends(r) && !bits[0] {
        BlocksExtends(w, r.rest, r.out);
      }
    }
  }

  lemma ThenExtends(w: Window, final: bool, out: seq<Byte>, r: Outcome)
    requires Extends(out, r)
    ensures Extends(out, Then(w, final, r))
  {
    hide Blocks, Align;
    if Ends(r) && !final {
      BlocksExtends(w, r.rest, r.out);
    }
  }

  /** What a point has yet to output before it reads anything. */
  function Owed(c: Rest): nat {
    match c
    case InStored(n) => n
    case InStoredByte(_, n) => n + 1
    case InLiteral(_, _, _) => 1
    case InCopy(_, _, len, _) => len
    case _ => 0
  }

  /** At whatever point the stream is resumed, its outcome extends the output by at least what is pending. */
  lemma ResumeExtends(w: Window, final: bool, c: Rest, bits: seq<bool>, out: seq<Byte>)
    requires WellFormed(c)
    ensures var r := Resume(w, final, c, bits, out);
      HasOutput(r) ==> out <= r.out && |r.out| >= |out| + Owed(c)
  {
    hide Block, Blocks, StoredHeader, StoredBytes, DynamicCounts, DynamicSizes, CodeLengths, RepeatCount, TwoTables,
      Symbols, LengthBits, DistCode, DistBits, Align, Then, CanCopy, Copy;
    match c
    case InBlock => BlocksExtends(w, bits, out);
    case InType(kind) =>
      BlockExtends(w, kind, bits, out);
      ThenExtends(w, final, out, Block(w, kind, bits, out));
    case InHeader(known) =>
      StoredHeaderExtends(known, bits, out);
      ThenExtends(w, final, out, StoredHeader(known, bits, out));
    case InStored(n) => StoredExtends(w, final, n, bits, out);
    case InStoredByte(b, n) => StoredExtends(w, final, n, bits, out + [b]);
    case InCounts(got) =>
      CountsExtends(w, got, bits, out);
      ThenExtends(w, final, out, DynamicCounts(w, got, bits, out));
    case InSizes(counts, got) =>
      SizesExtends(w, counts, got, bits, out);
      ThenExtends(w, final, out, DynamicSizes(w, counts, got, bits, out));
    case InLengths(counts, z, got) =>
      LengthsExtends(w, counts, z, got, bits, out);
      ThenExtends(w, final, out, CodeLengths(w, counts, z, got, bits, out));
    case InRepeat(counts, z, got, s) =>
      RepeatExtends(w, counts, z, got, s, bits, out);
      ThenExtends(w, final, out, RepeatCount(w, counts, z, got, s, bits, out));
    case InTables(lit, dst) =>
      TablesExtends(w, lit, dst, bits, out);
      ThenExtends(w, final, out, TwoTables(w, lit, dst, bits, out));
    case InSymbols(lit, dst) => SymbolsThen(w, final, lit, dst, bits, out);
    case InLiteral(lit, dst, b) => SymbolsThen(w, final, lit, dst, bits, out + [b]);
    case InLength(lit, dst, num, base) =>
      LengthBitsExtends(w, lit, dst, num, base, bits, out);
      ThenExtends(w, final, out, LengthBits(w, lit, dst, num, base, bits, out));
    case InDistance(lit, dst, len) =>
      DistCodeExtends(w, lit, dst, len, bits, out);
      ThenExtends(w, final, out, DistCode(w, lit, dst, len, bits, out));
    case InDistBits(lit, dst, len, num, base) =>
      DistBitsExtends(w, lit, dst, len, num, base, bits, out);
      ThenExtends(w, final, out, DistBits(w, lit, dst, len, num, base, bits, out));
    case InCopy(lit, dst, len, dist) =>
      if CanCopy(w, out, dist) {
        CopyExtends(w, out, len, dist);
        SymbolsThen(w, final, lit, dst, bits, Copy(w, out, len, dist));
      }
    case AtStreamEnd =>
    case Finished =>
    case Broken =>
  }

  lemma SymbolsThen(w: Window, final: bool, lit: seq<nat>, dst: seq<nat>, bits: seq<bool>, out: seq<Byte>)
    ensures Extends(out, Then(w, final, Symbols(w, lit, dst, bits, out)))
  {
    hide Then, Symbols;
    SymbolsExtends(w, lit, dst, bits, out);
    ThenExtends(w, final, out, Symbols(w, lit, dst, bits, out));
  }

  lemma StoredExtends(w: Window, final: bool, n: nat, bits: seq<bool>, out: seq<Byte>)
    ensures var r := Then(w, final, StoredBytes(n, bits, out));
      HasOutput(r) ==> out <= r.out && |r.out| >= |out| + n
  {
    hide StoredBytes, Blocks, Align;
    StoredBytesExtends(n, bits, out);
    var r := StoredBytes(n, bits, out);
    if r.Ended? {
      ThenExtends(w, final, r.out, r);
    }
  }

  /** The outcome leaves no more bits than there are. */
  lemma ResumeWithin(w: Window, final: bool, c: Rest, bits: seq<bool>, out: seq<Byte>)
    requires WellFormed(c)
    ensures Within(Resume(w, final, c, bits, out), |bits|)
  {
    hide Block, Blocks, StoredHeader, StoredBytes, DynamicCounts, DynamicSizes, CodeLengths, RepeatCount, TwoTables,
      Symbols, LengthBits, DistCode, DistBits, Align, CanCopy, Copy, Then, Within;
    match c
    case InBlock =>
    case InType(kind) => ThenWithin(w, final, Block(w, kind, bits, out), |bits|);
    case InHeader(known) => ThenWithin(w, final, StoredHeader(known, bits, out), |bits|);
    case InStored(n) => ThenWithin(w, final, StoredBytes(n, bits, out), |bits|);
    case InStoredByte(b, n) => ThenWithin(w, final, StoredBytes(n, bits, out + [b]), |bits|);
    case InCounts(got) => ThenWithin(w, final, DynamicCounts(w, got, bits, out), |bits|);
    case InSizes(counts, got) => ThenWithin(w, final, DynamicSizes(w, counts, got, bits, out), |bits|);
    case InLengths(counts, z, got) => ThenWithin(w, final, CodeLengths(w, counts, z, got, bits, out), |bits|);
    case InRepeat(counts, z, got, s) => ThenWithin(w, final, RepeatCount(w, counts, z, got, s, bits, out), |bits|);
    case InTables(lit, dst) => ThenWithin(w, final, TwoTables(w, lit, dst, bits, out), |bits|);
    case InSymbols(lit, dst) => ThenWithin(w, final, Symbols(w, lit, dst, bits, out), |bits|);
    case InLiteral(lit, dst, b) => ThenWithin(w, final, Symbols(w, lit, dst, bits, out + [b]), |bits|);
    case InLength(lit, dst, num, base) =>
      ThenWithin(w, final, LengthBits(w, lit, dst, num, base, bits, out), |bits|);
    case InDistance(lit, dst, len) => ThenWithin(w, final, DistCode(w, lit, dst, len, bits, out), |bits|);
    case InDistBits(lit, dst, len, num, base) =>
      ThenWithin(w, final, DistBits(w, lit, dst, len, num, base, bits, out), |bits|);
    case InCopy(lit, dst, len, dist) =>
      if CanCopy(w, out, dist) {
        ThenWithin(w, final, Symbols(w, lit, dst, bits, Copy(w, out, len, dist)), |bits|);
      }
      NoneWithin(out, bits);
    case AtStreamEnd => NoneWithin(out, bits);
    case Finished => NoneWithin(out, bits);
    case Broken => NoneWithin(out, bits);
  }

  lemma ThenWithin(w: Window, final: bool, r: Outcome, n: nat)
    requires Within(r, n)
    ensures Within(Then(w, final, r), n)
  {
    hide Blocks, Align;
  }

  lemma NoneWithin(out: seq<Byte>, bits: seq<bool>)
    ensures Within(Failed, |bits|) && Within(Ended(out, bits), |bits|) && Within(Ended(out, Align(bits)), |bits|)
  {
    hide Align;
  }

  /** What follows the last block starts at a byte boundary. */
  lemma {:induction false} RestAligned(w: Window, bits: seq<bool>, out: seq<Byte>)
    ensures Aligned(Blocks(w, bits, out))
    decreases |bits|
  {
    hide FromBits, Block;
    if |bits| >= 3 {
      var r := Block(w, FromBits(bits[1..3]), bits[3..], out);
      if Ends(r) && !bits[0] {
        RestAligned(w, r.rest, r.out);
      }
    }
  }
}
