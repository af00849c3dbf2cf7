/** The bits of one compressed block, and the proof that they mean the records they were made from. */
module BlockSpec {
  import opened Bits
  import opened Canonical
  import opened LzSymbols
  import opened Decoding
  import opened InflateSpec

  predicate ValidRecord(out: seq<Byte>, r: Record) {
    r.Match? ==> 3 <= r.len <= 258 && 1 <= r.dist <= 32768 && r.dist <= |out|
  }

  /** What a record adds to the output (the compressor's window is everything it has consumed). */
  function Expand(out: seq<Byte>, r: Record): seq<Byte> {
    match r
    case Literal(b) => out + [b]
    case Match(len, dist) => if 1 <= dist <= |out| then Copy(Linear, out, len, dist) else out
  }

  function ExpandAll(out: seq<Byte>, recs: seq<Record>): seq<Byte> {
    if recs == [] then out else Expand(ExpandAll(out, recs[..|recs| - 1]), recs[|recs| - 1])
  }

  /** Every copy is within what has been output before it. */
  predicate ValidRecords(out: seq<Byte>, recs: seq<Record>) {
    recs == [] || (ValidRecords(out, recs[..|recs| - 1])
      && ValidRecord(ExpandAll(out, recs[..|recs| - 1]), recs[|recs| - 1]))
  }

  function LitSym(r: Record): nat {
    match r
    case Literal(b) => b
    case Match(len, _) => if len >= 3 then LenSym(len - 3) else 0
  }

  /** The symbols a record uses have codes. */
  predicate Codeable(lit: seq<nat>, dst: seq<nat>, r: Record) {
    && HasCode(lit, LitSym(r))
    && (r.Match? ==> 3 <= r.len <= 258 && 1 <= r.dist <= 32768 && HasCode(dst, DistSym(r.dist - 1)))
  }

  /** tdefl_compress_lz_codes for one record. */
  function RecordBits(lit: seq<nat>, dst: seq<nat>, r: Record): seq<bool>
    requires Codeable(lit, dst, r)
  {
    match r
    case Literal(b) => CodeWord(lit, b)
    case Match(len, dist) =>
      CodeWord(lit, LenSym(len - 3)) + ToBits(len - 3, LenExtra(len - 3))
      + CodeWord(dst, DistSym(dist - 1)) + ToBits(dist - 1, DistExtra(dist - 1))
  }

  function RecordsBits(lit: seq<nat>, dst: seq<nat>, recs: seq<Record>): seq<bool>
    requires forall i :: 0 <= i < |recs| ==> Codeable(lit, dst, recs[i])
  {
    if recs == [] then [] else RecordsBits(lit, dst, recs[..|recs| - 1]) + RecordBits(lit, dst, recs[|recs| - 1])
  }

  /** A window that agrees with "everything so far" for all distances a record can have. */
  predicate FullWindow(w: Window) {
    w.Linear? || |w.history| >= 32768
  }

  // ----- decoding what was encoded -----

  lemma {:induction false} SameSource(w: Window, out: seq<Byte>, dist: nat)
    requires FullWindow(w) && 1 <= dist <= 32768 && dist <= |out|
    ensures CanCopy(w, out, dist) && Source(w, out, dist) == Source(Linear, out, dist)
  {
    if w.Ring? {
      assert RingDist(|w.history|, dist) == dist;
    }
  }

  lemma {:induction false} SameCopy(w: Window, out: seq<Byte>, n: nat, dist: nat)
    requires FullWindow(w) && 1 <= dist <= 32768 && dist <= |out|
    ensures CanCopy(w, out, dist) && Copy(w, out, n, dist) == Copy(Linear, out, n, dist)
    decreases n
  {
    SameSource(w, out, dist);
    if n > 0 {
      SameCopy(w, out + [Source(Linear, out, dist)], n - 1, dist);
    }
  }

  /** One record at the front of the bits. */
  lemma SymbolsRecord(w: Window, lit: seq<nat>, dst: seq<nat>, r: Record, rest: seq<bool>, out: seq<Byte>)
    requires FullWindow(w) && Fits(lit) && Fits(dst) && Codeable(lit, dst, r) && ValidRecord(out, r)
    ensures Symbols(w, lit, dst, RecordBits(lit, dst, r) + rest, out) == Symbols(w, lit, dst, rest, Expand(out, r))
  {
    hide Fits, CodeWord, HasCode, NextSymbol;
    match r
    case Literal(b) =>
      ReadCode(lit, b, rest);
    case Match(len, dist) =>
      MatchRecord(w, lit, dst, len, dist, rest, out);
  }

  lemma ReadBits(v: nat, n: nat, rest: seq<bool>)
    ensures |ToBits(v, n) + rest| >= n
    ensures FromBits((ToBits(v, n) + rest)[..n]) == Low(v, n) && (ToBits(v, n) + rest)[n..] == rest
  {
    assert (ToBits(v, n) + rest)[..n] == ToBits(v, n);
    FromToBits(v, n);
  }

  lemma LengthPart(w: Window, lit: seq<nat>, dst: seq<nat>, len: nat, rest: seq<bool>, out: seq<Byte>)
    requires Fits(lit) && 3 <= len <= 258 && HasCode(lit, LenSym(len - 3))
    ensures Symbols(w, lit, dst, CodeWord(lit, LenSym(len - 3)) + (ToBits(len - 3, LenExtra(len - 3)) + rest), out)
         == DistCode(w, lit, dst, len, rest, out)
  {
    hide CodeWord, Fits, LenSym, LenExtra, LengthBase, LengthExtra, ToBits, Low, NextSymbol, DistCode;
    var l := len - 3;
    var bits := ToBits(l, LenExtra(l)) + rest;
    LengthRoundTrip(l);
    ReadCode(lit, LenSym(l), bits);
    ReadBits(l, LenExtra(l), rest);
    assert Symbols(w, lit, dst, CodeWord(lit, LenSym(l)) + bits, out)
        == LengthBits(w, lit, dst, LenExtra(l), LengthBase(LenSym(l) - 257), bits, out);
  }

  lemma DistPart(w: Window, lit: seq<nat>, dst: seq<nat>, len: nat, dist: nat, rest: seq<bool>, out: seq<Byte>)
    requires FullWindow(w) && Fits(dst) && 1 <= dist <= 32768 && dist <= |out| && HasCode(dst, DistSym(dist - 1))
    ensures DistCode(w, lit, dst, len, CodeWord(dst, DistSym(dist - 1))
      + (ToBits(dist - 1, DistExtra(dist - 1)) + rest), out)
         == Symbols(w, lit, dst, rest, Copy(Linear, out, len, dist))
  {
    hide CodeWord, Fits, DistSym, DistExtra, DistBase, DistExtraBits, ToBits, Low, Copy, NextSymbol, Symbols;
    var d := dist - 1;
    var bits := ToBits(d, DistExtra(d)) + rest;
    DistRoundTrip(d);
    ReadCode(dst, DistSym(d), bits);
    ReadBits(d, DistExtra(d), rest);
    SameCopy(w, out, len, dist);
    assert DistCode(w, lit, dst, len, CodeWord(dst, DistSym(d)) + bits, out)
        == DistBits(w, lit, dst, len, DistExtra(d), DistBase(DistSym(d)), bits, out);
  }

  lemma MatchRecord(w: Window, lit: seq<nat>, dst: seq<nat>, len: nat, dist: nat, rest: seq<bool>, out: seq<Byte>)
    requires FullWindow(w) && Fits(lit) && Fits(dst)
    requires Codeable(lit, dst, Match(len, dist)) && ValidRecord(out, Match(len, dist))
    ensures Symbols(w, lit, dst, RecordBits(lit, dst, Match(len, dist)) + rest, out)
         == Symbols(w, lit, dst, rest, Copy(Linear, out, len, dist))
  {
    hide CodeWord, Fits, LenSym, DistSym, LenExtra, DistExtra, ToBits, Copy, Symbols, DistCode;
    var a, b := CodeWord(lit, LenSym(len - 3)), ToBits(len - 3, LenExtra(len - 3));
    var c, d := CodeWord(dst, DistSym(dist - 1)), ToBits(dist - 1, DistExtra(dist - 1));
    assert a + b + c + d + rest == a + (b + (c + (d + rest)));
    LengthPart(w, lit, dst, len, c + (d + rest), out);
    DistPart(w, lit, dst, len, dist, rest, out);
  }

  /** The records of a block, in order. */
  lemma {:induction false} SymbolsRecords(w: Window, lit: seq<nat>, dst: seq<nat>, recs: seq<Record>, rest: seq<bool>,
    out: seq<Byte>)
    requires FullWindow(w) && Fits(lit) && Fits(dst) && ValidRecords(out, recs)
    requires forall i :: 0 <= i < |recs| ==> Codeable(lit, dst, recs[i])
    ensures Symbols(w, lit, dst, RecordsBits(lit, dst, recs) + rest, out)
      == Symbols(w, lit, dst, rest, ExpandAll(out, recs))
    decreases |recs|
  {
    hide Symbols, RecordBits, CodeWord, Fits, NextSymbol, FullWindow;
    if recs == [] {
      assert RecordsBits(lit, dst, recs) + rest == rest;
    } else {
      var init, last := recs[..|recs| - 1], recs[|recs| - 1];
      SymbolsRecords(w, lit, dst, init, RecordBits(lit, dst, last) + rest, out);
      SymbolsRecord(w, lit, dst, last, rest, ExpandAll(out, init));
      assert RecordsBits(lit, dst, recs) + rest == RecordsBits(lit, dst, init) + (RecordBits(lit, dst, last) + rest);
    }
  }

  /** The body of a compressed block: all its records and the end-of-block code, with nothing left over or borrowed. */
  lemma BodyRoundTrip(w: Window, lit: seq<nat>, dst: seq<nat>, recs: seq<Record>, rest: seq<bool>, out: seq<Byte>)
    requires FullWindow(w) && Fits(lit) && Fits(dst) && ValidRecords(out, recs) && HasCode(lit, 256)
    requires forall i :: 0 <= i < |recs| ==> Codeable(lit, dst, recs[i])
    ensures Symbols(w, lit, dst, RecordsBits(lit, dst, recs) + CodeWord(lit, 256) + rest, out)
         == Ended(ExpandAll(out, recs), rest)
  {
    hide Fits, CodeWord, NextSymbol;
    SymbolsRecords(w, lit, dst, recs, CodeWord(lit, 256) + rest, out);
    ReadCode(lit, 256, rest);
    assert RecordsBits(lit, dst, recs) + CodeWord(lit, 256) + rest
      == RecordsBits(lit, dst, recs) + (CodeWord(lit, 256) + rest);
  }
}
