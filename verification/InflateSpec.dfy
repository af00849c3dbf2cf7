/** What a DEFLATE stream means (sections 3.2.3 to 3.2.7 of RFC 1951), as functions on bit strings.

    These functions follow the decisions that tinfl_decompress makes, including those for malformed input, but know
    nothing of buffers, tables or interruptions. */
module InflateSpec {
  import opened Bits
  import opened Canonical
  import opened Decoding
  import opened LzSymbols

  // ----- records and windows -----

  /** What the compressor records: a byte, or a copy of `len` bytes from `dist` bytes back. */
  datatype Record = Literal(b: Byte) | Match(len: nat, dist: nat)

  /** Where copies come from.  A linear window holds the whole output; a ring of N bytes started with some content,
      which the decompressor cannot tell from output. */
  datatype Window = Linear | Ring(history: seq<Byte>)

  /** The distance a ring of n bytes actually copies from: its index arithmetic is modulo n. */
  function RingDist(n: nat, dist: nat): (d: nat)
    requires n > 0
    ensures 1 <= d <= n
  {
    if dist % n == 0 then n else dist % n
  }

  predicate CanCopy(w: Window, out: seq<Byte>, dist: nat) {
    if w.Linear? then 1 <= dist <= |out| else |w.history| > 0
  }

  function Source(w: Window, out: seq<Byte>, dist: nat): Byte
    requires CanCopy(w, out, dist)
  {
    if w.Linear? then out[|out| - dist]
    else (w.history + out)[|w.history| + |out| - RingDist(|w.history|, dist)]
  }

  /** A copy proceeds byte by byte, so it may read bytes it has written. */
  function Copy(w: Window, out: seq<Byte>, n: nat, dist: nat): (r: seq<Byte>)
    requires CanCopy(w, out, dist)
    decreases n
  {
    if n == 0 then out else Copy(w, out + [Source(w, out, dist)], n - 1, dist)
  }

  // ----- outcomes -----

  /** The end of a block or of the stream, or why it was not reached.

      EndedLoosely: the end, after a distance or a code length that an empty table entry gave.  It took no bits, but 15
      had to be there, and if a call was cut off before them, the decompressor can hold one byte too many at the end.

      Truncated: more input could continue.

      BadCode: a literal from an empty table entry.  The two ways in which the decompressor fetches literals differ
      there: one outputs a zero byte and takes no bits, over and over; the other gives up. */
  datatype Outcome =
    | Ended(out: seq<Byte>, rest: seq<bool>)
    | EndedLoosely(out: seq<Byte>, rest: seq<bool>)
    | Failed
    | Truncated
    | BadCode(out: seq<Byte>, rest: seq<bool>)

  predicate Ends(r: Outcome) {
    r.Ended? || r.EndedLoosely?
  }

  /** The outcome, given that an empty entry was used on the way. */
  function Loosen(r: Outcome): Outcome {
    if r.Ended? then EndedLoosely(r.out, r.rest) else r
  }

  /** The outcomes that say how far the output gets. */
  predicate HasOutput(r: Outcome) {
    Ends(r) || r.BadCode?
  }

  /** What remains is at most n bits. */
  predicate Within(r: Outcome, n: nat) {
    HasOutput(r) ==> |r.rest| <= n
  }

  // ----- compressed data -----

  ghost function Symbols(w: Window, lit: seq<nat>, dst: seq<nat>, bits: seq<bool>, out: seq<Byte>): (r: Outcome)
    ensures Within(r, |bits|)
    decreases |bits|, 4
  {
    match NextSymbol(lit, bits)
    case NoEntry => BadCode(out, bits)
    case NeedBits => Truncated
    case Sym(s, len) =>
      var rest := bits[len..];
      if s < 256 then Symbols(w, lit, dst, rest, out + [s])
      else if s == 256 then Ended(out, rest)
      else LengthBits(w, lit, dst, LengthExtra(s - 257), LengthBase(s - 257), rest, out)
  }

  /** After a length symbol: its extra bits. */
  ghost function LengthBits(w: Window, lit: seq<nat>, dst: seq<nat>, num: nat, base: nat, bits: seq<bool>,
    out: seq<Byte>): (r: Outcome)
    ensures Within(r, |bits|)
    decreases |bits|, 7
  {
    if |bits| < num then Truncated
    else DistCode(w, lit, dst, base + FromBits(bits[..num]), bits[num..], out)
  }

  ghost function DistCode(w: Window, lit: seq<nat>, dst: seq<nat>, len: nat, bits: seq<bool>,
    out: seq<Byte>): (r: Outcome)
    ensures Within(r, |bits|)
    decreases |bits|, 6
  {
    match NextSymbol(dst, bits)
    case NoEntry => Loosen(DistBits(w, lit, dst, len, DistExtraBits(0), DistBase(0), bits, out))
    case NeedBits => Truncated
    case Sym(s, n) => DistBits(w, lit, dst, len, DistExtraBits(s), DistBase(s), bits[n..], out)
  }

  /** After a distance symbol: its extra bits, and the copy. */
  ghost function DistBits(w: Window, lit: seq<nat>, dst: seq<nat>, len: nat, num: nat, base: nat, bits: seq<bool>,
    out: seq<Byte>): (r: Outcome)
    ensures Within(r, |bits|)
    decreases |bits|, 5
  {
    if |bits| < num then Truncated
    else
      var dist := base + FromBits(bits[..num]);
      if !CanCopy(w, out, dist) then Failed
      else Symbols(w, lit, dst, bits[num..], Copy(w, out, len, dist))
  }

  // ----- stored data -----

  /** Everything is read in whole bytes, so the distance to the byte boundary shows in the number of bits left. */
  function Align(bits: seq<bool>): (r: seq<bool>)
    ensures |r| <= |bits| && |r| % 8 == 0
  {
    bits[|bits| % 8..]
  }

  /** Two bytes, low byte first. */
  function Word(lo: int, hi: int): (v: nat)
    requires 0 <= lo < 256 && 0 <= hi < 256
    ensures v < 65536
  {
    lo + 256 * hi
  }

  /** LEN and NLEN, the first bytes of which are already known. */
  ghost function StoredHeader(known: seq<Byte>, bits: seq<bool>, out: seq<Byte>): (r: Outcome)
    requires |known| <= 4
    ensures Within(r, |bits|)
    decreases 4 - |known|
  {
    if |known| == 4 then
      if Word(known[0], known[1]) + Word(known[2], known[3]) != 65535 then Failed
      else StoredBytes(Word(known[0], known[1]), bits, out)
    else if |bits| < 8 then Truncated
    else
      ToFromByte(bits[..8]);
      StoredHeader(known + [FromBits(bits[..8])], bits[8..], out)
  }

  lemma ToFromByte(b: seq<bool>)
    requires |b| == 8
    ensures FromBits(b) < 256
  {
    ToFromBits(b);
    Pow2Values();
  }

  ghost function StoredBytes(n: nat, bits: seq<bool>, out: seq<Byte>): (r: Outcome)
    ensures Within(r, |bits|)
    decreases n
  {
    if n == 0 then Ended(out, bits)
    else if |bits| < 8 then Truncated
    else
      ToFromByte(bits[..8]);
      StoredBytes(n - 1, bits[8..], out + [FromBits(bits[..8])])
  }

  // ----- the header of a dynamic block -----

  /** The order in which code length code lengths are sent: s_length_dezigzag. */
  function Zigzag(i: nat): (s: nat)
    ensures s < 19
  {
    if i < 3 then 16 + i
    else if i == 3 then 0
    else if i >= 19 then 0
    else if i % 2 == 0 then 8 + (i - 4) / 2
    else 7 - (i - 5) / 2
  }

  function HeaderBits(i: nat): nat { if i < 2 then 5 else 4 }

  function HeaderMin(i: nat): nat { if i == 0 then 257 else if i == 1 then 1 else 4 }

  /** HLIT, HDIST and HCLEN, the first of which are already known. */
  ghost function DynamicCounts(w: Window, known: seq<nat>, bits: seq<bool>, out: seq<Byte>): (r: Outcome)
    requires |known| <= 3
    ensures Within(r, |bits|)
    decreases 3 - |known|
  {
    if |known| == 3 then DynamicSizes(w, known, [], bits, out)
    else
      var n := HeaderBits(|known|);
      if |bits| < n then Truncated
      else DynamicCounts(w, known + [FromBits(bits[..n]) + HeaderMin(|known|)], bits[n..], out)
  }

  /** The code length code lengths in their own order: symbol s has the length sent for its place. */
  function Dezigzag(got: seq<nat>, n: nat): (z: seq<nat>)
    requires n <= |got|
    ensures |z| == 19
  {
    if n == 0 then seq(19, _ => 0)
    else Dezigzag(got, n - 1)[Zigzag(n - 1) := got[n - 1]]
  }

  ghost function DynamicSizes(w: Window, counts: seq<nat>, got: seq<nat>, bits: seq<bool>, out: seq<Byte>): (r: Outcome)
    requires |counts| == 3
    ensures Within(r, |bits|)
    decreases counts[2] - |got|
  {
    if |got| >= counts[2] then
      var z := Dezigzag(got, |got|);
      if !Acceptable(z) then Failed else CodeLengths(w, counts, z, [], bits, out)
    else if |bits| < 3 then Truncated
    else DynamicSizes(w, counts, got + [FromBits(bits[..3])], bits[3..], out)
  }

  function RepeatBits(s: nat): nat { if s == 16 then 2 else if s == 17 then 3 else 7 }

  function RepeatBase(s: nat): nat { if s <= 17 then 3 else 11 }

  function RepeatSize(s: nat, got: seq<nat>): nat {
    if s == 16 && got != [] then got[|got| - 1] else 0
  }

  function Times(v: nat, n: nat): (r: seq<nat>)
    ensures |r| == n && forall i :: 0 <= i < n ==> r[i] == v
  {
    seq(n, _ => v)
  }

  ghost function CodeLengths(w: Window, counts: seq<nat>, z: seq<nat>, got: seq<nat>, bits: seq<bool>,
    out: seq<Byte>): (r: Outcome)
    requires |counts| == 3
    ensures Within(r, |bits|)
    decreases |bits|, if |got| <= counts[0] + counts[1] then counts[0] + counts[1] - |got| else 0, 1
  {
    if |got| >= counts[0] + counts[1] then
      if |got| != counts[0] + counts[1] then Failed
      else TwoTables(w, got[..counts[0]], got[counts[0]..], bits, out)
    else
      match NextSymbol(z, bits)
      case NoEntry => Loosen(CodeLengths(w, counts, z, got + [0], bits, out))
      case NeedBits => Truncated
      case Sym(s, len) =>
        var rest := bits[len..];
        if s < 16 then CodeLengths(w, counts, z, got + [s], rest, out)
        else if s == 16 && got == [] then Failed
        else RepeatCount(w, counts, z, got, s, rest, out)
  }

  ghost function RepeatCount(w: Window, counts: seq<nat>, z: seq<nat>, got: seq<nat>, s: nat, bits: seq<bool>,
    out: seq<Byte>): (r: Outcome)
    requires |counts| == 3
    ensures Within(r, |bits|)
    decreases |bits|, 0, 2
  {
    var n := RepeatBits(s);
    if |bits| < n then Truncated
    else CodeLengths(w, counts, z, got + Times(RepeatSize(s, got), FromBits(bits[..n]) + RepeatBase(s)), bits[n..], out)
  }

  ghost function TwoTables(w: Window, lit: seq<nat>, dst: seq<nat>, bits: seq<bool>, out: seq<Byte>): (r: Outcome)
    ensures Within(r, |bits|)
  {
    if !Acceptable(dst) || !Acceptable(lit) then Failed else Symbols(w, lit, dst, bits, out)
  }

  // ----- blocks -----

  function StaticLit(): (z: seq<nat>)
    ensures |z| == 288
  {
    seq(288, i requires 0 <= i < 288 => if i <= 143 then 8 else if i <= 255 then 9 else if i <= 279 then 7 else 8)
  }

  function StaticDist(): (z: seq<nat>)
    ensures |z| == 32
  {
    seq(32, _ => 5)
  }

  ghost function Block(w: Window, kind: nat, bits: seq<bool>, out: seq<Byte>): (r: Outcome)
    ensures Within(r, |bits|)
  {
    if kind == 0 then StoredHeader([], Align(bits), out)
    else if kind == 1 then Symbols(w, StaticLit(), StaticDist(), bits, out)
    else if kind == 2 then DynamicCounts(w, [], bits, out)
    else Failed
  }

  /** From the start of a block to the end of the stream; what follows the last block is aligned to a byte. */
  ghost function Blocks(w: Window, bits: seq<bool>, out: seq<Byte>): (r: Outcome)
    ensures Within(r, |bits|)
    decreases |bits|
  {
    if |bits| < 3 then Truncated
    else
      var final, kind := bits[0], FromBits(bits[1..3]);
      var r := Block(w, kind, bits[3..], out);
      if r.Ended? then if final then Ended(r.out, Align(r.rest)) else Blocks(w, r.rest, r.out)
      else if r.EndedLoosely? then
        Loosen(if final then Ended(r.out, Align(r.rest)) else Blocks(w, r.rest, r.out))
      else r
  }

  /** The meaning of a whole raw DEFLATE stream. */
  ghost function Inflate(w: Window, bits: seq<bool>): Outcome {
    Blocks(w, bits, [])
  }

  /** A copy appends n bytes and keeps what was there. */
  lemma {:induction false} CopyExtends(w: Window, out: seq<Byte>, n: nat, dist: nat)
    requires CanCopy(w, out, dist)
    ensures out <= Copy(w, out, n, dist) && |Copy(w, out, n, dist)| == |out| + n
    decreases n
  {
    hide Source;
    if n > 0 {
      CopyExtends(w, out + [Source(w, out, dist)], n - 1, dist);
    }
  }
}
