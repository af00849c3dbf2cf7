/** A whole stream as a list of blocks, its bits, and the proof that they mean the bytes the blocks were made from. */
module BlockStream {
  import opened Bits
  import opened Canonical
  import opened InflateSpec
  import opened BlockSpec
  import opened CodeLengthRle
  import StaticCodes

  datatype Body =
    | Raw(data: seq<Byte>)
    | Fixed(recs: seq<Record>)
    | Dynamic(lit: seq<nat>, dst: seq<nat>, z: seq<nat>, items: seq<Item>, numSizes: nat, recs: seq<Record>)

  datatype Block = Block(final: bool, body: Body)

  function Kind(body: Body): (k: nat)
    ensures k < 3
  {
    match body
    case Raw(_) => 0
    case Fixed(_) => 1
    case Dynamic(_, _, _, _, _, _) => 2
  }

  function BodyOut(out: seq<Byte>, body: Body): seq<Byte> {
    if body.Raw? then out + body.data else ExpandAll(out, body.recs)
  }

  ghost predicate AllCodeable(lit: seq<nat>, dst: seq<nat>, recs: seq<Record>) {
    HasCode(lit, 256) && forall i :: 0 <= i < |recs| ==> Codeable(lit, dst, recs[i])
  }

  /** What the header of a dynamic block needs for the decompressor to rebuild its two codes. */
  ghost predicate ValidHeader(lit: seq<nat>, dst: seq<nat>, z: seq<nat>, items: seq<Item>, numSizes: nat) {
    && 257 <= |lit| <= 286 && 1 <= |dst| <= 30 && |z| == 19 && 4 <= numSizes <= 19
    && Acceptable(lit) && Acceptable(dst) && Acceptable(z)
    && (forall i :: 0 <= i < 19 ==> z[i] <= 7)
    && (forall i :: numSizes <= i < 19 ==> z[Zigzag(i)] == 0)
    && ValidItems(items) && Sendable(z, items) && UnpackAll(items) == lit + dst
  }

  ghost predicate ValidBody(out: seq<Byte>, body: Body) {
    match body
    case Raw(data) => |data| < 65536
    case Fixed(recs) => ValidRecords(out, recs) && AllCodeable(StaticLit(), StaticDist(), recs)
    case Dynamic(lit, dst, z, items, numSizes, recs) =>
      ValidRecords(out, recs) && AllCodeable(lit, dst, recs) && ValidHeader(lit, dst, z, items, numSizes)
  }

  // ----- bits -----

  function RawBits(data: seq<Byte>): (b: seq<bool>)
    requires |data| < 65536
    ensures |b| == 32 + 8 * |data|
  {
    ToBits(|data|, 16) + ToBits(65535 - |data|, 16) + ByteBits(data)
  }

  ghost function LzBits(lit: seq<nat>, dst: seq<nat>, recs: seq<Record>): seq<bool>
    requires AllCodeable(lit, dst, recs)
  {
    RecordsBits(lit, dst, recs) + CodeWord(lit, 256)
  }

  function SizesBits(z: seq<nat>, n: nat): seq<bool>
    requires |z| == 19
  {
    if n == 0 then [] else SizesBits(z, n - 1) + ToBits(z[Zigzag(n - 1)], 3)
  }

  ghost function DynamicHeader(lit: seq<nat>, dst: seq<nat>, z: seq<nat>, items: seq<Item>, numSizes: nat): seq<bool>
    requires |lit| >= 257 && |dst| >= 1 && |z| == 19 && numSizes >= 4 && Sendable(z, items)
  {
    ToBits(|lit| - 257, 5) + ToBits(|dst| - 1, 5) + ToBits(numSizes - 4, 4) + SizesBits(z, numSizes)
      + ItemsBits(z, items)
  }

  /** The bits of a block's body when `at` bits precede it. */
  ghost function BodyBits(body: Body, at: nat, out: seq<Byte>): seq<bool>
    requires ValidBody(out, body)
  {
    match body
    case Raw(data) => PadBits(at) + RawBits(data)
    case Fixed(recs) => LzBits(StaticLit(), StaticDist(), recs)
    case Dynamic(lit, dst, z, items, numSizes, recs) =>
      DynamicHeader(lit, dst, z, items, numSizes) + LzBits(lit, dst, recs)
  }

  ghost function BlockBits(b: Block, at: nat, out: seq<Byte>): seq<bool>
    requires ValidBody(out, b.body)
  {
    [b.final] + ToBits(Kind(b.body), 2) + BodyBits(b.body, at + 3, out)
  }

  function StreamOut(blocks: seq<Block>): seq<Byte> {
    if blocks == [] then [] else BodyOut(StreamOut(blocks[..|blocks| - 1]), blocks[|blocks| - 1].body)
  }

  ghost predicate ValidStream(blocks: seq<Block>) {
    blocks == [] ||
    (ValidStream(blocks[..|blocks| - 1]) && ValidBody(StreamOut(blocks[..|blocks| - 1]), blocks[|blocks| - 1].body))
  }

  ghost function StreamBits(blocks: seq<Block>): seq<bool>
    requires ValidStream(blocks)
  {
    if blocks == [] then []
    else
      var init, last := blocks[..|blocks| - 1], blocks[|blocks| - 1];
      StreamBits(init) + BlockBits(last, |StreamBits(init)|, StreamOut(init))
  }

  lemma StreamPush(blocks: seq<Block>, b: Block)
    requires ValidStream(blocks) && ValidBody(StreamOut(blocks), b.body)
    ensures ValidStream(blocks + [b])
    ensures StreamOut(blocks + [b]) == BodyOut(StreamOut(blocks), b.body)
    ensures StreamBits(blocks + [b]) == StreamBits(blocks) + BlockBits(b, |StreamBits(blocks)|, StreamOut(blocks))
  {
    assert (blocks + [b])[..|blocks|] == blocks;
  }

  // ----- stored blocks -----

  lemma ReadByte(v: Byte, rest: seq<bool>)
    ensures |ToBits(v, 8) + rest| >= 8
    ensures FromBits((ToBits(v, 8) + rest)[..8]) == v && (ToBits(v, 8) + rest)[8..] == rest
  {
    ReadBits(v, 8, rest);
    Pow2Values();
    LowSmall(v, 8);
  }

  lemma {:induction false} StoredBytesRoundTrip(data: seq<Byte>, rest: seq<bool>, out: seq<Byte>)
    ensures StoredBytes(|data|, ByteBits(data) + rest, out) == Ended(out + data, rest)
    decreases |data|
  {
    hide ToBits, FromBits;
    if data == [] {
      assert ByteBits(data) + rest == rest;
    } else {
      var more := ByteBits(data[1..]) + rest;
      assert ByteBits(data) + rest == ToBits(data[0], 8) + more;
      StoredByteFirst(|data|, data[0], more, out);
      StoredBytesRoundTrip(data[1..], rest, out + [data[0]]);
      assert out + [data[0]] + data[1..] == out + data;
    }
  }

  lemma StoredByteFirst(n: nat, v: Byte, more: seq<bool>, out: seq<Byte>)
    requires n > 0
    ensures StoredBytes(n, ToBits(v, 8) + more, out) == StoredBytes(n - 1, more, out + [v])
  {
    hide ToBits, FromBits;
    ReadByte(v, more);
  }

  /** A 16-bit field as two bytes. */
  lemma WordBits(v: nat)
    requires v < 65536
    ensures ToBits(v, 16) == ToBits(v % 256, 8) + ToBits(v / 256, 8)
  {
    Pow2Values();
    ShlIsMul(v / 256, 8);
    ToBitsConcat(v % 256, 8, v / 256, 8);
  }

  lemma StoredByte(known: seq<Byte>, v: Byte, rest: seq<bool>, out: seq<Byte>)
    requires |known| < 4
    ensures StoredHeader(known, ToBits(v, 8) + rest, out) == StoredHeader(known + [v], rest, out)
  {
    ReadByte(v, rest);
    hide ToBits, FromBits;
  }

  lemma StoredWords(len: nat, rest: seq<bool>, out: seq<Byte>)
    requires len < 65536
    ensures StoredHeader([], ToBits(len, 16) + (ToBits(65535 - len, 16) + rest), out) == StoredBytes(len, rest, out)
  {
    hide ToBits, StoredHeader, StoredBytes;
    var n := 65535 - len;
    var a: Byte, b: Byte, c: Byte, d: Byte := len % 256, len / 256, n % 256, n / 256;
    WordBits(len);
    WordBits(n);
    var bits3 := ToBits(d, 8) + rest;
    var bits2 := ToBits(c, 8) + bits3;
    var bits1 := ToBits(b, 8) + bits2;
    assert ToBits(len, 16) + (ToBits(n, 16) + rest) == ToBits(a, 8) + bits1;
    StoredByte([], a, bits1, out);
    StoredByte([a], b, bits2, out);
    StoredByte([a, b], c, bits3, out);
    StoredByte([a, b, c], d, rest, out);
    assert [] + [a] == [a] && [a] + [b] == [a, b] && [a, b] + [c] == [a, b, c] && [a, b, c] + [d] == [a, b, c, d];
    StoredCheck(a, b, c, d, rest, out);
  }

  lemma StoredCheck(a: Byte, b: Byte, c: Byte, d: Byte, rest: seq<bool>, out: seq<Byte>)
    requires Word(a, b) + Word(c, d) == 65535
    ensures StoredHeader([a, b, c, d], rest, out) == StoredBytes(Word(a, b), rest, out)
  {
  }

  lemma RawRoundTrip(w: Window, data: seq<Byte>, at: nat, rest: seq<bool>, out: seq<Byte>)
    requires |data| < 65536 && |rest| % 8 == 0
    ensures InflateSpec.Block(w, 0, PadBits(at) + RawBits(data) + rest, out) == Ended(out + data, rest)
  {
    hide ToBits, StoredBytes, StoredHeader;
    var len := ToBits(|data|, 16) + (ToBits(65535 - |data|, 16) + (ByteBits(data) + rest));
    assert PadBits(at) + RawBits(data) + rest == PadBits(at) + len;
    assert Align(PadBits(at) + len) == len;
    StoredWords(|data|, ByteBits(data) + rest, out);
    StoredBytesRoundTrip(data, rest, out);
  }

  // ----- dynamic headers -----

  lemma ReadField(w: Window, known: seq<nat>, v: nat, rest: seq<bool>, out: seq<Byte>)
    requires |known| < 3 && v < Pow2(HeaderBits(|known|))
    ensures DynamicCounts(w, known, ToBits(v, HeaderBits(|known|)) + rest, out)
         == DynamicCounts(w, known + [v + HeaderMin(|known|)], rest, out)
  {
    ReadBits(v, HeaderBits(|known|), rest);
    LowSmall(v, HeaderBits(|known|));
    hide ToBits, FromBits, Low, Pow2;
  }

  lemma ReadFields(w: Window, a: nat, b: nat, c: nat, rest: seq<bool>, out: seq<Byte>)
    requires a < 32 && b < 32 && c < 16
    ensures DynamicCounts(w, [], ToBits(a, 5) + (ToBits(b, 5) + (ToBits(c, 4) + rest)), out)
         == DynamicSizes(w, [a + 257, b + 1, c + 4], [], rest, out)
  {
    Pow2Values();
    hide ToBits, DynamicSizes, Pow2, DynamicCounts;
    ReadField(w, [], a, ToBits(b, 5) + (ToBits(c, 4) + rest), out);
    ReadField(w, [a + 257], b, ToBits(c, 4) + rest, out);
    ReadField(w, [a + 257, b + 1], c, rest, out);
    assert [] + [a + 257] == [a + 257] && [a + 257] + [b + 1] == [a + 257, b + 1]
        && [a + 257, b + 1] + [c + 4] == [a + 257, b + 1, c + 4];
    FieldsDone(w, [a + 257, b + 1, c + 4], rest, out);
  }

  lemma FieldsDone(w: Window, counts: seq<nat>, rest: seq<bool>, out: seq<Byte>)
    requires |counts| == 3
    ensures DynamicCounts(w, counts, rest, out) == DynamicSizes(w, counts, [], rest, out)
  {
  }

  /** The lengths in the order they are sent. */
  function Sent(z: seq<nat>, n: nat): (s: seq<nat>)
    requires |z| == 19
    ensures |s| == n
  {
    if n == 0 then [] else Sent(z, n - 1) + [z[Zigzag(n - 1)]]
  }

  lemma {:induction false} ReadSizes(w: Window, counts: seq<nat>, z: seq<nat>, n: nat, rest: seq<bool>, out: seq<Byte>)
    requires |counts| == 3 && n <= counts[2] && |z| == 19 && forall i :: 0 <= i < 19 ==> z[i] <= 7
    ensures DynamicSizes(w, counts, [], SizesBits(z, n) + rest, out) == DynamicSizes(w, counts, Sent(z, n), rest, out)
  {
    if n == 0 {
      assert SizesBits(z, n) + rest == rest;
    } else {
      var v := z[Zigzag(n - 1)];
      ReadSizes(w, counts, z, n - 1, ToBits(v, 3) + rest, out);
      ReadSize(w, counts, Sent(z, n - 1), v, rest, out);
      assert SizesBits(z, n) + rest == SizesBits(z, n - 1) + (ToBits(v, 3) + rest);
    }
  }

  lemma ReadSize(w: Window, counts: seq<nat>, got: seq<nat>, v: nat, rest: seq<bool>, out: seq<Byte>)
    requires |counts| == 3 && |got| < counts[2] && v <= 7
    ensures DynamicSizes(w, counts, got, ToBits(v, 3) + rest, out) == DynamicSizes(w, counts, got + [v], rest, out)
  {
    ReadBits(v, 3, rest);
    Pow2Values();
    LowSmall(v, 3);
    hide ToBits, FromBits, Low, Acceptable, Dezigzag;
  }

  /** Where the length of symbol s is sent. */
  function Place(s: nat): nat {
    if s >= 16 then s - 16 else if s == 0 then 3 else if s >= 8 then 4 + 2 * (s - 8) else 5 + 2 * (7 - s)
  }

  lemma PlaceZigzag(i: nat)
    requires i < 19
    ensures Place(Zigzag(i)) == i
  {
  }

  lemma ZigzagPlace(s: nat)
    requires s < 19
    ensures Place(s) < 19 && Zigzag(Place(s)) == s
  {
  }

  lemma {:induction false} DezigzagAt(got: seq<nat>, n: nat, s: nat)
    requires n <= |got| && n <= 19 && s < 19
    ensures Dezigzag(got, n)[s] == if Place(s) < n then got[Place(s)] else 0
  {
    if n > 0 {
      DezigzagAt(got, n - 1, s);
      PlaceZigzag(n - 1);
      ZigzagPlace(s);
    }
  }

  lemma {:induction false} SentAt(z: seq<nat>, n: nat, i: nat)
    requires |z| == 19 && i < n
    ensures Sent(z, n)[i] == z[Zigzag(i)]
  {
    if i < n - 1 {
      SentAt(z, n - 1, i);
    }
  }

  lemma DezigzagSent(z: seq<nat>, n: nat)
    requires |z| == 19 && n <= 19 && forall i :: n <= i < 19 ==> z[Zigzag(i)] == 0
    ensures Dezigzag(Sent(z, n), n) == z
  {
    var d := Dezigzag(Sent(z, n), n);
    forall s | 0 <= s < 19
      ensures d[s] == z[s]
    {
      DezigzagAt(Sent(z, n), n, s);
      ZigzagPlace(s);
      if Place(s) < n {
        SentAt(z, n, Place(s));
      }
    }
  }

  /** The header leads the decompressor to exactly the two codes it was made from. */
  lemma HeaderRoundTrip(w: Window, lit: seq<nat>, dst: seq<nat>, z: seq<nat>, items: seq<Item>, numSizes: nat,
                        rest: seq<bool>, out: seq<Byte>)
    requires ValidHeader(lit, dst, z, items, numSizes)
    ensures DynamicCounts(w, [], DynamicHeader(lit, dst, z, items, numSizes) + rest, out)
      == Symbols(w, lit, dst, rest, out)
  {
    hide DynamicCounts, DynamicSizes, CodeLengths, Symbols, SizesBits, ItemsBits, ToBits, UnpackAll, ValidItems,
      Acceptable, Dezigzag, Sent;
    var counts := [|lit|, |dst|, numSizes];
    var itemsRest := ItemsBits(z, items) + rest;
    ReadFields(w, |lit| - 257, |dst| - 1, numSizes - 4, SizesBits(z, numSizes) + itemsRest, out);
    assert DynamicHeader(lit, dst, z, items, numSizes) + rest
        == ToBits(|lit| - 257, 5) + (ToBits(|dst| - 1, 5)
          + (ToBits(numSizes - 4, 4) + (SizesBits(z, numSizes) + itemsRest)));
    ReadSizes(w, counts, z, numSizes, itemsRest, out);
    DezigzagSent(z, numSizes);
    SizesDone(w, counts, Sent(z, numSizes), z, itemsRest, out);
    AcceptableFits(z);
    ReadItems(w, counts, z, items, rest, out);
    LengthsDone(w, lit, dst, numSizes, z, rest, out);
  }

  lemma SizesDone(w: Window, counts: seq<nat>, got: seq<nat>, z: seq<nat>, rest: seq<bool>, out: seq<Byte>)
    requires |counts| == 3 && |got| == counts[2] && Dezigzag(got, |got|) == z && Acceptable(z)
    ensures DynamicSizes(w, counts, got, rest, out) == CodeLengths(w, counts, z, [], rest, out)
  {
    hide Dezigzag, Acceptable, CodeLengths;
  }

  lemma LengthsDone(w: Window, lit: seq<nat>, dst: seq<nat>, numSizes: nat, z: seq<nat>, rest: seq<bool>,
    out: seq<Byte>)
    requires Acceptable(lit) && Acceptable(dst)
    ensures CodeLengths(w, [|lit|, |dst|, numSizes], z, lit + dst, rest, out) == Symbols(w, lit, dst, rest, out)
  {
    hide Acceptable, Symbols;
    assert (lit + dst)[..|lit|] == lit && (lit + dst)[|lit|..] == dst;
  }

  // ----- blocks and streams -----

  lemma LzRoundTrip(w: Window, lit: seq<nat>, dst: seq<nat>, recs: seq<Record>, rest: seq<bool>, out: seq<Byte>)
    requires FullWindow(w) && Acceptable(lit) && Acceptable(dst) && ValidRecords(out, recs)
      && AllCodeable(lit, dst, recs)
    ensures Symbols(w, lit, dst, LzBits(lit, dst, recs) + rest, out) == Ended(ExpandAll(out, recs), rest)
  {
    AcceptableFits(lit);
    AcceptableFits(dst);
    hide Acceptable, Fits;
    BodyRoundTrip(w, lit, dst, recs, rest, out);
  }

  lemma BodyMeans(w: Window, body: Body, at: nat, rest: seq<bool>, out: seq<Byte>)
    requires FullWindow(w) && ValidBody(out, body)
    requires (at + |BodyBits(body, at, out)| + |rest|) % 8 == 0
    ensures InflateSpec.Block(w, Kind(body), BodyBits(body, at, out) + rest, out) == Ended(BodyOut(out, body), rest)
  {
    hide LzBits, RawBits, DynamicHeader, ValidHeader, AllCodeable, ValidRecords, Symbols, StoredHeader, DynamicCounts,
      StaticLit, StaticDist, PadBits;
    match body
    case Raw(data) =>
      assert |PadBits(at) + RawBits(data)| == |PadBits(at)| + 32 + 8 * |data|;
      RawRoundTrip(w, data, at, rest, out);
    case Fixed(recs) =>
      StaticCodes.StaticLitComplete();
      StaticCodes.StaticDistComplete();
      LzRoundTrip(w, StaticLit(), StaticDist(), recs, rest, out);
    case Dynamic(lit, dst, z, items, numSizes, recs) =>
      DynamicMeans(w, lit, dst, z, items, numSizes, recs, rest, out);
  }

  lemma DynamicMeans(w: Window, lit: seq<nat>, dst: seq<nat>, z: seq<nat>, items: seq<Item>, numSizes: nat,
    recs: seq<Record>, rest: seq<bool>, out: seq<Byte>)
    requires FullWindow(w) && ValidHeader(lit, dst, z, items, numSizes) && ValidRecords(out, recs)
      && AllCodeable(lit, dst, recs)
    ensures InflateSpec.Block(w, 2, DynamicHeader(lit, dst, z, items, numSizes) + LzBits(lit, dst, recs) + rest, out)
         == Ended(ExpandAll(out, recs), rest)
  {
    hide LzBits, DynamicHeader, AllCodeable, ValidRecords, Symbols, DynamicCounts, Acceptable;
    HeaderRoundTrip(w, lit, dst, z, items, numSizes, LzBits(lit, dst, recs) + rest, out);
    LzRoundTrip(w, lit, dst, recs, rest, out);
    assert DynamicHeader(lit, dst, z, items, numSizes) + LzBits(lit, dst, recs) + rest
        == DynamicHeader(lit, dst, z, items, numSizes) + (LzBits(lit, dst, recs) + rest);
  }

  /** The three header bits of a block. */
  lemma BlocksStep(w: Window, final: bool, kind: nat, more: seq<bool>, out: seq<Byte>)
    requires kind < 3
    ensures var r := InflateSpec.Block(w, kind, more, out);
      r.Ended? ==>
        Blocks(w, [final] + ToBits(kind, 2) + more, out)
        == if final then Ended(r.out, Align(r.rest)) else Blocks(w, r.rest, r.out)
  {
    var bits := [final] + ToBits(kind, 2) + more;
    assert bits[1..3] == ToBits(kind, 2) && bits[3..] == more && bits[0] == final;
    FromToBits(kind, 2);
    Pow2Values();
    LowSmall(kind, 2);
    hide ToBits, FromBits, Low, InflateSpec.Block, Align;
  }

  /** One block at the front of the bits, whatever follows it. */
  lemma BlockRoundTrip(w: Window, b: Block, at: nat, rest: seq<bool>, out: seq<Byte>)
    requires FullWindow(w) && ValidBody(out, b.body)
    requires (at + |BlockBits(b, at, out)| + |rest|) % 8 == 0
    ensures Blocks(w, BlockBits(b, at, out) + rest, out)
         == if b.final then Ended(BodyOut(out, b.body), Align(rest)) else Blocks(w, rest, BodyOut(out, b.body))
  {
    hide BodyBits, ValidBody, BodyOut, InflateSpec.Block, Blocks, Align, ToBits;
    var body := BodyBits(b.body, at + 3, out);
    BodyMeans(w, b.body, at + 3, rest, out);
    BlocksStep(w, b.final, Kind(b.body), body + rest, out);
    assert BlockBits(b, at, out) + rest == [b.final] + ToBits(Kind(b.body), 2) + (body + rest);
  }

  predicate NoneFinal(blocks: seq<Block>) {
    forall i :: 0 <= i < |blocks| ==> !blocks[i].final
  }

  /** After any number of blocks that are not final, decoding goes on with what follows. */
  lemma {:induction false} StreamPrefix(w: Window, blocks: seq<Block>, rest: seq<bool>)
    requires FullWindow(w) && ValidStream(blocks) && NoneFinal(blocks)
    requires (|StreamBits(blocks)| + |rest|) % 8 == 0
    ensures Blocks(w, StreamBits(blocks) + rest, []) == Blocks(w, rest, StreamOut(blocks))
    decreases |blocks|
  {
    hide BlockBits, Blocks, ValidBody;
    if blocks == [] {
      assert StreamBits(blocks) + rest == rest;
    } else {
      var init, last := blocks[..|blocks| - 1], blocks[|blocks| - 1];
      var bits := BlockBits(last, |StreamBits(init)|, StreamOut(init));
      assert StreamBits(blocks) + rest == StreamBits(init) + (bits + rest);
      StreamPrefix(w, init, bits + rest);
      BlockRoundTrip(w, last, |StreamBits(init)|, rest, StreamOut(init));
    }
  }

  lemma StreamLast(blocks: seq<Block>)
    requires ValidStream(blocks) && blocks != []
    ensures var init, last := blocks[..|blocks| - 1], blocks[|blocks| - 1];
      && ValidStream(init) && ValidBody(StreamOut(init), last.body)
      && StreamBits(blocks) == StreamBits(init) + BlockBits(last, |StreamBits(init)|, StreamOut(init))
      && StreamOut(blocks) == BodyOut(StreamOut(init), last.body)
  {
    hide BlockBits, ValidBody;
  }

  /** A stream that ends with its only final block, padded to a byte: the decompressor ends exactly at its last byte. */
  lemma StreamRoundTrip(w: Window, blocks: seq<Block>, rest: seq<bool>)
    requires FullWindow(w) && ValidStream(blocks) && blocks != []
    requires NoneFinal(blocks[..|blocks| - 1]) && blocks[|blocks| - 1].final && |rest| % 8 == 0
    ensures Inflate(w, StreamBits(blocks) + PadBits(|StreamBits(blocks)|) + rest) == Ended(StreamOut(blocks), rest)
  {
    hide BlockBits, Blocks, ValidBody, PadBits, StreamBits, StreamOut, ValidStream, NoneFinal;
    var init, last := blocks[..|blocks| - 1], blocks[|blocks| - 1];
    StreamLast(blocks);
    var bits := BlockBits(last, |StreamBits(init)|, StreamOut(init));
    var pad := PadBits(|StreamBits(blocks)|);
    assert StreamBits(blocks) + pad + rest == StreamBits(init) + (bits + (pad + rest));
    StreamPrefix(w, init, bits + (pad + rest));
    BlockRoundTrip(w, last, |StreamBits(init)|, pad + rest, StreamOut(init));
    assert Align(pad + rest) == rest;
  }
}
