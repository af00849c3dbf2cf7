/** What follows a full flush stands alone: its blocks copy nothing from before it, so they are a stream of their
    own. */
module Restart {
  import opened Bits
  import opened InflateSpec
  import opened BlockSpec
  import opened BlockStream

  lemma {:induction false} CopyApart(before: seq<Byte>, tail: seq<Byte>, n: nat, dist: nat)
    requires 1 <= dist <= |tail|
    ensures Copy(Linear, before + tail, n, dist) == before + Copy(Linear, tail, n, dist)
    decreases n
  {
    if n > 0 {
      var c := Source(Linear, tail, dist);
      assert Source(Linear, before + tail, dist) == c;
      CopyApart(before, tail + [c], n - 1, dist);
      assert before + tail + [c] == before + (tail + [c]);
    }
  }

  lemma {:induction false} ExpandApart(before: seq<Byte>, tail: seq<Byte>, recs: seq<Record>)
    requires ValidRecords(tail, recs)
    ensures ExpandAll(before + tail, recs) == before + ExpandAll(tail, recs)
  {
    if recs != [] {
      var init, last := recs[..|recs| - 1], recs[|recs| - 1];
      ExpandApart(before, tail, init);
      var out := ExpandAll(tail, init);
      match last
      case Literal(b) => assert before + out + [b] == before + (out + [b]);
      case Match(len, dist) => CopyApart(before, out, len, dist);
    }
  }

  /** A body that copies from the tail only. */
  ghost predicate Apart(tail: seq<Byte>, body: Body) {
    body.Raw? || ValidRecords(tail, body.recs)
  }

  lemma BodyApart(before: seq<Byte>, tail: seq<Byte>, body: Body)
    requires ValidBody(before + tail, body) && Apart(tail, body)
    ensures ValidBody(tail, body) && BodyOut(before + tail, body) == before + BodyOut(tail, body)
  {
    hide AllCodeable, ValidHeader, ValidRecords, ExpandAll;
    if body.Raw? {
      assert before + tail + body.data == before + (tail + body.data);
    } else {
      ExpandApart(before, tail, body.recs);
    }
  }

  /** The blocks from `mark` on are a stream of their own, which starts at a byte boundary and after `base` bytes. */
  ghost predicate Split(blocks: seq<Block>, mark: nat, base: nat) {
    && mark <= |blocks| && ValidStream(blocks[..mark]) && ValidStream(blocks[mark..])
    && |StreamOut(blocks[..mark])| == base && |StreamBits(blocks[..mark])| % 8 == 0
    && StreamOut(blocks) == StreamOut(blocks[..mark]) + StreamOut(blocks[mark..])
  }

  lemma SplitPush(blocks: seq<Block>, mark: nat, base: nat, b: Block)
    requires ValidStream(blocks) && Split(blocks, mark, base) && ValidBody(StreamOut(blocks), b.body)
    requires Apart(StreamOut(blocks[mark..]), b.body)
    ensures Split(blocks + [b], mark, base)
    ensures StreamOut((blocks + [b])[mark..]) == BodyOut(StreamOut(blocks[mark..]), b.body)
  {
    hide StreamOut, StreamBits, ValidStream, ValidBody, BodyOut;
    BodyApart(StreamOut(blocks[..mark]), StreamOut(blocks[mark..]), b.body);
    StreamPush(blocks, b);
    StreamPush(blocks[mark..], b);
    assert (blocks + [b])[..mark] == blocks[..mark] && (blocks + [b])[mark..] == blocks[mark..] + [b];
  }

  /** Right after a full flush. */
  lemma SplitHere(blocks: seq<Block>)
    requires ValidStream(blocks) && |StreamBits(blocks)| % 8 == 0
    ensures Split(blocks, |blocks|, |StreamOut(blocks)|) && StreamOut(blocks[|blocks|..]) == []
  {
    hide StreamBits;
    assert blocks[..|blocks|] == blocks && blocks[|blocks|..] == [];
    assert StreamOut(blocks) + [] == StreamOut(blocks);
  }

  /** A block has the same bits wherever it stands, but for the padding. */
  lemma SameBits(b: Block, m: nat, n: nat, out: seq<Byte>, out2: seq<Byte>)
    requires ValidBody(out, b.body) && ValidBody(out2, b.body) && m % 8 == n % 8
    ensures BlockBits(b, m, out) == BlockBits(b, n, out2)
  {
    hide LzBits, DynamicHeader, ValidHeader, AllCodeable, ValidRecords, RawBits, ToBits;
    assert (m + 3) % 8 == (n + 3) % 8;
  }

  /** The bits of the stream are those of the two parts. */
  lemma {:induction false} SplitBits(blocks: seq<Block>, mark: nat)
    requires ValidStream(blocks) && mark <= |blocks| && ValidStream(blocks[..mark]) && ValidStream(blocks[mark..])
    requires |StreamBits(blocks[..mark])| % 8 == 0
    ensures StreamBits(blocks) == StreamBits(blocks[..mark]) + StreamBits(blocks[mark..])
    decreases |blocks|
  {
    hide BlockBits, ValidBody, StreamOut;
    if mark == |blocks| {
      assert blocks[..mark] == blocks && blocks[mark..] == [];
    } else {
      var init, last, tail := blocks[..|blocks| - 1], blocks[|blocks| - 1], blocks[mark..];
      assert init[..mark] == blocks[..mark] && init[mark..] == tail[..|tail| - 1];
      StreamLast(blocks);
      StreamLast(tail);
      SplitBits(init, mark);
      SameBits(last, |StreamBits(init)|, |StreamBits(init[mark..])|, StreamOut(init), StreamOut(init[mark..]));
    }
  }

  /** So the second part can be decompressed without the first. */
  lemma TailRoundTrip(w: Window, blocks: seq<Block>, mark: nat, base: nat, rest: seq<bool>)
    requires FullWindow(w) && ValidStream(blocks) && Split(blocks, mark, base) && mark < |blocks|
    requires NoneFinal(blocks[..|blocks| - 1]) && blocks[|blocks| - 1].final && |rest| % 8 == 0
    ensures StreamBits(blocks) == StreamBits(blocks[..mark]) + StreamBits(blocks[mark..])
    ensures Inflate(w, StreamBits(blocks[mark..]) + PadBits(|StreamBits(blocks)|) + rest)
         == Ended(StreamOut(blocks)[base..], rest)
  {
    hide StreamBits, StreamOut, ValidStream, Inflate;
    SplitBits(blocks, mark);
    var tail := blocks[mark..];
    assert tail[..|tail| - 1] == blocks[..|blocks| - 1][mark..];
    StreamRoundTrip(w, tail, rest);
    assert StreamOut(blocks)[base..] == StreamOut(tail);
  }
}
