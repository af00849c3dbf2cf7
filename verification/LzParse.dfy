/** What the records made so far mean: the input up to the lookahead, less one byte while a match is saved. */
module LzParse {
  import opened Bits
  import opened InflateSpec
  import opened BlockSpec
  import opened MatchSearch
  import opened LzCodeBuffer

  /** m_saved_lit, m_saved_match_dist and m_saved_match_len: the lazy parser's pending choice for the byte before
      `pos`. */
  datatype Saved = Saved(lit: Byte, dist: nat, len: nat)

  /** How many bytes before the lookahead are not recorded yet. */
  function Held(s: Saved): (h: nat)
    ensures h <= 1
  {
    if s.len == 0 then 0 else 1
  }

  ghost predicate SavedValid(input: seq<Byte>, pos: nat, s: Saved) {
    s.len == 0 ||
    (pos >= 1 && 3 <= s.len < 128 && s.dist <= 32768 && Repeats(input, pos - 1, s.dist, s.len)
      && input[pos - 1] == s.lit)
  }

  ghost predicate Parsed(input: seq<Byte>, pos: nat, s: Saved, flushed: seq<Byte>, recs: seq<Record>) {
    && Held(s) <= pos <= |input| && SavedValid(input, pos, s)
    && ValidRecords(flushed, recs) && ExpandAll(flushed, recs) == input[..pos - Held(s)]
  }

  /** What one decision adds to the records, what it leaves saved, and how far it moves. */
  datatype Decision = Decision(records: seq<Record>, saved: Saved, move: nat)

  const NOTHING: Saved := Saved(0, 0, 0)

  /** Lazy parsing: a match is put off by one byte, and given up for a literal if the match found there is longer.  A
      match of 128 bytes or more is not put off; nor is any, if that is asked for. */
  function Decide(s: Saved, lit: Byte, dist: nat, len: nat, atOnce: bool): Decision {
    if s.len != 0 && len > s.len then
      if len >= 128 then Decision([Literal(s.lit), Match(len, dist)], NOTHING, len)
      else Decision([Literal(s.lit)], Saved(lit, dist, len), 1)
    else if s.len != 0 then Decision([Match(s.len, s.dist)], NOTHING, s.len - 1)
    else if dist == 0 then Decision([Literal(lit)], NOTHING, 1)
    else if atOnce || len >= 128 then Decision([Match(len, dist)], NOTHING, len)
    else Decision([], Saved(lit, dist, len), 1)
  }

  /** Only the length says whether something is saved. */
  predicate SameSaved(a: Saved, b: Saved) {
    a.len == b.len && (a.len != 0 ==> a == b)
  }

  lemma Push(out: seq<Byte>, recs: seq<Record>, r: Record)
    requires ValidRecords(out, recs) && ValidRecord(ExpandAll(out, recs), r)
    ensures ValidRecords(out, recs + [r]) && ExpandAll(out, recs + [r]) == Expand(ExpandAll(out, recs), r)
  {
    assert (recs + [r])[..|recs|] == recs;
  }

  /** Copying byte by byte from where the input repeats reproduces the input, also when the copy overlaps itself. */
  lemma {:induction false} CopyRepeats(input: seq<Byte>, pos: nat, dist: nat, len: nat)
    requires Repeats(input, pos, dist, len)
    ensures Copy(Linear, input[..pos], len, dist) == input[..pos + len]
    decreases len
  {
    if len > 0 {
      assert input[..pos] + [input[pos - dist]] == input[..pos + 1];
      assert input[pos] == input[pos - dist];
      CopyRepeats(input, pos + 1, dist, len - 1);
    }
  }

  /** Recording the byte at p; `tail` is what was flushed since the last full flush. */
  lemma PushLiteral(input: seq<Byte>, p: nat, flushed: seq<Byte>, tail: seq<Byte>, recs: seq<Record>)
    requires p < |input| && ValidRecords(flushed, recs) && ExpandAll(flushed, recs) == input[..p]
    requires ValidRecords(tail, recs)
    ensures var more := recs + [Literal(input[p])];
      ValidRecords(flushed, more) && ExpandAll(flushed, more) == input[..p + 1] && ValidRecords(tail, more)
  {
    Push(flushed, recs, Literal(input[p]));
    Push(tail, recs, Literal(input[p]));
  }

  /** Recording a match at p that does not go back before `base`. */
  lemma PushMatch(input: seq<Byte>, p: nat, dist: nat, len: nat, flushed: seq<Byte>, base: nat, tail: seq<Byte>,
    recs: seq<Record>)
    requires ValidRecords(flushed, recs) && p <= |input| && ExpandAll(flushed, recs) == input[..p]
    requires Repeats(input, p, dist, len) && 3 <= len <= 258 && dist <= 32768
    requires ValidRecords(tail, recs) && |flushed| == base + |tail| && base + dist <= p
    ensures RecordInRange(Match(len, dist))
    ensures var more := recs + [Match(len, dist)];
      ValidRecords(flushed, more) && ExpandAll(flushed, more) == input[..p + len] && ValidRecords(tail, more)
  {
    CopyRepeats(input, p, dist, len);
    TotalIsLength(flushed, recs);
    TotalIsLength(tail, recs);
    hide Repeats, Copy, ExpandAll, TotalLen;
    Push(flushed, recs, Match(len, dist));
    Push(tail, recs, Match(len, dist));
  }

  /** More input does not change what has been parsed. */
  lemma MoreInput(input: seq<Byte>, more: seq<Byte>, pos: nat, s: Saved, flushed: seq<Byte>, recs: seq<Record>)
    requires Parsed(input, pos, s, flushed, recs)
    ensures Parsed(input + more, pos, s, flushed, recs)
  {
    hide ValidRecords, ExpandAll;
    assert (input + more)[..pos - Held(s)] == input[..pos - Held(s)];
  }

  /** m_total_lz_bytes is the number of bytes that the records add. */
  lemma {:induction false} TotalIsLength(out: seq<Byte>, recs: seq<Record>)
    requires ValidRecords(out, recs)
    ensures |ExpandAll(out, recs)| == |out| + TotalLen(recs)
  {
    if recs != [] {
      TotalIsLength(out, recs[..|recs| - 1]);
      var last := recs[|recs| - 1];
      if last.Match? {
        CopyExtends(Linear, ExpandAll(out, recs[..|recs| - 1]), last.len, last.dist);
      }
    }
  }

  /** The records of one block never stand for so much input that a 32-bit counter would wrap. */
  lemma {:induction false} TotalBound(recs: seq<Record>)
    requires AllInRange(recs)
    ensures TotalLen(recs) <= 258 * |recs|
  {
    if recs != [] {
      TotalBound(recs[..|recs| - 1]);
    }
  }

  lemma {:induction false} ExpandPrefix(out: seq<Byte>, recs: seq<Record>)
    ensures out <= ExpandAll(out, recs)
  {
    if recs != [] {
      var init, last := recs[..|recs| - 1], recs[|recs| - 1];
      ExpandPrefix(out, init);
      if last.Match? && 1 <= last.dist <= |ExpandAll(out, init)| {
        CopyExtends(Linear, ExpandAll(out, init), last.len, last.dist);
      }
    }
  }

  /** The bytes that a stored block sends instead of the records are exactly what the records stand for. */
  lemma RawData(input: seq<Byte>, pos: nat, s: Saved, flushed: seq<Byte>, recs: seq<Record>)
    requires Parsed(input, pos, s, flushed, recs)
    ensures |flushed| + TotalLen(recs) == pos - Held(s)
    ensures flushed + input[|flushed|..|flushed| + TotalLen(recs)] == ExpandAll(flushed, recs)
  {
    TotalIsLength(flushed, recs);
    ExpandPrefix(flushed, recs);
    hide ExpandAll, TotalLen;
  }
}
