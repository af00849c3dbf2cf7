/** What tdefl_find_match looks for: the longest repetition among the positions that the hash chain offers, as many of
    them as the allotted probes reach. */
module MatchSearch {
  import opened Bits
  import opened HashChains

  /** The input repeats at `pos` what it had `dist` bytes before, for `len` bytes. */
  ghost predicate Repeats(input: seq<Byte>, pos: nat, dist: nat, len: nat) {
    && 1 <= dist <= pos && pos + len <= |input|
    && forall i :: pos <= i < pos + len ==> input[i] == input[i - dist]
  }

  /** How far the repetition goes, up to `max` bytes, given that it goes for k. */
  function RunFrom(input: seq<Byte>, pos: nat, dist: nat, max: nat, k: nat): (l: nat)
    requires dist <= pos && pos + max <= |input| && k <= max
    ensures k <= l <= max
    decreases max - k
  {
    if k == max || input[pos + k] != input[pos + k - dist] then k else RunFrom(input, pos, dist, max, k + 1)
  }

  function RepeatLen(input: seq<Byte>, pos: nat, dist: nat, max: nat): (l: nat)
    requires dist <= pos && pos + max <= |input|
    ensures l <= max
  {
    RunFrom(input, pos, dist, max, 0)
  }

  lemma {:induction false} RunRepeats(input: seq<Byte>, pos: nat, dist: nat, max: nat, k: nat)
    requires pos + max <= |input| && k <= max && Repeats(input, pos, dist, k)
    ensures var l := RunFrom(input, pos, dist, max, k);
      Repeats(input, pos, dist, l) && (l < max ==> !Repeats(input, pos, dist, l + 1))
    decreases max - k
  {
    if k < max && input[pos + k] == input[pos + k - dist] {
      RunRepeats(input, pos, dist, max, k + 1);
    }
  }

  /** It is the longest repetition there is at that distance. */
  lemma LongestRepeat(input: seq<Byte>, pos: nat, dist: nat, max: nat, n: nat)
    requires 1 <= dist <= pos && pos + max <= |input| && n <= max
    ensures Repeats(input, pos, dist, n) <==> n <= RepeatLen(input, pos, dist, max)
  {
    RunRepeats(input, pos, dist, max, 0);
  }

  // ----- the search -----

  /** What a search goes by: the links, the position (a 32-bit counter), the reach, and the input with the lookahead. */
  datatype Hunt = Hunt(next: seq<nat>, counter: nat, maxDist: nat, input: seq<Byte>, pos: nat, maxLen: nat)

  ghost predicate Sound(h: Hunt) {
    |h.next| == LZ_DICT_SIZE && h.maxDist <= h.pos && h.pos + h.maxLen <= |h.input|
  }

  datatype Link = ChainEnd | To(slot: nat, dist: nat)

  /** Where a chain leads from a slot of the ring: nowhere, if the link is empty or out of reach. */
  function Follow(h: Hunt, slot: nat): (l: Link)
    requires |h.next| == LZ_DICT_SIZE && slot < LZ_DICT_SIZE
    ensures l.To? ==> l.slot < LZ_DICT_SIZE && l.dist <= h.maxDist
  {
    var e := h.next[slot];
    if e == 0 || (h.counter - e) % 65536 > h.maxDist then ChainEnd else To(e % LZ_DICT_SIZE, (h.counter - e) % 65536)
  }

  /** The two bytes that decide whether a candidate is looked at: the last one of the match at hand, and the next. */
  ghost predicate Agrees(h: Hunt, dist: nat, len: nat)
    requires Sound(h) && dist <= h.maxDist && 1 <= len < h.maxLen
  {
    h.input[h.pos + len] == h.input[h.pos + len - dist] && h.input[h.pos + len - 1] == h.input[h.pos + len - 1 - dist]
  }

  /** The outcome of the search from a slot, with `rounds` rounds of three probes to go, k of them made in this one.  A
      candidate that agrees in the two bytes ends its round. */
  ghost function Search(h: Hunt, slot: nat, dist: nat, len: nat, rounds: nat, k: nat): (r: (nat, nat))
    requires Sound(h) && slot < LZ_DICT_SIZE && 1 <= len < h.maxLen && k < 3
    ensures len <= r.1 <= h.maxLen
    decreases 3 * rounds + (if k == 0 then 0 else 3 - k)
  {
    if k == 0 && rounds == 0 then (dist, len)
    else
      var left := if k == 0 then rounds - 1 else rounds;
      match Follow(h, slot)
      case ChainEnd => (dist, len)
      case To(s, d) =>
        if !Agrees(h, d, len) then Search(h, s, dist, len, left, (k + 1) % 3)
        else if d == 0 then (dist, len)
        else
          var l := RepeatLen(h.input, h.pos, d, h.maxLen);
          if l == h.maxLen then (d, l)
          else if l > len then Search(h, s, d, l, left, 0)
          else Search(h, s, dist, len, left, 0)
  }

  /** What is left of the search after a candidate that agrees in the two bytes. */
  ghost function AfterHit(h: Hunt, slot: nat, d: nat, dist: nat, len: nat, rounds: nat): (nat, nat)
    requires Sound(h) && slot < LZ_DICT_SIZE && 1 <= len < h.maxLen && d <= h.maxDist
  {
    if d == 0 then (dist, len)
    else
      var l := RepeatLen(h.input, h.pos, d, h.maxLen);
      if l == h.maxLen then (d, l)
      else if l > len then Search(h, slot, d, l, rounds, 0)
      else Search(h, slot, dist, len, rounds, 0)
  }

  lemma SearchStep(h: Hunt, slot: nat, dist: nat, len: nat, rounds: nat, k: nat)
    requires Sound(h) && slot < LZ_DICT_SIZE && 1 <= len < h.maxLen && k < 3
    ensures var left := if k == 0 then rounds - 1 else rounds;
      var l := Follow(h, slot);
      Search(h, slot, dist, len, rounds, k)
      == if (k == 0 && rounds == 0) || l.ChainEnd? then (dist, len)
         else if !Agrees(h, l.dist, len) then Search(h, l.slot, dist, len, left, (k + 1) % 3)
         else AfterHit(h, l.slot, l.dist, dist, len, left)
  {
    hide Agrees, Follow, RepeatLen;
  }

  /** A longer match agrees in the two bytes. */
  lemma LongerAgrees(h: Hunt, dist: nat, len: nat)
    requires Sound(h) && 1 <= dist <= h.maxDist && 1 <= len < h.maxLen
    ensures RepeatLen(h.input, h.pos, dist, h.maxLen) > len ==> Agrees(h, dist, len)
  {
    LongestRepeat(h.input, h.pos, dist, h.maxLen, len + 1);
    hide RepeatLen;
    if Repeats(h.input, h.pos, dist, len + 1) {
      assert h.input[h.pos + len] == h.input[h.pos + len - dist];
      assert h.input[h.pos + len - 1] == h.input[h.pos + len - 1 - dist];
    }
  }

  /** The i-th link from a slot on. */
  ghost function Reached(h: Hunt, slot: nat, i: nat): (l: Link)
    requires |h.next| == LZ_DICT_SIZE && slot < LZ_DICT_SIZE
    ensures l.To? ==> l.slot < LZ_DICT_SIZE && l.dist <= h.maxDist
    decreases i
  {
    var l := Follow(h, slot);
    if l.ChainEnd? || i == 0 then l else Reached(h, l.slot, i - 1)
  }

  /** No link up to the i-th leads back to the position itself. */
  ghost predicate Proper(h: Hunt, slot: nat, i: nat)
    requires |h.next| == LZ_DICT_SIZE && slot < LZ_DICT_SIZE
    decreases i
  {
    var l := Follow(h, slot);
    l.To? && l.dist != 0 && (i > 0 ==> Proper(h, l.slot, i - 1))
  }

  lemma {:induction false} ProperReached(h: Hunt, slot: nat, i: nat)
    requires |h.next| == LZ_DICT_SIZE && slot < LZ_DICT_SIZE && Proper(h, slot, i)
    ensures Reached(h, slot, i).To? && Reached(h, slot, i).dist != 0
    decreases i
  {
    if i > 0 {
      ProperReached(h, Follow(h, slot).slot, i - 1);
    }
  }

  /** A candidate that would be looked at for some length from `len` on. */
  ghost predicate Suspect(h: Hunt, dist: nat, len: nat)
    requires Sound(h) && dist <= h.maxDist && len >= 1
  {
    exists l: nat :: len <= l < h.maxLen && Agrees(h, dist, l)
  }

  /** How many of the first i candidates would be. */
  ghost function Suspects(h: Hunt, slot: nat, len: nat, i: nat): (n: nat)
    requires Sound(h) && slot < LZ_DICT_SIZE && len >= 1
    ensures n <= i
    decreases i
  {
    var l := Follow(h, slot);
    if i == 0 || l.ChainEnd? then 0
    else (if Suspect(h, l.dist, len) then 1 else 0) + Suspects(h, l.slot, len, i - 1)
  }

  lemma {:induction false} FewerSuspects(h: Hunt, slot: nat, len: nat, n: nat, i: nat)
    requires Sound(h) && slot < LZ_DICT_SIZE && 1 <= len <= n
    ensures Suspects(h, slot, n, i) <= Suspects(h, slot, len, i)
    decreases i
  {
    hide Agrees;
    if i > 0 && Follow(h, slot).To? {
      FewerSuspects(h, Follow(h, slot).slot, len, n, i - 1);
    }
  }

  /** The probes that are left: three in every round, of which a candidate that is looked at may take all. */
  function Probes(rounds: nat, k: nat): nat {
    3 * rounds + (if 0 < k < 3 then 3 - k else 0)
  }

  /** None of the allotted candidates is passed over: the match found is at least as long as what any of them gives.
      The first `rounds` candidates are always among them, and up to three times as many if few are looked at. */
  lemma {:induction false} NonePassedOver(h: Hunt, slot: nat, dist: nat, len: nat, rounds: nat, k: nat, i: nat)
    requires Sound(h) && slot < LZ_DICT_SIZE && 1 <= len < h.maxLen && k < 3
    requires Proper(h, slot, i) && i + 2 * Suspects(h, slot, len, i) < Probes(rounds, k)
    ensures Reached(h, slot, i).To?
      && RepeatLen(h.input, h.pos, Reached(h, slot, i).dist, h.maxLen) <= Search(h, slot, dist, len, rounds, k).1
    decreases i
  {
    hide RepeatLen, Agrees, Follow;
    ProperReached(h, slot, i);
    var l := Follow(h, slot);
    var left := if k == 0 then rounds - 1 else rounds;
    LongerAgrees(h, l.dist, len);
    var n := RepeatLen(h.input, h.pos, l.dist, h.maxLen);
    if i > 0 && !(Agrees(h, l.dist, len) && n == h.maxLen) {
      if !Agrees(h, l.dist, len) {
        NonePassedOver(h, l.slot, dist, len, left, (k + 1) % 3, i - 1);
      } else if n > len {
        FewerSuspects(h, l.slot, len, n, i - 1);
        NonePassedOver(h, l.slot, l.dist, n, left, 0, i - 1);
      } else {
        NonePassedOver(h, l.slot, dist, len, left, 0, i - 1);
      }
    }
  }

  /** What is found is a repetition longer than the one at hand, at a distance that the chain offered. */
  lemma {:induction false} FoundIsThere(h: Hunt, slot: nat, dist: nat, len: nat, rounds: nat, k: nat)
    requires Sound(h) && slot < LZ_DICT_SIZE && 1 <= len < h.maxLen && k < 3
    ensures var r := Search(h, slot, dist, len, rounds, k);
      r == (dist, len)
      || (r.1 > len && 1 <= r.0 <= h.maxDist && Repeats(h.input, h.pos, r.0, r.1)
          && (r.1 < h.maxLen ==> !Repeats(h.input, h.pos, r.0, r.1 + 1)))
    decreases 3 * rounds + (if k == 0 then 0 else 3 - k)
  {
    hide RepeatLen, Agrees, Follow, Repeats;
    var f := Follow(h, slot);
    if !(k == 0 && rounds == 0) && f.To? {
      var left := if k == 0 then rounds - 1 else rounds;
      if !Agrees(h, f.dist, len) {
        FoundIsThere(h, f.slot, dist, len, left, (k + 1) % 3);
      } else if f.dist != 0 {
        var n := RepeatLen(h.input, h.pos, f.dist, h.maxLen);
        LongestRepeat(h.input, h.pos, f.dist, h.maxLen, n);
        if n < h.maxLen {
          LongestRepeat(h.input, h.pos, f.dist, h.maxLen, n + 1);
          if n > len {
            FoundIsThere(h, f.slot, f.dist, n, left, 0);
          } else {
            FoundIsThere(h, f.slot, dist, len, left, 0);
          }
        }
      }
    }
  }

  // ----- what the chains offer -----

  /** The links are those of the input, and the positions that a link may lead to have not been overwritten. */
  ghost predicate Charted(h: Hunt, hash: seq<nat>, base: nat) {
    && Sound(h) && Linked(h.next, hash, h.input, base)
    && h.counter == h.pos % 0x1_0000_0000 && base + h.maxDist <= h.pos && h.pos + 2 < |h.input|
    && |h.input| + h.maxDist <= h.pos + LZ_DICT_SIZE
  }

  /** How many positions between b and a have the hash k. */
  function Between(input: seq<Byte>, b: nat, a: nat, k: nat): (n: nat)
    requires b < a ==> a + 1 < |input|
    decreases a
  {
    if a <= b + 1 then 0 else Between(input, b, a - 1, k) + (if HashAt(input, a - 1) == k then 1 else 0)
  }

  /** A position whose 16-bit entry is 0 ends a chain. */
  ghost predicate NoZeroEntry(input: seq<Byte>, b: nat, a: nat, k: nat)
    requires b < a ==> a + 1 < |input|
  {
    forall c :: b <= c < a && HashAt(input, c) == k ==> c % 65536 != 0
  }

  lemma {:induction false} BetweenLast(input: seq<Byte>, base: nat, b: nat, a: nat, k: nat)
    requires base <= b < a && a + 1 < |input| && HashAt(input, b) == k
    ensures var p := Last(input, base, a, k);
      b <= p && Between(input, b, a, k) == if p == b then 0 else 1 + Between(input, b, p, k)
    decreases a
  {
    hide Hash3;
    if HashAt(input, a - 1) != k {
      BetweenLast(input, base, b, a - 1, k);
    }
  }

  /** A link from a position within reach leads to the last position before it with the same hash. */
  lemma FollowLast(h: Hunt, hash: seq<nat>, base: nat, a: nat, p: nat)
    requires Charted(h, hash, base) && base <= a <= h.pos && h.pos <= a + h.maxDist
    requires p == Last(h.input, base, a, HashAt(h.input, a)) && h.pos <= p + h.maxDist && p % 65536 != 0
    ensures p < a && Follow(h, a % LZ_DICT_SIZE) == To(p % LZ_DICT_SIZE, h.pos - p)
  {
    hide Last, HashAt;
    assert LinkAt(h.next, h.input, base, a);
    Wrapped(h.pos, p);
  }

  lemma Wrapped(pos: nat, p: nat)
    requires p <= pos < p + 65536
    ensures (pos % 0x1_0000_0000 - p % 65536) % 65536 == pos - p && p % 65536 % LZ_DICT_SIZE == p % LZ_DICT_SIZE
  {
    var q, r := pos / 0x1_0000_0000, p / 65536;
    assert pos == 0x1_0000_0000 * q + pos % 0x1_0000_0000 && p == 65536 * r + p % 65536;
    DivUnique(pos % 0x1_0000_0000 - p % 65536, 65536, r - 65536 * q, pos - p);
    DivUnique(p, LZ_DICT_SIZE, 2 * r + p % 65536 / LZ_DICT_SIZE, p % 65536 % LZ_DICT_SIZE);
  }

  /** The chain comes to every position within reach with the same hash, the nearest ones first. */
  lemma {:induction false} ChainReaches(h: Hunt, hash: seq<nat>, base: nat, a: nat, b: nat)
    requires Charted(h, hash, base) && b < a <= h.pos <= b + h.maxDist
    requires HashAt(h.input, a) == HashAt(h.input, b) && NoZeroEntry(h.input, b, a, HashAt(h.input, b))
    ensures var i := Between(h.input, b, a, HashAt(h.input, b));
      && Proper(h, a % LZ_DICT_SIZE, i) && Reached(h, a % LZ_DICT_SIZE, i).To?
      && Reached(h, a % LZ_DICT_SIZE, i).dist == h.pos - b
    decreases a
  {
    hide HashAt, Between, Follow, Linked, Last;
    var k := HashAt(h.input, b);
    BetweenLast(h.input, base, b, a, k);
    LastIs(h.input, base, a, k);
    var p: nat := Last(h.input, base, a, k);
    FollowLast(h, hash, base, a, p);
    if p > b {
      ChainReaches(h, hash, base, p, b);
    }
  }

  /** Three equal bytes have the same hash. */
  lemma SameHash(input: seq<Byte>, pos: nat, dist: nat)
    requires Repeats(input, pos, dist, 3)
    ensures HashAt(input, pos) == HashAt(input, pos - dist)
  {
    hide Hash3;
  }

  /** A repetition that is not far: fewer than `rounds` positions in between have the same hash, and none of them is a
      multiple of 65536, which the chains cannot tell from their end. */
  ghost predicate Near(h: Hunt, dist: nat, rounds: nat) {
    && Repeats(h.input, h.pos, dist, 3) && dist <= h.maxDist
    && NoZeroEntry(h.input, h.pos - dist, h.pos, HashAt(h.input, h.pos))
    && Between(h.input, h.pos - dist, h.pos, HashAt(h.input, h.pos)) < rounds
  }

  /** What is found is at least as long as every repetition that is near. */
  lemma NoNearOneMissed(h: Hunt, hash: seq<nat>, base: nat, len: nat, rounds: nat, dist: nat)
    requires Charted(h, hash, base) && 1 <= len < h.maxLen && Near(h, dist, rounds)
    ensures RepeatLen(h.input, h.pos, dist, h.maxLen) <= Search(h, h.pos % LZ_DICT_SIZE, 0, len, rounds, 0).1
  {
    hide HashAt, Between, Search, RepeatLen, Linked, Agrees, Reached, Proper;
    SameHash(h.input, h.pos, dist);
    ChainReaches(h, hash, base, h.pos, h.pos - dist);
    var i := Between(h.input, h.pos - dist, h.pos, HashAt(h.input, h.pos));
    NonePassedOver(h, h.pos % LZ_DICT_SIZE, 0, len, rounds, 0, i);
  }

  /** If the last position with the same hash is a multiple of 65536, nothing is found, however long the repetition. */
  lemma HiddenByZero(h: Hunt, hash: seq<nat>, base: nat, len: nat, rounds: nat)
    requires Charted(h, hash, base) && 1 <= len < h.maxLen
    requires var p := Last(h.input, base, h.pos, HashAt(h.input, h.pos));
      p >= 0 && p % 65536 == 0
    ensures Search(h, h.pos % LZ_DICT_SIZE, 0, len, rounds, 0) == (0, len)
  {
    hide HashAt, Last;
    assert LinkAt(h.next, h.input, base, h.pos);
  }

  /** So the search does not see that a stream begins with a run of one byte until the third byte. */
  lemma RunAtStart(h: Hunt, hash: seq<nat>, c: Byte, len: nat, rounds: nat)
    requires Charted(h, hash, 0) && h.pos == 1 && 1 <= len < h.maxLen
    requires |h.input| >= 4 && forall i :: 0 <= i < 4 ==> h.input[i] == c
    ensures Repeats(h.input, 1, 1, 3) && Search(h, 1, 0, len, rounds, 0) == (0, len)
  {
    hide Hash3;
    HiddenByZero(h, hash, 0, len, rounds);
  }
}
