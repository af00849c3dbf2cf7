/** The compressor's sliding window: a ring of 32768 bytes whose first bytes are mirrored behind its end, and the hash
    chains that suggest where a match may be. */
module Dictionary {
  import opened Bits
  import opened HashChains
  import opened MatchSearch

  const MIN_MATCH_LEN: nat := 3
  const MAX_MATCH_LEN: nat := 258
  const WORD: nat := 0x1_0000_0000

  /** 32-bit addition. */
  function Add32(a: nat, b: nat): nat {
    (a + b) % WORD
  }

  /** From position lo on, the ring and its mirror hold the input. */
  ghost predicate Holds(dict: seq<Byte>, input: seq<Byte>, lo: int) {
    && |dict| == LZ_DICT_SIZE + MAX_MATCH_LEN - 1 && |input| - lo <= LZ_DICT_SIZE
    && forall a :: 0 <= a && lo <= a < |input| ==> HoldsAt(dict, input, a)
  }

  ghost predicate HoldsAt(dict: seq<Byte>, input: seq<Byte>, a: nat) {
    && |dict| == LZ_DICT_SIZE + MAX_MATCH_LEN - 1 && a < |input|
    && dict[a % LZ_DICT_SIZE] == input[a]
    && (a % LZ_DICT_SIZE < MAX_MATCH_LEN - 1 ==> dict[LZ_DICT_SIZE + a % LZ_DICT_SIZE] == input[a])
  }

  /** What storing the next input byte does to the ring. */
  ghost predicate Stored(dict: seq<Byte>, after: seq<Byte>, p: nat, c: Byte) {
    && |dict| == |after| == LZ_DICT_SIZE + MAX_MATCH_LEN - 1 && p < LZ_DICT_SIZE
    && after == if p < MAX_MATCH_LEN - 1 then dict[p := c][LZ_DICT_SIZE + p := c] else dict[p := c]
  }

  /** One more byte: it takes the place of the one 32768 bytes back. */
  lemma StoreByte(dict: seq<Byte>, input: seq<Byte>, lo: int, c: Byte, after: seq<Byte>)
    requires Holds(dict, input, lo) && Stored(dict, after, |input| % LZ_DICT_SIZE, c)
    ensures Holds(after, input + [c], Max(lo, |input| + 1 - LZ_DICT_SIZE))
  {
    var more := input + [c];
    forall a: nat | Max(lo, |input| + 1 - LZ_DICT_SIZE) <= a < |more|
      ensures HoldsAt(after, more, a)
    {
      if a < |input| {
        assert HoldsAt(dict, input, a);
        DifferentSlots(a, |input|);
      }
    }
  }

  lemma DifferentSlots(a: nat, b: nat)
    requires a < b < a + LZ_DICT_SIZE
    ensures a % LZ_DICT_SIZE != b % LZ_DICT_SIZE
  {
  }

  /** A run of input read at consecutive ring indices, which may go on into the mirror. */
  lemma RunAt(dict: seq<Byte>, input: seq<Byte>, lo: int, a: nat, k: nat)
    requires Holds(dict, input, lo) && lo <= a && a + k < |input| && k < MAX_MATCH_LEN
    ensures dict[a % LZ_DICT_SIZE + k] == input[a + k]
  {
    assert HoldsAt(dict, input, a + k);
    NextSlot(a, k);
  }

  lemma NextSlot(a: nat, k: nat)
    requires k < LZ_DICT_SIZE
    ensures (a + k) % LZ_DICT_SIZE
        == a % LZ_DICT_SIZE + k - (if a % LZ_DICT_SIZE + k >= LZ_DICT_SIZE then LZ_DICT_SIZE else 0)
  {
  }

  /** A distance found through a 16-bit chain entry leads to the ring slot that far back. */
  lemma ProbeSlot(pos: nat, lookaheadPos: nat, next: nat, dist: nat)
    requires lookaheadPos == pos % WORD && next < 65536 && dist <= pos
    requires dist == (lookaheadPos - next) % 65536
    ensures next % LZ_DICT_SIZE == (pos - dist) % LZ_DICT_SIZE
  {
    var q := pos / WORD;
    assert pos == WORD * q + lookaheadPos;
    var r := (lookaheadPos - next) / 65536;
    assert lookaheadPos - next == 65536 * r + dist;
    var m := 131072 * q + 2 * r;
    assert pos - dist == next + 32768 * m;
    SameSlot(next, pos - dist, m);
  }

  lemma SameSlot(a: nat, b: nat, m: int)
    requires b == a + 32768 * m
    ensures a % 32768 == b % 32768
  {
  }

  class Dict {
    const dict: array<Byte>       // m_dict
    const next: array<nat>        // m_next
    const hash: array<nat>        // m_hash
    var lookaheadPos: nat         // m_lookahead_pos, a 32-bit counter
    var lookaheadSize: nat        // m_lookahead_size
    var dictSize: nat             // m_dict_size
    ghost var input: seq<Byte>    // everything taken from the caller
    ghost var pos: nat            // how much of it is before the lookahead
    ghost var base: nat           // where the last full flush was: nothing before it is in the chains

    constructor ()
      ensures Valid() && input == [] && pos == base == 0 && dictSize == 0 && fresh(dict) && fresh(next) && fresh(hash)
    {
      dict := new Byte[LZ_DICT_SIZE + MAX_MATCH_LEN - 1](_ => 0);
      next := new nat[LZ_DICT_SIZE](_ => 0);
      hash := new nat[HASH_SIZE](_ => 0);
      lookaheadPos, lookaheadSize, dictSize, input, pos, base := 0, 0, 0, [], 0, 0;
      new;
      ClearedLinks(next[..], hash[..], [], 0);
    }

    ghost predicate Valid()
      reads this, dict, next, hash
    {
      && Chains() && Counters() && dictSize + lookaheadSize <= LZ_DICT_SIZE
      && Holds(dict[..], input, pos - dictSize) && Linked(next[..], hash[..], input, base)
    }

    /** The chains hold 16-bit positions. */
    ghost predicate Chains()
      reads next, hash
    {
      && next.Length == LZ_DICT_SIZE && hash.Length == HASH_SIZE && next != hash
      && (forall i :: 0 <= i < next.Length ==> next[i] < 65536)
      && (forall i :: 0 <= i < hash.Length ==> hash[i] < 65536)
    }

    ghost predicate Counters()
      reads this
    {
      && lookaheadPos == pos % WORD && |input| == pos + lookaheadSize
      && lookaheadSize <= MAX_MATCH_LEN && base + dictSize <= pos
      && (base + dictSize == pos || dictSize + lookaheadSize >= LZ_DICT_SIZE)
    }

    /** While bytes are being added the oldest ones fall out before m_dict_size says so. */
    ghost predicate Filling(taken: seq<Byte>)
      reads this`pos, this`dictSize, dict
    {
      Holds(dict[..], taken, Max(pos - dictSize, |taken| - LZ_DICT_SIZE))
    }

    /** Writes one byte, and its mirror. */
    method Store(c: Byte, dstPos: nat, ghost taken: seq<Byte>)
      requires Filling(taken) && dstPos == |taken| % LZ_DICT_SIZE
      modifies dict
      ensures Filling(taken + [c])
    {
      hide Holds, HoldsAt;
      ghost var before: seq<Byte> := dict[..];
      HoldsLength(before, taken, Max(pos - dictSize, |taken| - LZ_DICT_SIZE));
      dict[dstPos] := c;
      assert dict[..] == before[dstPos := c];
      if dstPos < MAX_MATCH_LEN - 1 {
        dict[LZ_DICT_SIZE + dstPos] := c;
        assert dict[..] == before[dstPos := c][LZ_DICT_SIZE + dstPos := c];
      }
      StoreByte(before, taken, Max(pos - dictSize, |taken| - LZ_DICT_SIZE), c, dict[..]);
    }

    /** Enters position a into its hash chain. */
    method Insert(h: nat, insPos: nat, ghost a: nat)
      requires Chains() && h < HASH_SIZE && insPos == a % WORD
      modifies next, hash
      ensures Chains() && Entered(old(next[..]), old(hash[..]), next[..], hash[..], h, a)
    {
      EntrySlot(a, insPos);
      next[insPos % LZ_DICT_SIZE] := hash[h];
      hash[h] := insPos % 65536;
    }

    /** The chains while bytes are being added. */
    ghost predicate Linking(taken: seq<Byte>)
      reads this`base, next, hash
    {
      Linked(next[..], hash[..], taken, base)
    }

    /** One round of the rolling loop. */
    method Roll(c: Byte, dstPos0: nat, insPos0: nat, h0: nat, ghost taken: seq<Byte>)
      returns (dstPos: nat, insPos: nat, h: nat)
      requires Chains() && Filling(taken) && Linking(taken) && dstPos0 == |taken| % LZ_DICT_SIZE
      requires |taken| >= base + 2 && insPos0 == (|taken| - 2) % WORD && Primed(h0, taken)
      modifies dict, next, hash
      ensures Chains() && Filling(taken + [c]) && Linking(taken + [c]) && dstPos == |taken + [c]| % LZ_DICT_SIZE
      ensures insPos == (|taken| - 1) % WORD && Primed(h, taken + [c])
    {
      hide Holds, Xor, Shl, Low, Hash3, Linked, Entered;
      Store(c, dstPos0, taken);
      h := Low(Xor(Shl(h0, 5), c), 15);
      RollOn(h0, taken, c);
      ghost var oldNext, oldHash := next[..], hash[..];
      Insert(h, insPos0, |taken| - 2);
      PositionEntered(oldNext, oldHash, taken, base, c, next[..], hash[..]);
      NextSlot(|taken|, 1);
      NextWord(|taken| - 2, insPos0);
      dstPos := (dstPos0 + 1) % LZ_DICT_SIZE;
      insPos := (insPos0 + 1) % WORD;
    }

    /** The usual loop: with at least two bytes before, the hash rolls along. */
    method FillRolling(src: seq<Byte>, from: nat, n: nat)
      requires Chains() && Counters() && Filling(input) && Linking(input) && lookaheadSize + dictSize >= 2
      requires from + n <= |src| && lookaheadSize + n <= MAX_MATCH_LEN
      modifies this`lookaheadSize, this`input, dict, next, hash
      ensures Chains() && Counters() && input == old(input) + src[from..from + n]
        && lookaheadSize == old(lookaheadSize) + n
      ensures Filling(input) && Linking(input)
    {
      hide Holds, Xor, Shl, Chains, Linking, Primed;
      HoldsLength(dict[..], input, Max(pos - dictSize, |input| - LZ_DICT_SIZE));
      var dstPos: nat := (lookaheadPos + lookaheadSize) % LZ_DICT_SIZE;
      var insPos: nat := (lookaheadPos + lookaheadSize + WORD - 2) % WORD;
      LastBytes(insPos);
      var h: nat := Xor(Shl(dict[insPos % LZ_DICT_SIZE], 5), dict[(insPos + 1) % LZ_DICT_SIZE]);
      PrimedFirst(input);
      ghost var all := input;
      assert all + src[from..from] == all;
      DstSlot(pos, lookaheadPos, lookaheadSize);
      var k := 0;
      while k < n
        invariant 0 <= k <= n && Chains() && Filling(all + src[from..from + k]) && Linking(all + src[from..from + k])
        invariant dstPos == |all + src[from..from + k]| % LZ_DICT_SIZE
        invariant insPos == (|all| + k - 2) % WORD && Primed(h, all + src[from..from + k])
        invariant input == all && lookaheadSize == old(lookaheadSize)
      {
        assert all + src[from..from + k] + [src[from + k]] == all + src[from..from + k + 1];
        dstPos, insPos, h := Roll(src[from + k], dstPos, insPos, h, all + src[from..from + k]);
        k := k + 1;
      }
      lookaheadSize, input := lookaheadSize + n, all + src[from..from + n];
    }

    /** The last two bytes are in the ring. */
    lemma LastBytes(insPos: nat)
      requires Counters() && Filling(input) && lookaheadSize + dictSize >= 2
      requires insPos == (lookaheadPos + lookaheadSize + WORD - 2) % WORD
      ensures |input| >= base + 2 && insPos == (|input| - 2) % WORD
      ensures dict.Length == LZ_DICT_SIZE + MAX_MATCH_LEN - 1
      ensures dict[insPos % LZ_DICT_SIZE] == input[|input| - 2]
      ensures dict[(insPos + 1) % LZ_DICT_SIZE] == input[|input| - 1]
    {
      hide Holds;
      var lo := Max(pos - dictSize, |input| - LZ_DICT_SIZE);
      HoldsLength(dict[..], input, lo);
      BackWord(pos, lookaheadPos, lookaheadSize, insPos);
      EntrySlot(|input| - 2, insPos);
      RunAt(dict[..], input, lo, |input| - 2, 0);
      RunAt(dict[..], input, lo, |input| - 1, 0);
      SlotAfter(insPos, |input| - 2);
    }

    /** The loop at the start, while there are too few bytes to hash. */
    method FillFirst(src: seq<Byte>, from: nat) returns (n: nat)
      requires Chains() && Counters() && Filling(input) && Linking(input) && from <= |src|
      requires lookaheadSize + dictSize < 2
      modifies this`lookaheadSize, this`input, dict, next, hash
      ensures Chains() && Counters() && Filling(input) && Linking(input)
        && lookaheadSize == old(lookaheadSize) + n
      ensures from + n <= |src| && input == old(input) + src[from..from + n]
      ensures from + n == |src| || lookaheadSize == MAX_MATCH_LEN
    {
      hide Holds, Xor, Shl, Low, Linking;
      n := 0;
      ghost var all := input;
      while from + n < |src| && lookaheadSize < MAX_MATCH_LEN
        invariant from + n <= |src| && Chains() && Counters() && Filling(input) && Linking(input)
        invariant input == all + src[from..from + n] && lookaheadSize == old(lookaheadSize) + n
      {
        var c := src[from + n];
        n := n + 1;
        TakeFirst(c);
        assert input == all + src[from..from + n];
      }
    }

    /** One round of that loop. */
    method TakeFirst(c: Byte)
      requires Chains() && Counters() && Filling(input) && Linking(input)
      requires lookaheadSize < MAX_MATCH_LEN && dictSize < 2
      modifies this`lookaheadSize, this`input, dict, next, hash
      ensures Chains() && Counters() && Filling(input) && Linking(input)
      ensures lookaheadSize == old(lookaheadSize) + 1 && input == old(input) + [c]
    {
      hide Holds, Xor, Shl, Low, Linked, Hash3, Entered;
      ghost var taken, oldNext, oldHash := input, next[..], hash[..];
      var dstPos := (lookaheadPos + lookaheadSize) % LZ_DICT_SIZE;
      DstSlot(pos, lookaheadPos, lookaheadSize);
      Store(c, dstPos, input);
      lookaheadSize, input := lookaheadSize + 1, input + [c];
      if lookaheadSize + dictSize >= MIN_MATCH_LEN {
        var insPos := (lookaheadPos + (lookaheadSize - 1) + WORD - 2) % WORD;
        BeforeLast(insPos);
        var x := Xor(Xor(Shl(dict[insPos % LZ_DICT_SIZE], 10), Shl(dict[(insPos + 1) % LZ_DICT_SIZE], 5)), c);
        HashOf(input, x);
        Insert(Low(x, 15), insPos, |taken| - 2);
        PositionEntered(oldNext, oldHash, taken, base, c, next[..], hash[..]);
      } else {
        NothingEntered(oldNext, oldHash, taken, base, c);
      }
    }

    /** The two bytes before the last one are in the ring. */
    lemma BeforeLast(insPos: nat)
      requires Counters() && Filling(input) && lookaheadSize >= 1 && lookaheadSize + dictSize >= 3
      requires insPos == (lookaheadPos + (lookaheadSize - 1) + WORD - 2) % WORD
      ensures |input| >= base + 3 && insPos == (|input| - 3) % WORD
      ensures dict.Length == LZ_DICT_SIZE + MAX_MATCH_LEN - 1
      ensures dict[insPos % LZ_DICT_SIZE] == input[|input| - 3]
      ensures dict[(insPos + 1) % LZ_DICT_SIZE] == input[|input| - 2]
    {
      hide Holds;
      var lo := Max(pos - dictSize, |input| - LZ_DICT_SIZE);
      HoldsLength(dict[..], input, lo);
      BackWord(pos, lookaheadPos, lookaheadSize - 1, insPos);
      EntrySlot(|input| - 3, insPos);
      RunAt(dict[..], input, lo, |input| - 3, 0);
      RunAt(dict[..], input, lo, |input| - 2, 0);
      SlotAfter(insPos, |input| - 3);
    }

    /** Tops the lookahead up to 258 bytes, or to the end of the source. */
    method Fill(src: seq<Byte>, from: nat) returns (to: nat)
      requires Valid() && from <= |src|
      modifies this`lookaheadSize, this`dictSize, this`input, dict, next, hash
      ensures Valid() && from <= to <= |src| && input == old(input) + src[from..to]
        && lookaheadSize == old(lookaheadSize) + to - from && lookaheadSize <= MAX_MATCH_LEN
      ensures to == |src| || lookaheadSize == MAX_MATCH_LEN
    {
      hide Holds, Linked;
      var n: nat;
      assert Max(pos - dictSize, |input| - LZ_DICT_SIZE) == pos - dictSize;
      if lookaheadSize + dictSize >= MIN_MATCH_LEN - 1 {
        n := Min(|src| - from, MAX_MATCH_LEN - lookaheadSize);
        FillRolling(src, from, n);
      } else {
        n := FillFirst(src, from);
      }
      to := from + n;
      dictSize := Min(LZ_DICT_SIZE - lookaheadSize, dictSize);
    }

    /** The search as the chains, the window and the input determine it. */
    ghost function Hunting(): (h: Hunt)
      reads this, next
    {
      Hunt(next[..], lookaheadPos, dictSize, input, pos, lookaheadSize)
    }

    lemma LinkFits(slot: nat)
      requires Valid() && slot < LZ_DICT_SIZE
      ensures slot < next.Length && next[slot] < 65536
    {
      hide Holds, Linked;
    }

    /** The two bytes of a candidate, read in the ring. */
    lemma CandidateBytes(nextProbePos: nat, dist: nat, matchLen: nat, c0: Byte, c1: Byte)
      requires Valid() && nextProbePos < 65536 && dist == (lookaheadPos - nextProbePos) % 65536 && dist <= dictSize
      requires 1 <= matchLen < lookaheadSize && c0 == input[pos + matchLen] && c1 == input[pos + matchLen - 1]
      ensures var q := nextProbePos % LZ_DICT_SIZE;
        && q == (pos - dist) % LZ_DICT_SIZE && q + matchLen < dict.Length && Sound(Hunting())
        && (dict[q + matchLen] == c0 && dict[q + matchLen - 1] == c1 <==> Agrees(Hunting(), dist, matchLen))
    {
      hide Holds, Linked;
      HoldsLength(dict[..], input, pos - dictSize);
      ProbeSlot(pos, lookaheadPos, nextProbePos, dist);
      RunAt(dict[..], input, pos - dictSize, pos - dist, matchLen);
      RunAt(dict[..], input, pos - dictSize, pos - dist, matchLen - 1);
    }

    /** TDEFL_PROBE: follows one link of a hash chain.  It stops at the end of the chain or beyond maxDist, and hits
        when the two bytes that a longer match needs are there. */
    method Probe(probePos0: nat, matchLen: nat, maxDist: nat, c0: Byte, c1: Byte)
      returns (stop: bool, hit: bool, probePos: nat, dist: nat)
      requires Valid() && probePos0 < LZ_DICT_SIZE && 1 <= matchLen < lookaheadSize && maxDist == dictSize
      requires c0 == input[pos + matchLen] && c1 == input[pos + matchLen - 1]
      ensures probePos < LZ_DICT_SIZE && Sound(Hunting())
      ensures stop <==> Follow(Hunting(), probePos0).ChainEnd?
      ensures !stop ==>
        Follow(Hunting(), probePos0) == To(probePos, dist) && dist <= maxDist && probePos == (pos - dist) % LZ_DICT_SIZE
        && (hit <==> Agrees(Hunting(), dist, matchLen))
    {
      hide Valid, Agrees, Sound;
      Hunts();
      LinkFits(probePos0);
      var nextProbePos := next[probePos0];
      dist := (lookaheadPos - nextProbePos) % 65536;
      if nextProbePos == 0 || dist > maxDist {
        return true, false, probePos0, dist;
      }
      stop, probePos := false, nextProbePos % LZ_DICT_SIZE;
      CandidateBytes(nextProbePos, dist, matchLen, c0, c1);
      hit := dict[probePos + matchLen] == c0 && dict[probePos + matchLen - 1] == c1;
    }

    /** The comparison loop: how far the input at the two ring positions agrees. */
    method MatchLength(p: nat, q: nat, dist: nat, maxMatchLen: nat) returns (len: nat)
      requires Valid() && maxMatchLen <= lookaheadSize && 1 <= dist <= dictSize
      requires p == pos % LZ_DICT_SIZE && q == (pos - dist) % LZ_DICT_SIZE
      ensures len == RepeatLen(input, pos, dist, maxMatchLen)
    {
      hide Holds, Linked;
      HoldsLength(dict[..], input, pos - dictSize);
      len := 0;
      while len < maxMatchLen
        invariant 0 <= len <= maxMatchLen
        invariant RunFrom(input, pos, dist, maxMatchLen, len) == RepeatLen(input, pos, dist, maxMatchLen)
      {
        RunAt(dict[..], input, pos - dictSize, pos, len);
        RunAt(dict[..], input, pos - dictSize, pos - dist, len);
        if dict[p + len] != dict[q + len] {
          break;
        }
        len := len + 1;
      }
    }

    /** The two bytes that the search goes by, read at the lookahead. */
    lemma GoesBy(p: nat, matchLen: nat)
      requires Valid() && p == pos % LZ_DICT_SIZE && 1 <= matchLen < lookaheadSize
      ensures p + matchLen < dict.Length && dict[p + matchLen] == input[pos + matchLen]
        && dict[p + matchLen - 1] == input[pos + matchLen - 1]
    {
      hide Holds, Linked;
      HoldsLength(dict[..], input, pos - dictSize);
      RunAt(dict[..], input, pos - dictSize, pos, matchLen);
      RunAt(dict[..], input, pos - dictSize, pos, matchLen - 1);
    }

    lemma Hunts()
      requires Valid()
      ensures Sound(Hunting()) && lookaheadPos == pos % WORD && lookaheadSize <= MAX_MATCH_LEN
        && dict.Length == LZ_DICT_SIZE + MAX_MATCH_LEN - 1
      ensures lookaheadSize >= 3 ==> Charted(Hunting(), hash[..], base)
    {
      hide Holds, Linked;
      HoldsLength(dict[..], input, pos - dictSize);
    }

    /** tdefl_find_match: the outcome of the search, when the chains, the window and the input are given. */
    method FindMatch(maxDist: nat, maxMatchLen: nat, matchLen0: nat, maxProbes: nat)
      returns (matchDist: nat, matchLen: nat)
      requires Valid() && maxDist == dictSize && maxMatchLen == lookaheadSize && 1 <= matchLen0 < MAX_MATCH_LEN
        && maxProbes >= 1
      ensures matchDist == 0 ==> matchLen == matchLen0
      ensures matchDist != 0 ==> matchLen0 < matchLen <= lookaheadSize && matchDist <= dictSize
      ensures matchDist != 0 ==> Repeats(input, pos, matchDist, matchLen)
      ensures lookaheadSize <= matchLen0 ==> matchDist == 0
      ensures Sound(Hunting())
      ensures matchLen0 < lookaheadSize ==>
        (matchDist, matchLen) == Search(Hunting(), pos % LZ_DICT_SIZE, 0, matchLen0, maxProbes - 1, 0)
      ensures lookaheadSize >= 3 && matchLen0 < lookaheadSize ==> forall d: nat :: Near(Hunting(), d, maxProbes - 1) ==>
        RepeatLen(input, pos, d, lookaheadSize) <= matchLen
    {
      hide Holds, Repeats, Valid, Search, RepeatLen, Follow, Agrees, Near, Charted;
      Hunts();
      DstSlot(pos, lookaheadPos, 0);
      matchDist, matchLen := 0, matchLen0;
      var p: nat := lookaheadPos % LZ_DICT_SIZE;
      var probePos: nat, numProbesLeft: nat := p, maxProbes;
      var c0, c1 := dict[p + matchLen], dict[p + matchLen - 1];
      if maxMatchLen <= matchLen {
        return;
      }
      FoundIsThere(Hunting(), p, 0, matchLen0, maxProbes - 1, 0);
      NoneMissed(matchLen0, maxProbes - 1);
      ghost var target := Search(Hunting(), p, 0, matchLen0, maxProbes - 1, 0);
      GoesBy(p, matchLen);
      while true
        invariant probePos < LZ_DICT_SIZE && 1 <= matchLen < maxMatchLen && numProbesLeft >= 1
        invariant c0 == input[pos + matchLen] && c1 == input[pos + matchLen - 1]
        invariant target == Search(Hunting(), probePos, matchDist, matchLen, numProbesLeft - 1, 0)
        decreases numProbesLeft
      {
        var stop, dist;
        stop, probePos, dist, numProbesLeft := NextHit(probePos, matchLen, maxDist, c0, c1, numProbesLeft, matchDist);
        if stop || dist == 0 {
          return;
        }
        var probeLen := MatchLength(p, probePos, dist, maxMatchLen);
        if probeLen > matchLen {
          matchDist, matchLen := dist, probeLen;
          if matchLen == maxMatchLen {
            return;
          }
          GoesBy(p, matchLen);
          c0, c1 := dict[p + matchLen], dict[p + matchLen - 1];
        }
      }
    }

    lemma NoneMissed(len: nat, rounds: nat)
      requires Valid() && 1 <= len < lookaheadSize
      ensures Sound(Hunting())
      ensures lookaheadSize >= 3 ==> forall d: nat :: Near(Hunting(), d, rounds) ==>
        RepeatLen(input, pos, d, lookaheadSize) <= Search(Hunting(), pos % LZ_DICT_SIZE, 0, len, rounds, 0).1
    {
      hide Valid, Search, RepeatLen, Charted, HashAt, Between, NoZeroEntry;
      Hunts();
      if lookaheadSize >= 3 {
        forall d: nat | Near(Hunting(), d, rounds)
          ensures RepeatLen(input, pos, d, lookaheadSize)
               <= Search(Hunting(), pos % LZ_DICT_SIZE, 0, len, rounds, 0).1
        {
          NoNearOneMissed(Hunting(), hash[..], base, len, rounds, d);
        }
      }
    }

    /** The inner loop of the search: three probes for every one of the allowed rounds. */
    method NextHit(probePos0: nat, matchLen: nat, maxDist: nat, c0: Byte, c1: Byte, numProbesLeft0: nat,
      ghost matchDist: nat)
      returns (stop: bool, probePos: nat, dist: nat, numProbesLeft: nat)
      requires Valid() && probePos0 < LZ_DICT_SIZE && 1 <= matchLen < lookaheadSize && maxDist == dictSize
        && numProbesLeft0 >= 1
      requires c0 == input[pos + matchLen] && c1 == input[pos + matchLen - 1]
      ensures probePos < LZ_DICT_SIZE && numProbesLeft < numProbesLeft0 && Sound(Hunting())
      ensures !stop ==> dist <= maxDist && probePos == (pos - dist) % LZ_DICT_SIZE && numProbesLeft >= 1
      ensures Search(Hunting(), probePos0, matchDist, matchLen, numProbesLeft0 - 1, 0)
           == if stop then (matchDist, matchLen)
              else AfterHit(Hunting(), probePos, dist, matchDist, matchLen, numProbesLeft - 1)
    {
      hide Holds, Valid, Follow, Agrees, Sound, Search, AfterHit;
      Hunts();
      var hit := false;
      stop, probePos, dist, numProbesLeft := false, probePos0, 0, numProbesLeft0;
      ghost var target := Search(Hunting(), probePos0, matchDist, matchLen, numProbesLeft0 - 1, 0);
      while true
        invariant probePos < LZ_DICT_SIZE && 1 <= numProbesLeft <= numProbesLeft0
        invariant target == Search(Hunting(), probePos, matchDist, matchLen, numProbesLeft - 1, 0)
        decreases numProbesLeft
      {
        numProbesLeft := numProbesLeft - 1;
        SearchStep(Hunting(), probePos, matchDist, matchLen, numProbesLeft, 0);
        if numProbesLeft == 0 {
          return true, probePos, dist, numProbesLeft;
        }
        stop, hit, probePos, dist := Probe(probePos, matchLen, maxDist, c0, c1);
        if stop || hit {
          return;
        }
        SearchStep(Hunting(), probePos, matchDist, matchLen, numProbesLeft - 1, 1);
        stop, hit, probePos, dist := Probe(probePos, matchLen, maxDist, c0, c1);
        if stop || hit {
          return;
        }
        SearchStep(Hunting(), probePos, matchDist, matchLen, numProbesLeft - 1, 2);
        stop, hit, probePos, dist := Probe(probePos, matchLen, maxDist, c0, c1);
        if stop || hit {
          return;
        }
      }
    }

    /** The search of TDEFL_RLE_MATCHES: how often the byte before the lookahead is repeated. */
    method RunLength() returns (len: nat)
      requires Valid() && dictSize >= 1
      ensures len == RepeatLen(input, pos, 1, lookaheadSize)
    {
      hide Holds, Linked;
      HoldsLength(dict[..], input, pos - dictSize);
      DstSlot(pos, lookaheadPos, 0);
      var p: nat := lookaheadPos % LZ_DICT_SIZE;
      PrevSlot(pos, p);
      RunAt(dict[..], input, pos - dictSize, pos - 1, 0);
      var c := dict[(p + LZ_DICT_SIZE - 1) % LZ_DICT_SIZE];
      len := 0;
      while len < lookaheadSize
        invariant 0 <= len <= lookaheadSize && forall i :: pos - 1 <= i < pos + len ==> input[i] == c
        invariant RunFrom(input, pos, 1, lookaheadSize, len) == RepeatLen(input, pos, 1, lookaheadSize)
      {
        RunAt(dict[..], input, pos - dictSize, pos, len);
        if dict[p + len] != c {
          break;
        }
        len := len + 1;
      }
    }

    /** The next byte to be recorded. */
    method Current() returns (c: Byte)
      requires Valid() && lookaheadSize >= 1
      ensures c == input[pos]
    {
      hide Holds;
      HoldsLength(dict[..], input, pos - dictSize);
      DstSlot(pos, lookaheadPos, 0);
      RunAt(dict[..], input, pos - dictSize, pos, 0);
      c := dict[Min(lookaheadPos % LZ_DICT_SIZE, dict.Length - 1)];
    }

    /** A byte that is still in the window, by its position. */
    method ByteAt(position: nat, ghost a: nat) returns (c: Byte)
      requires Valid() && pos - dictSize <= a < |input| && position % LZ_DICT_SIZE == a % LZ_DICT_SIZE
      ensures c == input[a]
    {
      hide Holds;
      HoldsLength(dict[..], input, pos - dictSize);
      RunAt(dict[..], input, pos - dictSize, a, 0);
      c := dict[position % LZ_DICT_SIZE];
    }

    /** Moves bytes from the lookahead into the window. */
    method Move(len: nat)
      requires Valid() && len <= lookaheadSize
      modifies this
      ensures Valid() && pos == old(pos) + len && lookaheadSize == old(lookaheadSize) - len && input == old(input)
      ensures dictSize == old(dictSize) + len && base == old(base)
    {
      hide Holds, Linked;
      MovePos(pos, lookaheadPos, len);
      lookaheadPos := Add32(lookaheadPos, len);
      lookaheadSize := lookaheadSize - len;
      dictSize := Min(dictSize + len, LZ_DICT_SIZE);
      pos := pos + len;
    }

    /** TDEFL_FULL_FLUSH: nothing before this point is used again. */
    method Forget()
      requires Valid() && lookaheadSize == 0
      modifies this`dictSize, this`base, next, hash
      ensures Valid() && dictSize == 0 && base == pos
    {
      hide Holds, Linked;
      var i := 0;
      while i < HASH_SIZE
        invariant 0 <= i <= HASH_SIZE && Chains() && dictSize == old(dictSize)
        invariant forall k :: 0 <= k < i ==> hash[k] == 0 && next[k] == 0
      {
        hash[i], next[i] := 0, 0;
        i := i + 1;
      }
      HoldsLess(dict[..], input, pos - dictSize, pos);
      ClearedLinks(next[..], hash[..], input, pos);
      dictSize, base := 0, pos;
    }
  }

  /** The rolling hash, one byte before the hash of three bytes is complete. */
  ghost predicate Primed(h: nat, taken: seq<Byte>) {
    |taken| >= 2 && forall c: Byte :: Low(Xor(Shl(h, 5), c), 15) == Hash3(taken[|taken| - 2], taken[|taken| - 1], c)
  }

  lemma PrimedFirst(taken: seq<Byte>)
    requires |taken| >= 2
    ensures Primed(Xor(Shl(taken[|taken| - 2], 5), taken[|taken| - 1]), taken)
  {
    hide Hash3, Xor, Shl, Low;
    var a, b := taken[|taken| - 2], taken[|taken| - 1];
    forall c: Byte
      ensures Low(Xor(Shl(Xor(Shl(a, 5), b), 5), c), 15) == Hash3(a, b, c)
    {
      FirstHash(a, b, c);
    }
  }

  /** The next byte completes it, and starts the next one. */
  lemma RollOn(h0: nat, taken: seq<Byte>, c: Byte)
    requires Primed(h0, taken)
    ensures var h := Low(Xor(Shl(h0, 5), c), 15);
      h < HASH_SIZE && h == HashAt(taken + [c], |taken| - 2) && Primed(h, taken + [c])
  {
    hide Hash3, Xor, Shl, Low;
    var a, b := taken[|taken| - 2], taken[|taken| - 1];
    assert Low(Xor(Shl(h0, 5), c), 15) == Hash3(a, b, c);
    forall d: Byte
      ensures Low(Xor(Shl(Hash3(a, b, c), 5), d), 15) == Hash3(b, c, d)
    {
      RollHash(a, b, c, d);
    }
  }

  lemma HashOf(input: seq<Byte>, x: nat)
    requires |input| >= 3
    requires x == Xor(Xor(Shl(input[|input| - 3], 10), Shl(input[|input| - 2], 5)), input[|input| - 1])
    ensures Low(x, 15) == HashAt(input, |input| - 3)
  {
    hide Xor, Shl, Low;
  }

  /** The ring slot and the 16-bit entry of a position do not depend on the high bits of the counter. */
  lemma EntrySlot(a: nat, insPos: nat)
    requires insPos == a % WORD
    ensures insPos % LZ_DICT_SIZE == a % LZ_DICT_SIZE && insPos % 65536 == a % 65536
  {
    var q := a / WORD;
    assert a == insPos + WORD * q;
    SameSlot(insPos, a, 131072 * q);
    DivUnique(a, 65536, insPos / 65536 + 65536 * q, insPos % 65536);
  }

  lemma BackWord(pos: nat, lookaheadPos: nat, size: nat, insPos: nat)
    requires lookaheadPos == pos % WORD && insPos == (lookaheadPos + size + WORD - 2) % WORD && pos + size >= 2
    ensures insPos == (pos + size - 2) % WORD
  {
    SameWord(lookaheadPos + size + WORD - 2, pos + size - 2, pos / WORD - 1);
  }

  lemma NextWord(a: nat, insPos: nat)
    requires insPos == a % WORD
    ensures (insPos + 1) % WORD == (a + 1) % WORD
  {
    SameWord(insPos + 1, a + 1, a / WORD);
  }

  lemma SlotAfter(insPos: nat, a: nat)
    requires insPos == a % WORD
    ensures (insPos + 1) % LZ_DICT_SIZE == (a + 1) % LZ_DICT_SIZE
  {
    SameSlot(insPos + 1, a + 1, 131072 * (a / WORD));
  }

  lemma MovePos(pos: nat, lookaheadPos: nat, len: nat)
    requires lookaheadPos == pos % WORD
    ensures (lookaheadPos + len) % WORD == (pos + len) % WORD
  {
    var q := pos / WORD;
    assert pos + len == lookaheadPos + len + WORD * q;
    SameWord(lookaheadPos + len, pos + len, q);
  }

  lemma SameWord(a: int, b: int, m: int)
    requires b == a + WORD * m
    ensures a % WORD == b % WORD
  {
  }

  lemma PrevSlot(pos: nat, p: nat)
    requires p == pos % LZ_DICT_SIZE && pos >= 1
    ensures (p + LZ_DICT_SIZE - 1) % LZ_DICT_SIZE == (pos - 1) % LZ_DICT_SIZE
  {
    SameSlot(p + LZ_DICT_SIZE - 1, pos - 1, pos / LZ_DICT_SIZE - 1);
  }

  lemma HoldsLess(dict: seq<Byte>, input: seq<Byte>, lo: int, hi: int)
    requires Holds(dict, input, lo) && lo <= hi
    ensures Holds(dict, input, hi)
  {
  }

  lemma HoldsLength(dict: seq<Byte>, input: seq<Byte>, lo: int)
    requires Holds(dict, input, lo)
    ensures |dict| == LZ_DICT_SIZE + MAX_MATCH_LEN - 1
  {
  }

  /** The 32-bit counter wraps at a multiple of the ring size. */
  lemma DstSlot(pos: nat, lookaheadPos: nat, size: nat)
    requires lookaheadPos == pos % WORD
    ensures (lookaheadPos + size) % LZ_DICT_SIZE == (pos + size) % LZ_DICT_SIZE
  {
    SameSlot(lookaheadPos + size, pos + size, 131072 * (pos / WORD));
  }
}
