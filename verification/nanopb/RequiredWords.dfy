/**
  The required-field bitmap of the decode loop: two 32-bit words, one bit per
  required field among the first 64, and the comparison that closes the loop.
 */
module RequiredWords {
  import opened Bits
  import opened Descriptor

  const ALL_BITS: int := TWO_32 - 1

  /** The two words say which of the first 64 required fields were met. */
  ghost predicate Notes(words: seq<nat>, seen: set<nat>) {
    && |words| == 2 && words[0] < TWO_32 && words[1] < TWO_32
    && (forall k :: 0 <= k < 32 ==> (BitAt(words[0], k) <==> k in seen))
    && (forall k :: 0 <= k < 32 ==> (BitAt(words[1], k) <==> HighWord(k, seen)))
  }

  predicate HighWord(k: nat, seen: set<nat>) { k + 32 in seen }

  lemma NothingNoted()
    ensures Notes([0, 0], {})
  {
    forall k: nat | k < 32
      ensures !BitAt(0, k)
    {
      BitAtZero(k);
    }
  }

  /** Note a required field. */
  method Note(words: array<nat>, index: nat, ghost seen: set<nat>)
    requires index < PB_MAX_REQUIRED_FIELDS && Notes(words[..], seen)
    modifies words
    ensures Notes(words[..], seen + {index})
  {
    hide BitAt, BitOr, Shl;
    var i, bit := index / 32, Shl(1, index % 32);
    Shl32();
    ShlIncreases(1, 1, index % 32 + 1, 32);
    ShlOne(1, index % 32);
    OrBelow(words[i], bit, 32);
    forall k: nat | k < 32
      ensures BitAt(BitOr(words[i], bit), k) <==> BitAt(words[i], k) || k == index % 32
    {
      BitAtOr(words[i], bit, k);
      BitAtShl(index % 32, k);
    }
    words[i] := BitOr(words[i], bit);
  }

  /** The closing test finds a bit missing exactly when a required field is. */
  method AllNoted(words: array<nat>, count: nat, ghost seen: set<nat>) returns (all: bool)
    requires count <= PB_MAX_REQUIRED_FIELDS && Notes(words[..], seen)
    requires forall k :: k in seen ==> k < count
    ensures all <==> forall k :: 0 <= k < count ==> k in seen
  {
    hide BitAt, Shl, Shr;
    Shl32();
    assert words[..][0] == words[0] && words[..][1] == words[1];
    for i := 0 to count / 32
      invariant forall k :: 0 <= k < i * 32 ==> k in seen
    {
      LowBits(words[i], 32, 32);
      if words[i] != ALL_BITS {
        var k :| 0 <= k < 32 && !BitAt(words[i], k);
        assert i == 1 ==> !HighWord(k, seen);
        return false;
      }
      forall k | i * 32 <= k < i * 32 + 32
        ensures k in seen
      {
        assert BitAt(words[i], k - i * 32);
        assert i == 1 ==> HighWord(k - 32, seen);
      }
    }
    var i, r := count / 32, count % 32;
    if r != 0 {
      ShrOfOnes(r, 32 - r);
      LowBits(words[i], r, 32);
      forall k | r <= k < 32
        ensures !BitAt(words[i], k)
      {
        assert i == 1 ==> HighWord(k, seen) == (k + 32 in seen);
      }
      if words[i] != Shr(ALL_BITS, 32 - r) {
        var k :| 0 <= k < 32 && !(BitAt(words[i], k) <==> k < r);
        assert i == 1 ==> !HighWord(k, seen);
        return false;
      }
      forall k | i * 32 <= k < count
        ensures k in seen
      {
        assert BitAt(words[i], k - i * 32);
        assert i == 1 ==> HighWord(k - 32, seen);
      }
    }
    return true;
  }
}
