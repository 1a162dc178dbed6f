/**
  The anti-replay window of dtls_record.cc: a 64-bit map of the sequence numbers at
  and just below the greatest one recorded.  The map refines the set of all recorded
  numbers: a number is turned away exactly when it was recorded before, or lies 64 or
  more below the greatest.
 */
module ReplayWindow {
  import opened Bits

  const WINDOW_SIZE := 64

  /** Bit i of the map stands for the number i below the greatest. */
  datatype Window = Window(bits: nat, maxSeqNum: nat)

  const EMPTY := Window(0, 0)

  predicate ShouldDiscard(w: Window, seqNum: nat) {
    seqNum <= w.maxSeqNum &&
    var idx := w.maxSeqNum - seqNum;
    idx >= WINDOW_SIZE || BitAt(w.bits, idx)
  }

  function Slide(w: Window, seqNum: nat): Window {
    if seqNum <= w.maxSeqNum then w
    else
      var shift := seqNum - w.maxSeqNum;
      Window(if shift >= WINDOW_SIZE then 0 else Shl(w.bits, shift) % TWO_64, seqNum)
  }

  function Record(w: Window, seqNum: nat): Window {
    var slid := Slide(w, seqNum);
    var idx := slid.maxSeqNum - seqNum;
    if idx < WINDOW_SIZE then slid.(bits := BitOr(slid.bits, Shl(1, idx))) else slid
  }

  /** The map the C code keeps, as fields it updates in place. */
  class Bitmap {
    var bits: nat
    var maxSeqNum: nat

    function Value(): Window
      reads this
    {
      Window(bits, maxSeqNum)
    }

    constructor ()
      ensures Value() == EMPTY
    {
      bits, maxSeqNum := 0, 0;
    }

    method Clear()
      modifies this
      ensures Value() == EMPTY
    {
      bits, maxSeqNum := 0, 0;
    }

    method Discards(seqNum: nat) returns (discard: bool)
      ensures discard <==> ShouldDiscard(Value(), seqNum)
    {
      if seqNum > maxSeqNum {
        return false;
      }
      var idx := maxSeqNum - seqNum;
      return idx >= WINDOW_SIZE || BitAt(bits, idx);
    }

    method Note(seqNum: nat)
      modifies this
      ensures Value() == Record(old(Value()), seqNum)
    {
      if seqNum > maxSeqNum {
        var shift := seqNum - maxSeqNum;
        if shift >= WINDOW_SIZE {
          bits := 0;
        } else {
          bits := Shl(bits, shift) % TWO_64;
        }
        maxSeqNum := seqNum;
      }
      var idx := maxSeqNum - seqNum;
      if idx < WINDOW_SIZE {
        bits := BitOr(bits, Shl(1, idx));
      }
    }
  }

  // ----- The window refines a set

  /** Bit i is set exactly for a recorded number. */
  ghost predicate BitTracks(w: Window, seen: set<nat>, i: nat) {
    BitAt(w.bits, i) <==> i <= w.maxSeqNum && w.maxSeqNum - i in seen
  }

  ghost predicate Tracks(w: Window, seen: set<nat>) {
    && (forall s :: s in seen ==> s <= w.maxSeqNum)
    && (w.maxSeqNum == 0 || w.maxSeqNum in seen)
    && (forall i :: 0 <= i < WINDOW_SIZE ==> BitTracks(w, seen, i))
  }

  lemma EmptyTracks()
    ensures Tracks(EMPTY, {})
  {
    forall i: nat | i < WINDOW_SIZE
      ensures BitTracks(EMPTY, {}, i)
    {
      BitAtZero(i);
    }
  }

  lemma DiscardsExactly(w: Window, seen: set<nat>, s: nat)
    requires Tracks(w, seen)
    ensures ShouldDiscard(w, s) <==> s in seen || s + WINDOW_SIZE <= w.maxSeqNum
  {
    hide BitAt;
    if s <= w.maxSeqNum && w.maxSeqNum - s < WINDOW_SIZE {
      assert BitTracks(w, seen, w.maxSeqNum - s);
    }
  }

  lemma SlideTracks(w: Window, seen: set<nat>, s: nat, i: nat)
    requires Tracks(w, seen) && i < WINDOW_SIZE
    ensures BitTracks(Slide(w, s), seen, i)
  {
    hide BitAt, Shl;
    assert BitTracks(w, seen, i);
    if s > w.maxSeqNum {
      var shift := s - w.maxSeqNum;
      if shift >= WINDOW_SIZE {
        BitAtZero(i);
      } else {
        Shl64();
        BitAtMod(Shl(w.bits, shift), 64, i);
        BitAtShifted(w.bits, shift, i);
        assert shift <= i ==> BitTracks(w, seen, i - shift);
      }
    }
  }

  lemma RecordTracks(w: Window, seen: set<nat>, s: nat)
    requires Tracks(w, seen)
    ensures Tracks(Record(w, s), seen + {s})
  {
    hide BitAt, BitOr, Shl, Slide;
    var slid := Slide(w, s);
    assert slid.maxSeqNum == if s > w.maxSeqNum then s else w.maxSeqNum by { SlideMax(w, s); }
    var idx := slid.maxSeqNum - s;
    forall i: nat | i < WINDOW_SIZE
      ensures BitTracks(Record(w, s), seen + {s}, i)
    {
      SlideTracks(w, seen, s, i);
      if idx < WINDOW_SIZE {
        BitAtOr(slid.bits, Shl(1, idx), i);
        BitAtShl(idx, i);
      }
    }
  }

  lemma SlideMax(w: Window, s: nat)
    ensures Slide(w, s).maxSeqNum == if s > w.maxSeqNum then s else w.maxSeqNum
  {
  }

  // ----- Whole runs

  /** The window after recording some numbers in turn. */
  function RecordAll(seqNums: seq<nat>): Window {
    if seqNums == [] then EMPTY else Record(RecordAll(seqNums[..|seqNums| - 1]), seqNums[|seqNums| - 1])
  }

  function Elements(seqNums: seq<nat>): set<nat> { set s | s in seqNums }

  /** After any run of recordings the window turns away exactly what was recorded or is too old. */
  lemma {:induction false} WindowIsSet(seqNums: seq<nat>, s: nat)
    ensures Tracks(RecordAll(seqNums), Elements(seqNums))
    ensures ShouldDiscard(RecordAll(seqNums), s) <==>
            s in seqNums || s + WINDOW_SIZE <= RecordAll(seqNums).maxSeqNum
    decreases |seqNums|
  {
    hide Record, ShouldDiscard, Tracks;
    if seqNums == [] {
      EmptyTracks();
      assert Elements(seqNums) == {};
    } else {
      var n := |seqNums| - 1;
      WindowIsSet(seqNums[..n], s);
      RecordTracks(RecordAll(seqNums[..n]), Elements(seqNums[..n]), seqNums[n]);
      assert seqNums == seqNums[..n] + [seqNums[n]];
      assert Elements(seqNums) == Elements(seqNums[..n]) + {seqNums[n]};
    }
    DiscardsExactly(RecordAll(seqNums), Elements(seqNums), s);
  }
}
