/**
  Receiving handshake messages over DTLS (d1_both.cc): fragments are sorted into a
  ring of seven messages under reassembly, and messages are taken off it in order.
 */
module Incoming {
  import opened Wrappers
  import opened Bits
  import opened Protocol
  import opened Fragments
  import opened Reassembly

  const MAX_FLIGHT := 7

  /** The next message wanted, and what has come of it and the six after it. */
  datatype RecvState = RecvState(readSeq: nat, slots: seq<Option<Partial>>, hasMessage: bool, hasCcs: bool)

  const NO_MESSAGES: seq<Option<Partial>> := [None, None, None, None, None, None, None]

  // ----- What receiving does, as functions

  /** The entry for a fragment's message, made when it is the first; none outside the window or when it does not match. */
  ghost function IncomingFor(st: RecvState, h: HmHeader): (r: Option<Partial>)
    requires |st.slots| == MAX_FLIGHT
    ensures r.Some? ==> r.value.typ == h.typ && r.value.msgLen == h.msgLen
    ensures r.Some? ==> st.readSeq <= h.seqNum < st.readSeq + MAX_FLIGHT
  {
    if h.seqNum < st.readSeq || h.seqNum - st.readSeq >= MAX_FLIGHT then None
    else
      match st.slots[h.seqNum % MAX_FLIGHT]
      case None => Some(Partial(h.typ, h.msgLen, map[]))
      case Some(p) => if p.typ != h.typ || p.msgLen != h.msgLen then None else Some(p)
  }

  /** One fragment; none when it is an error. */
  ghost function ProcessFragment(st: RecvState, f: Fragment, epoch: nat, maxLen: nat): (r: Option<RecvState>)
    requires |st.slots| == MAX_FLIGHT
    ensures r.Some? ==> |r.value.slots| == MAX_FLIGHT && r.value == st.(slots := r.value.slots)
  {
    var h := f.header;
    if h.fragOff + |f.body| > h.msgLen || h.msgLen > maxLen then None
    else if epoch == 1 && h.seqNum != st.readSeq then None
    else if h.seqNum < st.readSeq || h.seqNum > st.readSeq + MAX_FLIGHT then Some(st)
    else
      var p := IncomingFor(st, h);
      if p.None? then None
      else Some(st.(slots := st.slots[h.seqNum % MAX_FLIGHT := Some(p.value.Absorb(h.fragOff, f.body))]))
  }

  /** The fragments of a record in turn. */
  ghost function ProcessFragments(st: RecvState, bs: seq<byte>, epoch: nat, maxLen: nat): (r: Option<RecvState>)
    requires |st.slots| == MAX_FLIGHT
    ensures r.Some? ==> |r.value.slots| == MAX_FLIGHT && r.value == st.(slots := r.value.slots)
    decreases |bs|
  {
    if bs == [] then Some(st)
    else
      match ParseFragment(bs)
      case Fail => None
      case Ok(f, rest) =>
        var st' := ProcessFragment(st, f, epoch, maxLen);
        if st'.None? then None else ProcessFragments(st'.value, rest, epoch, maxLen)
  }

  datatype Handled = Handled(st: RecvState) | Ignored | Rejected

  /** A record opened under a cipher of the given epoch. */
  ghost function OpenHandshake(st: RecvState, typ: byte, plaintext: seq<byte>, epoch: nat, nullCipher: bool, maxLen: nat)
    : (r: Handled)
    requires |st.slots| == MAX_FLIGHT
    ensures r.Handled? ==> |r.st.slots| == MAX_FLIGHT && r.st.readSeq == st.readSeq
  {
    if typ == RT_APPLICATION_DATA then (if nullCipher then Rejected else Ignored)
    else if typ == RT_CHANGE_CIPHER_SPEC then
      if !nullCipher || plaintext != [MT_CCS] then Rejected else Handled(st.(hasCcs := true))
    else if typ == RT_HANDSHAKE then
      var r := ProcessFragments(st, plaintext, epoch, maxLen);
      if r.Some? then Handled(r.value) else Rejected
    else Rejected
  }

  ghost predicate CurrentComplete(st: RecvState)
    requires |st.slots| == MAX_FLIGHT
  {
    var slot := st.slots[st.readSeq % MAX_FLIGHT];
    slot.Some? && slot.value.Complete()
  }

  ghost function CurrentMessage(st: RecvState): Option<Message>
    requires |st.slots| == MAX_FLIGHT
  {
    if CurrentComplete(st) then
      var p := st.slots[st.readSeq % MAX_FLIGHT].value;
      Some(Message(p.typ, p.Body()))
    else None
  }

  function AfterMessage(st: RecvState): RecvState
    requires |st.slots| == MAX_FLIGHT
  {
    st.(slots := st.slots[st.readSeq % MAX_FLIGHT := None], readSeq := (st.readSeq + 1) % TWO_16, hasMessage := false)
  }

  /** Looking at the current message flags it as taken up. */
  ghost function GotMessage(st: RecvState): RecvState
    requires |st.slots| == MAX_FLIGHT
  {
    if CurrentComplete(st) then st.(hasMessage := true) else st
  }

  /** Whether anything but the current message waits; a cipher change is then forbidden. */
  predicate HasUnprocessed(st: RecvState)
    requires |st.slots| == MAX_FLIGHT
  {
    || st.hasCcs
    || exists i :: 0 <= i < MAX_FLIGHT && !(st.hasMessage && i == st.readSeq % MAX_FLIGHT) && st.slots[i].Some?
  }

  // ----- The ring itself

  /** The objects a ring entry is made of. */
  ghost function Footprint(f: HmFragment?): set<object>
    reads f
  {
    if f == null then {}
    else {f, f.data} + if f.reassembly == null then {} else {f.reassembly}
  }

  /** An entry of the ring and its value agree; it holds the one message of its window. */
  ghost predicate SlotOk(f: HmFragment?, slot: Option<Partial>, i: nat, readSeq: nat)
    reads f, Footprint(f)
  {
    if f == null then slot.None?
    else
      && f.Valid() && slot == Some(f.Value())
      && (f.reassembly == null <==> f.Value().Complete())
      && f.seqNum % MAX_FLIGHT == i && readSeq <= f.seqNum < readSeq + MAX_FLIGHT
  }

  datatype Result = Taken | Dropped | Fatal

  class Receiver {
    const incoming: array<HmFragment?>
    var readSeq: nat
    var hasMessage: bool
    var hasChangeCipherSpec: bool
    ghost var st: RecvState
    ghost var Repr: set<object>

    ghost predicate Valid()
      reads this, Repr
    {
      && this in Repr && incoming in Repr && incoming.Length == MAX_FLIGHT && |st.slots| == MAX_FLIGHT
      && st.readSeq == readSeq && st.hasMessage == hasMessage && st.hasCcs == hasChangeCipherSpec
      && (forall i :: 0 <= i < MAX_FLIGHT ==> incoming[i] == null || incoming[i] in Repr)
      && (forall i :: 0 <= i < MAX_FLIGHT ==>
            && Footprint(incoming[i]) <= Repr - {this, incoming}
            && SlotOk(incoming[i], st.slots[i], i, readSeq))
      && (forall i, j :: 0 <= i < j < MAX_FLIGHT ==> Footprint(incoming[i]) !! Footprint(incoming[j]))
    }

    constructor ()
      ensures Valid() && fresh(Repr) && st == RecvState(0, NO_MESSAGES, false, false)
    {
      incoming := new HmFragment?[MAX_FLIGHT](_ => null);
      readSeq, hasMessage, hasChangeCipherSpec := 0, false, false;
      st := RecvState(0, NO_MESSAGES, false, false);
      new;
      Repr := {this, incoming};
    }

    /** Make an entry. */
    method Insert(h: HmHeader, i: nat)
      requires Valid() && i == h.seqNum % MAX_FLIGHT && incoming[i] == null
      requires readSeq <= h.seqNum < readSeq + MAX_FLIGHT
      modifies this, incoming
      ensures Valid() && fresh(Repr - old(Repr)) && readSeq == old(readSeq) && incoming[i] != null
      ensures st == old(st).(slots := old(st).slots[i := Some(Partial(h.typ, h.msgLen, map[]))])
    {
      hide HeaderBytes, HmFragment.Value, HmFragment.Valid, HmFragment.Covered;
      var f := new HmFragment(h);
      FreshValue(f);
      assert SlotOk(f, Some(f.Value()), i, readSeq);
      hide SlotOk, Partial.Complete;
      incoming[i] := f;
      Repr := Repr + Footprint(f);
      st := st.(slots := st.slots[i := Some(Partial(h.typ, h.msgLen, map[]))]);
    }

    /** The entry for a message, made if there is none; null outside the window or when it does not match. */
    method GetIncoming(h: HmHeader) returns (f: HmFragment?)
      requires Valid()
      modifies this, incoming
      ensures Valid() && fresh(Repr - old(Repr)) && readSeq == old(readSeq)
      ensures f == null <==> IncomingFor(old(st), h).None?
      ensures f == null ==> st == old(st)
      ensures f != null ==>
                var i := h.seqNum % MAX_FLIGHT;
                && f == incoming[i]
                && st == old(st).(slots := old(st).slots[i := IncomingFor(old(st), h)])
    {
      hide Footprint;
      if h.seqNum < readSeq || h.seqNum - readSeq >= MAX_FLIGHT {
        return null;
      }
      var i := h.seqNum % MAX_FLIGHT;
      f := incoming[i];
      assert SlotOk(f, st.slots[i], i, readSeq);
      if f == null {
        Insert(h, i);
        return incoming[i];
      }
      assert f.seqNum == h.seqNum by { SameSlotSameMessage(f.seqNum, h.seqNum, readSeq); }
      if f.typ != h.typ || f.msgLen != h.msgLen {
        return null;
      }
      assert st.slots[i := st.slots[i]] == st.slots;
    }

    /** A slice for the message of an incomplete entry. */
    method AbsorbAt(f: HmFragment, i: nat, off: nat, slice: seq<byte>)
      requires Valid() && i < MAX_FLIGHT && incoming[i] == f && f.reassembly != null && off + |slice| <= f.msgLen
      modifies this`st, f`reassembly, f.data, f.reassembly
      ensures Valid()
      ensures st == old(st).(slots := old(st).slots[i := Some(old(st).slots[i].value.Absorb(off, slice))])
    {
      hide HmFragment.Valid, HmFragment.Value, HmFragment.Covered, Partial.Absorb, Partial.Complete;
      assert SlotOk(f, st.slots[i], i, readSeq);
      f.Absorb(off, slice);
      assert SlotOk(f, Some(f.Value()), i, readSeq);
      st := st.(slots := st.slots[i := Some(f.Value())]);
    }

    /** One fragment of a record. */
    method TakeFragment(frag: Fragment, epoch: nat, maxLen: nat) returns (ok: bool)
      requires Valid() && |frag.body| == frag.header.fragLen
      modifies Repr
      ensures Valid() && fresh(Repr - old(Repr))
      ensures var r := ProcessFragment(old(st), frag, epoch, maxLen);
              (ok <==> r.Some?) && (ok ==> st == r.value)
    {
      hide HmFragment.Value, HmFragment.Valid, HmFragment.Covered, IncomingFor;
      var h := frag.header;
      if h.fragOff + h.fragLen > h.msgLen || h.msgLen > maxLen {
        return false;
      }
      // The encrypted epoch has a single handshake message.
      if epoch == 1 && h.seqNum != readSeq {
        return false;
      }
      if h.seqNum < readSeq || h.seqNum > readSeq + MAX_FLIGHT {
        return true;
      }
      var f := GetIncoming(h);
      if f == null {
        return false;
      }
      var i := h.seqNum % MAX_FLIGHT;
      assert SlotOk(f, st.slots[i], i, readSeq);
      SlotShape(f, st.slots[i], i, readSeq);
      hide SlotOk;
      if f.reassembly == null {
        assert st.slots[i].value.Absorb(h.fragOff, frag.body) == st.slots[i].value;
        return true;
      }
      AbsorbAt(f, i, h.fragOff, frag.body);
      return true;
    }

    method TakeFragments(plaintext: seq<byte>, epoch: nat, maxLen: nat) returns (ok: bool)
      requires Valid()
      modifies Repr
      ensures Valid() && fresh(Repr - old(Repr))
      ensures var r := ProcessFragments(old(st), plaintext, epoch, maxLen);
              (ok <==> r.Some?) && (ok ==> st == r.value)
    {
      hide ProcessFragment, ParseFragment, SlotOk, Footprint;
      var cbs := plaintext;
      while cbs != []
        invariant Valid() && fresh(Repr - old(Repr))
        invariant ProcessFragments(old(st), plaintext, epoch, maxLen) == ProcessFragments(st, cbs, epoch, maxLen)
        decreases |cbs|
      {
        var f := ParseFragment(cbs);
        if f.Fail? {
          return false;
        }
        var taken := TakeFragment(f.value, epoch, maxLen);
        if !taken {
          return false;
        }
        cbs := f.rest;
      }
      return true;
    }

    /** A record under the cipher of the given epoch. */
    method Open(typ: byte, plaintext: seq<byte>, epoch: nat, nullCipher: bool, maxLen: nat) returns (r: Result)
      requires Valid()
      modifies Repr
      ensures Valid() && fresh(Repr - old(Repr))
      ensures match OpenHandshake(old(st), typ, plaintext, epoch, nullCipher, maxLen)
              case Handled(st') => r == Taken && st == st'
              case Ignored => r == Dropped && st == old(st)
              case Rejected => r == Fatal
    {
      hide ProcessFragments, SlotOk, Footprint;
      if typ == RT_APPLICATION_DATA {
        return if nullCipher then Fatal else Dropped;
      }
      if typ == RT_CHANGE_CIPHER_SPEC {
        if !nullCipher || plaintext != [MT_CCS] {
          return Fatal;
        }
        hasChangeCipherSpec := true;
        st := st.(hasCcs := true);
        return Taken;
      }
      if typ != RT_HANDSHAKE {
        return Fatal;
      }
      var ok := TakeFragments(plaintext, epoch, maxLen);
      r := if ok then Taken else Fatal;
    }

    /** The current message, if it is complete. */
    method GetMessage() returns (m: Option<Message>)
      requires Valid()
      modifies this`hasMessage, this`st
      ensures Valid() && m == CurrentMessage(old(st)) && st == GotMessage(old(st))
    {
      hide HmFragment.Covered, HmFragment.Value, Partial.Complete, Partial.Body;
      var i := readSeq % MAX_FLIGHT;
      var f := incoming[i];
      assert SlotOk(f, st.slots[i], i, readSeq);
      if f == null || f.reassembly != null {
        return None;
      }
      CompleteBuffer(f);
      m := Some(Message(f.typ, f.data[HM_HEADER..HM_HEADER + f.msgLen]));
      hasMessage := true;
      st := st.(hasMessage := true);
    }

    /** Done with the current message: make room and want the next. */
    method NextMessage()
      requires Valid() && hasMessage && CurrentComplete(st) && readSeq + 1 < TWO_16
      modifies this, incoming
      ensures Valid() && Repr == old(Repr) && st == AfterMessage(old(st))
    {
      hide HmFragment.Value, HmFragment.Valid, Partial.Complete;
      var i := readSeq % MAX_FLIGHT;
      ghost var was := incoming[..];
      incoming[i] := null;
      hasMessage := false;
      st := AfterMessage(st);
      readSeq := (readSeq + 1) % TWO_16;
      forall k | 0 <= k < MAX_FLIGHT
        ensures SlotOk(incoming[k], st.slots[k], k, readSeq)
      {
        assert SlotOk(was[k], old(st).slots[k], k, old(readSeq));
      }
    }

    method HasUnprocessedData() returns (b: bool)
      requires Valid()
      ensures b <==> HasUnprocessed(st)
    {
      if hasChangeCipherSpec {
        return true;
      }
      var current := readSeq % MAX_FLIGHT;
      for i := 0 to MAX_FLIGHT
        invariant forall k :: 0 <= k < i && !(hasMessage && k == current) ==> st.slots[k].None?
      {
        assert SlotOk(incoming[i], st.slots[i], i, readSeq);
        if !(hasMessage && i == current) && incoming[i] != null {
          return true;
        }
      }
      return false;
    }
  }

  lemma CompleteBuffer(f: HmFragment)
    requires f.Valid() && f.reassembly == null
    ensures f.Value().typ == f.typ && f.Value().Complete()
    ensures f.Value().Body() == f.data[HM_HEADER..HM_HEADER + f.msgLen]
  {
    f.CoveredInside();
    StoredKeys(f.data[..], f.Covered());
    assert forall i: nat :: i < f.msgLen ==> Between(i, 0, f.msgLen);
  }

  lemma SlotShape(f: HmFragment, slot: Option<Partial>, i: nat, readSeq: nat)
    requires SlotOk(f, slot, i, readSeq)
    ensures slot.Some? && slot.value.msgLen == f.msgLen && (f.reassembly == null <==> slot.value.Complete())
  {
    hide HmFragment.Covered;
  }

  /** The code's assertion: two messages of one window never meet in an entry. */
  lemma SameSlotSameMessage(a: nat, b: nat, readSeq: nat)
    requires a % MAX_FLIGHT == b % MAX_FLIGHT
    requires readSeq <= a < readSeq + MAX_FLIGHT && readSeq <= b < readSeq + MAX_FLIGHT
    ensures a == b
  {
  }

  lemma FreshValue(f: HmFragment)
    requires f.Valid() && f.Covered() == {}
    ensures f.Value() == Partial(f.typ, f.msgLen, map[])
    ensures f.reassembly == null <==> f.Value().Complete()
  {
  }
}
