/**
  The ciphers of a sender, one for each epoch, and what a flight needs of them.  Every
  record a flight is sent in was sealed by the cipher of its own epoch, and where the
  ciphers seal and the transport takes what it is given a flight gets sent.
 */
module Ciphers {
  import opened Wrappers
  import opened Bits
  import opened Records
  import opened Fragments
  import opened Flight

  // ----- Records and the ciphers of their epochs

  /** The sender stands in the last epoch, and still has the cipher of the one before it. */
  ghost predicate WriterOk(keys: seq<Aead>, w: WriteState) {
    && 0 < |keys| <= TWO_16 && w.epoch == |keys| - 1
    && w.aead == keys[w.epoch] && w.aead.version < TWO_16
    && (w.epoch >= 1 ==> w.lastAead == keys[w.epoch - 1])
    && w.sequence < TWO_48 && w.lastSequence < TWO_48
  }

  /** Sealed by the cipher of the epoch in its number. */
  ghost predicate SealedUnder(keys: seq<Aead>, e: Emitted) {
    var epoch := e.number / TWO_48;
    && epoch < |keys|
    && var c := keys[epoch].seal(e.number, e.typ, e.plaintext);
       && c.Some? && |c.value| < TWO_16
       && exists version: nat :: version < TWO_16 && e.bytes == RecordBytes(e.typ, version, e.number, c.value)
  }

  lemma EmitSealed(keys: seq<Aead>, w: WriteState, maxOut: nat, typ: byte, plaintext: seq<byte>, use: UseEpoch)
    requires WriterOk(keys, w) && (use.UsePrevious? ==> w.epoch >= 1)
    ensures var (w', e) := Emit(w, maxOut, typ, plaintext, use);
            WriterOk(keys, w') && (e.Some? ==> SealedUnder(keys, e.value))
  {
    hide RecordBytes;
    NumberParts(if use.UsePrevious? then w.epoch - 1 else w.epoch,
                if use.UsePrevious? then w.lastSequence else w.sequence);
  }

  lemma NextSealed(keys: seq<Aead>, w: WriteState, msg: Outgoing, offset: nat, maxOut: nat)
    requires WriterOk(keys, w)
    ensures var (w', _, r) := SealNextMessage(w, msg, offset, maxOut);
            WriterOk(keys, w') && (r.SealPartial? || r.SealSuccess? ==> SealedUnder(keys, r.record))
  {
    hide Emit, WholeMessage, FragmentBytes, SealedUnder, WriterOk;
    forall typ: byte, plaintext: seq<byte>, use: UseEpoch | use.UsePrevious? ==> w.epoch >= 1
      ensures var (w', e) := Emit(w, maxOut, typ, plaintext, use);
              WriterOk(keys, w') && (e.Some? ==> SealedUnder(keys, e.value))
    {
      EmitSealed(keys, w, maxOut, typ, plaintext, use);
    }
  }

  lemma {:induction false} PacketSealed(keys: seq<Aead>, w: WriteState, messages: seq<Outgoing>, pos: Pos, maxOut: nat,
                                        made: bool)
    requires WriterOk(keys, w) && pos.written <= |messages|
    ensures var (w', _, p) := SealNextPacket(w, messages, pos, maxOut, made);
            WriterOk(keys, w') && (p.Packet? ==> forall e :: e in p.records ==> SealedUnder(keys, e))
    decreases |messages| - pos.written
  {
    hide SealNextMessage, SealedUnder, WriterOk;
    if pos.written < |messages| {
      NextSealed(keys, w, messages[pos.written], pos.offset, maxOut);
      var (w', offset, r) := SealNextMessage(w, messages[pos.written], pos.offset, maxOut);
      if r.SealSuccess? {
        PacketSealed(keys, w', messages, Pos(pos.written + 1, offset), maxOut - |r.record.bytes|, true);
      }
    }
  }

  /** Every record a call gets accepted was sealed by the cipher of its epoch. */
  lemma {:induction false} FlightSealed(keys: seq<Aead>, w: WriteState, messages: seq<Outgoing>, pos: Pos, call: Call)
    requires WriterOk(keys, w) && Sound(messages, pos)
    ensures var r := SendFlight(w, messages, pos, call);
            WriterOk(keys, r.w) && forall e :: e in Flatten(r.accepted) ==> SealedUnder(keys, e)
    decreases |messages| - pos.written, BytesLeft(messages, pos)
  {
    hide SealNextPacket, SealedUnder, WriterOk, AfterAll, BytesLeft;
    if pos.written < |messages| {
      PacketIsNext(w, messages, pos, call.mtu, false);
      PacketSealed(keys, w, messages, pos, call.mtu, false);
      var (w', pos', p) := SealNextPacket(w, messages, pos, call.mtu, false);
      if p.Packet? && call.writes != [] && call.writes[0] {
        FlightSealed(keys, w', messages, pos', call.(writes := call.writes[1..]));
        var rest := SendFlight(w', messages, pos', call.(writes := call.writes[1..]));
        assert ([p.records] + rest.accepted)[1..] == rest.accepted;
      }
    }
  }

  // ----- Flights that get sent

  /** The MTU has room for a record with one byte of a message. */
  predicate HasRoom(aead: Aead, mtu: nat) {
    && aead.explicitNonceLen <= aead.maxOverhead
    && RECORD_HEADER + HM_HEADER + 1 + aead.maxOverhead <= mtu < RECORD_HEADER + TWO_16
  }

  /** The cipher seals whatever a datagram can hold and expands it by no more than it says. */
  ghost predicate SealsWithin(aead: Aead, mtu: nat) {
    forall number: nat, typ: byte, plaintext: seq<byte> | |plaintext| <= mtu ::
      var c := aead.seal(number, typ, plaintext);
      c.Some? && |c.value| <= |plaintext| + aead.maxOverhead
  }

  /** A queue entry of the sender's current epoch or the one before it, whose cipher seals. */
  ghost predicate Sendable(w: WriteState, msg: Outgoing, mtu: nat) {
    && EpochOf(w, msg).Some?
    && HasRoom(WriteAead(w, EpochOf(w, msg).value), mtu) && SealsWithin(WriteAead(w, EpochOf(w, msg).value), mtu)
    && (msg.isCcs || WholeMessage(msg.data).Some?)
  }

  ghost predicate AllSendable(w: WriteState, messages: seq<Outgoing>, mtu: nat) {
    forall msg :: msg in messages ==> Sendable(w, msg, mtu)
  }

  ghost predicate SameCiphers(w: WriteState, w': WriteState) {
    w'.epoch == w.epoch && w'.aead == w.aead && w'.lastAead == w.lastAead
  }

  /** Neither counter ends within so many records. */
  predicate Lasts(w: WriteState, records: nat) {
    w.sequence + records < TWO_48 && w.lastSequence + records < TWO_48
  }

  predicate Inside(messages: seq<Outgoing>, pos: Pos) {
    && Sound(messages, pos)
    && (pos.written < |messages| ==> pos.offset <= |BodyOf(messages[pos.written])|)
  }

  /** No more records than this are still to be sent: one for every message, and one for every byte of its body. */
  function Work(messages: seq<Outgoing>, pos: Pos): nat
    requires pos.written <= |messages|
    decreases |messages| - pos.written
  {
    if pos.written == |messages| then 0
    else 1 + BytesLeft(messages, pos) + Work(messages, Pos(pos.written + 1, 0))
  }

  lemma EmitWorks(w: WriteState, mtu: nat, maxOut: nat, typ: byte, plaintext: seq<byte>, use: UseEpoch, n: nat)
    requires use.UsePrevious? ==> w.epoch >= 1
    requires HasRoom(WriteAead(w, use), mtu) && SealsWithin(WriteAead(w, use), mtu)
    requires |plaintext| + RECORD_HEADER + WriteAead(w, use).maxOverhead <= maxOut <= mtu
    requires Lasts(w, n + 1)
    ensures var (w', e) := Emit(w, maxOut, typ, plaintext, use);
            e.Some? && SameCiphers(w, w') && Lasts(w', n)
  {
    hide RecordBytes;
  }

  /** An entry is sealed or there is no room, and there is room in a whole datagram. */
  lemma NextWorks(w: WriteState, messages: seq<Outgoing>, pos: Pos, mtu: nat, maxOut: nat, slack: nat)
    requires Inside(messages, pos) && pos.written < |messages| && maxOut <= mtu
    requires Sendable(w, messages[pos.written], mtu) && Lasts(w, Work(messages, pos) + slack)
    ensures var (w', offset, r) := SealNextMessage(w, messages[pos.written], pos.offset, maxOut);
            && !r.SealError? && (maxOut == mtu ==> !r.NoProgress?) && SameCiphers(w, w')
            && (r.SealPartial? ==>
                  var pos' := Pos(pos.written, offset);
                  && Inside(messages, pos') && Work(messages, pos') < Work(messages, pos)
                  && Lasts(w', Work(messages, pos') + slack))
            && (r.SealSuccess? ==>
                  var pos' := Pos(pos.written + 1, offset);
                  && Inside(messages, pos') && Work(messages, pos') < Work(messages, pos)
                  && Lasts(w', Work(messages, pos') + slack))
  {
    hide Emit, ParseFragment, HeaderBytes, HmHeader.Fits, SealsWithin;
    var msg := messages[pos.written];
    var use, n := EpochOf(w, msg).value, Work(messages, pos) - 1 + slack;
    forall typ: byte, plaintext: seq<byte> | |plaintext| + RECORD_HEADER + WriteAead(w, use).maxOverhead <= maxOut
      ensures var (w', e) := Emit(w, maxOut, typ, plaintext, use); e.Some? && SameCiphers(w, w') && Lasts(w', n)
    {
      EmitWorks(w, mtu, maxOut, typ, plaintext, use, n);
    }
  }

  /** Every datagram begun moves the flight on, and sealing never fails. */
  lemma {:induction false} PacketWorks(w: WriteState, messages: seq<Outgoing>, pos: Pos, mtu: nat, maxOut: nat,
                                       made: bool, slack: nat)
    requires Inside(messages, pos) && AllSendable(w, messages, mtu) && Lasts(w, Work(messages, pos) + slack)
    requires maxOut <= mtu && pos.written < |messages| + (if made then 1 else 0) && (made || maxOut == mtu)
    ensures var (w', pos', p) := SealNextPacket(w, messages, pos, maxOut, made);
            && p.Packet? && SameCiphers(w, w') && Inside(messages, pos') && Lasts(w', Work(messages, pos') + slack)
            && Work(messages, pos') <= Work(messages, pos) - if made then 0 else 1
    decreases |messages| - pos.written
  {
    hide SealNextMessage, Sendable, Inside, BytesLeft, Lasts, Work, TotalBytes;
    InsideIsSound(messages, pos);
    if pos.written < |messages| {
      NextWorks(w, messages, pos, mtu, maxOut, slack);
      var (w', offset, r) := SealNextMessage(w, messages[pos.written], pos.offset, maxOut);
      if r.SealSuccess? {
        StillSendable(w, w', messages, mtu);
        PacketWorks(w', messages, Pos(pos.written + 1, offset), mtu, maxOut - |r.record.bytes|, true, slack);
      }
    }
  }

  lemma InsideIsSound(messages: seq<Outgoing>, pos: Pos)
    requires Inside(messages, pos)
    ensures Sound(messages, pos) && pos.written <= |messages|
  {
  }

  lemma StillSendable(w: WriteState, w': WriteState, messages: seq<Outgoing>, mtu: nat)
    requires AllSendable(w, messages, mtu) && SameCiphers(w, w')
    ensures AllSendable(w', messages, mtu)
  {
    hide WholeMessage, HasRoom, SealsWithin;
  }

  /**
    Whatever writes and flushes fail, where the ciphers seal, the MTU has room for a byte
    and the counters last, a call loses no record and leaves the rest of the flight sendable.
   */
  lemma {:induction false} CallLosesNothing(w: WriteState, messages: seq<Outgoing>, pos: Pos, call: Call, slack: nat)
    requires Inside(messages, pos) && AllSendable(w, messages, call.mtu) && Lasts(w, Work(messages, pos) + slack)
    ensures var r := SendFlight(w, messages, pos, call);
            && r.lost == 0 && !r.result.SendError? && !r.result.MtuError?
            && SameCiphers(w, r.w) && Lasts(r.w, slack)
            && Inside(messages, r.pos) && Work(messages, r.pos) <= Work(messages, pos)
    decreases |messages| - pos.written, BytesLeft(messages, pos)
  {
    hide SealNextPacket, AllSendable, AfterAll, BytesLeft, Inside, TotalBytes, Work;
    InsideIsSound(messages, pos);
    if pos.written < |messages| {
      PacketIsNext(w, messages, pos, call.mtu, false);
      PacketWorks(w, messages, pos, call.mtu, call.mtu, false, slack);
      var (w', pos', p) := SealNextPacket(w, messages, pos, call.mtu, false);
      if call.writes != [] && call.writes[0] {
        StillSendable(w, w', messages, call.mtu);
        CallLosesNothing(w', messages, pos', call.(writes := call.writes[1..]), slack);
      }
    }
  }

  /** The entries can be sealed at the MTU of every call. */
  ghost predicate SendableAtAll(w: WriteState, messages: seq<Outgoing>, calls: seq<Call>) {
    forall call :: call in calls ==> AllSendable(w, messages, call.mtu)
  }

  /** So do any number of calls, if the counters last for as many flights. */
  lemma {:induction false} CallsLoseNothing(w: WriteState, messages: seq<Outgoing>, pos: Pos, calls: seq<Call>, bound: nat,
                                            slack: nat)
    requires Inside(messages, pos) && Work(messages, pos) <= bound
    requires SendableAtAll(w, messages, calls) && Lasts(w, |calls| * bound + slack)
    ensures var r := SendAgain(w, messages, pos, calls);
            && r.lost == 0 && !r.result.SendError? && !r.result.MtuError?
            && SameCiphers(w, r.w) && Lasts(r.w, slack) && Inside(messages, r.pos) && Work(messages, r.pos) <= bound
    decreases |calls|
  {
    hide SendFlight, AllSendable, Inside, Work;
    InsideIsSound(messages, pos);
    if calls != [] {
      var later := (|calls| - 1) * bound + slack;
      assert |calls| * bound + slack == bound + later;
      CallLosesNothing(w, messages, pos, calls[0], later);
      var first := SendFlight(w, messages, pos, calls[0]);
      forall call | call in calls[1..]
        ensures AllSendable(first.w, messages, call.mtu)
      {
        StillSendable(w, first.w, messages, call.mtu);
      }
      CallsLoseNothing(first.w, messages, first.pos, calls[1..], bound, slack);
    }
  }

  lemma StartsInside(messages: seq<Outgoing>)
    ensures Inside(messages, Pos(0, 0))
  {
  }

  /**
    A flight called for again and again, whatever writes and flushes failed on the way: what
    was accepted is the flight in order and without a gap as far as it got, and all of it
    when it is reported sent.  All that is asked can be checked before the first call.
   */
  lemma RetriesCover(w: WriteState, messages: seq<Outgoing>, calls: seq<Call>)
    requires SendableAtAll(w, messages, calls) && Lasts(w, |calls| * Work(messages, Pos(0, 0)))
    ensures var r := SendAgain(w, messages, Pos(0, 0), calls);
            var records := Flatten(r.accepted);
            && AfterAll(messages, Pos(0, 0), records) == Some(r.pos) && r.pos.written <= |messages|
            && Payload(records) == BodiesTo(messages, r.pos)
            && (r.result == FlightSent ==>
                  r.pos == Pos(|messages|, 0) && Payload(records) == Bodies(messages, |messages|))
  {
    hide SendAgain, AfterAll, Payload, BodiesTo, Bodies, Inside, Work, AllSendable, Completed;
    StartsInside(messages);
    InsideIsSound(messages, Pos(0, 0));
    CallsLoseNothing(w, messages, Pos(0, 0), calls, Work(messages, Pos(0, 0)), 0);
    SendAgainCovers(w, messages, Pos(0, 0), calls);
    RecordsExtend(messages, Pos(0, 0), Flatten(SendAgain(w, messages, Pos(0, 0), calls).accepted));
    EndsOfBodies(messages);
  }

  /**
    Where the ciphers seal, the MTU has room for a byte, the counters last and the
    transport takes each datagram, the flight is sent to its end, whole and in order.
   */
  lemma {:induction false} FlightGetsSent(w: WriteState, messages: seq<Outgoing>, pos: Pos, call: Call)
    requires Inside(messages, pos) && AllSendable(w, messages, call.mtu) && Lasts(w, Work(messages, pos))
    requires |call.writes| >= Work(messages, pos) && forall i :: 0 <= i < |call.writes| ==> call.writes[i]
    ensures var r := SendFlight(w, messages, pos, call);
            && r.result == (if call.flush then FlightSent else FlushFailed) && r.lost == 0
            && AfterAll(messages, pos, Flatten(r.accepted)) == Some(Pos(|messages|, 0)) == Some(r.pos)
    decreases |messages| - pos.written, BytesLeft(messages, pos)
  {
    hide SealNextPacket, AllSendable, AfterAll, BytesLeft, Inside, Lasts, TotalBytes;
    InsideIsSound(messages, pos);
    SendFlightCovers(w, messages, pos, call);
    if pos.written < |messages| {
      PacketIsNext(w, messages, pos, call.mtu, false);
      PacketWorks(w, messages, pos, call.mtu, call.mtu, false, 0);
      var (w', pos', p) := SealNextPacket(w, messages, pos, call.mtu, false);
      StillSendable(w, w', messages, call.mtu);
      FlightGetsSent(w', messages, pos', call.(writes := call.writes[1..]));
    }
  }

  /** The last of several calls goes on from where the others left the flight. */
  lemma {:induction false} LastCall(w: WriteState, messages: seq<Outgoing>, pos: Pos, calls: seq<Call>, last: Call)
    requires Sound(messages, pos)
    ensures var r := SendAgain(w, messages, pos, calls);
            && Sound(messages, r.pos)
            && SendAgain(w, messages, pos, calls + [last]).result == SendFlight(r.w, messages, r.pos, last).result
    decreases |calls|
  {
    hide SendFlight, Sound, AfterAll;
    if calls == [] {
      assert calls + [last] == [last];
    } else {
      SendFlightCovers(w, messages, pos, calls[0]);
      var first := SendFlight(w, messages, pos, calls[0]);
      assert (calls + [last])[1..] == calls[1..] + [last];
      LastCall(first.w, messages, first.pos, calls[1..], last);
      SendAgainOne(first.w, messages, first.pos);
    }
  }

  lemma SendAgainOne(w: WriteState, messages: seq<Outgoing>, pos: Pos)
    requires Sound(messages, pos)
    ensures SendAgain(w, messages, pos, []) == Sent(w, pos, [], WriteFailed, 0)
  {
  }

  /** However often it failed before, a call in which the transport takes everything completes the flight. */
  lemma SentInTheEnd(w: WriteState, messages: seq<Outgoing>, calls: seq<Call>, last: Call)
    requires SendableAtAll(w, messages, calls + [last])
    requires Lasts(w, (|calls| + 1) * Work(messages, Pos(0, 0)))
    requires |last.writes| >= Work(messages, Pos(0, 0)) && forall i :: 0 <= i < |last.writes| ==> last.writes[i]
    requires last.flush
    ensures SendAgain(w, messages, Pos(0, 0), calls + [last]).result == FlightSent
  {
    hide SendAgain, SendFlight, AfterAll, Inside, Work, AllSendable;
    var start, bound := Pos(0, 0), Work(messages, Pos(0, 0));
    StartsInside(messages);
    InsideIsSound(messages, start);
    forall call | call in calls
      ensures AllSendable(w, messages, call.mtu)
    {
      assert call in calls + [last];
    }
    assert (|calls| + 1) * bound == |calls| * bound + bound;
    CallsLoseNothing(w, messages, start, calls, bound, bound);
    var r := SendAgain(w, messages, start, calls);
    assert last in calls + [last];
    StillSendable(w, r.w, messages, last.mtu);
    FlightGetsSent(r.w, messages, r.pos, last);
    LastCall(w, messages, start, calls, last);
  }
}
