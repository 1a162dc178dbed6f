/**
  Sending a flight of handshake messages over DTLS (d1_both.cc): messages are cut
  into fragments that fit the MTU, sealed, and packed into datagrams; a failed write
  rewinds to the start of its datagram.  Whatever the MTUs and however often writes fail,
  what the transport accepted is the flight cut into contiguous fragments, exactly unless
  sealing failed behind another record of the same datagram.
 */
module Flight {
  import opened Wrappers
  import opened Bits
  import opened Parsing
  import opened Protocol
  import opened Records
  import opened Fragments
  import opened Incoming

  /** A queued handshake message, as one fragment, or a ChangeCipherSpec. */
  datatype Outgoing = Outgoing(data: seq<byte>, epoch: nat, isCcs: bool)

  /** How far the flight has been written: messages, and bytes of the next one's body. */
  datatype Pos = Pos(written: nat, offset: nat)

  /** A sealed record and what it carries. */
  datatype Emitted = Emitted(number: nat, typ: byte, plaintext: seq<byte>, bytes: seq<byte>)

  /** The message in a queue entry, if it is one whole fragment. */
  function WholeMessage(data: seq<byte>): (r: Option<Fragment>)
    ensures r.Some? ==> |r.value.body| == r.value.header.msgLen && r.value.header.Fits()
  {
    match ParseFragment(data)
    case Fail => None
    case Ok(f, rest) =>
      if f.header.fragOff != 0 || f.header.msgLen != |f.body| || rest != [] then None else Some(f)
  }

  // ----- One record

  datatype SealResult = SealError | NoProgress | SealPartial(record: Emitted) | SealSuccess(record: Emitted)

  function EpochOf(w: WriteState, msg: Outgoing): (r: Option<UseEpoch>)
    ensures r == Some(UsePrevious) ==> w.epoch >= 1
  {
    if w.epoch >= 1 && msg.epoch == w.epoch - 1 then Some(UsePrevious)
    else if msg.epoch != w.epoch then None
    else Some(UseCurrent)
  }

  /** Seal a record, keeping what it carries. */
  function Emit(w: WriteState, maxOut: nat, typ: byte, plaintext: seq<byte>, use: UseEpoch)
    : (r: (WriteState, Option<Emitted>))
    requires use.UsePrevious? ==> w.epoch >= 1
    ensures r.1.Some? ==> RECORD_HEADER <= |r.1.value.bytes| <= maxOut
    ensures r.1.Some? ==> r.1.value.typ == typ && r.1.value.plaintext == plaintext
    ensures r.0.epoch == w.epoch
  {
    var (w', sealed) := SealRecord(w, maxOut, typ, plaintext, use);
    (w', if sealed.Sealed? then Some(Emitted(sealed.number, typ, plaintext, sealed.bytes)) else None)
  }

  /** The slice of a message from `offset` on, `todo` bytes long, as a fragment. */
  function FragmentOf(m: Fragment, offset: nat, todo: nat): Fragment
    requires offset + todo <= |m.body|
  {
    Fragment(m.header.(fragOff := offset, fragLen := todo), m.body[offset..offset + todo])
  }

  /** The next record of a message: as much of its body as the room allows. */
  function SealNextMessage(w: WriteState, msg: Outgoing, offset: nat, maxOut: nat): (r: (WriteState, nat, SealResult))
    ensures r.2.SealPartial? || r.2.SealSuccess? ==> RECORD_HEADER <= |r.2.record.bytes| <= maxOut
    ensures r.0.epoch == w.epoch
    ensures r.2.NoProgress? ==> r == (w, offset, NoProgress)
    ensures r.2.SealError? ==> r.1 == offset
  {
    var use := EpochOf(w, msg);
    if use.None? then (w, offset, SealError)
    else
      var overhead, prefix := MaxSealOverhead(w, use.value), SealPrefixLength(w, use.value);
      if msg.isCcs then
        if maxOut < 1 + overhead then (w, offset, NoProgress)
        else
          var (w', e) := Emit(w, maxOut, RT_CHANGE_CIPHER_SPEC, [MT_CCS], use.value);
          (w', offset, if e.Some? then SealSuccess(e.value) else SealError)
      else
        var m := WholeMessage(msg.data);
        if m.None? || offset > |m.value.body| then (w, offset, SealError)
        else if maxOut < HM_HEADER + 1 + overhead || maxOut < prefix then (w, offset, NoProgress)
        else
          var left, room := |m.value.body| - offset, maxOut - HM_HEADER - overhead;
          var todo := if left > room then room else left;
          if HM_HEADER + todo > maxOut - prefix then (w, offset, SealError)
          else
            var (w', e) :=
              Emit(w, maxOut, RT_HANDSHAKE, FragmentBytes(FragmentOf(m.value, offset, todo)), use.value);
            if e.None? then (w', offset, SealError)
            else if todo == left then (w', 0, SealSuccess(e.value))
            else (w', offset + todo, SealPartial(e.value))
  }

  // ----- One datagram

  /** A failure to seal tells how many records had been sealed into the datagram, which is then never written. */
  datatype Packet = Packet(records: seq<Emitted>) | MtuTooSmall | PacketError(behind: nat)

  function TotalBytes(records: seq<Emitted>): nat {
    if records == [] then 0 else |records[0].bytes| + TotalBytes(records[1..])
  }

  /** Records already sealed, before what sealing goes on to put into the datagram. */
  function Behind(records: seq<Emitted>, more: Packet): Packet {
    match more
    case Packet(rest) => Packet(records + rest)
    case MtuTooSmall => MtuTooSmall
    case PacketError(n) => PacketError(|records| + n)
  }

  /** As many records as fit; `made` says whether the datagram has any yet. */
  function SealNextPacket(w: WriteState, messages: seq<Outgoing>, pos: Pos, maxOut: nat, made: bool)
    : (r: (WriteState, Pos, Packet))
    requires pos.written <= |messages|
    ensures r.1.written <= |messages| && r.0.epoch == w.epoch
    ensures r.2.Packet? ==> TotalBytes(r.2.records) <= maxOut && (made || r.2.records != [])
    decreases |messages| - pos.written
  {
    if pos.written == |messages| then (w, pos, if made then Packet([]) else MtuTooSmall)
    else
      var (w', offset, r) := SealNextMessage(w, messages[pos.written], pos.offset, maxOut);
      match r
      case SealError => (w', Pos(pos.written, offset), PacketError(0))
      case NoProgress => (w, pos, if made then Packet([]) else MtuTooSmall)
      case SealPartial(e) => (w', Pos(pos.written, offset), Packet([e]))
      case SealSuccess(e) =>
        var (w'', pos', more) :=
          SealNextPacket(w', messages, Pos(pos.written + 1, offset), maxOut - |e.bytes|, true);
        (w'', pos', Behind([e], more))
  }

  // ----- The flight as cut into fragments

  /** Where the flight stands after one more record, if the record is the next one. */
  function After(messages: seq<Outgoing>, pos: Pos, e: Emitted): Option<Pos> {
    if pos.written >= |messages| then None
    else
      var msg := messages[pos.written];
      if msg.isCcs then
        if e.typ == RT_CHANGE_CIPHER_SPEC && e.plaintext == [MT_CCS] then Some(Pos(pos.written + 1, pos.offset))
        else None
      else
        var m, f := WholeMessage(msg.data), ParseFragment(e.plaintext);
        if e.typ != RT_HANDSHAKE || m.None? || f.Fail? || f.rest != [] then None
        else
          var todo := |f.value.body|;
          if pos.offset + todo > |m.value.body| || f.value != FragmentOf(m.value, pos.offset, todo) then None
          else if pos.offset + todo == |m.value.body| then Some(Pos(pos.written + 1, 0))
          else if todo == 0 then None
          else Some(Pos(pos.written, pos.offset + todo))
  }

  function AfterAll(messages: seq<Outgoing>, pos: Pos, records: seq<Emitted>): Option<Pos>
    decreases |records|
  {
    if records == [] then Some(pos)
    else
      var next := After(messages, pos, records[0]);
      if next.None? then None else AfterAll(messages, next.value, records[1..])
  }

  lemma {:induction false} AfterConcat(messages: seq<Outgoing>, pos: Pos, a: seq<Emitted>, b: seq<Emitted>)
    requires AfterAll(messages, pos, a).Some?
    ensures AfterAll(messages, pos, a + b) == AfterAll(messages, AfterAll(messages, pos, a).value, b)
    decreases |a|
  {
    hide After;
    if a == [] {
      assert a + b == b;
    } else {
      assert (a + b)[1..] == a[1..] + b;
      AfterConcat(messages, After(messages, pos, a[0]).value, a[1..], b);
    }
  }

  /** Between messages nothing of the next one has been written. */
  predicate Sound(messages: seq<Outgoing>, pos: Pos) {
    && pos.written <= |messages|
    && (pos.written == |messages| || messages[pos.written].isCcs ==> pos.offset == 0)
  }

  /** The bytes of the next message still to be written. */
  function BytesLeft(messages: seq<Outgoing>, pos: Pos): nat {
    if pos.written >= |messages| || messages[pos.written].isCcs then 0
    else
      var m := WholeMessage(messages[pos.written].data);
      if m.None? || pos.offset > |m.value.body| then 0 else |m.value.body| - pos.offset
  }

  /** Fewer messages left, or as many and fewer bytes of the next. */
  predicate Ahead(messages: seq<Outgoing>, pos: Pos, pos': Pos) {
    || pos.written < pos'.written
    || (pos.written == pos'.written && BytesLeft(messages, pos') < BytesLeft(messages, pos))
  }

  /** Each record sealed is the next one, and it makes progress. */
  lemma SealNextIsNext(w: WriteState, messages: seq<Outgoing>, pos: Pos, maxOut: nat)
    requires pos.written < |messages| && Sound(messages, pos)
    ensures var (w', offset, r) := SealNextMessage(w, messages[pos.written], pos.offset, maxOut);
            && (r.SealPartial? ==>
                  && After(messages, pos, r.record) == Some(Pos(pos.written, offset))
                  && Ahead(messages, pos, Pos(pos.written, offset)))
            && (r.SealSuccess? ==> After(messages, pos, r.record) == Some(Pos(pos.written + 1, offset)) && offset == 0)
            && (r.SealPartial? ==> !messages[pos.written].isCcs)
  {
    hide SealRecord, ParseFragment, FragmentBytes, HmHeader.Fits;
    var msg := messages[pos.written];
    if !msg.isCcs {
      var m := WholeMessage(msg.data);
      if m.Some? && pos.offset <= |m.value.body| {
        forall todo: nat | pos.offset + todo <= |m.value.body|
          ensures ParseFragment(FragmentBytes(FragmentOf(m.value, pos.offset, todo))) ==
                  Ok(FragmentOf(m.value, pos.offset, todo), [])
        {
          SliceParses(m.value, pos.offset, todo);
        }
      }
    }
  }

  lemma SliceParses(m: Fragment, offset: nat, todo: nat)
    requires m.header.Fits() && |m.body| == m.header.msgLen && offset + todo <= |m.body|
    ensures ParseFragment(FragmentBytes(FragmentOf(m, offset, todo))) == Ok(FragmentOf(m, offset, todo), [])
  {
    hide ParseFragment, FragmentBytes;
    var f := FragmentOf(m, offset, todo);
    ParseFragmentInverse(f, []);
    assert FragmentBytes(f) + [] == FragmentBytes(f);
  }

  /** A datagram holds the next records of the flight, and every datagram moves it on. */
  lemma {:induction false} PacketIsNext(w: WriteState, messages: seq<Outgoing>, pos: Pos, maxOut: nat, made: bool)
    requires Sound(messages, pos)
    ensures var (w', pos', p) := SealNextPacket(w, messages, pos, maxOut, made);
            && (p.Packet? ==> AfterAll(messages, pos, p.records) == Some(pos') && Sound(messages, pos'))
            && (p.MtuTooSmall? ==> pos' == pos)
            && (p.PacketError? ==>
                  && Sound(messages, pos') && pos'.written == pos.written + p.behind
                  && (p.behind == 0 ==> pos' == pos))
            && (p.Packet? && p.records != [] ==> Ahead(messages, pos, pos'))
            && (made ==> !p.MtuTooSmall?)
    decreases |messages| - pos.written
  {
    hide SealNextMessage, After, TotalBytes, BytesLeft, ParseFragment;
    if pos.written < |messages| {
      SealNextIsNext(w, messages, pos, maxOut);
      var (w', offset, r) := SealNextMessage(w, messages[pos.written], pos.offset, maxOut);
      if r.SealSuccess? {
        PacketIsNext(w', messages, Pos(pos.written + 1, offset), maxOut - |r.record.bytes|, true);
        var (w'', pos', more) :=
          SealNextPacket(w', messages, Pos(pos.written + 1, offset), maxOut - |r.record.bytes|, true);
        if more.Packet? {
          assert ([r.record] + more.records)[1..] == more.records;
        }
      } else if r.SealPartial? {
        assert [r.record][1..] == [];
      }
    }
  }

  // ----- The whole flight

  datatype SendResult = FlightSent | FlushFailed | WriteFailed | MtuError | SendError

  /**
    Where a call left the flight, the datagrams the transport accepted, and how many
    records were sealed into a datagram that was given up because sealing failed in it.
   */
  datatype Sent = Sent(w: WriteState, pos: Pos, accepted: seq<seq<Emitted>>, result: SendResult, lost: nat)

  /** A call: the MTU in force, which writes succeed (those past the list fail), and whether the flush does. */
  datatype Call = Call(mtu: nat, writes: seq<bool>, flush: bool)

  function SendFlight(w: WriteState, messages: seq<Outgoing>, pos: Pos, call: Call): (r: Sent)
    requires Sound(messages, pos)
    decreases |messages| - pos.written, BytesLeft(messages, pos)
  {
    if pos.written == |messages| then Sent(w, pos, [], if call.flush then FlightSent else FlushFailed, 0)
    else
      PacketIsNext(w, messages, pos, call.mtu, false);
      var (w', pos', p) := SealNextPacket(w, messages, pos, call.mtu, false);
      match p
      case MtuTooSmall => Sent(w', pos', [], MtuError, 0)
      case PacketError(behind) => Sent(w', pos', [], SendError, behind)
      case Packet(records) =>
        // A failed write rewinds to where this datagram began.
        if call.writes == [] || !call.writes[0] then Sent(w', pos, [], WriteFailed, 0)
        else
          var rest := SendFlight(w', messages, pos', call.(writes := call.writes[1..]));
          rest.(accepted := [records] + rest.accepted)
  }

  function Flatten(datagrams: seq<seq<Emitted>>): seq<Emitted> {
    if datagrams == [] then [] else datagrams[0] + Flatten(datagrams[1..])
  }

  lemma {:induction false} FlattenConcat(a: seq<seq<Emitted>>, b: seq<seq<Emitted>>)
    ensures Flatten(a + b) == Flatten(a) + Flatten(b)
  {
    if a == [] {
      assert a + b == b;
    } else {
      assert (a + b)[1..] == a[1..] + b;
      FlattenConcat(a[1..], b);
    }
  }

  predicate FitMtu(datagrams: seq<seq<Emitted>>, mtu: nat) {
    forall d :: d in datagrams ==> d != [] && TotalBytes(d) <= mtu
  }

  // ----- Messages completed

  /** A record that carries the end of a message, or is a whole ChangeCipherSpec. */
  predicate Completes(e: Emitted) {
    e.typ == RT_CHANGE_CIPHER_SPEC ||
    var f := ParseFragment(e.plaintext);
    f.Ok? && f.value.header.fragOff + |f.value.body| == f.value.header.msgLen
  }

  function Completed(records: seq<Emitted>): nat
    decreases |records|
  {
    if records == [] then 0 else (if Completes(records[0]) then 1 else 0) + Completed(records[1..])
  }

  lemma AfterCompletes(messages: seq<Outgoing>, pos: Pos, e: Emitted)
    requires After(messages, pos, e).Some?
    ensures After(messages, pos, e).value.written == pos.written + if Completes(e) then 1 else 0
  {
    hide ParseFragment, HmHeader.Fits;
  }

  /** A position is moved on by exactly the messages that records complete. */
  lemma {:induction false} AfterAllCompletes(messages: seq<Outgoing>, pos: Pos, records: seq<Emitted>)
    requires AfterAll(messages, pos, records).Some?
    ensures AfterAll(messages, pos, records).value.written == pos.written + Completed(records)
    decreases |records|
  {
    hide After, Completes;
    if records != [] {
      AfterCompletes(messages, pos, records[0]);
      AfterAllCompletes(messages, After(messages, pos, records[0]).value, records[1..]);
    }
  }

  lemma {:induction false} CompletedConcat(a: seq<Emitted>, b: seq<Emitted>)
    ensures Completed(a + b) == Completed(a) + Completed(b)
    decreases |a|
  {
    hide Completes;
    if a == [] {
      assert a + b == b;
    } else {
      assert (a + b)[1..] == a[1..] + b;
      CompletedConcat(a[1..], b);
    }
  }

  // ----- One call

  /**
    A call's datagrams fit the MTU and carry the flight on from where it stood.  They carry
    it to where the call stops, except that records lost are passed over.
   */
  lemma {:induction false} SendFlightCovers(w: WriteState, messages: seq<Outgoing>, pos: Pos, call: Call)
    requires Sound(messages, pos)
    ensures var r := SendFlight(w, messages, pos, call);
            && FitMtu(r.accepted, call.mtu) && Sound(messages, r.pos)
            && AfterAll(messages, pos, Flatten(r.accepted)).Some?
            && AfterAll(messages, pos, Flatten(r.accepted)).value.written + r.lost == r.pos.written
            && (r.lost == 0 ==> AfterAll(messages, pos, Flatten(r.accepted)) == Some(r.pos))
            && (r.lost > 0 ==> r.result == SendError)
            && (r.result == FlightSent ==> r.pos == Pos(|messages|, 0))
    decreases |messages| - pos.written, BytesLeft(messages, pos)
  {
    hide SealNextPacket, AfterAll, BytesLeft, TotalBytes;
    AfterNothing(messages, pos);
    if pos.written < |messages| {
      PacketIsNext(w, messages, pos, call.mtu, false);
      var (w', pos', p) := SealNextPacket(w, messages, pos, call.mtu, false);
      if p.Packet? && call.writes != [] && call.writes[0] {
        var call' := call.(writes := call.writes[1..]);
        SendFlightCovers(w', messages, pos', call');
        var rest := SendFlight(w', messages, pos', call');
        assert ([p.records] + rest.accepted)[1..] == rest.accepted;
        AfterConcat(messages, pos, p.records, Flatten(rest.accepted));
      }
    }
  }

  lemma AfterNothing(messages: seq<Outgoing>, pos: Pos)
    ensures AfterAll(messages, pos, []) == Some(pos)
  {
  }

  // ----- Calls repeated after failed ones

  /** Calls one after the other, each from where the last one stopped, whatever it returned. */
  function SendAgain(w: WriteState, messages: seq<Outgoing>, pos: Pos, calls: seq<Call>): (r: Sent)
    requires Sound(messages, pos)
    decreases |calls|
  {
    if calls == [] then Sent(w, pos, [], WriteFailed, 0)
    else
      SendFlightCovers(w, messages, pos, calls[0]);
      var first := SendFlight(w, messages, pos, calls[0]);
      if |calls| == 1 then first
      else
        var rest := SendAgain(first.w, messages, first.pos, calls[1..]);
        rest.(accepted := first.accepted + rest.accepted, lost := first.lost + rest.lost)
  }

  /** The datagrams can be told apart by call, and each fits its call's MTU. */
  ghost predicate FitCalls(datagrams: seq<seq<Emitted>>, calls: seq<Call>)
    decreases |calls|
  {
    if calls == [] then datagrams == []
    else
      exists n :: 0 <= n <= |datagrams| && FitMtu(datagrams[..n], calls[0].mtu) && FitCalls(datagrams[n..], calls[1..])
  }

  lemma FitNext(first: seq<seq<Emitted>>, rest: seq<seq<Emitted>>, calls: seq<Call>)
    requires calls != [] && FitMtu(first, calls[0].mtu) && FitCalls(rest, calls[1..])
    ensures FitCalls(first + rest, calls)
  {
    var n := |first|;
    assert (first + rest)[..n] == first && (first + rest)[n..] == rest;
  }

  /** Over any calls every record is accounted for: messages completed by what was accepted, and those lost. */
  lemma {:induction false} SendAgainCovers(w: WriteState, messages: seq<Outgoing>, pos: Pos, calls: seq<Call>)
    requires Sound(messages, pos)
    ensures var r := SendAgain(w, messages, pos, calls);
            && FitCalls(r.accepted, calls) && Sound(messages, r.pos)
            && r.pos.written == pos.written + Completed(Flatten(r.accepted)) + r.lost
            && (r.lost == 0 ==> AfterAll(messages, pos, Flatten(r.accepted)) == Some(r.pos))
            && (r.result == FlightSent ==> r.pos == Pos(|messages|, 0))
    decreases |calls|
  {
    hide SendFlight, AfterAll, Sound, Completed, FitMtu;
    AfterNothing(messages, pos);
    AfterAllCompletes(messages, pos, []);
    if calls != [] {
      SendFlightCovers(w, messages, pos, calls[0]);
      var first := SendFlight(w, messages, pos, calls[0]);
      AfterAllCompletes(messages, pos, Flatten(first.accepted));
      if |calls| > 1 {
        SendAgainCovers(first.w, messages, first.pos, calls[1..]);
        var rest := SendAgain(first.w, messages, first.pos, calls[1..]);
        FlattenConcat(first.accepted, rest.accepted);
        CompletedConcat(Flatten(first.accepted), Flatten(rest.accepted));
        AfterConcat(messages, pos, Flatten(first.accepted), Flatten(rest.accepted));
        FitNext(first.accepted, rest.accepted, calls);
      } else {
        assert first.accepted + [] == first.accepted && FitCalls([], calls[1..]);
        FitNext(first.accepted, [], calls);
      }
    }
  }

  /** The accepted records carry the flight to where the calls left it exactly when none was lost. */
  lemma CoversExactly(w: WriteState, messages: seq<Outgoing>, pos: Pos, calls: seq<Call>)
    requires Sound(messages, pos)
    ensures var r := SendAgain(w, messages, pos, calls);
            AfterAll(messages, pos, Flatten(r.accepted)) == Some(r.pos) <==> r.lost == 0
  {
    hide SendAgain, AfterAll, Sound, Completed;
    SendAgainCovers(w, messages, pos, calls);
    var records := Flatten(SendAgain(w, messages, pos, calls).accepted);
    if AfterAll(messages, pos, records).Some? {
      AfterAllCompletes(messages, pos, records);
    }
  }

  // ----- The fragments put together again

  /** The body bytes some records carry, in order. */
  function Payload(records: seq<Emitted>): seq<byte>
    decreases |records|
  {
    if records == [] then [] else RecordPayload(records[0]) + Payload(records[1..])
  }

  function RecordPayload(e: Emitted): seq<byte> {
    var f := ParseFragment(e.plaintext);
    if e.typ == RT_HANDSHAKE && f.Ok? then f.value.body else []
  }

  function BodyOf(msg: Outgoing): seq<byte> {
    var m := WholeMessage(msg.data);
    if msg.isCcs || m.None? then [] else m.value.body
  }

  /** The bodies of the first n messages. */
  function Bodies(messages: seq<Outgoing>, n: nat): seq<byte>
    requires n <= |messages|
  {
    if n == 0 then [] else Bodies(messages, n - 1) + BodyOf(messages[n - 1])
  }

  /** All body bytes before a position. */
  function BodiesTo(messages: seq<Outgoing>, pos: Pos): seq<byte>
    requires pos.written <= |messages|
  {
    Bodies(messages, pos.written) +
    if pos.written < |messages| && pos.offset <= |BodyOf(messages[pos.written])|
    then BodyOf(messages[pos.written])[..pos.offset] else []
  }

  lemma RecordExtends(messages: seq<Outgoing>, pos: Pos, e: Emitted)
    requires Sound(messages, pos) && After(messages, pos, e).Some?
    ensures var pos' := After(messages, pos, e).value;
            && Sound(messages, pos')
            && BodiesTo(messages, pos') == BodiesTo(messages, pos) + RecordPayload(e)
  {
    hide ParseFragment, HmHeader.Fits;
    var pos', msg := After(messages, pos, e).value, messages[pos.written];
    if !msg.isCcs {
      var body := BodyOf(msg);
      var todo := |RecordPayload(e)|;
      assert body[..pos.offset] + body[pos.offset..pos.offset + todo] == body[..pos.offset + todo];
      assert body[..|body|] == body;
    }
    assert forall s: seq<byte> :: s[..0] == [];
  }

  /** The payloads of the records between two positions are the bytes between them. */
  lemma {:induction false} RecordsExtend(messages: seq<Outgoing>, pos: Pos, records: seq<Emitted>)
    requires Sound(messages, pos) && AfterAll(messages, pos, records).Some?
    ensures var pos' := AfterAll(messages, pos, records).value;
            && Sound(messages, pos')
            && BodiesTo(messages, pos') == BodiesTo(messages, pos) + Payload(records)
    decreases |records|
  {
    hide After, BodiesTo, RecordPayload, Sound;
    if records != [] {
      RecordExtends(messages, pos, records[0]);
      RecordsExtend(messages, After(messages, pos, records[0]).value, records[1..]);
    }
  }

  /**
    However often calls fail and whatever the MTUs, when the flight is reported sent the
    fragments accepted since its start are the flight's, in order and whole, exactly when
    no call failed to seal behind another record of the same datagram.
   */
  lemma FlightPartitioned(w: WriteState, messages: seq<Outgoing>, calls: seq<Call>)
    requires Sound(messages, Pos(0, 0))
    requires SendAgain(w, messages, Pos(0, 0), calls).result == FlightSent
    ensures var r := SendAgain(w, messages, Pos(0, 0), calls);
            var records := Flatten(r.accepted);
            && (AfterAll(messages, Pos(0, 0), records) == Some(Pos(|messages|, 0)) <==> r.lost == 0)
            && (r.lost == 0 ==> Payload(records) == Bodies(messages, |messages|))
  {
    hide SendAgain, AfterAll, Payload, BodiesTo, Bodies, Sound, Completed;
    SendAgainCovers(w, messages, Pos(0, 0), calls);
    CoversExactly(w, messages, Pos(0, 0), calls);
    var r := SendAgain(w, messages, Pos(0, 0), calls);
    if r.lost == 0 {
      RecordsExtend(messages, Pos(0, 0), Flatten(r.accepted));
    }
    EndsOfBodies(messages);
  }

  /** A cipher that leaves everything as it is, as there is before the keys are known. */
  function PlainAead(): Aead {
    Aead(true, 0xfeff, 0, 0, (number, typ, plaintext) => Some(plaintext), (number, typ, body) => Some(body))
  }

  /**
    The counter ends behind the first record of a datagram: two ChangeCipherSpecs are
    reported sent in the end, and only one ever was.
   */
  lemma {:induction false} SentWithAHole()
    ensures var w := WriteState(0, TWO_48 - 2, 0, PlainAead(), PlainAead());
            var messages, call := [Outgoing([], 0, true), Outgoing([], 0, true)], Call(1400, [true], true);
            var first := SendFlight(w, messages, Pos(0, 0), call);
            var r := SendAgain(w, messages, Pos(0, 0), [call, call]);
            && first.result == SendError && first.accepted == [] && first.pos == Pos(1, 0)
            && r.result == FlightSent && r.lost == 1 && |Flatten(r.accepted)| == 1
            && AfterAll(messages, Pos(0, 0), Flatten(r.accepted)) == Some(Pos(1, 0))
  {
    hide RecordBytes;
    var w := WriteState(0, TWO_48 - 2, 0, PlainAead(), PlainAead());
    var w1, w2, w3 := w.(sequence := TWO_48 - 1), w.(sequence := 0), w.(sequence := 1);
    var entry, call := Outgoing([], 0, true), Call(1400, [true], true);
    var messages := [entry, entry];
    var (a, b) := (SealNextMessage(w, entry, 0, 1400).2, SealNextMessage(w2, entry, 0, 1400).2);
    assert SealNextMessage(w, entry, 0, 1400) == (w1, 0, a) && a.SealSuccess? && |a.record.bytes| == 14;
    assert SealNextMessage(w1, entry, 0, 1386) == (w2, 0, SealError);
    assert SealNextMessage(w2, entry, 0, 1400) == (w3, 0, b) && b.SealSuccess?;
    hide SealNextMessage;
    assert SealNextPacket(w1, messages, Pos(1, 0), 1386, true) == (w2, Pos(1, 0), PacketError(0));
    assert SealNextPacket(w, messages, Pos(0, 0), 1400, false) == (w2, Pos(1, 0), PacketError(1));
    assert SealNextPacket(w3, messages, Pos(2, 0), 1400 - |b.record.bytes|, true) == (w3, Pos(2, 0), Packet([]));
    assert [b.record] + [] == [b.record];
    assert SealNextPacket(w2, messages, Pos(1, 0), 1400, false) == (w3, Pos(2, 0), Packet([b.record]));
    hide SealNextPacket;
    assert SendFlight(w, messages, Pos(0, 0), call) == Sent(w2, Pos(1, 0), [], SendError, 1);
    assert SendFlight(w3, messages, Pos(2, 0), call.(writes := [])) == Sent(w3, Pos(2, 0), [], FlightSent, 0);
    assert [true][1..] == [];
    assert [[b.record]] + [] == [[b.record]];
    assert SendFlight(w2, messages, Pos(1, 0), call) == Sent(w3, Pos(2, 0), [[b.record]], FlightSent, 0);
    assert [call, call][1..] == [call];
    assert [] + [[b.record]] == [[b.record]];
    assert SendAgain(w, messages, Pos(0, 0), [call, call]) == Sent(w3, Pos(2, 0), [[b.record]], FlightSent, 1);
    assert Flatten([[b.record]]) == [b.record];
    assert After(messages, Pos(0, 0), b.record) == Some(Pos(1, 0));
    assert [b.record][1..] == [];
  }

  lemma EndsOfBodies(messages: seq<Outgoing>)
    ensures BodiesTo(messages, Pos(0, 0)) == []
    ensures BodiesTo(messages, Pos(|messages|, 0)) == Bodies(messages, |messages|)
  {
  }

  // ----- The sender itself

  class Sender {
    var outgoing: seq<Outgoing>
    var outgoingWritten: nat
    var outgoingOffset: nat
    var complete: bool
    var handshakeWriteSeq: nat
    const writer: RecordWriter

    ghost function Position(): Pos
      reads this
    {
      Pos(outgoingWritten, outgoingOffset)
    }

    constructor (writer: RecordWriter)
      ensures outgoing == [] && Position() == Pos(0, 0) && !complete && handshakeWriteSeq == 0 && this.writer == writer
    {
      outgoing, outgoingWritten, outgoingOffset, complete, handshakeWriteSeq := [], 0, 0, false, 0;
      this.writer := writer;
    }

    /** Queue a message or a ChangeCipherSpec; the first after a completed flight starts a new one. */
    method AddOutgoing(isCcs: bool, data: seq<byte>) returns (ok: bool)
      modifies this
      ensures var kept := if old(complete) then [] else old(outgoing);
              && (ok <==> |kept| < MAX_FLIGHT && |data| < TWO_32)
              && outgoing == (if ok then kept + [Outgoing(data, writer.epoch, isCcs)] else kept)
              && Position() == (if old(complete) then Pos(0, 0) else old(Position()))
              && handshakeWriteSeq == (if ok && !isCcs then (old(handshakeWriteSeq) + 1) % TWO_16
                                       else old(handshakeWriteSeq))
              && !complete
    {
      if complete {
        outgoing, outgoingWritten, outgoingOffset, complete := [], 0, 0, false;
      }
      if |outgoing| >= MAX_FLIGHT || |data| >= TWO_32 {
        return false;
      }
      if !isCcs {
        handshakeWriteSeq := (handshakeWriteSeq + 1) % TWO_16;
      }
      outgoing := outgoing + [Outgoing(data, writer.epoch, isCcs)];
      return true;
    }

    /** Seal a record onto the datagram. */
    method SealOne(maxOut: nat, typ: byte, plaintext: seq<byte>, use: UseEpoch) returns (e: Option<Emitted>)
      requires use.UsePrevious? ==> writer.epoch >= 1
      modifies writer
      ensures (writer.State(), e) == Emit(old(writer.State()), maxOut, typ, plaintext, use)
    {
      var sealed := writer.Seal(maxOut, typ, plaintext, use);
      e := if sealed.Sealed? then Some(Emitted(sealed.number, typ, plaintext, sealed.bytes)) else None;
    }

    method SealNext(maxOut: nat) returns (r: SealResult)
      requires outgoingWritten < |outgoing|
      modifies this`outgoingOffset, writer
      ensures (writer.State(), outgoingOffset, r) ==
              SealNextMessage(old(writer.State()), outgoing[outgoingWritten], old(outgoingOffset), maxOut)
    {
      hide ParseFragment, FragmentBytes, Emit;
      var msg := outgoing[outgoingWritten];
      var use := UseCurrent;
      if writer.epoch >= 1 && msg.epoch == writer.epoch - 1 {
        use := UsePrevious;
      } else if msg.epoch != writer.epoch {
        return SealError;
      }
      var aead := if use.UsePrevious? then writer.lastAead else writer.aead;
      var overhead, prefix := RECORD_HEADER + aead.maxOverhead, RECORD_HEADER + aead.explicitNonceLen;
      var e;
      if msg.isCcs {
        if maxOut < 1 + overhead {
          return NoProgress;
        }
        e := SealOne(maxOut, RT_CHANGE_CIPHER_SPEC, [MT_CCS], use);
        return if e.Some? then SealSuccess(e.value) else SealError;
      }
      var m := WholeMessage(msg.data);
      if m.None? || outgoingOffset > |m.value.body| {
        return SealError;
      }
      if maxOut < HM_HEADER + 1 + overhead || maxOut < prefix {
        return NoProgress;
      }
      var left := |m.value.body| - outgoingOffset;
      var todo := left;
      if todo > maxOut - HM_HEADER - overhead {
        todo := maxOut - HM_HEADER - overhead;
      }
      if HM_HEADER + todo > maxOut - prefix {
        return SealError;
      }
      e := SealOne(maxOut, RT_HANDSHAKE, FragmentBytes(FragmentOf(m.value, outgoingOffset, todo)), use);
      if e.None? {
        return SealError;
      }
      if todo == left {
        outgoingOffset := 0;
        return SealSuccess(e.value);
      }
      outgoingOffset := outgoingOffset + todo;
      return SealPartial(e.value);
    }

    /** Fill one datagram. */
    method SealPacket(mtu: nat) returns (p: Packet)
      requires outgoingWritten <= |outgoing|
      modifies this`outgoingWritten, this`outgoingOffset, writer
      ensures outgoingWritten <= |outgoing|
      ensures (writer.State(), Position(), p) ==
              SealNextPacket(old(writer.State()), outgoing, old(Position()), mtu, false)
    {
      hide SealNextMessage, TotalBytes;
      var maxOut, records: seq<Emitted> := mtu, [];
      assert forall rest: seq<Emitted> :: [] + rest == rest;
      while outgoingWritten < |outgoing|
        invariant 0 <= maxOut && outgoingWritten <= |outgoing|
        invariant SealNextPacket(old(writer.State()), outgoing, old(Position()), mtu, false) ==
                  Prepend(records, SealNextPacket(writer.State(), outgoing, Position(), maxOut, records != []))
      {
        assert records + [] == records;
        var r := SealNext(maxOut);
        match r {
          case SealError => return PacketError(|records|);
          case NoProgress =>
            if records == [] {
              return MtuTooSmall;
            }
            return Packet(records);
          case SealPartial(e) => return Packet(records + [e]);
          case SealSuccess(e) =>
            maxOut := maxOut - |e.bytes|;
            outgoingWritten := outgoingWritten + 1;
            PrependOne(records, e, SealNextPacket(writer.State(), outgoing, Position(), maxOut, true));
            records := records + [e];
        }
      }
      assert records + [] == records;
      p := if records == [] then MtuTooSmall else Packet(records);
    }

    /** Write the rest of the flight, datagram by datagram. */
    method Send(call: Call) returns (accepted: seq<seq<Emitted>>, result: SendResult, ghost lost: nat)
      requires Sound(outgoing, Position())
      modifies this`outgoingWritten, this`outgoingOffset, writer
      ensures Sent(writer.State(), Position(), accepted, result, lost) ==
              SendFlight(old(writer.State()), outgoing, old(Position()), call)
    {
      hide SealNextPacket, AfterAll, BytesLeft;
      accepted := [];
      var writes := call.writes;
      while outgoingWritten < |outgoing|
        invariant Sound(outgoing, Position())
        invariant SendFlight(old(writer.State()), outgoing, old(Position()), call) ==
                  ThenSent(accepted, SendFlight(writer.State(), outgoing, Position(), call.(writes := writes)))
        decreases |outgoing| - outgoingWritten, BytesLeft(outgoing, Position())
      {
        ghost var w, pos := writer.State(), Position();
        var oldWritten, oldOffset := outgoingWritten, outgoingOffset;
        PacketIsNext(w, outgoing, pos, call.mtu, false);
        var p := SealPacket(call.mtu);
        if p.MtuTooSmall? {
          return accepted, MtuError, 0;
        }
        if p.PacketError? {
          return accepted, SendError, p.behind;
        }
        if writes == [] || !writes[0] {
          outgoingWritten, outgoingOffset := oldWritten, oldOffset;
          return accepted, WriteFailed, 0;
        }
        ThenSentOne(accepted, p.records, SendFlight(writer.State(), outgoing, Position(), call.(writes := writes[1..])));
        accepted, writes := accepted + [p.records], writes[1..];
      }
      result, lost := if call.flush then FlightSent else FlushFailed, 0;
    }
  }

  /** A datagram's first records before what sealing goes on to put into it. */
  function Prepend(records: seq<Emitted>, rest: (WriteState, Pos, Packet)): (WriteState, Pos, Packet) {
    (rest.0, rest.1, Behind(records, rest.2))
  }

  lemma {:induction false} PrependOne(records: seq<Emitted>, e: Emitted, rest: (WriteState, Pos, Packet))
    ensures Prepend(records, Prepend([e], rest)) == Prepend(records + [e], rest)
  {
    if rest.2.Packet? {
      assert records + ([e] + rest.2.records) == (records + [e]) + rest.2.records;
    }
  }

  function ThenSent(accepted: seq<seq<Emitted>>, rest: Sent): Sent { rest.(accepted := accepted + rest.accepted) }

  lemma ThenSentOne(accepted: seq<seq<Emitted>>, records: seq<Emitted>, rest: Sent)
    ensures ThenSent(accepted, ThenSent([records], rest)) == ThenSent(accepted + [records], rest)
  {
    assert accepted + ([records] + rest.accepted) == (accepted + [records]) + rest.accepted;
  }
}
