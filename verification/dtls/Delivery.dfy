/**
  Sender, network and receiver together.  The network holds every record the transport
  ever accepted and may present any of them at any time, so it can lose, repeat and
  reorder.  However the sender fragments and retransmits and whatever calls fail, the
  messages the receiver takes are the sender's, in order, none skipped, repeated or mixed.
 */
module Delivery {
  import opened Wrappers
  import opened Bits
  import opened Protocol
  import opened Records
  import opened Fragments
  import opened Reassembly
  import opened Incoming
  import opened Flight
  import opened Ciphers
  import opened ReplayWindow

  datatype World = World(
    sent: seq<Message>,        // every handshake message queued so far
    queue: seq<Outgoing>,      // the current flight
    pos: Pos,                  // how far it has been written
    complete: bool,
    writer: WriteState,
    writeKeys: seq<Aead>,      // the sender's ciphers, one for each epoch so far
    wire: set<Emitted>,        // every record the transport accepted
    reader: ReadState,
    readKeys: seq<Aead>,       // the receiver's
    receiver: RecvState,
    broken: bool,              // the receiver met a fatal error
    taken: seq<Message>)       // the messages the receiver has taken

  datatype Event =
    | QueueMessage(msg: Message)
    | QueueCcs
    | ChangeWriteCipher(writeAead: Aead)
    | Flush(call: Call)
    | Retransmit(call: Call)
    | Arrive(record: Emitted)
    | TakeCcs
    | ChangeReadCipher(readAead: Aead)
    | TakeMessage

  function Initial(writeAead: Aead, readAead: Aead): (w: World)
    ensures Shaped(w)
  {
    World([], [], Pos(0, 0), false, WriteState(0, 0, 0, writeAead, writeAead), [writeAead], {},
          ReadState(0, EMPTY, readAead, false), [readAead], RecvState(0, NO_MESSAGES, false, false), false, [])
  }

  // ----- Steps

  /** The queue after a new entry; a completed flight is dropped first, a full one refuses. */
  function AddToQueue(w: World, entry: Outgoing): (r: (World, bool))
    ensures r.0.sent == w.sent
  {
    var kept := if w.complete then [] else w.queue;
    var w' := w.(queue := kept, pos := if w.complete then Pos(0, 0) else w.pos, complete := false);
    if |kept| >= MAX_FLIGHT || |entry.data| >= TWO_32 then (w', false)
    else (w'.(queue := kept + [entry]), true)
  }

  /** A message as one fragment, numbered by how many went before it. */
  function WholeFragment(msg: Message, seqNum: nat): Fragment {
    Fragment(HmHeader(msg.typ, |msg.body|, seqNum, 0, |msg.body|), msg.body)
  }

  function QueueStep(w: World, msg: Message): World {
    // The 24-bit length field refuses a longer body.
    if |msg.body| >= TWO_24 then w
    else
      var data := FragmentBytes(WholeFragment(msg, |w.sent| % TWO_16));
      var (w', ok) := AddToQueue(w, Outgoing(data, w.writer.epoch, false));
      if ok then w'.(sent := w.sent + [msg]) else w'
  }

  function SendStep(w: World, call: Call): World
    requires Sound(w.queue, w.pos)
  {
    var r := SendFlight(w.writer, w.queue, w.pos, call);
    w.(writer := r.w, pos := r.pos, wire := w.wire + RecordSet(Flatten(r.accepted)))
  }

  function RecordSet(records: seq<Emitted>): set<Emitted> { set e | e in records }

  ghost function ArriveStep(w: World, e: Emitted, maxLen: nat): World
    requires |w.receiver.slots| == MAX_FLIGHT
  {
    var (reader', r) := OpenRecord(w.reader, e.bytes);
    if w.broken || e !in w.wire then w
    else if r.Error? then w.(broken := true)
    else if !r.Success? then w.(reader := reader')
    else
      var h := OpenHandshake(w.receiver, r.typ, r.plaintext, w.reader.epoch, w.reader.aead.nullCipher, maxLen);
      match h
      case Handled(st) => w.(reader := reader', receiver := st)
      case Ignored => w.(reader := reader')
      case Rejected => w.(reader := reader', broken := true)
  }

  ghost function TakeStep(w: World): World
    requires |w.receiver.slots| == MAX_FLIGHT
  {
    var m := CurrentMessage(w.receiver);
    if w.broken || m.None? then w
    else w.(receiver := AfterMessage(GotMessage(w.receiver)), taken := w.taken + [m.value])
  }

  ghost predicate Shaped(w: World) { |w.receiver.slots| == MAX_FLIGHT && Sound(w.queue, w.pos) }

  ghost function Step(w: World, e: Event, maxLen: nat): World
    requires Shaped(w)
  {
    match e
    case QueueMessage(msg) => QueueStep(w, msg)
    case QueueCcs => AddToQueue(w, Outgoing([], w.writer.epoch, true)).0
    case ChangeWriteCipher(aead) => w.(writer := SetWriteState(w.writer, aead), writeKeys := w.writeKeys + [aead])
    case Flush(call) => SendStep(w.(complete := true), call)
    case Retransmit(call) => (assert Sound(w.queue, Pos(0, 0)); SendStep(w.(pos := Pos(0, 0)), call))
    case Arrive(record) => ArriveStep(w, record, maxLen)
    case TakeCcs => w.(receiver := w.receiver.(hasCcs := false))
    case ChangeReadCipher(aead) =>
      if HasUnprocessed(w.receiver) then w
      else w.(reader := SetReadState(w.reader, aead), readKeys := w.readKeys + [aead])
    case TakeMessage => TakeStep(w)
  }

  // ----- What every step keeps

  /** A fragment of a message that was sent. */
  ghost predicate FragmentOfSent(sent: seq<Message>, f: Fragment) {
    var h := f.header;
    && h.seqNum < |sent|
    && h.typ == sent[h.seqNum].typ && h.msgLen == |sent[h.seqNum].body|
    && SliceOf(Slice(h.fragOff, f.body), sent[h.seqNum].body)
  }

  ghost predicate QueuedIsSent(sent: seq<Message>, msg: Outgoing) {
    msg.isCcs ||
    var m := WholeMessage(msg.data);
    m.Some? && FragmentOfSent(sent, m.value)
  }

  ghost predicate WireIsSent(sent: seq<Message>, e: Emitted) {
    e.typ == RT_HANDSHAKE ==>
      var f := ParseFragment(e.plaintext);
      f.Ok? && f.rest == [] && FragmentOfSent(sent, f.value)
  }

  /** The entry for message `n` agrees with it. */
  ghost predicate SlotIsSent(sent: seq<Message>, slot: Option<Partial>, n: nat) {
    slot.Some? ==> n < |sent| && slot.value.typ == sent[n].typ && Agrees(slot.value, sent[n].body)
  }

  ghost predicate SenderInv(w: World) {
    && Sound(w.queue, w.pos)
    && (forall m :: m in w.queue ==> QueuedIsSent(w.sent, m))
    && (forall e :: e in w.wire ==> WireIsSent(w.sent, e))
  }

  ghost predicate ReceiverInv(sent: seq<Message>, st: RecvState, taken: seq<Message>) {
    && |st.slots| == MAX_FLIGHT
    && st.readSeq == |taken| && taken <= sent
    && forall n :: st.readSeq <= n < st.readSeq + MAX_FLIGHT ==> SlotIsSent(sent, st.slots[n % MAX_FLIGHT], n)
  }

  /** Message and epoch numbers have not run out, and the ciphers of an epoch fit together. */
  ghost predicate Sane(w: World) {
    && |w.sent| < TWO_16 && |w.writeKeys| <= TWO_16 && |w.readKeys| <= TWO_16
    && (forall aead :: aead in w.writeKeys ==> aead.version < TWO_16)
    && forall n :: 0 <= n < |w.writeKeys| && n < |w.readKeys| ==> Opens(w.readKeys[n], w.writeKeys[n])
  }

  /** The receiver stands in the last epoch it has a cipher for. */
  ghost predicate ReaderOk(keys: seq<Aead>, st: ReadState) {
    0 < |keys| <= TWO_16 && st.epoch == |keys| - 1 && st.aead == keys[st.epoch]
  }

  ghost predicate KeysInv(w: World) {
    && WriterOk(w.writeKeys, w.writer) && ReaderOk(w.readKeys, w.reader)
    && forall e :: e in w.wire ==> SealedUnder(w.writeKeys, e)
  }

  ghost predicate Inv(w: World) {
    SenderInv(w) && ReceiverInv(w.sent, w.receiver, w.taken) && KeysInv(w)
  }

  // ----- The sender's side

  lemma SentGrows(sent: seq<Message>, more: seq<Message>, f: Fragment)
    requires FragmentOfSent(sent, f)
    ensures FragmentOfSent(sent + more, f)
  {
  }

  lemma QueuedStill(sent: seq<Message>, more: seq<Message>, msg: Outgoing)
    requires QueuedIsSent(sent, msg)
    ensures QueuedIsSent(sent + more, msg)
  {
    hide FragmentOfSent, WholeMessage;
    if !msg.isCcs {
      SentGrows(sent, more, WholeMessage(msg.data).value);
    }
  }

  lemma WireStill(sent: seq<Message>, more: seq<Message>, e: Emitted)
    requires WireIsSent(sent, e)
    ensures WireIsSent(sent + more, e)
  {
    hide FragmentOfSent, ParseFragment;
    if e.typ == RT_HANDSHAKE {
      SentGrows(sent, more, ParseFragment(e.plaintext).value);
    }
  }

  lemma SlotStill(sent: seq<Message>, more: seq<Message>, slot: Option<Partial>, n: nat)
    requires SlotIsSent(sent, slot, n)
    ensures SlotIsSent(sent + more, slot, n)
  {
  }

  lemma WholeFragmentSent(sent: seq<Message>, msg: Message)
    requires |msg.body| < TWO_24 && |sent| + 1 < TWO_16
    ensures QueuedIsSent(sent + [msg], Outgoing(FragmentBytes(WholeFragment(msg, |sent| % TWO_16)), 0, false))
  {
    hide ParseFragment, FragmentBytes;
    var f := WholeFragment(msg, |sent| % TWO_16);
    ParseFragmentInverse(f, []);
    assert FragmentBytes(f) + [] == FragmentBytes(f);
    assert msg.body[0..|msg.body|] == msg.body;
  }

  lemma QueueKeeps(w: World, msg: Message)
    requires Inv(w) && |w.sent| + 1 < TWO_16
    ensures Inv(QueueStep(w, msg))
  {
    hide WholeFragment, FragmentBytes, QueuedIsSent, WireIsSent, SlotIsSent, KeysInv;
    KeysAside(w, QueueStep(w, msg));
    var w' := QueueStep(w, msg);
    if w'.sent != w.sent {
      WholeFragmentSent(w.sent, msg);
      EpochIrrelevant(w'.sent, w'.queue[|w'.queue| - 1], 0);
      forall m | m in w'.queue
        ensures QueuedIsSent(w'.sent, m)
      {
        if m in w.queue {
          QueuedStill(w.sent, [msg], m);
        }
      }
      forall e | e in w.wire
        ensures WireIsSent(w'.sent, e)
      {
        WireStill(w.sent, [msg], e);
      }
      forall n | w.receiver.readSeq <= n < w.receiver.readSeq + MAX_FLIGHT
        ensures SlotIsSent(w'.sent, w.receiver.slots[n % MAX_FLIGHT], n)
      {
        SlotStill(w.sent, [msg], w.receiver.slots[n % MAX_FLIGHT], n);
      }
    }
  }

  lemma EpochIrrelevant(sent: seq<Message>, msg: Outgoing, epoch: nat)
    ensures QueuedIsSent(sent, msg) <==> QueuedIsSent(sent, msg.(epoch := epoch))
  {
  }

  lemma QueueCcsKeeps(w: World)
    requires Inv(w)
    ensures Inv(AddToQueue(w, Outgoing([], w.writer.epoch, true)).0)
  {
    hide WireIsSent, SlotIsSent, KeysInv;
    KeysAside(w, AddToQueue(w, Outgoing([], w.writer.epoch, true)).0);
  }

  /** What the ciphers have to do with leaves the rest aside. */
  lemma KeysAside(w: World, w': World)
    requires KeysInv(w) && w'.writer == w.writer && w'.writeKeys == w.writeKeys && w'.wire == w.wire
    requires w'.reader.epoch == w.reader.epoch && w'.reader.aead == w.reader.aead && w'.readKeys == w.readKeys
    ensures KeysInv(w')
  {
    hide WriterOk, SealedUnder;
  }

  /** The records by which a flight advances are fragments of sent messages. */
  lemma RecordIsSent(sent: seq<Message>, queue: seq<Outgoing>, pos: Pos, e: Emitted)
    requires After(queue, pos, e).Some? && forall m :: m in queue ==> QueuedIsSent(sent, m)
    ensures WireIsSent(sent, e)
  {
    hide ParseFragment;
    var msg := queue[pos.written];
    assert QueuedIsSent(sent, msg);
  }

  lemma {:induction false} RecordsAreSent(sent: seq<Message>, queue: seq<Outgoing>, pos: Pos, records: seq<Emitted>)
    requires AfterAll(queue, pos, records).Some? && forall m :: m in queue ==> QueuedIsSent(sent, m)
    ensures forall e :: e in records ==> WireIsSent(sent, e)
    decreases |records|
  {
    hide After, WireIsSent, QueuedIsSent;
    if records != [] {
      RecordIsSent(sent, queue, pos, records[0]);
      RecordsAreSent(sent, queue, After(queue, pos, records[0]).value, records[1..]);
    }
  }

  lemma SendKeeps(w: World, call: Call)
    requires Inv(w)
    ensures Inv(SendStep(w, call))
  {
    hide SendFlight, AfterAll, WireIsSent, QueuedIsSent, SlotIsSent, Sound, WriterOk, SealedUnder;
    SendFlightCovers(w.writer, w.queue, w.pos, call);
    FlightSealed(w.writeKeys, w.writer, w.queue, w.pos, call);
    RecordsAreSent(w.sent, w.queue, w.pos, Flatten(SendFlight(w.writer, w.queue, w.pos, call).accepted));
  }

  // ----- The receiver's side

  /** A fragment of a sent message leaves every entry agreeing with its message. */
  lemma FragmentKeeps(sent: seq<Message>, st: RecvState, taken: seq<Message>, f: Fragment, epoch: nat, maxLen: nat)
    requires ReceiverInv(sent, st, taken) && FragmentOfSent(sent, f)
    ensures var r := ProcessFragment(st, f, epoch, maxLen);
            r.Some? ==> ReceiverInv(sent, r.value, taken)
  {
    hide Partial.Absorb, SliceOf, Agrees;
    var r := ProcessFragment(st, f, epoch, maxLen);
    var k, i := f.header.seqNum, f.header.seqNum % MAX_FLIGHT;
    if r.Some? && r.value != st {
      assert SlotIsSent(sent, st.slots[i], k);
      var p := IncomingFor(st, f.header).value;
      assert Agrees(p, sent[k].body) by { FreshAgrees(p, sent[k].body); }
      AbsorbAgrees(p, Slice(f.header.fragOff, f.body), sent[k].body);
      assert p.Absorb(f.header.fragOff, f.body).typ == p.typ by { AbsorbType(p, f.header.fragOff, f.body); }
      forall n | st.readSeq <= n < st.readSeq + MAX_FLIGHT
        ensures SlotIsSent(sent, r.value.slots[n % MAX_FLIGHT], n)
      {
        if n % MAX_FLIGHT == i {
          SameSlotSameMessage(n, k, st.readSeq);
        } else {
          assert SlotIsSent(sent, st.slots[n % MAX_FLIGHT], n);
        }
      }
    }
  }

  lemma FreshAgrees(p: Partial, body: seq<byte>)
    ensures p.received == map[] && p.msgLen == |body| ==> Agrees(p, body)
  {
  }

  lemma AbsorbType(p: Partial, off: nat, slice: seq<byte>)
    ensures p.Absorb(off, slice).typ == p.typ
  {
  }

  lemma HandshakeKeeps(sent: seq<Message>, st: RecvState, taken: seq<Message>, e: Emitted, epoch: nat,
                       nullCipher: bool, maxLen: nat)
    requires ReceiverInv(sent, st, taken) && WireIsSent(sent, e)
    ensures var h := OpenHandshake(st, e.typ, e.plaintext, epoch, nullCipher, maxLen);
            h.Handled? ==> ReceiverInv(sent, h.st, taken)
  {
    hide ProcessFragment, ParseFragment, FragmentOfSent, SlotIsSent;
    if e.typ == RT_HANDSHAKE && e.plaintext != [] {
      var f := ParseFragment(e.plaintext).value;
      FragmentKeeps(sent, st, taken, f, epoch, maxLen);
      var r := ProcessFragment(st, f, epoch, maxLen);
      assert r.Some? ==> ProcessFragments(r.value, [], epoch, maxLen) == r;
    }
  }

  /** What opens is what was sealed. */
  lemma WireOpens(w: World, e: Emitted)
    requires KeysInv(w) && Sane(w) && e in w.wire
    ensures var (reader', r) := OpenRecord(w.reader, e.bytes);
            && reader'.epoch == w.reader.epoch && reader'.aead == w.reader.aead
            && (r.Success? ==> r.typ == e.typ && r.plaintext == e.plaintext)
            && (r.Error? ==> |e.plaintext| > MAX_PLAIN)
  {
    hide WriterOk, OpenRecord, Opens, RecordBytes;
    assert SealedUnder(w.writeKeys, e);
    var epoch := e.number / TWO_48;
    var c := w.writeKeys[epoch].seal(e.number, e.typ, e.plaintext).value;
    var version: nat :| version < TWO_16 && e.bytes == RecordBytes(e.typ, version, e.number, c);
    OpensAsSealed(w.writeKeys[epoch], version, e.number, e.typ, e.plaintext, w.reader, []);
    assert e.bytes + [] == e.bytes;
    UnacceptedChangesNothing(w.reader, e.bytes);
  }

  lemma ArriveKeeps(w: World, e: Emitted, maxLen: nat)
    requires Inv(w) && Sane(w)
    ensures Inv(ArriveStep(w, e, maxLen))
  {
    hide OpenRecord, OpenHandshake, SlotIsSent, WireIsSent, QueuedIsSent, Sound, KeysInv, Sane;
    if e in w.wire {
      WireOpens(w, e);
      HandshakeKeeps(w.sent, w.receiver, w.taken, e, w.reader.epoch, w.reader.aead.nullCipher, maxLen);
    }
    KeysAside(w, ArriveStep(w, e, maxLen));
  }

  lemma TakenIsSent(sent: seq<Message>, st: RecvState, taken: seq<Message>)
    requires ReceiverInv(sent, st, taken) && CurrentMessage(st).Some?
    ensures |taken| < |sent| && CurrentMessage(st).value == sent[|taken|]
  {
    hide Partial.Complete, Partial.Body, Agrees;
    var k := st.readSeq;
    assert SlotIsSent(sent, st.slots[k % MAX_FLIGHT], k);
    CompleteIsBody(st.slots[k % MAX_FLIGHT].value, sent[k].body);
  }

  lemma ReceiverMovesOn(sent: seq<Message>, st: RecvState, taken: seq<Message>)
    requires ReceiverInv(sent, st, taken) && |taken| < |sent| < TWO_16
    ensures ReceiverInv(sent, AfterMessage(GotMessage(st)), taken + [sent[|taken|]])
  {
    hide CurrentComplete, SlotIsSent;
    NothingIsSent(sent);
    var k, st' := st.readSeq, AfterMessage(GotMessage(st));
    forall n | k + 1 <= n < k + 1 + MAX_FLIGHT
      ensures SlotIsSent(sent, st'.slots[n % MAX_FLIGHT], n)
    {
      if n < k + MAX_FLIGHT {
        assert SlotIsSent(sent, st.slots[n % MAX_FLIGHT], n);
      }
    }
  }

  lemma NothingIsSent(sent: seq<Message>)
    ensures forall n: nat :: SlotIsSent(sent, None, n)
  {
  }

  lemma TakeKeeps(w: World)
    requires Inv(w) && |w.sent| < TWO_16
    ensures Inv(TakeStep(w))
  {
    hide CurrentMessage, AfterMessage, GotMessage, SlotIsSent, SenderInv, KeysInv;
    KeysAside(w, TakeStep(w));
    QueueAside(w, TakeStep(w));
    if CurrentMessage(w.receiver).Some? {
      TakenIsSent(w.sent, w.receiver, w.taken);
      ReceiverMovesOn(w.sent, w.receiver, w.taken);
    }
  }

  // ----- Whole runs

  lemma StepKeeps(w: World, e: Event, maxLen: nat)
    requires Inv(w) && Sane(w) && Sane(Step(w, e, maxLen))
    ensures Inv(Step(w, e, maxLen))
  {
    assert Shaped(w) && Sound(w.queue, Pos(0, 0));
    hide ArriveStep, TakeStep, SendStep, QueueStep, AddToQueue, Sound, SenderInv, ReceiverInv, KeysInv, SetWriteState,
      SetReadState;
    match e
    case QueueMessage(msg) =>
      if |w.sent| + 1 < TWO_16 {
        QueueKeeps(w, msg);
      } else {
        QueueFullKeeps(w, msg);
      }
    case QueueCcs => QueueCcsKeeps(w);
    case ChangeWriteCipher(aead) =>
      assert aead in Step(w, e, maxLen).writeKeys;
      NewWriteKey(w, aead);
    case Flush(call) =>
      FlagIrrelevant(w);
      SendKeeps(w.(complete := true), call);
    case Retransmit(call) =>
      RewindKeeps(w);
      SendKeeps(w.(pos := Pos(0, 0)), call);
    case Arrive(record) => ArriveKeeps(w, record, maxLen);
    case TakeCcs => CcsIrrelevant(w);
    case ChangeReadCipher(aead) =>
      if !HasUnprocessed(w.receiver) {
        NewReadKey(w, aead);
      }
    case TakeMessage => TakeKeeps(w);
  }

  /** At the last number a message is only refused, so nothing was queued. */
  lemma QueueFullKeeps(w: World, msg: Message)
    requires Inv(w) && |QueueStep(w, msg).sent| <= |w.sent|
    ensures Inv(QueueStep(w, msg))
  {
    hide WholeFragment, FragmentBytes, QueuedIsSent, WireIsSent, SlotIsSent, KeysInv;
    KeysAside(w, QueueStep(w, msg));
  }

  lemma NewWriteKey(w: World, aead: Aead)
    requires Inv(w) && |w.writeKeys| < TWO_16 && aead.version < TWO_16
    ensures Inv(w.(writer := SetWriteState(w.writer, aead), writeKeys := w.writeKeys + [aead]))
  {
    hide SenderInv, ReceiverInv, RecordBytes;
    var w' := w.(writer := SetWriteState(w.writer, aead), writeKeys := w.writeKeys + [aead]);
    assert SenderInv(w') by { QueueAside(w, w'); }
  }

  lemma NewReadKey(w: World, aead: Aead)
    requires Inv(w) && |w.readKeys| < TWO_16
    ensures Inv(w.(reader := SetReadState(w.reader, aead), readKeys := w.readKeys + [aead]))
  {
    hide SenderInv, ReceiverInv, WriterOk, SealedUnder;
    QueueAside(w, w.(reader := SetReadState(w.reader, aead), readKeys := w.readKeys + [aead]));
  }

  lemma QueueAside(w: World, w': World)
    requires SenderInv(w) && w'.sent == w.sent && w'.queue == w.queue && w'.pos == w.pos && w'.wire == w.wire
    ensures SenderInv(w')
  {
  }

  lemma FlagIrrelevant(w: World)
    requires Inv(w)
    ensures Inv(w.(complete := true))
  {
    hide KeysInv;
    KeysAside(w, w.(complete := true));
  }

  lemma RewindKeeps(w: World)
    requires Inv(w)
    ensures Inv(w.(pos := Pos(0, 0)))
  {
    hide QueuedIsSent, WireIsSent, SlotIsSent, KeysInv;
    KeysAside(w, w.(pos := Pos(0, 0)));
  }

  lemma CcsIrrelevant(w: World)
    requires Inv(w)
    ensures Inv(w.(receiver := w.receiver.(hasCcs := false)))
  {
    hide QueuedIsSent, WireIsSent, SlotIsSent, KeysInv;
    KeysAside(w, w.(receiver := w.receiver.(hasCcs := false)));
  }

  ghost function Run(start: World, events: seq<Event>, maxLen: nat): (w: World)
    requires Shaped(start)
    ensures Shaped(w)
  {
    if events == [] then start
    else
      var w := Run(start, events[..|events| - 1], maxLen);
      StepShaped(w, events[|events| - 1], maxLen);
      Step(w, events[|events| - 1], maxLen)
  }

  /** What was sent, and the ciphers, are only added to. */
  lemma StepShaped(w: World, e: Event, maxLen: nat)
    requires Shaped(w)
    ensures var w' := Step(w, e, maxLen);
            Shaped(w') && w.sent <= w'.sent && w.writeKeys <= w'.writeKeys && w.readKeys <= w'.readKeys
  {
    hide OpenRecord, OpenHandshake, CurrentMessage, SendFlight, FragmentBytes, WholeFragment, AfterAll;
    assert Sound(w.queue, Pos(0, 0));
    if e.Flush? {
      SendFlightCovers(w.writer, w.queue, w.pos, e.call);
    } else if e.Retransmit? {
      SendFlightCovers(w.writer, w.queue, Pos(0, 0), e.call);
    }
  }

  lemma SaneBefore(w: World, w': World)
    requires Sane(w') && w.sent <= w'.sent && w.writeKeys <= w'.writeKeys && w.readKeys <= w'.readKeys
    ensures Sane(w)
  {
    hide Opens;
    forall n | 0 <= n < |w.writeKeys| && n < |w.readKeys|
      ensures Opens(w.readKeys[n], w.writeKeys[n])
    {
      assert w.readKeys[n] == w'.readKeys[n] && w.writeKeys[n] == w'.writeKeys[n];
    }
  }

  lemma {:induction false} RunKeeps(writeAead: Aead, readAead: Aead, events: seq<Event>, maxLen: nat)
    requires Sane(Run(Initial(writeAead, readAead), events, maxLen))
    ensures Inv(Run(Initial(writeAead, readAead), events, maxLen))
    decreases |events|
  {
    hide Step, SlotIsSent, Initial, Sane;
    var start := Initial(writeAead, readAead);
    if events == [] {
      InitialInv(writeAead, readAead);
    } else {
      var last := |events| - 1;
      var w := Run(start, events[..last], maxLen);
      hide Inv;
      StepShaped(w, events[last], maxLen);
      SaneBefore(w, Step(w, events[last], maxLen));
      RunKeeps(writeAead, readAead, events[..last], maxLen);
      StepKeeps(w, events[last], maxLen);
    }
  }

  lemma InitialInv(writeAead: Aead, readAead: Aead)
    requires Sane(Initial(writeAead, readAead))
    ensures Inv(Initial(writeAead, readAead))
  {
    hide Opens;
    assert writeAead in [writeAead];
  }

  /**
    Whatever the network does, however the flights are fragmented and repeated and whatever
    calls fail, what the receiver has taken is a prefix of what was sent, if the
    receiver's cipher of each epoch opens what the sender's sealed.
   */
  lemma {:induction false} DeliveredInOrder(writeAead: Aead, readAead: Aead, events: seq<Event>, maxLen: nat)
    requires Sane(Run(Initial(writeAead, readAead), events, maxLen))
    ensures var w := Run(Initial(writeAead, readAead), events, maxLen);
            |w.taken| <= |w.sent| && w.taken == w.sent[..|w.taken|]
  {
    hide Run, SlotIsSent, Sane, KeysInv;
    RunKeeps(writeAead, readAead, events, maxLen);
  }

  // ----- Progress

  /** Records that arrive one after the other. */
  ghost function ArriveAll(w: World, es: seq<Emitted>, maxLen: nat): (r: World)
    requires Shaped(w)
    ensures Shaped(r)
  {
    if es == [] then w else ArriveStep(ArriveAll(w, es[..|es| - 1], maxLen), es[|es| - 1], maxLen)
  }

  /** What a record carries, if it is a fragment of the message wanted next. */
  function Carried(next: nat, e: Emitted): seq<Slice> {
    var f := ParseFragment(e.plaintext);
    if e.typ == RT_HANDSHAKE && f.Ok? && f.value.header.seqNum == next
    then [Slice(f.value.header.fragOff, f.value.body)]
    else []
  }

  /** The slice of the message wanted next that a record brings, if it opens. */
  ghost function Brought(w: World, e: Emitted): seq<Slice> {
    if OpenRecord(w.reader, e.bytes).1.Success? then Carried(|w.taken|, e) else []
  }

  ghost function AllBrought(w: World, es: seq<Emitted>, maxLen: nat): seq<Slice>
    requires Shaped(w)
  {
    if es == [] then []
    else
      AllBrought(w, es[..|es| - 1], maxLen) + Brought(ArriveAll(w, es[..|es| - 1], maxLen), es[|es| - 1])
  }

  /** The entry of the message wanted next has at least what some slices cover. */
  ghost predicate Holds(st: RecvState, slices: seq<Slice>)
    requires |st.slots| == MAX_FLIGHT
  {
    slices != [] ==>
      var slot := st.slots[st.readSeq % MAX_FLIGHT];
      slot.Some? && Union(slices) <= slot.value.received.Keys
  }

  lemma AbsorbGrows(p: Partial, off: nat, slice: seq<byte>)
    requires off + |slice| <= p.msgLen
    ensures var keys := p.Absorb(off, slice).received.Keys;
            p.received.Keys <= keys && Range(off, off + |slice|) <= keys
  {
    assert Placed(off, slice).Keys == Range(off, off + |slice|);
  }

  /** A fragment takes nothing from the entry of the message wanted next, and one of that message adds to it. */
  lemma FragmentGrows(st: RecvState, f: Fragment, epoch: nat, maxLen: nat)
    requires |st.slots| == MAX_FLIGHT && ProcessFragment(st, f, epoch, maxLen).Some?
    ensures var i := st.readSeq % MAX_FLIGHT;
            var slot, slot' := st.slots[i], ProcessFragment(st, f, epoch, maxLen).value.slots[i];
            && (slot.Some? ==> slot'.Some? && slot.value.received.Keys <= slot'.value.received.Keys)
            && (f.header.seqNum == st.readSeq ==>
                  slot'.Some? && Range(f.header.fragOff, f.header.fragOff + |f.body|) <= slot'.value.received.Keys)
  {
    hide Partial.Absorb;
    var h := f.header;
    if IncomingFor(st, h).Some? && h.fragOff + |f.body| <= h.msgLen {
      AbsorbGrows(IncomingFor(st, h).value, h.fragOff, f.body);
    }
    if st.readSeq <= h.seqNum < st.readSeq + MAX_FLIGHT && h.seqNum % MAX_FLIGHT == st.readSeq % MAX_FLIGHT {
      SameSlotSameMessage(h.seqNum, st.readSeq, st.readSeq);
    }
  }

  lemma UnionMore(slices: seq<Slice>, s: Slice)
    ensures Union(slices + [s]) == Union(slices) + Range(s.off, s.off + |s.bytes|)
  {
    assert (slices + [s])[..|slices|] == slices;
  }

  lemma HandshakeGrows(sent: seq<Message>, st: RecvState, e: Emitted, slices: seq<Slice>, epoch: nat, nullCipher: bool,
                       maxLen: nat)
    requires |st.slots| == MAX_FLIGHT && WireIsSent(sent, e) && Holds(st, slices)
    requires OpenHandshake(st, e.typ, e.plaintext, epoch, nullCipher, maxLen).Handled?
    ensures Holds(OpenHandshake(st, e.typ, e.plaintext, epoch, nullCipher, maxLen).st, slices + Carried(st.readSeq, e))
  {
    hide ProcessFragment, ParseFragment, FragmentOfSent, Union, Range;
    assert slices + [] == slices;
    if e.typ == RT_HANDSHAKE {
      var f := ParseFragment(e.plaintext).value;
      var r := ProcessFragment(st, f, epoch, maxLen);
      assert r.Some? ==> ProcessFragments(r.value, [], epoch, maxLen) == r;
      FragmentGrows(st, f, epoch, maxLen);
      UnionMore(slices, Slice(f.header.fragOff, f.body));
      UnionMore([], Slice(f.header.fragOff, f.body));
      NothingCovered();
    }
  }

  lemma NothingCovered()
    ensures Union([]) == {}
  {
  }

  /** Nothing that arrives takes from the entry of the message wanted next, and its fragments add to it. */
  lemma ArriveGrows(w: World, e: Emitted, slices: seq<Slice>, maxLen: nat)
    requires Inv(w) && Sane(w) && e in w.wire && Holds(w.receiver, slices)
    requires !ArriveStep(w, e, maxLen).broken
    ensures var w' := ArriveStep(w, e, maxLen);
            && Holds(w'.receiver, slices + Brought(w, e))
            && w' == w.(reader := w'.reader, receiver := w'.receiver) && w'.receiver.readSeq == w.receiver.readSeq
  {
    hide OpenRecord, OpenHandshake, Carried, Holds, KeysInv, Sane, QueuedIsSent, SlotIsSent, WireIsSent, Sound;
    WireOpens(w, e);
    assert WireIsSent(w.sent, e);
    assert slices + [] == slices;
    if OpenHandshake(w.receiver, e.typ, e.plaintext, w.reader.epoch, w.reader.aead.nullCipher, maxLen).Handled? {
      HandshakeGrows(w.sent, w.receiver, e, slices, w.reader.epoch, w.reader.aead.nullCipher, maxLen);
    }
    if OpenHandshake(w.receiver, e.typ, e.plaintext, w.reader.epoch, w.reader.aead.nullCipher, maxLen).Ignored? {
      IgnoredCarriesNothing(w.receiver, e, w.reader.epoch, w.reader.aead.nullCipher, maxLen);
    }
  }

  lemma IgnoredCarriesNothing(st: RecvState, e: Emitted, epoch: nat, nullCipher: bool, maxLen: nat)
    requires |st.slots| == MAX_FLIGHT
    requires OpenHandshake(st, e.typ, e.plaintext, epoch, nullCipher, maxLen).Ignored?
    ensures Carried(st.readSeq, e) == []
  {
  }

  lemma {:induction false} AllArrive(w: World, es: seq<Emitted>, maxLen: nat)
    requires Inv(w) && Sane(w) && forall e :: e in es ==> e in w.wire
    requires !ArriveAll(w, es, maxLen).broken
    ensures var w' := ArriveAll(w, es, maxLen);
            && Inv(w') && Sane(w') && Holds(w'.receiver, AllBrought(w, es, maxLen))
            && w' == w.(reader := w'.reader, receiver := w'.receiver) && w'.receiver.readSeq == w.receiver.readSeq
    decreases |es|
  {
    assert Shaped(w);
    hide ArriveStep, Brought, Sane, SenderInv, ReceiverInv, KeysInv;
    if es != [] {
      var n := |es| - 1;
      BrokenStays(ArriveAll(w, es[..n], maxLen), es[n], maxLen);
      AllArrive(w, es[..n], maxLen);
      var v := ArriveAll(w, es[..n], maxLen);
      ArriveGrows(v, es[n], AllBrought(w, es[..n], maxLen), maxLen);
      ArriveKeeps(v, es[n], maxLen);
      assert Sane(ArriveStep(v, es[n], maxLen)) by { SaneAside(v, ArriveStep(v, es[n], maxLen)); }
    }
  }

  lemma SaneAside(w: World, w': World)
    requires Sane(w) && w' == w.(reader := w'.reader, receiver := w'.receiver)
    ensures Sane(w')
  {
    hide Opens;
  }

  lemma BrokenStays(w: World, e: Emitted, maxLen: nat)
    requires Shaped(w) && !ArriveStep(w, e, maxLen).broken
    ensures !w.broken
  {
    hide OpenRecord, OpenHandshake;
  }

  /**
    Whatever arrives in whatever order, once the fragments that opened cover the message
    wanted next it can be taken, and it is the one sent.
   */
  lemma NextMessageArrives(w: World, es: seq<Emitted>, maxLen: nat)
    requires Inv(w) && Sane(w) && |w.taken| < |w.sent| && forall e :: e in es ==> e in w.wire
    requires !ArriveAll(w, es, maxLen).broken
    requires var slices := AllBrought(w, es, maxLen);
             slices != [] && Range(0, |w.sent[|w.taken|].body|) <= Union(slices)
    ensures TakeStep(ArriveAll(w, es, maxLen)).taken == w.taken + [w.sent[|w.taken|]]
  {
    hide ArriveAll, AllBrought, Sane, KeysInv, SenderInv, Range, Union;
    AllArrive(w, es, maxLen);
    var w', k := ArriveAll(w, es, maxLen), |w.taken|;
    assert SlotIsSent(w'.sent, w'.receiver.slots[k % MAX_FLIGHT], k);
    var p := w'.receiver.slots[k % MAX_FLIGHT].value;
    assert p.Complete() by { AgreedAndCovered(p, w.sent[k].body); }
    CompleteIsBody(p, w.sent[k].body);
  }

  lemma AgreedAndCovered(p: Partial, body: seq<byte>)
    requires Agrees(p, body) && Range(0, |body|) <= p.received.Keys
    ensures p.Complete()
  {
    assert forall i :: i in p.received ==> Between(i, 0, |body|);
  }

  /** A record of the message wanted next, if that is not too long, is no error. */
  predicate OfNext(w: World, e: Emitted, maxLen: nat) {
    && |e.plaintext| <= MAX_PLAIN
    && |w.taken| < |w.sent| && |w.sent[|w.taken|].body| <= maxLen
    && Carried(|w.taken|, e) != []
  }

  lemma OneOfNext(w: World, e: Emitted, maxLen: nat)
    requires Inv(w) && Sane(w) && !w.broken && e in w.wire && OfNext(w, e, maxLen)
    ensures !ArriveStep(w, e, maxLen).broken
  {
    hide OpenRecord, ParseFragment, KeysInv, Sane, QueuedIsSent, Sound, Partial.Absorb;
    WireOpens(w, e);
    assert WireIsSent(w.sent, e);
    var k := |w.taken|;
    assert SlotIsSent(w.sent, w.receiver.slots[k % MAX_FLIGHT], k);
    var f := ParseFragment(e.plaintext).value;
    var r := ProcessFragment(w.receiver, f, w.reader.epoch, maxLen);
    assert r.Some?;
    assert ProcessFragments(r.value, [], w.reader.epoch, maxLen) == r;
  }

  /** Records of the message wanted next, new or repeated, open or not, never break the receiver. */
  lemma {:induction false} NoneBreaks(w: World, es: seq<Emitted>, maxLen: nat)
    requires Inv(w) && Sane(w) && !w.broken
    requires forall e :: e in es ==> e in w.wire && OfNext(w, e, maxLen)
    ensures !ArriveAll(w, es, maxLen).broken
    decreases |es|
  {
    assert Shaped(w);
    hide ArriveStep, Sane, SenderInv, ReceiverInv, KeysInv, OfNext;
    if es != [] {
      var n := |es| - 1;
      NoneBreaks(w, es[..n], maxLen);
      AllArrive(w, es[..n], maxLen);
      var v := ArriveAll(w, es[..n], maxLen);
      assert es[n] in v.wire && OfNext(v, es[n], maxLen) by { OfNextAside(w, v, es[n], maxLen); }
      OneOfNext(v, es[n], maxLen);
    }
  }

  lemma OfNextAside(w: World, w': World, e: Emitted, maxLen: nat)
    requires OfNext(w, e, maxLen) && w' == w.(reader := w'.reader, receiver := w'.receiver)
    ensures OfNext(w', e, maxLen)
  {
  }
}
