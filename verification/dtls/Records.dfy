/**
  The DTLS record layer of dtls_record.cc and the cipher changes of dtls_method.cc.
  A record number is 64 bits, the epoch in the top 16 and a counter in the low 48.
  Proved of whole runs: the reader accepts no number twice, the writer uses none
  twice, and the reader opens what the writer seals.
 */
module Records {
  import opened Wrappers
  import opened Bits
  import opened Parsing
  import opened Protocol
  import opened ReplayWindow

  const RECORD_HEADER := 13
  const MAX_ENCRYPTED := 16704
  const DTLS1_VERSION_MAJOR := 0xfe

  /**
    Record protection under one set of keys.  Sealing depends on the record number and
    type and may fail; opening yields the plaintext, or nothing for a bad record.
   */
  datatype Aead = Aead(nullCipher: bool, version: nat, maxOverhead: nat, explicitNonceLen: nat,
                       seal: (nat, byte, seq<byte>) -> Option<seq<byte>>,
                       open: (nat, byte, seq<byte>) -> Option<seq<byte>>)

  // ----- Reading

  datatype Header = Header(typ: byte, version: nat, number: nat, body: seq<byte>)

  function ParseRecord(bs: seq<byte>): (r: Parsed<Header>)
    ensures r.Ok? ==> |r.rest| < |bs| && |r.value.body| <= MAX_ENCRYPTED
  {
    var (typ, bs1) :- Take(bs, 1);
    var (version, bs2) :- GetUint(bs1, 2);
    var (number, bs3) :- GetUint(bs2, 8);
    var (body, rest) :- GetPrefixed(bs3, 2);
    if |body| > MAX_ENCRYPTED then Fail else Ok(Header(typ[0], version, number, body), rest)
  }

  datatype ReadState = ReadState(epoch: nat, window: Window, aead: Aead, closed: bool)

  /** What comes of a packet: at best one record, of so many bytes. */
  datatype Opened =
    | Success(typ: byte, number: nat, plaintext: seq<byte>, consumed: nat)
    | AlertReceived(number: nat, plaintext: seq<byte>, consumed: nat)
    | Discard(consumed: nat)
    | PartialRecord
    | CloseNotify
    | Error

  predicate VersionOk(aead: Aead, version: nat) {
    if aead.nullCipher then version / 256 == DTLS1_VERSION_MAJOR else version == aead.version
  }

  function OpenRecord(st: ReadState, bs: seq<byte>): (r: (ReadState, Opened)) {
    if st.closed then (st, CloseNotify)
    else if bs == [] then (st, PartialRecord)
    else
      match ParseRecord(bs)
      case Fail => (st, Discard(|bs|))
      case Ok(h, rest) =>
        var consumed := |bs| - |rest|;
        if !VersionOk(st.aead, h.version) then (st, Discard(|bs|))
        else if h.number / TWO_48 != st.epoch || ShouldDiscard(st.window, h.number) then (st, Discard(consumed))
        else
          var plaintext := st.aead.open(h.number, h.typ, h.body);
          if plaintext.None? then (st, Discard(consumed))
          else if |plaintext.value| > MAX_PLAIN then (st, Error)
          else
            var st' := st.(window := Record(st.window, h.number));
            if h.typ == RT_ALERT then (st', AlertReceived(h.number, plaintext.value, consumed))
            else (st', Success(h.typ, h.number, plaintext.value, consumed))
  }

  /** A new read cipher: the next epoch, and a fresh window. */
  function SetReadState(st: ReadState, aead: Aead): ReadState {
    st.(epoch := (st.epoch + 1) % TWO_16, window := EMPTY, aead := aead)
  }

  /** The reader of a connection, as the C code keeps it. */
  class RecordReader {
    var epoch: nat
    const bitmap: Bitmap
    var aead: Aead
    var closed: bool

    ghost function State(): ReadState
      reads this, bitmap
    {
      ReadState(epoch, bitmap.Value(), aead, closed)
    }

    constructor (aead: Aead)
      ensures State() == ReadState(0, EMPTY, aead, false) && fresh(bitmap)
    {
      epoch, this.aead, closed := 0, aead, false;
      bitmap := new Bitmap();
    }

    method Open(bs: seq<byte>) returns (r: Opened)
      modifies bitmap
      ensures (State(), r) == OpenRecord(old(State()), bs)
    {
      hide ShouldDiscard, Record;
      if closed {
        return CloseNotify;
      }
      if bs == [] {
        return PartialRecord;
      }
      var header := ParseRecord(bs);
      if header.Fail? {
        return Discard(|bs|);
      }
      var h, consumed := header.value, |bs| - |header.rest|;
      if !VersionOk(aead, h.version) {
        return Discard(|bs|);
      }
      var replayed := bitmap.Discards(h.number);
      if h.number / TWO_48 != epoch || replayed {
        return Discard(consumed);
      }
      var plaintext := aead.open(h.number, h.typ, h.body);
      if plaintext.None? {
        return Discard(consumed);
      }
      if |plaintext.value| > MAX_PLAIN {
        return Error;
      }
      bitmap.Note(h.number);
      if h.typ == RT_ALERT {
        return AlertReceived(h.number, plaintext.value, consumed);
      }
      return Success(h.typ, h.number, plaintext.value, consumed);
    }

    method SetCipher(aead: Aead)
      modifies this, bitmap
      ensures State() == SetReadState(old(State()), aead)
    {
      epoch := (epoch + 1) % TWO_16;
      bitmap.Clear();
      this.aead := aead;
    }
  }

  // ----- No record is accepted twice

  /** The number of an accepted record. */
  function Taken(r: Opened): seq<nat> {
    if r.Success? || r.AlertReceived? then [r.number] else []
  }

  /** A packet that is not accepted, for whatever reason, changes nothing; one that is moves only the window. */
  lemma UnacceptedChangesNothing(st: ReadState, bs: seq<byte>)
    ensures var (st', r) := OpenRecord(st, bs);
            if Taken(r) == [] then st' == st
            else st' == st.(window := Record(st.window, Taken(r)[0])) && !ShouldDiscard(st.window, Taken(r)[0])
  {
    hide ParseRecord, ShouldDiscard, Record;
  }

  datatype ReadEvent = Arrived(bytes: seq<byte>) | NewReadCipher(aead: Aead)

  function ReadStep(st: ReadState, e: ReadEvent): (ReadState, seq<nat>) {
    match e
    case Arrived(bytes) => (var (st', r) := OpenRecord(st, bytes); (st', Taken(r)))
    case NewReadCipher(aead) => (SetReadState(st, aead), [])
  }

  /** The state after a run, and the numbers accepted in it. */
  function ReadRun(start: ReadState, events: seq<ReadEvent>): (ReadState, seq<nat>) {
    if events == [] then (start, [])
    else
      var last := |events| - 1;
      var (st, taken) := ReadRun(start, events[..last]);
      var (st', more) := ReadStep(st, events[last]);
      (st', taken + more)
  }

  predicate Distinct(s: seq<nat>) {
    forall i, j :: 0 <= i < j < |s| ==> s[i] != s[j]
  }

  /** The numbers among `taken` that belong to an epoch. */
  ghost function OfEpoch(taken: seq<nat>, epoch: nat): set<nat> {
    set n | n in taken && n / TWO_48 == epoch
  }

  ghost predicate ReaderTracks(st: ReadState, taken: seq<nat>) {
    && Distinct(taken)
    && (forall n :: n in taken ==> n / TWO_48 <= st.epoch)
    && Tracks(st.window, OfEpoch(taken, st.epoch))
  }

  function CipherChanges(events: seq<ReadEvent>): nat {
    if events == [] then 0
    else CipherChanges(events[..|events| - 1]) + if events[|events| - 1].NewReadCipher? then 1 else 0
  }

  lemma TakenOne(st: ReadState, taken: seq<nat>, bytes: seq<byte>)
    requires ReaderTracks(st, taken)
    ensures var (st', r) := OpenRecord(st, bytes);
            ReaderTracks(st', taken + Taken(r)) && st'.epoch == st.epoch
  {
    hide Tracks, ShouldDiscard, Record, ParseRecord;
    var (st', r) := OpenRecord(st, bytes);
    if Taken(r) == [] {
      assert taken + Taken(r) == taken;
    } else {
      var n := r.number;
      DiscardsExactly(st.window, OfEpoch(taken, st.epoch), n);
      RecordTracks(st.window, OfEpoch(taken, st.epoch), n);
      assert n !in OfEpoch(taken, st.epoch);
      assert n !in taken;
      assert OfEpoch(taken + [n], st.epoch) == OfEpoch(taken, st.epoch) + {n};
    }
  }

  lemma NewEpoch(st: ReadState, taken: seq<nat>, aead: Aead)
    requires ReaderTracks(st, taken) && st.epoch + 1 < TWO_16
    ensures ReaderTracks(SetReadState(st, aead), taken)
  {
    EmptyTracks();
    hide Tracks;
    assert OfEpoch(taken, st.epoch + 1) == {};
  }

  lemma {:induction false} ReadRunTracks(start: ReadState, events: seq<ReadEvent>)
    requires start.window == EMPTY && start.epoch + CipherChanges(events) < TWO_16
    ensures var (st, taken) := ReadRun(start, events);
            ReaderTracks(st, taken) && st.epoch == start.epoch + CipherChanges(events)
    decreases |events|
  {
    hide OpenRecord, SetReadState;
    if events == [] {
      EmptyTracks();
      assert OfEpoch([], start.epoch) == {};
    } else {
      var last := |events| - 1;
      ReadRunTracks(start, events[..last]);
      hide ReaderTracks, Tracks;
      var (st, taken) := ReadRun(start, events[..last]);
      match events[last] {
        case Arrived(bytes) => TakenOne(st, taken, bytes);
        case NewReadCipher(aead) =>
          NewEpoch(st, taken, aead);
          SetReadStateEpoch(st, aead);
          assert taken + [] == taken;
      }
    }
  }

  lemma SetReadStateEpoch(st: ReadState, aead: Aead)
    requires st.epoch + 1 < TWO_16
    ensures SetReadState(st, aead).epoch == st.epoch + 1
  {
  }

  /** Over any run of packets and cipher changes no (epoch, sequence) is accepted twice. */
  lemma {:induction false} NoRecordAcceptedTwice(start: ReadState, events: seq<ReadEvent>)
    requires start.window == EMPTY && start.epoch + CipherChanges(events) < TWO_16
    ensures Distinct(ReadRun(start, events).1)
  {
    hide Distinct, ReadRun, Tracks;
    ReadRunTracks(start, events);
  }

  /** Nothing accepted in the epoch lies 64 or more above a number. */
  predicate Recent(taken: seq<nat>, epoch: nat, n: nat) {
    forall m :: m in taken && m / TWO_48 == epoch ==> m < n + WINDOW_SIZE
  }

  lemma DiscardedExactly(st: ReadState, taken: seq<nat>, n: nat)
    requires ReaderTracks(st, taken) && n / TWO_48 == st.epoch
    ensures ShouldDiscard(st.window, n) <==> n in taken || !Recent(taken, st.epoch, n)
  {
    var seen := OfEpoch(taken, st.epoch);
    DiscardsExactly(st.window, seen, n);
    if n + WINDOW_SIZE <= st.window.maxSeqNum {
      assert st.window.maxSeqNum in seen;
    } else {
      assert forall m :: m in taken && m / TWO_48 == st.epoch ==> m in seen;
    }
  }

  /**
    After any run a well-formed record of the current epoch that opens is accepted
    unless its number was accepted before or lies 64 or more below an accepted one.
   */
  lemma AcceptedExactlyIfNew(start: ReadState, events: seq<ReadEvent>, bs: seq<byte>)
    requires start.window == EMPTY && start.epoch + CipherChanges(events) < TWO_16 && !start.closed
    requires ParseRecord(bs).Ok?
    requires var (st, h) := (ReadRun(start, events).0, ParseRecord(bs).value);
             && VersionOk(st.aead, h.version) && h.number / TWO_48 == st.epoch
             && st.aead.open(h.number, h.typ, h.body).Some?
             && |st.aead.open(h.number, h.typ, h.body).value| <= MAX_PLAIN
    ensures var (st, taken) := ReadRun(start, events);
            var n := ParseRecord(bs).value.number;
            Taken(OpenRecord(st, bs).1) == [n] <==> n !in taken && Recent(taken, st.epoch, n)
  {
    hide ReadRun, ParseRecord, ShouldDiscard, Record, ReaderTracks, Recent;
    ReadRunTracks(start, events);
    StaysOpen(start, events);
    var (st, taken) := ReadRun(start, events);
    DiscardedExactly(st, taken, ParseRecord(bs).value.number);
    assert bs != [] by { ParsesSomething(bs); }
  }

  lemma ParsesSomething(bs: seq<byte>)
    requires ParseRecord(bs).Ok?
    ensures bs != []
  {
  }

  lemma {:induction false} StaysOpen(start: ReadState, events: seq<ReadEvent>)
    ensures ReadRun(start, events).0.closed == start.closed
    decreases |events|
  {
    hide ParseRecord, ShouldDiscard, Record;
    if events != [] {
      StaysOpen(start, events[..|events| - 1]);
    }
  }

  // ----- Writing

  /** The counters of the current write epoch and of the one before it. */
  datatype WriteState = WriteState(epoch: nat, sequence: nat, lastSequence: nat, aead: Aead, lastAead: Aead)

  datatype UseEpoch = UsePrevious | UseCurrent

  datatype Sealed = Sealed(number: nat, bytes: seq<byte>) | SealFailed | WrappedAround

  function WriteAead(st: WriteState, use: UseEpoch): Aead {
    if use.UsePrevious? then st.lastAead else st.aead
  }

  function MaxSealOverhead(st: WriteState, use: UseEpoch): nat { RECORD_HEADER + WriteAead(st, use).maxOverhead }

  function SealPrefixLength(st: WriteState, use: UseEpoch): nat { RECORD_HEADER + WriteAead(st, use).explicitNonceLen }

  function SetSequence(st: WriteState, use: UseEpoch, sequence: nat): WriteState {
    if use.UsePrevious? then st.(lastSequence := sequence) else st.(sequence := sequence)
  }

  /** The record's number: the epoch over the epoch's own counter. */
  function NextNumber(st: WriteState, use: UseEpoch): nat
    requires use.UsePrevious? ==> st.epoch >= 1
  {
    if use.UsePrevious? then (st.epoch - 1) * TWO_48 + st.lastSequence else st.epoch * TWO_48 + st.sequence
  }

  /** The version in the header is the current cipher's, whichever epoch is used. */
  function RecordBytes(typ: byte, version: nat, number: nat, ciphertext: seq<byte>): (bs: seq<byte>)
    ensures |bs| == RECORD_HEADER + |ciphertext|
  {
    [typ] + BigEndian(version, 2) + BigEndian(number, 8) + Prefixed(ciphertext, 2)
  }

  function SealRecord(st: WriteState, maxOut: nat, typ: byte, plaintext: seq<byte>, use: UseEpoch)
    : (r: (WriteState, Sealed))
    requires use.UsePrevious? ==> st.epoch >= 1
  {
    var aead, number := WriteAead(st, use), NextNumber(st, use);
    if maxOut < RECORD_HEADER then (st, SealFailed)
    else
      var ciphertext := aead.seal(number, typ, plaintext);
      if ciphertext.None? || |ciphertext.value| > maxOut - RECORD_HEADER then (st, SealFailed)
      else
        var next := if use.UsePrevious? then st.lastSequence + 1 else st.sequence + 1;
        if next >= TWO_48 then (SetSequence(st, use, 0), WrappedAround)
        else
          var st' := SetSequence(st, use, next);
          if |ciphertext.value| >= TWO_16 then (st', SealFailed)
          else (st', Sealed(number, RecordBytes(typ, st.aead.version, number, ciphertext.value)))
  }

  /** A new write cipher: the old one stays usable for retransmission, under its own counter. */
  function SetWriteState(st: WriteState, aead: Aead): WriteState {
    WriteState((st.epoch + 1) % TWO_16, 0, st.sequence, aead, st.aead)
  }

  /** The writer of a connection, as the C code keeps it. */
  class RecordWriter {
    var epoch: nat
    var sequence: nat
    var lastSequence: nat
    var aead: Aead
    var lastAead: Aead

    ghost function State(): WriteState
      reads this
    {
      WriteState(epoch, sequence, lastSequence, aead, lastAead)
    }

    constructor (aead: Aead)
      ensures State() == WriteState(0, 0, 0, aead, aead)
    {
      epoch, sequence, lastSequence, this.aead, lastAead := 0, 0, 0, aead, aead;
    }

    method Seal(maxOut: nat, typ: byte, plaintext: seq<byte>, use: UseEpoch) returns (r: Sealed)
      requires use.UsePrevious? ==> epoch >= 1
      modifies this
      ensures (State(), r) == SealRecord(old(State()), maxOut, typ, plaintext, use)
    {
      var writeEpoch, writeAead, seqNum := epoch, aead, sequence;
      if use.UsePrevious? {
        writeEpoch, writeAead, seqNum := epoch - 1, lastAead, lastSequence;
      }
      if maxOut < RECORD_HEADER {
        return SealFailed;
      }
      var number := writeEpoch * TWO_48 + seqNum;
      var ciphertext := writeAead.seal(number, typ, plaintext);
      if ciphertext.None? || |ciphertext.value| > maxOut - RECORD_HEADER {
        return SealFailed;
      }
      // The 48-bit counter; at its end it wraps around, and that is reported.
      var wrapped := seqNum + 1 >= TWO_48;
      seqNum := if wrapped then 0 else seqNum + 1;
      if use.UsePrevious? {
        lastSequence := seqNum;
      } else {
        sequence := seqNum;
      }
      if wrapped {
        return WrappedAround;
      }
      if |ciphertext.value| >= TWO_16 {
        return SealFailed;
      }
      return Sealed(number, RecordBytes(typ, aead.version, number, ciphertext.value));
    }

    method SetCipher(aead: Aead)
      modifies this
      ensures State() == SetWriteState(old(State()), aead)
    {
      epoch := (epoch + 1) % TWO_16;
      lastSequence := sequence;
      sequence := 0;
      lastAead := this.aead;
      this.aead := aead;
    }
  }

  // ----- No number is used twice

  datatype WriteEvent =
    | SealOne(use: UseEpoch, maxOut: nat, typ: byte, plaintext: seq<byte>)
    | NewWriteCipher(aead: Aead)

  /** One event; the previous epoch cannot be used before there is one. */
  function WriteStep(st: WriteState, e: WriteEvent): (WriteState, Sealed) {
    match e
    case SealOne(use, maxOut, typ, plaintext) =>
      if use.UsePrevious? && st.epoch == 0 then (st, SealFailed) else SealRecord(st, maxOut, typ, plaintext, use)
    case NewWriteCipher(aead) => (SetWriteState(st, aead), SealFailed)
  }

  /** The state after a run, the numbers of the records sealed, and whether a counter wrapped. */
  function WriteRun(start: WriteState, events: seq<WriteEvent>): (WriteState, seq<nat>, bool) {
    if events == [] then (start, [], false)
    else
      var last := |events| - 1;
      var (st, used, wrapped) := WriteRun(start, events[..last]);
      var (st', r) := WriteStep(st, events[last]);
      (st', used + if r.Sealed? then [r.number] else [], wrapped || r.WrappedAround?)
  }

  function WriteCipherChanges(events: seq<WriteEvent>): nat {
    if events == [] then 0
    else WriteCipherChanges(events[..|events| - 1]) + if events[|events| - 1].NewWriteCipher? then 1 else 0
  }

  /** A number of an older epoch, or below its epoch's counter. */
  predicate Spent(st: WriteState, n: nat) {
    var epoch, low := n / TWO_48, n % TWO_48;
    || epoch + 1 < st.epoch
    || (epoch + 1 == st.epoch && low < st.lastSequence)
    || (epoch == st.epoch && low < st.sequence)
  }

  predicate WriterTracks(st: WriteState, used: seq<nat>) {
    && Distinct(used) && st.sequence < TWO_48 && st.lastSequence < TWO_48
    && forall n :: n in used ==> Spent(st, n)
  }

  lemma NumberParts(epoch: nat, low: nat)
    requires low < TWO_48
    ensures (epoch * TWO_48 + low) / TWO_48 == epoch && (epoch * TWO_48 + low) % TWO_48 == low
  {
  }

  lemma WriteStepTracks(st: WriteState, used: seq<nat>, e: WriteEvent)
    requires WriterTracks(st, used) && (e.NewWriteCipher? ==> st.epoch + 1 < TWO_16)
    requires !WriteStep(st, e).1.WrappedAround?
    ensures var (st', r) := WriteStep(st, e);
            && WriterTracks(st', used + if r.Sealed? then [r.number] else [])
            && st'.epoch == st.epoch + if e.NewWriteCipher? then 1 else 0
  {
    hide RecordBytes;
    var (st', r) := WriteStep(st, e);
    if r.Sealed? {
      NumberParts(if e.use.UsePrevious? then st.epoch - 1 else st.epoch,
                  if e.use.UsePrevious? then st.lastSequence else st.sequence);
      assert !Spent(st, r.number) && Spent(st', r.number);
    } else {
      assert used + [] == used;
    }
    forall n | n in used
      ensures Spent(st', n)
    {
      assert Spent(st, n) && n % TWO_48 < TWO_48;
    }
  }

  lemma {:induction false} WriteRunTracks(start: WriteState, events: seq<WriteEvent>)
    requires start.sequence < TWO_48 && start.lastSequence < TWO_48
    requires start.epoch + WriteCipherChanges(events) < TWO_16
    requires !WriteRun(start, events).2
    ensures var (st, used, _) := WriteRun(start, events);
            WriterTracks(st, used) && st.epoch == start.epoch + WriteCipherChanges(events)
    decreases |events|
  {
    hide WriteStep, WriterTracks;
    if events == [] {
      assert WriterTracks(start, []) by { NothingUsed(start); }
    } else {
      var last := |events| - 1;
      WriteRunTracks(start, events[..last]);
      var (st, used, _) := WriteRun(start, events[..last]);
      WriteStepTracks(st, used, events[last]);
    }
  }

  lemma NothingUsed(st: WriteState)
    requires st.sequence < TWO_48 && st.lastSequence < TWO_48
    ensures WriterTracks(st, [])
  {
  }

  /**
    However seals in the current epoch, retransmissions in the previous one and cipher
    changes are interleaved, until a wraparound is reported no number is used twice.
   */
  lemma NoNumberUsedTwice(start: WriteState, events: seq<WriteEvent>)
    requires start.sequence < TWO_48 && start.lastSequence < TWO_48
    requires start.epoch + WriteCipherChanges(events) < TWO_16
    requires !WriteRun(start, events).2
    ensures Distinct(WriteRun(start, events).1)
  {
    hide Distinct, WriteRun;
    WriteRunTracks(start, events);
  }

  // ----- The reader opens what the writer seals

  /** What was written is read back, unless it is too long for a record. */
  lemma RecordBytesRead(typ: byte, version: nat, number: nat, ciphertext: seq<byte>, rest: seq<byte>)
    requires version < TWO_16 && number < TWO_64 && |ciphertext| < TWO_16
    ensures ParseRecord(RecordBytes(typ, version, number, ciphertext) + rest) ==
            if |ciphertext| > MAX_ENCRYPTED then Fail else Ok(Header(typ, version, number, ciphertext), rest)
  {
    hide BigEndian, FromBigEndian, GetUint, GetPrefixed, Prefixed, Limit;
    var bs3 := Prefixed(ciphertext, 2) + rest;
    var bs2 := BigEndian(number, 8) + bs3;
    var bs1 := BigEndian(version, 2) + bs2;
    assert RecordBytes(typ, version, number, ciphertext) + rest == [typ] + bs1;
    TakeInverse([typ], bs1);
    Limits();
    GetUintInverse(version, 2, bs2);
    GetUintInverse(number, 8, bs3);
    GetPrefixedInverse(ciphertext, 2, rest);
  }

  /** Whatever one cipher seals another opens, to the same plaintext. */
  ghost predicate Opens(read: Aead, write: Aead) {
    forall number: nat, typ: byte, plaintext: seq<byte> ::
      var c := write.seal(number, typ, plaintext);
      c.Some? ==> read.open(number, typ, c.value) == Some(plaintext)
  }

  /** What a cipher sealed comes out as it went in, exactly when the reader is in its epoch and the number is new to it. */
  lemma OpensAsSealed(write: Aead, version: nat, number: nat, typ: byte, plaintext: seq<byte>,
                      st: ReadState, rest: seq<byte>)
    requires version < TWO_16 && number < TWO_64
    requires number / TWO_48 == st.epoch ==> Opens(st.aead, write)
    requires var c := write.seal(number, typ, plaintext); c.Some? && |c.value| < TWO_16
    ensures var bs := RecordBytes(typ, version, number, write.seal(number, typ, plaintext).value);
            var (st', r) := OpenRecord(st, bs + rest);
            && (r.Success? <==>
                  && !st.closed && |bs| <= RECORD_HEADER + MAX_ENCRYPTED && VersionOk(st.aead, version)
                  && number / TWO_48 == st.epoch && !ShouldDiscard(st.window, number)
                  && |plaintext| <= MAX_PLAIN && typ != RT_ALERT)
            && (r.Success? ==>
                  && r == Success(typ, number, plaintext, |bs|)
                  && st' == st.(window := Record(st.window, number)))
            && (r.Error? ==> |plaintext| > MAX_PLAIN)
  {
    hide ParseRecord, RecordBytes, ShouldDiscard, Record;
    var c := write.seal(number, typ, plaintext).value;
    RecordBytesRead(typ, version, number, c, rest);
    assert RecordBytes(typ, version, number, c) + rest != [];
  }

  /**
    A sealed record reaches the peer's handshake layer as it was sealed, exactly when the
    peer reads its epoch and the number is new.
   */
  lemma OpenInvertsSeal(w: WriteState, maxOut: nat, typ: byte, plaintext: seq<byte>, use: UseEpoch,
                        st: ReadState, rest: seq<byte>)
    requires use.UsePrevious? ==> w.epoch >= 1
    requires SealRecord(w, maxOut, typ, plaintext, use).1.Sealed?
    requires w.aead.version < TWO_16 && NextNumber(w, use) < TWO_64
    requires NextNumber(w, use) / TWO_48 == st.epoch ==> Opens(st.aead, WriteAead(w, use))
    ensures var sealed := SealRecord(w, maxOut, typ, plaintext, use).1;
            var (st', r) := OpenRecord(st, sealed.bytes + rest);
            && (r.Success? <==>
                  && !st.closed && |sealed.bytes| <= RECORD_HEADER + MAX_ENCRYPTED
                  && VersionOk(st.aead, w.aead.version)
                  && sealed.number / TWO_48 == st.epoch && !ShouldDiscard(st.window, sealed.number)
                  && |plaintext| <= MAX_PLAIN && typ != RT_ALERT)
            && (r.Success? ==>
                  && r == Success(typ, sealed.number, plaintext, |sealed.bytes|)
                  && st' == st.(window := Record(st.window, sealed.number)))
  {
    hide OpenRecord, RecordBytes, ShouldDiscard, Record, Opens;
    OpensAsSealed(WriteAead(w, use), w.aead.version, NextNumber(w, use), typ, plaintext, st, rest);
  }
}
