/**
  Writing over TLS without blocking (s3_pkt.cc, s3_both.cc): handshake records wait in
  a flight, application records in a write buffer, and both are retried piece by piece.
  Nothing sealed is lost, repeated or reordered, and a write reported done was sealed
  exactly once and is all with the transport.
 */
module WritePath {
  import opened Wrappers
  import opened Bits
  import opened Protocol
  import opened Buffers

  const INT_MAX: int := 0x7fff_ffff

  /** A sealed record, with what it carries. */
  datatype SealedRecord = SealedRecord(typ: byte, plaintext: seq<byte>, bytes: seq<byte>)

  /** The records on the wire. */
  function Wire(records: seq<SealedRecord>): seq<byte> {
    if records == [] then [] else records[0].bytes + Wire(records[1..])
  }

  /** What the records of a type carry, in order. */
  function Carried(records: seq<SealedRecord>, typ: byte): seq<byte> {
    if records == [] then []
    else (if records[0].typ == typ then records[0].plaintext else []) + Carried(records[1..], typ)
  }

  lemma NothingSealed()
    ensures Wire([]) == [] && forall typ :: Carried([], typ) == []
  {
  }

  lemma Associative(a: seq<byte>, b: seq<byte>, c: seq<byte>)
    ensures a + (b + c) == (a + b) + c
  {
  }

  lemma {:induction false} WireConcat(a: seq<SealedRecord>, b: seq<SealedRecord>)
    ensures Wire(a + b) == Wire(a) + Wire(b)
  {
    if a == [] {
      assert a + b == b;
    } else {
      assert (a + b)[1..] == a[1..] + b && (a + b)[0] == a[0];
      WireConcat(a[1..], b);
      Associative(a[0].bytes, Wire(a[1..]), Wire(b));
    }
  }

  lemma {:induction false} CarriedConcat(a: seq<SealedRecord>, b: seq<SealedRecord>, typ: byte)
    ensures Carried(a + b, typ) == Carried(a, typ) + Carried(b, typ)
  {
    if a == [] {
      assert a + b == b;
    } else {
      assert (a + b)[1..] == a[1..] + b && (a + b)[0] == a[0];
      CarriedConcat(a[1..], b, typ);
      Associative(if a[0].typ == typ then a[0].plaintext else [], Carried(a[1..], typ), Carried(b, typ));
    }
  }

  lemma WireOne(records: seq<SealedRecord>, r: SealedRecord)
    ensures Wire(records + [r]) == Wire(records) + r.bytes
  {
    assert Wire([r]) == r.bytes by { assert [r][1..] == []; }
    WireConcat(records, [r]);
  }

  lemma CarriedOne(records: seq<SealedRecord>, r: SealedRecord, typ: byte)
    ensures Carried(records + [r], typ) == Carried(records, typ) + if r.typ == typ then r.plaintext else []
  {
    assert Carried([r], typ) == if r.typ == typ then r.plaintext else [] by { assert [r][1..] == []; }
    CarriedConcat(records, [r], typ);
  }

  /** Bytes that move from a queue to the transport stay in order. */
  lemma MovedFrom(taken: seq<byte>, queue: seq<byte>, from: nat, n: nat)
    requires from + n <= |queue|
    ensures (taken + queue[from..][..n]) + queue[from + n..] == taken + queue[from..]
  {
    assert queue[from..] == queue[from..][..n] + queue[from + n..];
  }

  class TlsWriter {
    const writeBuffer: SslBuffer
    const bio: Transport

    // The flight of sealed handshake records, and how much of it was written.
    var pendingFlight: Option<seq<byte>>
    var pendingFlightOffset: nat

    // How much of an application write is done, and the record it is stuck in.
    var wnum: nat
    var wpendPending: bool
    var wpendTot: nat
    var wpendBuf: int
    var wpendType: byte
    var wpendRet: nat

    var writeShutdown: bool

    // Settings and the record protection; sealing may fail.
    const maxSendFragment: nat
    const partialWrite: bool
    const acceptMovingBuffer: bool
    const maxSealOverhead: nat
    const alignPrefix: nat

    // Where the allocator puts one piece of memory after the other; fixed in advance, but unknown.
    const addresses: nat -> nat
    var allocations: nat

    var seal: (nat, byte, seq<byte>) -> Option<seq<byte>>
    var sequence: nat

    // Every record ever sealed, and how many of the last ones are the flight.
    ghost var sealed: seq<SealedRecord>
    ghost var flightCount: nat

    // The application data reported written, and what was sealed beyond it.
    ghost var reported: seq<byte>
    ghost var inFlight: seq<byte>

    /** The part of the flight still to be written. */
    ghost function FlightRest(): seq<byte>
      reads this`pendingFlight, this`pendingFlightOffset
    {
      if pendingFlight.Some? && pendingFlightOffset <= |pendingFlight.value|
      then pendingFlight.value[pendingFlightOffset..] else []
    }

    /** The records in the flight. */
    ghost function InFlight(): seq<SealedRecord>
      requires flightCount <= |sealed|
      reads this`sealed, this`flightCount
    {
      sealed[|sealed| - flightCount..]
    }

    ghost predicate Parts()
      reads this`pendingFlight, this`pendingFlightOffset, this`sealed, this`flightCount
      reads this`wpendPending, this`wpendTot, this`wpendRet, writeBuffer
    {
      && writeBuffer.Valid()
      && flightCount <= |sealed|
      && (pendingFlight.None? ==> flightCount == 0 && pendingFlightOffset == 0)
      && (pendingFlight.Some? ==> pendingFlightOffset <= |pendingFlight.value| && Wire(InFlight()) == pendingFlight.value)
      && (pendingFlightOffset > 0 ==> writeBuffer.size == 0)
      && Carried(InFlight(), RT_APPLICATION_DATA) == []
      && (wpendPending ==> 0 < wpendRet == wpendTot)
    }

    /** What the transport took, what waits in the buffer, and the flight: all that was sealed, in order. */
    ghost predicate Conserved()
      requires writeBuffer.Valid()
      reads this`pendingFlight, this`pendingFlightOffset, this`sealed, writeBuffer, writeBuffer.buf, bio`accepted
    {
      bio.accepted + writeBuffer.Contents() + FlightRest() == Wire(sealed)
    }

    ghost predicate Valid()
      reads this, writeBuffer, writeBuffer.buf, bio`accepted
    {
      Parts() && Conserved()
    }

    /** The application data sealed is what was reported and what is in flight, and the counters know how much. */
    ghost predicate Tracked()
      reads this
    {
      && Carried(sealed, RT_APPLICATION_DATA) == reported + inFlight
      && |inFlight| == wnum + if wpendPending && wpendType == RT_APPLICATION_DATA then wpendRet else 0
    }

    constructor (bio: Transport, maxSendFragment: nat, partialWrite: bool, acceptMovingBuffer: bool,
                 maxSealOverhead: nat, alignPrefix: nat, addresses: nat -> nat,
                 seal: (nat, byte, seq<byte>) -> Option<seq<byte>>)
      requires bio.accepted == [] && 0 < maxSendFragment <= MAX_PLAIN
      ensures Valid() && Tracked() && fresh(writeBuffer) && fresh(writeBuffer.buf) && this.bio == bio
      ensures sealed == [] && reported == [] && inFlight == [] && !writeShutdown
    {
      NothingSealed();
      hide Wire, Carried, SslBuffer.Contents;
      this.bio := bio;
      writeBuffer := new SslBuffer();
      pendingFlight, pendingFlightOffset := None, 0;
      wnum, wpendPending, wpendTot, wpendBuf, wpendType, wpendRet := 0, false, 0, 0, 0, 0;
      writeShutdown, sequence, this.addresses, allocations := false, 0, addresses, 0;
      this.maxSendFragment, this.partialWrite, this.acceptMovingBuffer := maxSendFragment, partialWrite, acceptMovingBuffer;
      this.maxSealOverhead, this.alignPrefix, this.seal := maxSealOverhead, alignPrefix, seal;
      sealed, flightCount, reported, inFlight := [], 0, [], [];
    }

    // ----- The write buffer

    method FlushWriteBuffer() returns (ret: int)
      requires Valid()
      modifies writeBuffer, bio
      ensures Valid() && (writeBuffer.buf == old(writeBuffer.buf) || fresh(writeBuffer.buf))
      ensures ret > 0 ==> ret == 1 && writeBuffer.size == 0 && writeBuffer.cap == 0
    {
      hide Wire, Carried;
      ret := WriteBufferFlush(writeBuffer, bio);
    }

    // ----- The flight

    method SealRecord(typ: byte, data: seq<byte>, maxOut: nat) returns (bytes: Option<seq<byte>>)
      modifies this`sequence
      ensures bytes.Some? ==> |bytes.value| <= maxOut
    {
      bytes := seal(sequence, typ, data);
      if bytes.Some? {
        if |bytes.value| > maxOut {
          return None;
        }
        sequence := sequence + 1;
      }
    }

    /** Seal a record onto the flight; the flight is never added to while it is being written. */
    method AddRecordToFlight(typ: byte, data: seq<byte>) returns (ok: bool)
      requires Valid() && pendingFlightOffset == 0 && typ != RT_APPLICATION_DATA
      modifies this`pendingFlight, this`sequence, this`sealed, this`flightCount
      ensures Valid() && (old(Tracked()) ==> Tracked())
      ensures if ok then Appended(old(sealed), sealed, typ, data) else sealed == old(sealed)
    {
      hide Wire, Carried, SslBuffer.Contents;
      if pendingFlight.None? {
        pendingFlight := Some([]);
        NoFlight(sealed);
      }
      var bytes := SealRecord(typ, data, |data| + maxSealOverhead);
      if bytes.None? {
        return false;
      }
      ghost var r := SealedRecord(typ, data, bytes.value);
      AddedToFlight(sealed, flightCount, r);
      Associative(bio.accepted + writeBuffer.Contents(), pendingFlight.value, bytes.value);
      pendingFlight := Some(pendingFlight.value + bytes.value);
      sealed, flightCount := sealed + [r], flightCount + 1;
      return true;
    }

    /** A handshake message, cut into records of at most the send fragment. */
    method AddMessage(msg: seq<byte>) returns (ok: bool)
      requires Valid() && pendingFlightOffset == 0 && maxSendFragment > 0
      modifies this`pendingFlight, this`sequence, this`sealed, this`flightCount
      ensures Valid() && (old(Tracked()) ==> Tracked())
      ensures ok ==> Carried(sealed, RT_HANDSHAKE) == old(Carried(sealed, RT_HANDSHAKE)) + msg
      ensures old(sealed) <= sealed
      ensures forall i :: |old(sealed)| <= i < |sealed| ==>
                sealed[i].typ == RT_HANDSHAKE && |sealed[i].plaintext| <= maxSendFragment
    {
      hide Wire, Carried, Parts, Conserved;
      var rest, first := msg, true;
      ghost var carried := Carried(sealed, RT_HANDSHAKE);
      while first || rest != []
        invariant Valid() && (old(Tracked()) ==> Tracked()) && old(sealed) <= sealed
        invariant first ==> rest == msg && sealed == old(sealed)
        invariant Carried(sealed, RT_HANDSHAKE) + rest == carried + msg
        invariant forall i :: |old(sealed)| <= i < |sealed| ==>
                    sealed[i].typ == RT_HANDSHAKE && |sealed[i].plaintext| <= maxSendFragment
        decreases |rest|, first
      {
        var n := if |rest| > maxSendFragment then maxSendFragment else |rest|;
        var chunk := rest[..n];
        ghost var before, left := sealed, rest;
        rest, first := rest[n..], false;
        var added := AddRecordToFlight(RT_HANDSHAKE, chunk);
        if !added {
          return false;
        }
        CarriedAppended(before, sealed, RT_HANDSHAKE, chunk, RT_HANDSHAKE);
        assert left == chunk + rest;
      }
      return true;
    }

    method AddChangeCipherSpec() returns (ok: bool)
      requires Valid() && pendingFlightOffset == 0
      modifies this`pendingFlight, this`sequence, this`sealed, this`flightCount
      ensures Valid() && (old(Tracked()) ==> Tracked())
      ensures if ok then Appended(old(sealed), sealed, RT_CHANGE_CIPHER_SPEC, [MT_CCS]) else sealed == old(sealed)
    {
      ok := AddRecordToFlight(RT_CHANGE_CIPHER_SPEC, [MT_CCS]);
    }

    /** Write out the flight itself. */
    method WriteFlight() returns (ret: int)
      requires Valid() && pendingFlight.Some? && writeBuffer.size == 0
      modifies bio, this`pendingFlightOffset
      ensures Valid()
      ensures ret > 0 ==> pendingFlightOffset == |pendingFlight.value| && bio.accepted == Wire(sealed)
    {
      hide Wire, Carried, InFlight, SslBuffer.Contents;
      ghost var flight := pendingFlight.value;
      writeBuffer.EmptyContents();
      NothingBetween(bio.accepted, writeBuffer.Contents(), FlightRest());
      while pendingFlightOffset < |pendingFlight.value|
        modifies bio, this`pendingFlightOffset
        invariant Parts() && bio.accepted + flight[pendingFlightOffset..] == Wire(sealed)
        decreases |pendingFlight.value| - pendingFlightOffset
      {
        ghost var before := bio.accepted;
        ret := bio.Write(pendingFlight.value[pendingFlightOffset..]);
        if ret <= 0 {
          NothingBetween(bio.accepted, writeBuffer.Contents(), FlightRest());
          return;
        }
        MovedFrom(before, flight, pendingFlightOffset, ret);
        pendingFlightOffset := pendingFlightOffset + ret;
      }
      assert flight[pendingFlightOffset..] == [];
      NothingBetween(bio.accepted, writeBuffer.Contents(), FlightRest());
      return 1;
    }

    /** Release a flight that is all written. */
    method ReleaseFlight()
      requires Valid() && pendingFlight.Some? && pendingFlightOffset == |pendingFlight.value|
      modifies this`pendingFlight, this`pendingFlightOffset, this`flightCount
      ensures Valid() && pendingFlight.None?
    {
      hide Wire, Carried;
      assert FlightRest() == [];
      pendingFlight, pendingFlightOffset, flightCount := None, 0, 0;
      NoFlight(sealed);
    }

    /** Write out the flight, after whatever the write buffer holds. */
    method FlushFlight() returns (ret: int)
      requires Valid()
      modifies this`pendingFlight, this`pendingFlightOffset, this`flightCount, writeBuffer, bio
      ensures Valid() && (old(Tracked()) ==> Tracked())
      ensures writeBuffer.buf == old(writeBuffer.buf) || fresh(writeBuffer.buf)
      ensures ret > 0 ==> pendingFlight.None?
      ensures ret > 0 && old(pendingFlight.Some?) ==> bio.accepted == Wire(sealed)
    {
      hide Wire, Carried, Parts, Conserved;
      if pendingFlight.None? {
        return 1;
      }
      if writeShutdown || |pendingFlight.value| > INT_MAX {
        return -1;
      }
      // The buffer was sealed before the flight, so it goes first.
      if writeBuffer.size > 0 {
        ret := FlushWriteBuffer();
        if ret <= 0 {
          return;
        }
      }
      ret := WriteFlight();
      if ret <= 0 {
        return;
      }
      var flushed := bio.Flush();
      if flushed <= 0 {
        return -1;
      }
      ReleaseFlight();
      return 1;
    }

    // ----- Records through the write buffer

    /** A capacity that is refused, or that a 16-bit offset can run through from where the memory would be entered. */
    predicate SafeCap(k: nat, flightLen: nat, cap: nat) {
      cap >= TWO_16 || AlignedOffset(flightLen + alignPrefix, addresses(k)) + cap <= TWO_16
    }

    /** If a record of so many bytes is sealed now, behind the rest of the flight, the offset can run through its buffer. */
    ghost predicate SealsSafely(len: nat)
      reads this, writeBuffer
    {
      || wpendPending || writeBuffer.size > 0 || len == 0 || len > MAX_PLAIN
      || Capacity(len) <= writeBuffer.cap || SafeCap(allocations, |FlightRest()|, Capacity(len))
    }

    /** What is asked of the buffer for a record of so many bytes behind the rest of the flight. */
    ghost function Capacity(len: nat): nat
      reads this`pendingFlight, this`pendingFlightOffset
    {
      |FlightRest()| + len + maxSealOverhead
    }

    /** Go on with the record that is stuck; the arguments must be those it was sealed with. */
    method WritePending(typ: byte, addr: int, len: nat) returns (ret: int)
      requires Valid() && wpendPending
      modifies this`wpendPending, writeBuffer, bio
      ensures Valid() && (writeBuffer.buf == old(writeBuffer.buf) || fresh(writeBuffer.buf))
      ensures ret <= 0 ==> wpendPending
      ensures ret > 0 ==>
                && !wpendPending && writeBuffer.size == 0 && writeBuffer.cap == 0
                && ret == wpendRet && wpendTot <= len && wpendType == typ
    {
      hide Wire, Carried;
      if wpendTot > len || (!acceptMovingBuffer && wpendBuf != addr) || wpendType != typ {
        return -1;
      }
      ret := FlushWriteBuffer();
      if ret <= 0 {
        return;
      }
      wpendPending := false;
      return wpendRet;
    }

    /** Move what is left of the flight into the empty buffer. */
    method MoveFlight()
      requires Valid() && writeBuffer.size == 0 && |FlightRest()| <= writeBuffer.cap
      modifies this`pendingFlight, this`pendingFlightOffset, this`flightCount, writeBuffer`size, writeBuffer.buf
      ensures Valid() && pendingFlight.None? && writeBuffer.size == old(|FlightRest()|)
    {
      hide Wire, Carried, SslBuffer.Contents, InFlight;
      if pendingFlight.Some? {
        MovesOver(bio.accepted, writeBuffer.Contents(), FlightRest());
        writeBuffer.Append(pendingFlight.value[pendingFlightOffset..]);
        pendingFlight, pendingFlightOffset, flightCount := None, 0, 0;
        NoFlight(sealed);
        assert Carried(InFlight(), RT_APPLICATION_DATA) == [] by { NothingInFlight(); }
      }
    }

    lemma NothingInFlight()
      requires flightCount == 0
      ensures Carried(InFlight(), RT_APPLICATION_DATA) == []
    {
    }

    /** Seal a record into the room behind the contents of the buffer. */
    method SealIntoBuffer(typ: byte, data: seq<byte>, addr: int) returns (ok: bool)
      requires Valid() && pendingFlight.None? && !wpendPending && data != []
      modifies this`sequence, this`sealed, this`wpendTot, this`wpendBuf, this`wpendType, this`wpendRet, this`wpendPending
      modifies writeBuffer`size, writeBuffer.buf
      ensures Valid()
      ensures !ok ==> sealed == old(sealed) && !wpendPending && writeBuffer.size == old(writeBuffer.size)
      ensures ok ==> Appended(old(sealed), sealed, typ, data) && wpendPending
                     && wpendTot == |data| && wpendRet == |data| && wpendType == typ && wpendBuf == addr
    {
      hide Wire, Carried, SslBuffer.Contents, InFlight;
      var bytes := SealRecord(typ, data, writeBuffer.cap - writeBuffer.size);
      if bytes.None? {
        return false;
      }
      ghost var r := SealedRecord(typ, data, bytes.value);
      WireOne(sealed, r);
      RecordAdded(bio.accepted, writeBuffer.Contents(), bytes.value);
      writeBuffer.Append(bytes.value);
      sealed := sealed + [r];
      wpendTot, wpendBuf, wpendType, wpendRet := |data|, addr, typ, |data|;
      wpendPending := true;
      assert Carried(InFlight(), RT_APPLICATION_DATA) == [] by { NothingInFlight(); }
      return true;
    }

    /** What one call of WriteRecord does to the records sealed and to the stuck one. */
    twostate predicate RecordStep(typ: byte, data: seq<byte>, addr: int, ret: int)
      reads this, writeBuffer
    {
      && (ret > 0 ==> !wpendPending && writeBuffer.size == 0)
      && wnum == old(wnum)
      && if old(wpendPending) then
           && sealed == old(sealed) && wpendRet == old(wpendRet) && wpendType == old(wpendType)
           && (ret <= 0 ==> wpendPending)
           && (ret > 0 ==> ret == wpendRet && wpendRet <= |data| && wpendType == typ)
         else if sealed == old(sealed) then ret <= 0 && !wpendPending
         else
           && Appended(old(sealed), sealed, typ, data)
           && wpendRet == |data| && wpendType == typ && data != []
           && (ret <= 0 ==> wpendPending) && (ret > 0 ==> ret == |data|)
    }

    /** What one call of WriteRecord does to the flight and the buffer: a record that is sealed takes the flight along. */
    twostate predicate FlightStep(len: nat, ret: int)
      reads this, writeBuffer
    {
      && (ret > 0 ==> writeBuffer.cap == 0)
      && if old(wpendPending) then FlightRest() == old(FlightRest()) && allocations == old(allocations)
         else if sealed != old(sealed) then FlightRest() == [] && old(writeBuffer.size) == 0 && Made(old(Capacity(len)))
         else if old(writeBuffer.size) > 0 then writeBuffer.size > 0
         else
           || writeBuffer.size > 0
           || (FlightRest() == old(FlightRest())
               && ((writeBuffer.cap == old(writeBuffer.cap) && allocations == old(allocations))
                   || (Made(old(Capacity(len))) && writeBuffer.cap >= old(Capacity(len)))))
    }

    /** There is room for so much, allocated if there was not. */
    twostate predicate Made(cap: nat)
      reads this`allocations, writeBuffer
    {
      cap < TWO_16 && allocations == old(allocations) + if cap > old(writeBuffer.cap) then 1 else 0
    }

    /** Make room in the empty buffer for the rest of the flight and a record. */
    method MakeRoom(flightLen: nat, cap: nat) returns (ok: bool)
      requires Valid() && writeBuffer.size == 0
      requires cap <= writeBuffer.cap || SafeCap(allocations, flightLen, cap)
      modifies this`allocations, writeBuffer
      ensures Valid() && (writeBuffer.buf == old(writeBuffer.buf) || fresh(writeBuffer.buf)) && writeBuffer.size == 0
      ensures ok ==> Made(cap) && writeBuffer.cap >= cap
      ensures !ok ==> writeBuffer.cap == old(writeBuffer.cap) && allocations == old(allocations)
    {
      hide Wire, Carried, AlignedOffset, SslBuffer.Contents;
      var before := writeBuffer.cap;
      ok := writeBuffer.EnsureCap(flightLen + alignPrefix, cap, addresses(allocations));
      if ok && cap > before {
        allocations := allocations + 1;
      }
    }

    /** Seal a record into the empty buffer, after what is left of the flight. */
    method StartRecord(typ: byte, data: seq<byte>, addr: int) returns (ok: bool)
      requires Valid() && !wpendPending && writeBuffer.size == 0 && data != []
      requires Capacity(|data|) <= writeBuffer.cap || SafeCap(allocations, |FlightRest()|, Capacity(|data|))
      modifies this`pendingFlight, this`pendingFlightOffset, this`flightCount, this`allocations
      modifies this`sequence, this`sealed, this`wpendTot, this`wpendBuf, this`wpendType, this`wpendRet, this`wpendPending
      modifies writeBuffer, writeBuffer.buf
      ensures Valid() && (writeBuffer.buf == old(writeBuffer.buf) || fresh(writeBuffer.buf))
      ensures ok ==> Appended(old(sealed), sealed, typ, data) && wpendPending && pendingFlight.None?
                     && wpendTot == |data| && wpendRet == |data| && wpendType == typ && wpendBuf == addr
                     && Made(old(Capacity(|data|)))
      ensures !ok ==> sealed == old(sealed) && !wpendPending
      ensures !ok && writeBuffer.size == 0 ==>
                FlightRest() == old(FlightRest())
                && ((writeBuffer.cap == old(writeBuffer.cap) && allocations == old(allocations))
                    || (Made(old(Capacity(|data|))) && writeBuffer.cap >= old(Capacity(|data|))))
    {
      hide Wire, Carried, Appended, Conserved, SslBuffer.Contents, SafeCap;
      var flightLen := if pendingFlight.Some? then |pendingFlight.value| - pendingFlightOffset else 0;
      ok := MakeRoom(flightLen, |data| + maxSealOverhead + flightLen);
      if !ok {
        return;
      }
      MoveFlight();
      ok := SealIntoBuffer(typ, data, addr);
    }

    /** Seal and write one record, or go on writing the one that is stuck. */
    method WriteRecord(typ: byte, data: seq<byte>, addr: int) returns (ret: int)
      requires Valid() && SealsSafely(|data|)
      modifies this, writeBuffer, writeBuffer.buf, bio
      ensures Valid() && (writeBuffer.buf == old(writeBuffer.buf) || fresh(writeBuffer.buf))
      ensures RecordStep(typ, data, addr, ret)
      ensures reported == old(reported) && inFlight == old(inFlight) && writeShutdown == old(writeShutdown)
      ensures FlightStep(|data|, ret)
    {
      hide Wire, Carried, Conserved;
      if wpendPending {
        ret := WritePending(typ, addr, |data|);
        return;
      }
      if |data| > MAX_PLAIN || writeBuffer.size > 0 {
        return -1;
      }
      if data == [] {
        return 0;
      }
      var ok := StartRecord(typ, data, addr);
      if !ok {
        return -1;
      }
      ret := WritePending(typ, addr, |data|);
    }

    /** What is sealed of a write of `data` of which `tot` bytes are done. */
    ghost predicate InProgress(data: seq<byte>, tot: nat)
      reads this
    {
      && Carried(sealed, RT_APPLICATION_DATA) == reported + inFlight
      && inFlight <= data
      && |inFlight| == tot + if wpendPending && wpendType == RT_APPLICATION_DATA then wpendRet else 0
    }

    /**
      The offset can run through the buffer of every record that n bytes are cut into, from
      the k-th allocation on; the first record comes behind a flight, and may find room.
     */
    predicate ChunksSafe(k: nat, room: nat, flightLen: nat, n: nat)
      requires 0 < maxSendFragment
      decreases n
    {
      n == 0 ||
      var nw := if n > maxSendFragment then maxSendFragment else n;
      var cap := flightLen + nw + maxSealOverhead;
      && (cap <= room || SafeCap(k, flightLen, cap))
      && (cap >= TWO_16 || partialWrite || ChunksSafe(if cap > room then k + 1 else k, 0, 0, n - nw))
    }

    /** So of what is really sealed of the n bytes still to be written. */
    ghost predicate WriteReady(n: int)
      requires 0 < maxSendFragment
      reads this`wpendPending, this`wpendType, this`wpendRet, this`pendingFlight, this`pendingFlightOffset
      reads this`allocations, writeBuffer
    {
      if wpendPending then
        || wpendType != RT_APPLICATION_DATA || n <= wpendRet || partialWrite
        || ChunksSafe(allocations, 0, |FlightRest()|, n - wpendRet)
      else n <= 0 || writeBuffer.size > 0 || ChunksSafe(allocations, writeBuffer.cap, |FlightRest()|, n)
    }

    /** One record of an application write, with the account kept of what it sealed. */
    method WriteChunk(data: seq<byte>, tot: nat, nw: nat, addr: int) returns (ret: int)
      requires Valid() && tot <= |data| && 0 < maxSendFragment && WriteReady(|data| - tot)
      requires nw == if |data| - tot > maxSendFragment then maxSendFragment else |data| - tot
      modifies this, writeBuffer, writeBuffer.buf, bio
      ensures Valid() && (writeBuffer.buf == old(writeBuffer.buf) || fresh(writeBuffer.buf))
      ensures ret <= 0 ==> WriteReady(|data| - tot)
      ensures 0 < ret < |data| - tot && !partialWrite ==> WriteReady(|data| - tot - ret)
      ensures wnum == old(wnum) && reported == old(reported) && writeShutdown == old(writeShutdown)
      ensures ret > 0 ==> ret <= nw && writeBuffer.size == 0 && !wpendPending
      ensures old(InProgress(data, tot)) ==>
                && InProgress(data, if ret > 0 then tot + ret else tot)
                && old(inFlight) <= inFlight
    {
      hide Wire, Carried, Parts, Conserved, SafeCap;
      ghost var before, done, pending := sealed, inFlight, wpendPending;
      var chunk := data[tot..tot + nw];
      ret := WriteRecord(RT_APPLICATION_DATA, chunk, addr + tot);
      if !pending && sealed != before {
        CarriedAppended(before, sealed, RT_APPLICATION_DATA, chunk, RT_APPLICATION_DATA);
        inFlight := inFlight + chunk;
        Associative(reported, done, chunk);
        assert done == data[..tot] ==> inFlight == data[..tot + nw];
      }
    }

    /** Write application data; called again with the same data until it is done. */
    method WriteAppData(data: seq<byte>, addr: int) returns (ret: int)
      requires Valid() && 0 < maxSendFragment && (writeShutdown || WriteReady(|data| - wnum))
      modifies this, writeBuffer, writeBuffer.buf, bio
      ensures Valid() && (writeBuffer.buf == old(writeBuffer.buf) || fresh(writeBuffer.buf))
      ensures writeShutdown == old(writeShutdown)
      ensures !writeShutdown && ret <= 0 && old(wnum) <= |data| ==> WriteReady(|data| - wnum)
      ensures old(Tracked() && inFlight <= data) ==> Tracked()
      ensures old(Tracked() && inFlight <= data) && ret > 0 ==>
                && ret <= |data| && reported == old(reported) + data[..ret] && inFlight == []
                && writeBuffer.size == 0 && !wpendPending
      ensures old(Tracked() && inFlight <= data) && ret <= 0 ==>
                reported == old(reported) && old(inFlight) <= inFlight <= data
    {
      hide Wire, Carried, Parts, Conserved, WriteReady, SslBuffer.Contents;
      if writeShutdown {
        return -1;
      }
      var tot := wnum;
      wnum := 0;
      // A shorter retry is an error, and loses count of what was done.
      if |data| < tot {
        return -1;
      }
      var n := |data| - tot;
      ghost var faithful := old(Tracked() && inFlight <= data);
      while true
        invariant Valid() && (writeBuffer.buf == old(writeBuffer.buf) || fresh(writeBuffer.buf))
        invariant 0 <= tot && n == |data| - tot && n >= 0 && wnum == 0 && WriteReady(n)
        invariant writeShutdown == old(writeShutdown)
        invariant faithful ==> InProgress(data, tot) && reported == old(reported) && old(inFlight) <= inFlight
        decreases n
      {
        var nw := if n > maxSendFragment then maxSendFragment else n;
        ret := WriteChunk(data, tot, nw, addr);
        if ret <= 0 {
          wnum := tot;
          return;
        }
        if ret == n || partialWrite {
          assert faithful ==> inFlight == data[..tot + ret];
          Associative(reported, inFlight, []);
          if faithful {
            reported, inFlight := reported + inFlight, [];
            NothingBetween(reported, [], []);
          }
          return tot + ret;
        }
        n, tot := n - ret, tot + ret;
      }
    }

    /** Send an alert, or go on sending it. */
    method DispatchAlert(alert: seq<byte>, addr: int) returns (ret: int)
      requires Valid() && |alert| == 2 && SealsSafely(2)
      modifies this, writeBuffer, writeBuffer.buf, bio
      ensures Valid() && (writeBuffer.buf == old(writeBuffer.buf) || fresh(writeBuffer.buf))
      ensures old(Tracked()) ==> Tracked() && reported == old(reported) && inFlight == old(inFlight)
      ensures ret > 0 ==> ret == 1 && writeBuffer.size == 0
    {
      hide Wire, Carried, Parts, Conserved;
      ghost var before, pending := sealed, wpendPending;
      ret := WriteRecord(RT_ALERT, alert, addr);
      if !pending && sealed != before {
        CarriedAppended(before, sealed, RT_ALERT, alert, RT_APPLICATION_DATA);
        NothingBetween(Carried(before, RT_APPLICATION_DATA), [], []);
      }
      if ret > 0 {
        ret := 1;
      }
    }

    /** A caller that retries a write with the same data until it is done. */
    method WriteUntilDone(data: seq<byte>, addr: int, attempts: nat) returns (ret: int)
      requires Valid() && Tracked() && inFlight == [] && 0 < maxSendFragment
      requires writeShutdown || WriteReady(|data|)
      modifies this, writeBuffer, writeBuffer.buf, bio
      ensures Valid() && Tracked()
      ensures ret > 0 ==>
                && ret <= |data|
                && Carried(sealed, RT_APPLICATION_DATA) == old(Carried(sealed, RT_APPLICATION_DATA)) + data[..ret]
                && AllSent()
      ensures ret <= 0 ==>
                inFlight <= data
                && Carried(sealed, RT_APPLICATION_DATA) == old(Carried(sealed, RT_APPLICATION_DATA)) + inFlight
    {
      hide Wire, Carried, Parts, Conserved;
      NothingBetween(reported, [], []);
      assert Carried(sealed, RT_APPLICATION_DATA) == reported;
      ret := 0;
      for i := 0 to attempts
        invariant Valid() && Tracked() && inFlight <= data && reported == old(reported)
        invariant writeBuffer.buf == old(writeBuffer.buf) || fresh(writeBuffer.buf)
        invariant ret <= 0 && (writeShutdown || WriteReady(|data| - wnum))
      {
        ret := WriteAppData(data, addr);
        if ret > 0 {
          NothingBetween(reported, [], []);
          FullySent();
          return;
        }
      }
    }

    /** The transport has every record but some of the flight's, and those carry no application data. */
    ghost predicate AllSent()
      requires flightCount <= |sealed|
      reads this`sealed, this`flightCount, bio`accepted
    {
      var before := sealed[..|sealed| - flightCount];
      Wire(before) <= bio.accepted && Carried(before, RT_APPLICATION_DATA) == Carried(sealed, RT_APPLICATION_DATA)
    }

    lemma FullySent()
      requires Valid() && writeBuffer.size == 0
      ensures flightCount <= |sealed| && AllSent()
    {
      var before := sealed[..|sealed| - flightCount];
      assert sealed == before + InFlight();
      WireConcat(before, InFlight());
      CarriedConcat(before, InFlight(), RT_APPLICATION_DATA);
      NothingBetween(bio.accepted, writeBuffer.Contents(), FlightRest());
      NothingBetween(Carried(before, RT_APPLICATION_DATA), [], []);
      NoFlight(sealed);
      hide Wire, Carried;
      Cancel(bio.accepted, Wire(before), Wire(InFlight()), pendingFlightOffset);
    }
  }

  lemma Cancel(a: seq<byte>, b: seq<byte>, c: seq<byte>, n: nat)
    requires n <= |c| && a + c[n..] == b + c
    ensures b <= a
  {
    assert |a| == |b| + n;
    assert forall i :: 0 <= i < |b| ==> b[i] == (b + c)[i] == (a + c[n..])[i] == a[i];
  }

  lemma NothingBetween(a: seq<byte>, b: seq<byte>, c: seq<byte>)
    ensures b == [] ==> a + b + c == a + c
    ensures c == [] ==> a + c == a
  {
  }

  lemma MovesOver(accepted: seq<byte>, contents: seq<byte>, rest: seq<byte>)
    ensures accepted + (contents + rest) + [] == accepted + contents + rest
  {
  }

  lemma RecordAdded(accepted: seq<byte>, contents: seq<byte>, bytes: seq<byte>)
    ensures accepted + (contents + bytes) + [] == (accepted + contents + []) + bytes
  {
  }

  lemma NoFlight(sealed: seq<SealedRecord>)
    ensures sealed[|sealed| - 0..] == [] && Wire([]) == [] && Carried([], RT_APPLICATION_DATA) == []
  {
  }

  /** One more record was sealed. */
  ghost predicate Appended(before: seq<SealedRecord>, after: seq<SealedRecord>, typ: byte, data: seq<byte>) {
    && |after| == |before| + 1 && after[..|before|] == before
    && after[|before|].typ == typ && after[|before|].plaintext == data
  }

  lemma CarriedAppended(before: seq<SealedRecord>, after: seq<SealedRecord>, typ: byte, data: seq<byte>, of: byte)
    requires Appended(before, after, typ, data)
    ensures Carried(after, of) == Carried(before, of) + if typ == of then data else []
  {
    CarriedOne(before, after[|before|], of);
    assert after == before + [after[|before|]];
  }

  lemma AddedToFlight(sealed: seq<SealedRecord>, count: nat, r: SealedRecord)
    requires count <= |sealed|
    ensures var flight := sealed[|sealed| - count..];
            && (sealed + [r])[|sealed| - count..] == flight + [r]
            && Wire(flight + [r]) == Wire(flight) + r.bytes
            && Wire(sealed + [r]) == Wire(sealed) + r.bytes
            && (r.typ != RT_APPLICATION_DATA ==>
                  && Carried(flight + [r], RT_APPLICATION_DATA) == Carried(flight, RT_APPLICATION_DATA)
                  && Carried(sealed + [r], RT_APPLICATION_DATA) == Carried(sealed, RT_APPLICATION_DATA))
  {
    var flight := sealed[|sealed| - count..];
    WireOne(flight, r);
    WireOne(sealed, r);
    CarriedOne(flight, r, RT_APPLICATION_DATA);
    CarriedOne(sealed, r, RT_APPLICATION_DATA);
  }
}
