/**
  The growable buffer of ssl_buffer.cc and the transport below it.  A buffer is a
  window onto allocated memory; its offset, size and capacity are 16-bit numbers.
 */
module Buffers {
  import opened Bits

  const ALIGN_PAYLOAD := 8

  /**
    A byte stream that may take any prefix of what it is offered, or nothing.  Its
    answers are fixed in advance, but unknown; out of answers it takes nothing.
   */
  class Transport {
    var accepted: seq<byte>
    var answers: seq<int>

    constructor (answers: seq<int>)
      ensures accepted == [] && this.answers == answers
    {
      accepted, this.answers := [], answers;
    }

    method Write(data: seq<byte>) returns (ret: int)
      modifies this
      ensures ret == TakenOf(|data|, old(answers)) && answers == Tail(old(answers))
      ensures accepted == old(accepted) + if ret > 0 then data[..ret] else []
    {
      ret := if answers == [] then -1 else answers[0];
      answers := if answers == [] then [] else answers[1..];
      if ret > |data| {
        ret := |data|;
      }
      if ret > 0 {
        accepted := accepted + data[..ret];
      } else {
        NothingLeft(accepted, []);
      }
    }

    method Flush() returns (ret: int)
      modifies this
      ensures accepted == old(accepted)
    {
      ret := if answers == [] then -1 else answers[0];
      answers := if answers == [] then [] else answers[1..];
    }
  }

  /** How much a transport takes of so many bytes. */
  function TakenOf(len: nat, answers: seq<int>): (ret: int)
    ensures ret <= len
  {
    if answers == [] then -1 else if answers[0] > len then len else answers[0]
  }

  function Tail(answers: seq<int>): seq<int> { if answers == [] then [] else answers[1..] }

  /** What a window of memory holds. */
  function View(memory: seq<byte>, offset: nat, size: nat): seq<byte> {
    if offset + size <= |memory| then memory[offset..offset + size] else []
  }

  /** A number as 16 bits hold it. */
  function Low16(n: nat): (r: nat)
    ensures r < TWO_16 && r <= n
  {
    n % TWO_16
  }

  /** Where a buffer begins so that what comes after its header is aligned. */
  function AlignedOffset(headerLen: nat, address: nat): nat { (-(headerLen + address)) % ALIGN_PAYLOAD }

  class SslBuffer {
    var buf: array<byte>
    var offset: nat
    var size: nat
    var cap: nat

    /** The window lies inside the memory, and its numbers have 16 bits. */
    ghost predicate Formed()
      reads this
    {
      size <= cap < TWO_16 && offset < TWO_16 && offset + cap <= buf.Length
    }

    /** All of the window can be consumed with a 16-bit offset. */
    ghost predicate Valid()
      reads this
    {
      Formed() && offset + cap <= TWO_16
    }

    ghost function Contents(): seq<byte>
      requires Formed()
      reads this, buf
    {
      buf[offset..offset + size]
    }

    constructor ()
      ensures Valid() && Contents() == [] && fresh(buf) && cap == 0
    {
      buf := new byte[0];
      offset, size, cap := 0, 0, 0;
    }

    method Clear()
      modifies this
      ensures Valid() && Contents() == [] && fresh(buf) && size == 0 && cap == 0
    {
      buf := new byte[0];
      offset, size, cap := 0, 0, 0;
    }

    /** Make room; memory that has to be allocated comes from `address`. */
    method EnsureCap(headerLen: nat, newCap: nat, address: nat) returns (ok: bool)
      requires Formed()
      modifies this
      ensures Formed() && size == old(size) && Contents() == old(Contents())
      ensures ok <==> newCap < TWO_16
      ensures if ok && newCap > old(cap) then
                cap == newCap && offset == AlignedOffset(headerLen, address) && fresh(buf)
              else
                cap == old(cap) && offset == old(offset) && buf == old(buf)
    {
      if newCap >= TWO_16 {
        return false;
      }
      if cap >= newCap {
        return true;
      }
      var newBuf := new byte[newCap + ALIGN_PAYLOAD - 1];
      var newOffset := (-(headerLen + address)) % ALIGN_PAYLOAD;
      for i := 0 to size
        modifies newBuf
        invariant newBuf[newOffset..newOffset + i] == buf[offset..offset + i]
      {
        newBuf[newOffset + i] := buf[offset + i];
      }
      buf, offset, cap := newBuf, newOffset, newCap;
      return true;
    }

    /** Fill in the room after the contents and extend them. */
    method Append(data: seq<byte>)
      requires Formed() && |data| <= cap - size
      modifies this`size, buf
      ensures Formed() && size == old(size) + |data| && Contents() == old(Contents()) + data
      ensures buf[..offset] == old(buf[..offset])
    {
      for i := 0 to |data|
        modifies buf
        invariant buf[..offset] == old(buf[..offset])
        invariant buf[offset..offset + size] == old(Contents())
        invariant buf[offset + size..offset + size + i] == data[..i]
      {
        buf[offset + size + i] := data[i];
      }
      size := size + |data|;
      assert buf[offset..offset + size] == old(Contents()) + data[..|data|];
    }

    /** Drop bytes from the front; the offset is a 16-bit number, and so may wrap around. */
    method Consume(len: nat)
      requires Formed() && len <= size
      modifies this
      ensures Formed() && buf == old(buf) && size == old(size) - len && cap == old(cap) - len
      ensures offset == Low16(old(offset) + len) && (old(Valid()) ==> Valid())
      ensures old(offset) + len < TWO_16 || len == old(size) ==> Contents() == old(Contents())[len..]
    {
      offset := Low16(offset + len);
      size := size - len;
      cap := cap - len;
    }

    lemma EmptyContents()
      requires Formed() && size == 0
      ensures Contents() == []
    {
    }

    lemma Viewed(memory: seq<byte>)
      requires Formed() && buf[..] == memory
      ensures View(memory, offset, size) == Contents() == buf[offset..offset + size]
    {
    }
  }

  // ----- Writing a buffer out

  /**
    What the transport has and what is left in the buffer, when a window of memory is
    written out to a transport of such answers.
   */
  function Flushed(memory: seq<byte>, offset: nat, size: nat, accepted: seq<byte>, answers: seq<int>)
    : (seq<byte>, seq<byte>)
    requires offset < TWO_16 && size < TWO_16 && offset + size <= |memory|
    decreases size
  {
    var contents, ret := View(memory, offset, size), TakenOf(size, answers);
    if size == 0 || ret <= 0 then (accepted, contents)
    else Flushed(memory, Low16(offset + ret), size - ret, accepted + contents[..ret], Tail(answers))
  }

  lemma FlushedStep(memory: seq<byte>, offset: nat, size: nat, accepted: seq<byte>, answers: seq<int>)
    requires offset < TWO_16 && size < TWO_16 && offset + size <= |memory|
    ensures var contents, ret := View(memory, offset, size), TakenOf(size, answers);
            Flushed(memory, offset, size, accepted, answers) ==
            if size == 0 || ret <= 0 then (accepted, contents)
            else Flushed(memory, Low16(offset + ret), size - ret, accepted + contents[..ret], Tail(answers))
  {
  }

  /** Write out a buffer; it is released when it is empty. */
  method WriteBufferFlush(buf: SslBuffer, bio: Transport) returns (ret: int)
    requires buf.Formed()
    modifies buf, bio
    ensures buf.Formed() && (buf.buf == old(buf.buf) || fresh(buf.buf)) && (old(buf.Valid()) ==> buf.Valid())
    ensures (bio.accepted, buf.Contents()) ==
            old(Flushed(buf.buf[..], buf.offset, buf.size, bio.accepted, bio.answers))
    ensures old(buf.offset + buf.size <= TWO_16) ==>
              bio.accepted + buf.Contents() == old(bio.accepted + buf.Contents())
    ensures ret > 0 ==> ret == 1 && buf.size == 0 && buf.cap == 0
    ensures old(buf.size) == 0 ==> buf.size == 0
  {
    hide Flushed, TakenOf, View, SslBuffer.Contents, Low16;
    ghost var memory, offset, size, accepted, answers := buf.buf[..], buf.offset, buf.size, bio.accepted, bio.answers;
    ghost var outcome := Flushed(memory, offset, size, accepted, answers);
    FlushKeeps(memory, offset, size, accepted, answers);
    buf.Viewed(memory);
    while buf.size > 0
      invariant buf.Formed() && buf.buf == old(buf.buf) && buf.buf[..] == memory
      invariant (size == 0 ==> buf.size == 0) && (old(buf.Valid()) ==> buf.Valid())
      invariant Flushed(memory, buf.offset, buf.size, bio.accepted, bio.answers) == outcome
      decreases buf.size
    {
      FlushedStep(memory, buf.offset, buf.size, bio.accepted, bio.answers);
      buf.Viewed(memory);
      NothingLeft(bio.accepted, []);
      var data := buf.buf[buf.offset..buf.offset + buf.size];
      ret := bio.Write(data);
      if ret <= 0 {
        return;
      }
      buf.Consume(ret);
    }
    FlushedStep(memory, buf.offset, 0, bio.accepted, bio.answers);
    buf.Viewed(memory);
    buf.Clear();
    return 1;
  }

  lemma ViewIsSlice(memory: seq<byte>, offset: nat, size: nat)
    requires offset + size <= |memory|
    ensures View(memory, offset, size) == memory[offset..offset + size]
  {
  }

  lemma SplitAfter(before: seq<byte>, s: seq<byte>, n: nat)
    requires n <= |s|
    ensures before + s[..n] + s[n..] == before + s
  {
    assert s == s[..n] + s[n..];
  }

  lemma NothingLeft(before: seq<byte>, s: seq<byte>)
    requires s == []
    ensures before + s == before
  {
  }

  // ----- The limits of a 16-bit offset

  lemma {:induction false} FlushKeeps(memory: seq<byte>, offset: nat, size: nat, accepted: seq<byte>, answers: seq<int>)
    requires offset < TWO_16 && size < TWO_16 && offset + size <= |memory|
    ensures offset + size <= TWO_16 ==>
              var (taken, left) := Flushed(memory, offset, size, accepted, answers);
              taken + left == accepted + View(memory, offset, size)
    decreases size
  {
    var contents, ret := View(memory, offset, size), TakenOf(size, answers);
    FlushedStep(memory, offset, size, accepted, answers);
    ViewIsSlice(memory, offset, size);
    hide Flushed, View;
    if size > 0 && ret > 0 && offset + size <= TWO_16 {
      FlushKeeps(memory, Low16(offset + ret), size - ret, accepted + contents[..ret], Tail(answers));
      SplitAfter(accepted, contents, ret);
      ViewOfRest(memory, offset, size, ret);
    }
  }

  lemma ViewOfRest(memory: seq<byte>, offset: nat, size: nat, n: nat)
    requires n <= size && offset + size <= |memory| && offset + size <= TWO_16
    ensures View(memory, offset, size)[n..] == View(memory, Low16(offset + n), size - n)
  {
    if offset + n == TWO_16 {
      assert n == size;
    }
  }

  /** A transport that stops where the offset has wrapped around is offered the first bytes of the memory next. */
  lemma {:induction false} FlushWraps(memory: seq<byte>, offset: nat, size: nat)
    requires offset < TWO_16 && size < TWO_16 && TWO_16 < offset + size <= |memory|
    requires memory[0] != memory[TWO_16]
    ensures var (taken, left) := Flushed(memory, offset, size, [], [TWO_16 - offset]);
            taken + left != View(memory, offset, size)
  {
    var n, contents := TWO_16 - offset, View(memory, offset, size);
    FlushedStep(memory, offset, size, [], [n]);
    FlushedStep(memory, 0, size - n, contents[..n], []);
    hide Flushed;
    assert [n][1..] == [] && [] + contents[..n] == contents[..n];
    assert Flushed(memory, offset, size, [], [n]) == (contents[..n], View(memory, 0, size - n));
    assert (contents[..n] + View(memory, 0, size - n))[n] == memory[0];
  }

  /**
    Writing a buffer out, over every transport, loses, repeats and changes no byte exactly
    when the buffer ends within 16 bits of where its memory begins.
   */
  lemma FlushConserves(length: nat, offset: nat, size: nat)
    requires offset < TWO_16 && size < TWO_16 && offset + size <= length
    ensures (forall memory: seq<byte>, accepted: seq<byte>, answers: seq<int> | |memory| == length ::
               var (taken, left) := Flushed(memory, offset, size, accepted, answers);
               taken + left == accepted + View(memory, offset, size))
            <==> offset + size <= TWO_16
  {
    hide Flushed, View;
    if offset + size <= TWO_16 {
      forall memory: seq<byte>, accepted: seq<byte>, answers: seq<int> | |memory| == length
        ensures var (taken, left) := Flushed(memory, offset, size, accepted, answers);
                taken + left == accepted + View(memory, offset, size)
      {
        FlushKeeps(memory, offset, size, accepted, answers);
      }
    } else {
      var memory: seq<byte> := seq(length, i => if i == TWO_16 then 1 else 0);
      FlushWraps(memory, offset, size);
      var (taken, left) := Flushed(memory, offset, size, [], [TWO_16 - offset]);
      assert [] + View(memory, offset, size) == View(memory, offset, size);
    }
  }

  /**
    The code gets there: a buffer of the greatest capacity in aligned memory, for a record
    with a five-byte header, begins at offset 3; filled, it may meet a transport that takes
    all but a few of its bytes.
   */
  method FilledBufferLosesBytes() returns (data: seq<byte>, buf: SslBuffer, bio: Transport)
    ensures fresh(buf) && fresh(bio) && buf.Formed() && |data| == TWO_16 - 1
    ensures bio.accepted + buf.Contents() != data
  {
    var cap, offset, header, address := TWO_16 - 1, 3, 5, 16;
    buf := new SslBuffer();
    var ok := buf.EnsureCap(header, cap, address);
    // Anything but what the memory happened to hold in front of the window.
    var mark: byte := if buf.buf[0] == 0 then 1 else 0;
    data := seq(cap, _ => mark);
    buf.Append(data);
    NothingLeft(data, []);
    assert buf.Contents() == data && buf.buf[0] == buf.buf[..offset][0] != mark;
    bio := new Transport([TWO_16 - offset]);
    hide Flushed, View;
    ghost var memory := buf.buf[..];
    buf.Viewed(memory);
    assert memory[TWO_16] == buf.Contents()[TWO_16 - offset] == mark;
    FlushWraps(memory, offset, cap);
    var ret := WriteBufferFlush(buf, bio);
  }
}
