/**
  Reading handshake messages over TLS (s3_both.cc): record bodies are appended to a
  buffer and messages taken off its front.  Where the records were cut does not matter:
  the messages taken are the messages sent.
 */
module HandshakeStream {
  import opened Wrappers
  import opened Bits
  import opened Parsing
  import opened Protocol

  const HEADER := 4

  function MessageBytes(m: Message): (bs: seq<byte>)
    ensures |bs| == HEADER + |m.body|
  {
    [m.typ] + Prefixed(m.body, 3)
  }

  /** The message at the front of the buffer, or how many bytes it takes to go on. */
  datatype ParseResult = Whole(msg: Message, rawLen: nat) | Needs(bytes: nat)

  function ParseMessage(buf: seq<byte>): (r: ParseResult)
    ensures r.Whole? ==> HEADER <= r.rawLen == HEADER + |r.msg.body| <= |buf|
    ensures r.Needs? ==> r.bytes > |buf|
  {
    if |buf| < HEADER then Needs(HEADER)
    else
      var len := FromBigEndian(buf[1..HEADER]);
      if |buf| < HEADER + len then Needs(HEADER + len)
      else Whole(Message(buf[0], buf[HEADER..HEADER + len]), HEADER + len)
  }

  /** No message waits at the front, and the one that is coming is not too long. */
  predicate Accepts(buf: seq<byte>, maxLen: nat) {
    var r := ParseMessage(buf);
    r.Needs? && r.bytes <= HEADER + maxLen
  }

  class HandshakeReader {
    var hsBuf: seq<byte>
    var hasMessage: bool

    constructor ()
      ensures hsBuf == [] && !hasMessage
    {
      hsBuf, hasMessage := [], false;
    }

    /** Whether more may be appended. */
    method CanAccept(maxLen: nat) returns (ok: bool)
      ensures ok <==> Accepts(hsBuf, maxLen)
    {
      var r := ParseMessage(hsBuf);
      // A whole message must have been consumed first.
      if r.Whole? {
        return false;
      }
      return r.bytes <= HEADER + maxLen;
    }

    method Append(body: seq<byte>)
      modifies this`hsBuf
      ensures hsBuf == old(hsBuf) + body
    {
      hsBuf := hsBuf + body;
    }

    method GetMessage() returns (m: Option<Message>)
      modifies this`hasMessage
      ensures var r := ParseMessage(hsBuf);
              && m == (if r.Whole? then Some(r.msg) else None)
              && hasMessage == (r.Whole? || old(hasMessage))
    {
      var r := ParseMessage(hsBuf);
      if r.Needs? {
        return None;
      }
      hasMessage := true;
      return Some(r.msg);
    }

    /** Done with the message at the front: move the rest down over it. */
    method NextMessage()
      requires ParseMessage(hsBuf).Whole?
      modifies this
      ensures hsBuf == old(hsBuf)[ParseMessage(old(hsBuf)).rawLen..] && !hasMessage
    {
      hsBuf := hsBuf[ParseMessage(hsBuf).rawLen..];
      hasMessage := false;
    }

    method HasUnprocessedData() returns (b: bool)
      ensures b <==> |hsBuf| > if hasMessage && ParseMessage(hsBuf).Whole? then ParseMessage(hsBuf).rawLen else 0
    {
      var msgLen := 0;
      if hasMessage {
        var r := ParseMessage(hsBuf);
        if r.Whole? {
          msgLen := r.rawLen;
        }
      }
      b := |hsBuf| > msgLen;
    }
  }

  // ----- Whole runs

  datatype Event = Arrive(body: seq<byte>) | Take

  /** The buffer and the messages taken. */
  datatype State = State(buf: seq<byte>, taken: seq<Message>)

  function Step(s: State, e: Event): State {
    match e
    case Arrive(body) => s.(buf := s.buf + body)
    case Take =>
      var r := ParseMessage(s.buf);
      if r.Needs? then s else State(s.buf[r.rawLen..], s.taken + [r.msg])
  }

  function Run(events: seq<Event>): State {
    if events == [] then State([], []) else Step(Run(events[..|events| - 1]), events[|events| - 1])
  }

  /** The bytes that arrived. */
  function Arrived(events: seq<Event>): seq<byte> {
    if events == [] then []
    else
      var last := events[|events| - 1];
      Arrived(events[..|events| - 1]) + if last.Arrive? then last.body else []
  }

  /** The bytes of the messages from the k-th on. */
  function Stream(messages: seq<Message>, k: nat): seq<byte>
    requires k <= |messages|
    decreases |messages| - k
  {
    if k == |messages| then [] else MessageBytes(messages[k]) + Stream(messages, k + 1)
  }

  predicate Lengths(messages: seq<Message>) { forall m :: m in messages ==> |m.body| < TWO_24 }

  lemma ParseRestores(m: Message, rest: seq<byte>)
    requires |m.body| < TWO_24
    ensures ParseMessage(MessageBytes(m) + rest) == Whole(m, HEADER + |m.body|)
  {
    var bs := MessageBytes(m) + rest;
    assert Limit(3) == TWO_24;
    assert bs[1..HEADER] == BigEndian(|m.body|, 3);
    BigEndianInverse(|m.body|, 3);
    assert bs[HEADER..HEADER + |m.body|] == m.body;
  }

  /** What follows a whole message does not matter to it. */
  lemma ParseExtends(buf: seq<byte>, future: seq<byte>)
    requires ParseMessage(buf).Whole?
    ensures ParseMessage(buf + future) == ParseMessage(buf)
  {
    var len := FromBigEndian(buf[1..HEADER]);
    assert (buf + future)[1..HEADER] == buf[1..HEADER];
    assert (buf + future)[HEADER..HEADER + len] == buf[HEADER..HEADER + len];
  }

  lemma FrontMessage(buf: seq<byte>, future: seq<byte>, m: Message, rest: seq<byte>)
    requires buf + future == MessageBytes(m) + rest && |m.body| < TWO_24 && ParseMessage(buf).Whole?
    ensures ParseMessage(buf).msg == m && buf[ParseMessage(buf).rawLen..] + future == rest
  {
    ParseExtends(buf, future);
    ParseRestores(m, rest);
    hide ParseMessage, MessageBytes;
    var n := ParseMessage(buf).rawLen;
    assert buf[n..] + future == (buf + future)[n..];
    assert rest == (MessageBytes(m) + rest)[n..];
  }

  /** The messages taken are the first ones sent, and the buffer holds the rest as far as it came. */
  lemma {:induction false} RunFollows(messages: seq<Message>, events: seq<Event>, future: seq<byte>)
    requires Lengths(messages) && Arrived(events) + future == Stream(messages, 0)
    ensures var s := Run(events);
            && |s.taken| <= |messages| && s.taken == messages[..|s.taken|]
            && s.buf + future == Stream(messages, |s.taken|)
    decreases |events|
  {
    hide ParseMessage, MessageBytes;
    if events != [] {
      var last := |events| - 1;
      var s := Run(events[..last]);
      match events[last] {
        case Arrive(body) =>
          assert Arrived(events[..last]) + (body + future) == Arrived(events) + future;
          RunFollows(messages, events[..last], body + future);
          assert s.buf + (body + future) == (s.buf + body) + future;
        case Take =>
          assert Arrived(events[..last]) == Arrived(events);
          RunFollows(messages, events[..last], future);
          var k := |s.taken|;
          if ParseMessage(s.buf).Whole? {
            WholeIsNotEmpty(s.buf);
            assert k < |messages| && messages[k] in messages;
            FrontMessage(s.buf, future, messages[k], Stream(messages, k + 1));
            assert messages[..k + 1] == messages[..k] + [messages[k]];
          }
      }
    }
  }

  lemma WholeIsNotEmpty(buf: seq<byte>)
    requires ParseMessage(buf).Whole?
    ensures buf != []
  {
  }

  /**
    Where the sender's stream has arrived so far, cut anywhere, the messages taken are
    its messages, in order; and when all of it has arrived and none is left, all of them.
   */
  lemma {:induction false} MessagesInOrder(messages: seq<Message>, events: seq<Event>, future: seq<byte>)
    requires Lengths(messages) && Arrived(events) + future == Stream(messages, 0)
    ensures var s := Run(events);
            && |s.taken| <= |messages| && s.taken == messages[..|s.taken|]
            && (future == [] && ParseMessage(s.buf).Needs? ==> s.taken == messages && s.buf == [])
  {
    hide Run, Arrived, ParseMessage, Lengths, Stream;
    RunFollows(messages, events, future);
    var s := Run(events);
    if future == [] && ParseMessage(s.buf).Needs? {
      assert s.buf + [] == s.buf;
      NoneLeft(messages, |s.taken|, s.buf);
      assert messages[..|messages|] == messages;
    }
  }

  /** What a reader that checks first makes of the events; nothing once it had to refuse. */
  function CheckedRun(events: seq<Event>, maxLen: nat): Option<State> {
    if events == [] then Some(State([], []))
    else
      var last := |events| - 1;
      var s := CheckedRun(events[..last], maxLen);
      if s.None? || (events[last].Arrive? && !Accepts(s.value.buf, maxLen)) then None
      else Some(Step(s.value, events[last]))
  }

  /** Checking changes nothing but that it may refuse, and it keeps a peer from filling the memory. */
  lemma {:induction false} BufferBounded(events: seq<Event>, maxLen: nat)
    requires CheckedRun(events, maxLen).Some?
    requires forall e :: e in events && e.Arrive? ==> |e.body| <= MAX_PLAIN
    ensures CheckedRun(events, maxLen).value == Run(events)
    ensures |Run(events).buf| < HEADER + maxLen + MAX_PLAIN
    decreases |events|
  {
    hide ParseMessage;
    if events != [] {
      BufferBounded(events[..|events| - 1], maxLen);
      assert events[|events| - 1] in events;
    }
  }

  /** However the stream was cut, more is refused exactly while a message waits or once the header of one too long is there. */
  lemma {:induction false} RefusedExactly(messages: seq<Message>, events: seq<Event>, future: seq<byte>, maxLen: nat)
    requires Lengths(messages) && Arrived(events) + future == Stream(messages, 0)
    ensures var s := Run(events);
            && (|s.buf| >= HEADER ==> |s.taken| < |messages|)
            && (Accepts(s.buf, maxLen) <==>
                  && ParseMessage(s.buf).Needs?
                  && (|s.buf| < HEADER || |messages[|s.taken|].body| <= maxLen))
  {
    hide Run, Arrived, MessageBytes;
    RunFollows(messages, events, future);
    var s := Run(events);
    if |s.buf| >= HEADER {
      var m := messages[|s.taken|];
      assert m in messages;
      ParseRestores(m, Stream(messages, |s.taken| + 1));
      assert (s.buf + future)[1..HEADER] == s.buf[1..HEADER];
    }
  }

  lemma NoneLeft(messages: seq<Message>, k: nat, buf: seq<byte>)
    requires Lengths(messages) && k <= |messages| && buf == Stream(messages, k) && ParseMessage(buf).Needs?
    ensures k == |messages| && buf == []
  {
    hide ParseMessage, MessageBytes;
    if k < |messages| {
      assert messages[k] in messages;
      ParseRestores(messages[k], Stream(messages, k + 1));
    }
  }
}
