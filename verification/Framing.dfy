/** The stream of packets on a connection (section 2.1 of MQTT 5.0) and what packet__read of lib/packet_mosq.c makes
    of it byte by byte, however the bytes arrive. */
module Framing {
  import opened MosqTypes
  import opened Wire

  /** A control packet: the first byte of its fixed header, and what follows the remaining length */
  datatype Frame = Frame(command: Byte, body: Bytes)

  function FrameBytes(f: Frame): Bytes {
    [f.command] + (Varint(|f.body|) + f.body)
  }

  /** A packet as it is built up: the fixed header that packet__alloc writes, and the body */
  lemma FrameIs(command: Byte, body: Bytes)
    ensures [command] + Varint(|body|) + body == FrameBytes(Frame(command, body))
  {
  }

  function Stream(frames: seq<Frame>): Bytes {
    if frames == [] then [] else FrameBytes(frames[0]) + Stream(frames[1..])
  }

  lemma {:induction false} StreamAppend(a: seq<Frame>, b: seq<Frame>)
    ensures Stream(a + b) == Stream(a) + Stream(b)
  {
    if a == [] {
      assert a + b == b;
    } else {
      assert (a + b)[1..] == a[1..] + b;
      StreamAppend(a[1..], b);
    }
  }

  // ---------------------------------------------------------------------------------------------
  // The receiver
  // ---------------------------------------------------------------------------------------------

  /** in_packet. count is negative while the digits of the remaining length come in; started says that no command
      byte will be read next. */
  datatype Scan = Scan(started: bool, command: Byte, count: int, mult: nat, length: nat, body: Bytes)

  const IDLE := Scan(false, 0, 0, 1, 0, [])

  /** A connection: isNew until a CONNECT has been handled */
  datatype Conn =
    | Open(isNew: bool, scan: Scan, handled: seq<Frame>)
    | Closed(rc: Rc, handled: seq<Frame>)

  /** Is the packet complete? */
  function Filled(c: Conn, s: Scan): Conn
    requires c.Open?
  {
    if |s.body| == s.length then Open(false, IDLE, c.handled + [Frame(s.command, s.body)]) else c.(scan := s)
  }

  /** The remaining length is known; limit is max_packet_size, or 0. */
  function Measured(c: Conn, s: Scan, limit: nat): Conn
    requires c.Open?
  {
    if limit > 0 && s.length + 1 > limit then Closed(OversizePacket, c.handled) else Filled(c, s)
  }

  function Feed(c: Conn, b: Byte, limit: nat): Conn {
    if c.Closed? then c
    else if !c.scan.started then
      if c.isNew && b / 16 != 1 then Closed(Protocol, c.handled)
      else c.(scan := c.scan.(started := true, command := b))
    else if c.scan.count <= 0 then
      if c.scan.count <= -4 then Closed(Protocol, c.handled)
      else
        var s := c.scan.(length := c.scan.length + Digit(b, c.scan.mult), mult := c.scan.mult * 128);
        if b >= 128 then c.(scan := s.(count := s.count - 1))
        else Measured(c, s.(count := 1 - s.count), limit)
    else Filled(c, c.scan.(body := c.scan.body + [b]))
  }

  function FeedAll(c: Conn, s: Bytes, limit: nat): Conn
    decreases |s|
  {
    if s == [] then c else FeedAll(Feed(c, s[0], limit), s[1..], limit)
  }

  /** A call returns because no more bytes are there: a command byte of zero counts as none. */
  function Pause(c: Conn): Conn {
    if c.Open? && c.scan.command == 0 then c.(scan := c.scan.(started := false)) else c
  }

  lemma {:induction false} FeedAppend(c: Conn, a: Bytes, b: Bytes, limit: nat)
    ensures FeedAll(c, a + b, limit) == FeedAll(FeedAll(c, a, limit), b, limit)
    decreases |a|
  {
    if a == [] {
      assert a + b == b;
    } else {
      assert (a + b)[1..] == a[1..] + b;
      FeedAppend(Feed(c, a[0], limit), a[1..], b, limit);
    }
  }

  lemma FeedOneMore(c: Conn, a: Bytes, b: Byte, limit: nat)
    ensures FeedAll(c, a + [b], limit) == Feed(FeedAll(c, a, limit), b, limit)
  {
    FeedAppend(c, a, [b], limit);
    FeedOne(FeedAll(c, a, limit), b, limit);
  }

  lemma FeedOne(c: Conn, b: Byte, limit: nat)
    ensures FeedAll(c, [b], limit) == Feed(c, b, limit)
  {
    assert FeedAll(Feed(c, b, limit), [], limit) == Feed(c, b, limit);
  }

  /** Part of a body, read at once */
  lemma {:induction false} FeedBody(c: Conn, s: Bytes, limit: nat)
    requires c.Open? && c.scan.started && c.scan.count > 0
    requires |c.scan.body| < c.scan.length && |c.scan.body| + |s| <= c.scan.length
    ensures FeedAll(c, s, limit) == Filled(c, c.scan.(body := c.scan.body + s))
    decreases |s|
  {
    if s == [] {
      assert c.scan.body + s == c.scan.body;
    } else {
      var d := Feed(c, s[0], limit);
      assert c.scan.body + [s[0]] + s[1..] == c.scan.body + s;
      if |s| == 1 {
        assert s[1..] == [] && [s[0]] == s;
      } else {
        FeedBody(d, s[1..], limit);
      }
    }
  }

  // ---------------------------------------------------------------------------------------------
  // Packets arrive whole and in order
  // ---------------------------------------------------------------------------------------------

  /** What the receiver is willing to take */
  predicate Acceptable(f: Frame, isNew: bool, limit: nat) {
    && f.command != 0 && |f.body| < VARINT_LIMIT
    && (limit == 0 || |f.body| < limit)
    && (isNew ==> f.command / 16 == 1)
  }

  predicate AllAcceptable(frames: seq<Frame>, isNew: bool, limit: nat) {
    forall k :: 0 <= k < |frames| ==> Acceptable(frames[k], isNew && k == 0, limit)
  }

  /** Nothing is lost by pausing, and nothing has been handled. */
  predicate Unbroken(c: Conn, was: Conn) {
    && c.Open? && was.Open?
    && c.isNew == was.isNew && c.handled == was.handled
    && (c.scan.started ==> c.scan.command != 0)
  }

  /** All of the remaining length has been read, and it is this. */
  predicate LengthKnown(s: Scan, was: Scan, length: nat) {
    s.started && s.command == was.command && s.count > 0 && s.length == length && s.body == was.body
  }

  /** Some of the digits of a remaining length of n, or all of them */
  lemma {:induction false} FeedLength(c: Conn, n: nat, s: Bytes, limit: nat)
    requires c.Open? && c.scan.started && -3 <= c.scan.count <= 0
    requires n < Limit(4 + c.scan.count)
    requires s <= Varint(n)
    ensures |s| < |Varint(n)| && c.scan.command != 0 ==> Unbroken(FeedAll(c, s, limit), c)
    ensures s == Varint(n) ==>
      exists t :: LengthKnown(t, c.scan, c.scan.length + n * c.scan.mult) && FeedAll(c, s, limit) == Measured(c, t, limit)
    decreases n
  {
    if s != [] {
      var d := Feed(c, s[0], limit);
      if n < 128 {
        assert s == [n];
        FeedOne(c, n, limit);
        var t := Scan(true, c.scan.command, 1 - c.scan.count, c.scan.mult * 128, c.scan.length + n * c.scan.mult, c.scan.body);
        assert LengthKnown(t, c.scan, c.scan.length + n * c.scan.mult) && FeedAll(c, s, limit) == Measured(c, t, limit);
      } else {
        assert Varint(n)[1..] == Varint(n / 128);
        assert s[0] == n % 128 + 128 && s[1..] <= Varint(n / 128);
        DigitsLeft(n, c.scan.count);
        FeedLength(d, n / 128, s[1..], limit);
        AddDigit(n, c.scan.mult);
        assert |s[1..]| < |Varint(n / 128)| <==> |s| < |Varint(n)|;
        if s == Varint(n) {
          var t :| LengthKnown(t, d.scan, d.scan.length + n / 128 * d.scan.mult) && FeedAll(d, s[1..], limit) == Measured(d, t, limit);
          assert LengthKnown(t, c.scan, c.scan.length + n * c.scan.mult) && Measured(d, t, limit) == Measured(c, t, limit);
        }
      }
    }
  }

  lemma DigitsLeft(n: nat, count: int)
    requires -3 <= count <= 0 && 128 <= n < Limit(4 + count)
    ensures count > -3 && n / 128 < Limit(3 + count)
  {
    Limits();
    assert Limit(4 + count) == 128 * Limit(3 + count);
  }

  lemma AddDigit(n: nat, mult: nat)
    ensures Digit(n % 128 + 128, mult) + n / 128 * (mult * 128) == n * mult
  {
    var a, high := n % 128, n / 128;
    assert (a + 128) % 128 == a;
    assert n == a + 128 * high;
    Distribute(mult, a, high);
  }

  /** Part of a packet leaves the receiver in the middle of it; the whole packet is handled. */
  lemma FeedFrame(c: Conn, f: Frame, s: Bytes, limit: nat)
    requires c.Open? && c.scan == IDLE && Acceptable(f, c.isNew, limit) && s <= FrameBytes(f)
    ensures |s| < |FrameBytes(f)| ==> Unbroken(FeedAll(c, s, limit), c)
    ensures s == FrameBytes(f) ==> FeedAll(c, s, limit) == Open(false, IDLE, c.handled + [f])
  {
    hide Limit, Varint, Acceptable;
    if s != [] {
      var lengthBytes := Varint(|f.body|);
      var c1 := Feed(c, f.command, limit);
      assert FrameBytes(f)[0] == f.command && FrameBytes(f)[1..] == lengthBytes + f.body;
      assert s[0] == f.command && s[1..] <= lengthBytes + f.body;
      assert FeedAll(c, s, limit) == FeedAll(c1, s[1..], limit);
      AcceptableStarts(c, f, limit);
      FeedAfterCommand(c1, f, s[1..], limit);
    }
  }

  lemma AcceptableStarts(c: Conn, f: Frame, limit: nat)
    requires c.Open? && c.scan == IDLE && Acceptable(f, c.isNew, limit)
    ensures Feed(c, f.command, limit) == c.(scan := Scan(true, f.command, 0, 1, 0, []))
    ensures f.command != 0 && |f.body| < VARINT_LIMIT && (limit == 0 || |f.body| < limit)
  {
  }

  lemma FeedAfterCommand(c: Conn, f: Frame, s: Bytes, limit: nat)
    requires c.Open? && c.scan == Scan(true, f.command, 0, 1, 0, [])
    requires |f.body| < VARINT_LIMIT && (limit == 0 || |f.body| < limit)
    requires s <= Varint(|f.body|) + f.body
    ensures |s| < |Varint(|f.body|) + f.body| && f.command != 0 ==> Unbroken(FeedAll(c, s, limit), c)
    ensures s == Varint(|f.body|) + f.body ==> FeedAll(c, s, limit) == Open(false, IDLE, c.handled + [f])
  {
    Limits();
    hide Limit, Varint, FeedAll, Feed;
    var digits := Varint(|f.body|);
    if |s| < |digits| {
      assert s <= digits;
      FeedLength(c, |f.body|, s, limit);
    } else {
      var t := s[|digits|..];
      assert s == digits + t && t <= f.body;
      FeedLength(c, |f.body|, digits, limit);
      FeedAppend(c, digits, t, limit);
      var u :| LengthKnown(u, c.scan, c.scan.length + |f.body| * c.scan.mult) && FeedAll(c, digits, limit) == Measured(c, u, limit);
      assert u.length == |f.body|;
      if f.body == [] {
        assert s == digits;
      } else {
        FeedBody(FeedAll(c, digits, limit), t, limit);
        assert [] + t == t;
      }
    }
  }

  /** How many packets are complete in the first n bytes of the stream */
  function Whole(frames: seq<Frame>, n: nat): (k: nat)
    ensures k <= |frames|
    ensures n >= |Stream(frames)| ==> k == |frames|
  {
    if frames == [] || n < |FrameBytes(frames[0])| then 0
    else 1 + Whole(frames[1..], n - |FrameBytes(frames[0])|)
  }

  /** Whatever part of the stream has arrived, exactly the packets complete in it have been handled, in order. */
  lemma {:induction false} FeedStream(c: Conn, frames: seq<Frame>, s: Bytes, limit: nat)
    requires c.Open? && c.scan == IDLE && AllAcceptable(frames, c.isNew, limit)
    requires s <= Stream(frames)
    ensures var d := FeedAll(c, s, limit);
      && d.Open? && d.handled == c.handled + frames[..Whole(frames, |s|)]
      && Pause(d) == d
    decreases |frames|
  {
    hide FrameBytes, Acceptable;
    if frames != [] {
      var f := frames[0];
      assert Acceptable(f, c.isNew, limit);
      if |s| < |FrameBytes(f)| {
        assert s <= FrameBytes(f);
        FeedFrame(c, f, s, limit);
      } else {
        var t := s[|FrameBytes(f)|..];
        assert s == FrameBytes(f) + t && t <= Stream(frames[1..]);
        FeedFrame(c, f, FrameBytes(f), limit);
        FeedAppend(c, FrameBytes(f), t, limit);
        LaterAcceptable(frames, c.isNew, limit);
        FeedStream(Open(false, IDLE, c.handled + [f]), frames[1..], t, limit);
        assert c.handled + [f] + frames[1..][..Whole(frames[1..], |t|)] == c.handled + frames[..Whole(frames, |s|)];
      }
    }
  }

  /** End to end: what was queued is what was sent and what is still pending, and part of what was sent has arrived. */
  lemma Delivered(frames: seq<Frame>, sent: Bytes, pending: Bytes, received: Bytes, isNew: bool, limit: nat)
    requires AllAcceptable(frames, isNew, limit)
    requires sent + pending == Stream(frames) && received <= sent
    ensures var c := FeedAll(Open(isNew, IDLE, []), received, limit);
      && c.Open? && c.handled <= frames
      && (received + pending == Stream(frames) && pending == [] ==> c.handled == frames)
  {
    hide FeedAll, AllAcceptable;
    assert received <= Stream(frames);
    FeedStream(Open(isNew, IDLE, []), frames, received, limit);
    assert [] + frames[..Whole(frames, |received|)] == frames[..Whole(frames, |received|)];
  }

  lemma LaterAcceptable(frames: seq<Frame>, isNew: bool, limit: nat)
    requires frames != [] && AllAcceptable(frames, isNew, limit)
    ensures AllAcceptable(frames[1..], false, limit)
  {
    hide Acceptable;
    forall k | 0 <= k < |frames| - 1
      ensures Acceptable(frames[1..][k], false, limit)
    {
      assert Acceptable(frames[k + 1], false, limit);
    }
  }

  // ---------------------------------------------------------------------------------------------
  // Packets that are refused
  // ---------------------------------------------------------------------------------------------

  /** The fate of one packet whose length can be written: a connection must begin with CONNECT, a packet must be smaller than
      max_packet_size if there is one, and every other packet is handled. */
  lemma FrameJudged(c: Conn, f: Frame, limit: nat)
    requires c.Open? && c.scan == IDLE && f.command != 0 && |f.body| < VARINT_LIMIT
    ensures FeedAll(c, FrameBytes(f), limit) ==
      if c.isNew && !(0x10 <= f.command < 0x20) then Closed(Protocol, c.handled)
      else if limit > 0 && |f.body| >= limit then Closed(OversizePacket, c.handled)
      else Open(false, IDLE, c.handled + [f])
  {
    hide Varint;
    if c.isNew && f.command / 16 != 1 {
      FeedAppend(c, [f.command], Varint(|f.body|) + f.body, limit);
      FeedOne(c, f.command, limit);
      ClosedStays(Closed(Protocol, c.handled), Varint(|f.body|) + f.body, limit);
    } else if limit > 0 && |f.body| >= limit {
      FeedTooLarge(c, f, limit);
    } else {
      FeedFrame(c, f, FrameBytes(f), limit);
    }
  }

  lemma FeedTooLarge(c: Conn, f: Frame, limit: nat)
    requires c.Open? && c.scan == IDLE && 0 < limit <= |f.body| < VARINT_LIMIT && (c.isNew ==> f.command / 16 == 1)
    ensures FeedAll(c, FrameBytes(f), limit) == Closed(OversizePacket, c.handled)
  {
    Limits();
    hide Limit, Varint, FeedAll;
    var d, digits := Feed(c, f.command, limit), Varint(|f.body|);
    FeedAppend(c, [f.command], digits + f.body, limit);
    FeedOne(c, f.command, limit);
    FeedLength(d, |f.body|, digits, limit);
    FeedAppend(d, digits, f.body, limit);
    ClosedStays(Closed(OversizePacket, c.handled), f.body, limit);
  }

  /** A remaining length of more than four bytes is refused with the fifth. */
  lemma FiveDigits(c: Conn, command: Byte, digits: Bytes, last: Byte, limit: nat)
    requires c.Open? && c.scan == IDLE && (c.isNew ==> command / 16 == 1)
    requires |digits| == 4 && forall k :: 0 <= k < 4 ==> digits[k] >= 128
    ensures FeedAll(c, [command] + digits + [last], limit) == Closed(Protocol, c.handled)
  {
    hide FeedAll;
    FeedOne(c, command, limit);
    var a := FeedAll(c, [command], limit);
    FeedOneMore(c, [command], digits[0], limit);
    FeedOneMore(c, [command] + [digits[0]], digits[1], limit);
    FeedOneMore(c, [command] + [digits[0]] + [digits[1]], digits[2], limit);
    FeedOneMore(c, [command] + [digits[0]] + [digits[1]] + [digits[2]], digits[3], limit);
    assert [command] + digits == [command] + [digits[0]] + [digits[1]] + [digits[2]] + [digits[3]];
    FeedOneMore(c, [command] + digits, last, limit);
  }

  // ---------------------------------------------------------------------------------------------
  // A command byte of zero
  // ---------------------------------------------------------------------------------------------

  lemma {:induction false} HandledGrows(c: Conn, s: Bytes, limit: nat)
    ensures c.handled <= FeedAll(c, s, limit).handled
    decreases |s|
  {
    if s != [] {
      HandledGrows(Feed(c, s[0], limit), s[1..], limit);
    }
  }

  /** The next packet to be handled is the one whose command has been read. */
  lemma {:induction false} NextHandled(c: Conn, s: Bytes, limit: nat)
    requires c.Open? && c.scan.started
    ensures var h := FeedAll(c, s, limit).handled;
      |h| > |c.handled| ==> h[|c.handled|].command == c.scan.command
    decreases |s|
  {
    if s != [] {
      var d := Feed(c, s[0], limit);
      if d.Open? && d.handled == c.handled {
        NextHandled(d, s[1..], limit);
      } else {
        HandledGrows(d, s[1..], limit);
        ClosedStays(d, s[1..], limit);
      }
    }
  }

  lemma {:induction false} ClosedStays(c: Conn, s: Bytes, limit: nat)
    ensures c.Closed? ==> FeedAll(c, s, limit) == c
    decreases |s|
  {
    if s != [] {
      ClosedStays(Feed(c, s[0], limit), s[1..], limit);
    }
  }

  /** Why the command must not be zero: a packet of any size with that command is handled if its bytes come without a
      pause, and never is if the receiver pauses behind the first of them. */
  lemma ZeroCommandByte(handled: seq<Frame>, body: Bytes, limit: nat)
    requires |body| < VARINT_LIMIT && (limit == 0 || |body| < limit)
    ensures var c, f := Open(false, IDLE, handled), Frame(0, body);
      && FeedAll(c, FrameBytes(f), limit).handled == handled + [f]
      && FeedAll(Pause(FeedAll(c, [0], limit)), Varint(|body|) + body, limit).handled != handled + [f]
  {
    var c, rest := Open(false, IDLE, handled), Varint(|body|) + body;
    assert FrameBytes(Frame(0, body)) == [0] + rest;
    FeedAppend(c, [0], rest, limit);
    FeedOne(c, 0, limit);
    FeedAfterCommand(Feed(c, 0, limit), Frame(0, body), rest, limit);
    assert Pause(Feed(c, 0, limit)) == c;
    var d := Feed(c, rest[0], limit);
    NextHandled(d, rest[1..], limit);
    if body == [] {
      assert rest[1..] == [];
      assert FeedAll(d, rest[1..], limit) == d;
    } else {
      assert rest[0] == Varint(|body|)[0] != 0;
    }
  }
}
