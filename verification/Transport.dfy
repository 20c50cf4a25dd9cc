/** Sending and receiving packets over a socket that takes and gives any number of bytes at a time:
    packet__queue, packet__write and packet__read of lib/packet_mosq.c. */
module Transport {
  import opened MosqTypes
  import opened Wire
  import opened Framing
  import opened Packets

  /** How one call of net__write or net__read will go */
  datatype Net =
    | Moves(more: nat)  // 1 + more bytes, or as many as there are
    | WouldBlock        // EAGAIN
    | Eof
    | Reset             // ECONNRESET
    | Broken

  /** A non-blocking socket; the schedule says what the network does next. */
  class Socket {
    var sent: Bytes
    var incoming: Bytes
    var schedule: seq<Net>
    var last: Net

    constructor (incoming: Bytes, schedule: seq<Net>)
      ensures this.sent == [] && this.incoming == incoming && this.schedule == schedule
    {
      this.sent, this.incoming, this.schedule, this.last := [], incoming, schedule, WouldBlock;
    }

    method Turn()
      modifies `last, `schedule
    {
      if schedule == [] {
        last := WouldBlock;
      } else {
        last, schedule := schedule[0], schedule[1..];
      }
    }

    /** net__write: the number of bytes taken, or -1 with the reason in last */
    method Write(buffer: array<Byte>, offset: nat, count: nat) returns (n: int)
      requires 0 < count && offset + count <= buffer.Length
      modifies this
      ensures incoming == old(incoming)
      ensures last.Moves? ==> 0 < n <= count && sent == old(sent) + buffer[offset..offset + n]
      ensures !last.Moves? ==> n <= 0 && sent == old(sent)
    {
      Turn();
      if last.Moves? {
        n := Min(1 + last.more, count);
        sent := sent + buffer[offset..offset + n];
      } else {
        n := if last.Eof? then 0 else -1;
      }
    }

    /** net__read: the number of bytes put into the buffer, 0 at the end of the stream, or -1 */
    method Read(buffer: array<Byte>, offset: nat, count: nat) returns (n: int)
      requires 0 < count && offset + count <= buffer.Length
      modifies this, buffer
      ensures sent == old(sent)
      ensures last.Moves? ==>
        && 0 < n <= count && n <= |old(incoming)|
        && buffer[..] == old(buffer[..offset]) + old(incoming)[..n] + old(buffer[offset + n..])
        && incoming == old(incoming)[n..]
      ensures !last.Moves? ==> n <= 0 && (n == 0 <==> last.Eof?) && incoming == old(incoming) && buffer[..] == old(buffer[..])
    {
      Turn();
      if last.Moves? && incoming == [] {
        last := WouldBlock;
      }
      if last.Moves? {
        n := Min(Min(1 + last.more, count), |incoming|);
        forall i | 0 <= i < n {
          buffer[offset + i] := incoming[i];
        }
        incoming := incoming[n..];
      } else {
        n := if last.Eof? then 0 else -1;
      }
    }
  }

  // ---------------------------------------------------------------------------------------------
  // Sending
  // ---------------------------------------------------------------------------------------------

  /** All bytes of a packet */
  ghost function Content(p: Packet): Bytes
    reads p, p.payload
  {
    if p.payload == null then [] else p.payload[..]
  }

  ghost function Contents(q: seq<Packet>): Bytes
    reads q, set p | p in q :: p.payload
  {
    if q == [] then [] else Content(q[0]) + Contents(q[1..])
  }

  lemma {:induction false} ContentsAppend(q: seq<Packet>, p: Packet)
    ensures Contents(q + [p]) == Contents(q) + Content(p)
  {
    if q == [] {
      assert Contents([p]) == Content(p) + [];
      assert q + [p] == [p];
    } else {
      assert (q + [p])[1..] == q[1..] + [p];
      ContentsAppend(q[1..], p);
    }
  }

  /** A complete packet adds its frame to what is sent. */
  lemma ContentOfFrame(p: Packet, command: Byte, body: Bytes)
    requires p.Carries(command, body)
    ensures Content(p) == FrameBytes(Frame(command, body))
  {
    assert p.payload[..p.pos] == p.payload[..];
  }

  /** The sending side of struct mosquitto */
  class Sender {
    const sock: Socket
    var current: Packet?
    var queue: seq<Packet>
    var hasSocket: bool
    var connectPending: bool

    constructor (sock: Socket)
      ensures Valid() && this.sock == sock && current == null && queue == [] && hasSocket && !connectPending
    {
      this.sock, current, queue, hasSocket, connectPending := sock, null, [], true, false;
    }

    ghost predicate InTransit(p: Packet)
      reads p
    {
      p.payload != null && p.payload.Length == p.packetLength && p.pos + p.toProcess == p.packetLength
    }

    ghost predicate Valid()
      reads this, queue, current
    {
      && (current != null ==> InTransit(current) && current !in queue)
      && (forall i :: 0 <= i < |queue| ==> InTransit(queue[i]) && queue[i].pos == 0)
      && (forall i, j :: 0 <= i < j < |queue| ==> queue[i] != queue[j])
    }

    /** What still has to be sent */
    ghost function Pending(): Bytes
      requires Valid()
      reads this, queue, current, set p | p in queue :: p.payload, if current == null then {} else {current.payload}
    {
      (if current == null then [] else current.payload[current.pos..]) + Contents(queue)
    }

    /** The next packet becomes the current one. */
    method TakeNext()
      requires Valid() && (current == null || current.toProcess == 0)
      modifies `current, `queue
      ensures Valid() && Pending() == old(Pending())
      ensures old(queue) == [] ==> current == null && queue == []
      ensures old(queue) != [] ==> current == old(queue)[0] && queue == old(queue)[1..]
    {
      if queue == [] {
        current := null;
      } else {
        current, queue := queue[0], queue[1..];
        assert Content(current) == current.payload[current.pos..];
      }
    }

    /** The inner loop of packet__write: the current packet, as far as the socket takes it */
    method WriteCurrent() returns (rc: Rc)
      requires Valid() && current != null
      modifies sock, current`pos, current`toProcess
      ensures Valid() && sock.sent + Pending() == old(sock.sent + Pending())
      ensures old(sock.sent) <= sock.sent && sock.incoming == old(sock.incoming)
      ensures rc == Success && current.toProcess > 0 ==> sock.last == WouldBlock
      ensures rc == Success || rc == ConnLost || rc == Errno
    {
      hide Contents;
      var packet := current;
      ghost var all, behind := sock.sent + packet.payload[packet.pos..], Contents(queue);
      assert sock.sent + Pending() == all + behind;
      while packet.toProcess > 0
        invariant InTransit(packet) && sock.sent + packet.payload[packet.pos..] == all && Contents(queue) == behind
        invariant old(sock.sent) <= sock.sent && sock.incoming == old(sock.incoming)
      {
        ghost var sent, left := sock.sent, packet.payload[packet.pos..];
        var written := sock.Write(packet.payload, packet.pos, packet.toProcess);
        if written > 0 {
          packet.toProcess := packet.toProcess - written;
          packet.pos := packet.pos + written;
          assert left[..written] + packet.payload[packet.pos..] == left;
          assert sock.sent == sent + left[..written];
        } else {
          assert sock.sent + Pending() == all + behind;
          return if sock.last == WouldBlock then Success else if sock.last == Reset then ConnLost else Errno;
        }
      }
      assert sock.sent + Pending() == all + behind;
      return Success;
    }

    lemma NothingPending()
      requires Valid() && current == null && queue == []
      ensures Pending() == []
    {
    }

    /** packet__write of the broker. What was sent and what is pending together stay the same, so nothing is lost,
        repeated or reordered; when it stops early the reason is the socket's. */
    method Write() returns (rc: Rc)
      requires Valid()
      modifies this`current, this`queue, sock, queue, current
      ensures Valid() && (forall p <- queue :: p in old(queue))
      ensures current == null || current == old(current) || current in old(queue)
      ensures sock.sent + Pending() == old(sock.sent + Pending())
      ensures old(sock.sent) <= sock.sent && sock.incoming == old(sock.incoming)
      ensures rc == NoConn <==> !hasSocket
      ensures hasSocket && !connectPending && rc == Success && sock.last != WouldBlock ==> Pending() == []
    {
      hide Pending, Valid, Contents;
      if !hasSocket {
        return NoConn;
      }
      if queue != [] && current == null {
        TakeNext();
      }
      if connectPending {
        return Success;
      }
      while current != null
        decreases |queue| + if current == null then 0 else 1
        invariant Valid() && (forall p <- queue :: p in old(queue))
        invariant current == null || current == old(current) || current in old(queue)
        invariant current == null ==> queue == []
        invariant sock.sent + Pending() == old(sock.sent + Pending())
        invariant old(sock.sent) <= sock.sent && sock.incoming == old(sock.incoming)
      {
        rc := WriteCurrent();
        if rc != Success || current.toProcess > 0 {
          return rc;
        }
        TakeNext();
      }
      NothingPending();
      return Success;
    }

    /** The first half of packet__queue */
    method Append(packet: Packet)
      requires Valid() && packet != current && packet !in queue && packet.Writable()
      modifies this`queue, packet`pos, packet`toProcess
      ensures Valid() && queue == old(queue) + [packet]
      ensures Pending() == old(Pending()) + Content(packet) && Content(packet) == old(Content(packet))
    {
      hide Contents;
      ghost var behind := Contents(queue);
      packet.pos := 0;
      packet.toProcess := packet.packetLength;
      assert Contents(queue) == behind;
      ContentsAppend(queue, packet);
      queue := queue + [packet];
    }

    /** packet__queue: the bytes of the packet are the next ones behind all that was pending. Inside a callback of
        the client library nothing is written yet. */
    method Queue(packet: Packet, deferred: bool) returns (rc: Rc)
      requires Valid() && packet != current && packet !in queue && packet.Writable()
      modifies this`current, this`queue, sock, queue, current, packet
      ensures Valid()
      ensures sock.sent + Pending() == old(sock.sent + Pending() + Content(packet))
      ensures old(sock.sent) <= sock.sent && sock.incoming == old(sock.incoming)
    {
      Append(packet);
      if deferred {
        return Success;
      }
      rc := Write();
    }
  }

  // ---------------------------------------------------------------------------------------------
  // Receiving
  // ---------------------------------------------------------------------------------------------

  /** The length of a packet is known and its body is awaited. */
  predicate InBody(c: Conn) {
    c.Open? && c.scan.started && c.scan.count > 0
  }

  /** The receiving side of struct mosquitto. limit is max_packet_size of the broker, or 0; isNew is mosq_cs_new of
      a broker client. handled is what handle__packet has been given. */
  class Receiver {
    const sock: Socket
    const inPacket: Packet
    const limit: nat
    var hasSocket: bool
    var connectPending: bool
    var isNew: bool
    var handled: seq<Frame>

    constructor (sock: Socket, limit: nat, isNew: bool)
      ensures Valid() && fresh(inPacket) && View() == Open(isNew, IDLE, [])
      ensures this.sock == sock && this.limit == limit && hasSocket && !connectPending
    {
      this.sock, this.limit, this.isNew := sock, limit, isNew;
      hasSocket, connectPending, handled := true, false, [];
      inPacket := new Packet();
      new;
      inPacket.Cleanup();
    }

    /** in_packet between two calls */
    ghost predicate Valid()
      reads inPacket
    {
      && -4 <= inPacket.remainingCount <= 4 && inPacket.remainingLength < VARINT_LIMIT
      && (if inPacket.remainingCount <= 0
          then inPacket.payload == null && inPacket.pos == 0 && inPacket.toProcess == 0 && MultOk()
          else 0 < inPacket.toProcess && BodyOk())
    }

    ghost predicate MultOk()
      reads inPacket
    {
      && -4 <= inPacket.remainingCount <= 0 && inPacket.remainingMult == Limit(-inPacket.remainingCount)
      && inPacket.remainingLength < inPacket.remainingMult
    }

    ghost predicate BodyOk()
      reads inPacket
    {
      && inPacket.pos + inPacket.toProcess == inPacket.remainingLength
      && if inPacket.payload == null then inPacket.remainingLength == 0 else inPacket.payload.Length == inPacket.remainingLength
    }

    function AllBytes(): Bytes
      reads inPacket, inPacket.payload
    {
      if inPacket.payload == null then [] else inPacket.payload[..]
    }

    ghost function Body(): Bytes
      reads inPacket, inPacket.payload
    {
      if inPacket.payload == null || inPacket.payload.Length < inPacket.pos then [] else inPacket.payload[..inPacket.pos]
    }

    /** What has been received, as the state of the byte-by-byte receiver */
    ghost function Now(started: bool): Conn
      reads `isNew, `handled, inPacket, inPacket.payload
    {
      var p := inPacket;
      Open(isNew, Scan(started, p.command, p.remainingCount, p.remainingMult, p.remainingLength, Body()), handled)
    }

    ghost function View(): Conn
      reads `isNew, `handled, inPacket, inPacket.payload
    {
      Now(inPacket.command != 0)
    }

    /** Nothing more can be read now: what the caller is told. The end of the stream is recognised as such only where a
        single byte is read; inside a body it is an error without a number. */
    static function Stopped(last: Net, inBody: bool): Rc {
      match last
      case WouldBlock => Success
      case Eof => if inBody then Errno else ConnLost
      case Reset => ConnLost
      case _ => Errno
    }

    /** The same, as soon as a complete packet has been handled */
    ghost function Soon(): Conn
      reads `isNew, `handled, inPacket, inPacket.payload
    {
      Filled(Now(true), Now(true).scan)
    }

    /** The call ends here: the socket has nothing for now, or the stream is not acceptable. */
    ghost predicate Ended(fed: Conn, rc: Rc)
      reads `isNew, `handled, inPacket, inPacket.payload, sock
    {
      if fed.Open? then Valid() && View() == Pause(fed) && rc == Stopped(sock.last, InBody(fed)) && !sock.last.Moves?
      else fed == Closed(rc, handled) && rc != Success
    }

    /** packet__read, the command byte */
    method ReadCommand() returns (go: bool, rc: Rc, ghost got: Bytes)
      requires Valid() && inPacket.command == 0
      modifies sock, inPacket`command
      ensures old(sock.incoming) == got + sock.incoming && sock.sent == old(sock.sent)
      ensures go ==> Valid() && Now(true) == FeedAll(old(View()), got, limit)
      ensures !go ==> Ended(FeedAll(old(View()), got, limit), rc)
    {
      ghost var was := View();
      var cell := new Byte[1];
      var n := sock.Read(cell, 0, 1);
      if n == 1 {
        inPacket.command := cell[0];
        got := [cell[0]];
        assert got == old(sock.incoming)[..1];
        FeedOne(was, cell[0], limit);
        if isNew && cell[0] / 16 != 1 {
          return false, Protocol, got;
        }
        return true, Success, got;
      }
      return false, Stopped(sock.last, false), [];
    }

    /** packet__read, the digits of the remaining length */
    method ReadDigits() returns (go: bool, rc: Rc, ghost got: Bytes)
      requires Valid() && inPacket.remainingCount <= 0
      modifies sock, inPacket`remainingCount, inPacket`remainingLength, inPacket`remainingMult
      ensures old(sock.incoming) == got + sock.incoming && sock.sent == old(sock.sent)
      ensures go ==> MultOk() && inPacket.remainingCount < 0 && inPacket.remainingLength < VARINT_LIMIT
      ensures go ==>
        FeedAll(old(Now(true)), got, limit) == Measured(Now(true), Now(true).scan.(count := -inPacket.remainingCount), limit)
      ensures !go ==> Ended(FeedAll(old(Now(true)), got, limit), rc)
    {
      hide Limit, Digit, Measured, FeedAll;
      got := [];
      ghost var was := Now(true);
      NothingFed(was, limit);
      var cell := new Byte[1];
      var more := true;
      while more
        invariant -4 <= inPacket.remainingCount <= 0 && (!more ==> inPacket.remainingCount < 0)
        invariant MultOk() && inPacket.remainingLength < VARINT_LIMIT
        invariant old(sock.incoming) == got + sock.incoming && sock.sent == old(sock.sent)
        invariant more ==> FeedAll(was, got, limit) == Now(true)
        invariant !more ==> FeedAll(was, got, limit) == Measured(Now(true), Now(true).scan.(count := -inPacket.remainingCount), limit)
        decreases inPacket.remainingCount + 5, more
      {
        ghost var incoming, before := sock.incoming, Now(true);
        var n := sock.Read(cell, 0, 1);
        if n != 1 {
          return false, Stopped(sock.last, false), got;
        }
        var byte := cell[0];
        assert incoming[..1] == [byte];
        FeedOneMore(was, got, byte, limit);
        got := got + [byte];
        if inPacket.remainingCount - 1 < -4 {
          inPacket.remainingCount := inPacket.remainingCount - 1;
          return false, Protocol, got;
        }
        AnotherDigit(byte, inPacket.remainingMult, inPacket.remainingLength, -inPacket.remainingCount);
        inPacket.remainingCount := inPacket.remainingCount - 1;
        inPacket.remainingLength := inPacket.remainingLength + Digit(byte, inPacket.remainingMult);
        inPacket.remainingMult := inPacket.remainingMult * 128;
        more := byte >= 128;
        SameMeasure(before, Now(true), Now(true).scan.(count := -inPacket.remainingCount), limit);
      }
      return true, Success, got;
    }

    /** packet__read, the remaining length, and room for what it announces */
    method ReadLength() returns (go: bool, rc: Rc, ghost got: Bytes)
      requires Valid() && inPacket.remainingCount <= 0
      modifies sock, inPacket
      ensures old(sock.incoming) == got + sock.incoming && sock.sent == old(sock.sent)
      ensures inPacket.payload != null ==> fresh(inPacket.payload)
      ensures go ==> BodyOk() && 0 < inPacket.remainingCount <= 4 && inPacket.remainingLength < VARINT_LIMIT
      ensures go ==> Soon() == FeedAll(old(Now(true)), got, limit)
      ensures !go ==> Ended(FeedAll(old(Now(true)), got, limit), rc)
    {
      hide Limit, Measured, FeedAll;
      go, rc, got := ReadDigits();
      if !go {
        return go, rc, got;
      }
      ghost var read := Now(true);
      inPacket.remainingCount := -inPacket.remainingCount;
      SameMeasure(read, Now(true), Now(true).scan, limit);
      if limit > 0 && inPacket.remainingLength + 1 > limit {
        TooLarge(Now(true), Now(true).scan, limit);
        return false, OversizePacket, got;
      }
      NotTooLarge(Now(true), Now(true).scan, limit);
      if inPacket.remainingLength > 0 {
        inPacket.payload := new Byte[inPacket.remainingLength];
        inPacket.toProcess := inPacket.remainingLength;
      }
      assert Body() == [];
      return true, Success, got;
    }

    /** packet__read, the rest of the packet */
    method ReadBody() returns (go: bool, rc: Rc, ghost got: Bytes)
      requires BodyOk() && 0 < inPacket.remainingCount <= 4 && inPacket.remainingLength < VARINT_LIMIT
      modifies sock, inPacket`pos, inPacket`toProcess, inPacket.payload
      ensures old(sock.incoming) == got + sock.incoming && sock.sent == old(sock.sent)
      ensures go ==> FeedAll(old(Soon()), got, limit) == Open(false, IDLE, handled + [Frame(inPacket.command, AllBytes())])
      ensures !go ==> Ended(FeedAll(old(Soon()), got, limit), rc)
    {
      hide FeedAll, Limit;
      got := [];
      ghost var was := Soon();
      NothingFed(was, limit);
      while inPacket.toProcess > 0
        invariant BodyOk() && handled == old(handled)
        invariant old(sock.incoming) == got + sock.incoming && sock.sent == old(sock.sent)
        invariant Soon() == FeedAll(was, got, limit)
      {
        ghost var incoming, body, before := sock.incoming, Body(), Soon();
        var n := sock.Read(inPacket.payload, inPacket.pos, inPacket.toProcess);
        if n <= 0 {
          return false, Stopped(sock.last, true), got;
        }
        inPacket.toProcess := inPacket.toProcess - n;
        inPacket.pos := inPacket.pos + n;
        assert Body() == body + incoming[..n];
        FeedBody(before, incoming[..n], limit);
        FeedAppend(was, got, incoming[..n], limit);
        got := got + incoming[..n];
      }
      Full();
      return true, Success, got;
    }

    /** packet__read, as far as the body, or nothing at all if it is already there */
    method ReadHeader() returns (go: bool, rc: Rc, ghost got: Bytes)
      requires Valid()
      modifies sock, inPacket
      ensures old(sock.incoming) == got + sock.incoming && sock.sent == old(sock.sent)
      ensures inPacket.payload == null || inPacket.payload == old(inPacket.payload) || fresh(inPacket.payload)
      ensures go ==> BodyOk() && 0 < inPacket.remainingCount <= 4 && inPacket.remainingLength < VARINT_LIMIT
      ensures go ==> Soon() == FeedAll(old(View()), got, limit)
      ensures !go ==> Ended(FeedAll(old(View()), got, limit), rc)
    {
      hide FeedAll, Filled, Limit, MultOk;
      ghost var was := View();
      got := [];
      NothingFed(was, limit);
      if inPacket.command == 0 {
        go, rc, got := ReadCommand();
        if !go {
          return go, rc, got;
        }
      }
      if inPacket.remainingCount <= 0 {
        ghost var more;
        go, rc, more := ReadLength();
        FeedAppend(was, got, more, limit);
        got := got + more;
        return go, rc, got;
      }
      NotYetFull();
      return true, Success, got;
    }

    /** The packet is complete: it is given to handle__packet and cleared away. */
    method Handle()
      modifies this`handled, this`isNew, inPacket
      ensures Valid() && handled == old(handled) + [Frame(old(inPacket.command), old(AllBytes()))]
      ensures View() == Open(false, IDLE, handled) && inPacket.payload == null
    {
      inPacket.pos := 0;
      handled := handled + [Frame(inPacket.command, AllBytes())];
      isNew := false;
      inPacket.Cleanup();
    }

    /** packet__read. Whatever the socket does, the bytes it gave have been taken as the byte-by-byte receiver takes
        them, and the next call goes on from there; verdict is what handle__packet returns. */
    method Read(verdict: Rc) returns (rc: Rc, ghost got: Bytes)
      requires Valid()
      modifies this`handled, this`isNew, sock, inPacket, inPacket.payload
      ensures old(sock.incoming) == got + sock.incoming && sock.sent == old(sock.sent)
      ensures !hasSocket ==> rc == NoConn && got == []
      ensures hasSocket && connectPending ==> rc == Success && got == []
      ensures inPacket.payload == null || inPacket.payload == old(inPacket.payload) || fresh(inPacket.payload)
      ensures var fed := FeedAll(old(View()), got, limit);
        if fed.Closed? then fed == Closed(rc, handled) && rc != Success
        else
          && Valid() && View() == Pause(fed)
          && (handled == old(handled) && hasSocket && !connectPending ==>
                rc == Stopped(sock.last, InBody(fed)) && !sock.last.Moves?)
          && (handled != old(handled) ==> |handled| == |old(handled)| + 1 && rc == verdict)
    {
      hide FeedAll, Filled, BodyOk, MultOk;
      ghost var was := View();
      got := [];
      NothingFed(was, limit);
      if !hasSocket {
        return NoConn, got;
      }
      if connectPending {
        return Success, got;
      }
      var go;
      go, rc, got := ReadHeader();
      if !go {
        return rc, got;
      }
      ghost var more;
      go, rc, more := ReadBody();
      FeedAppend(was, got, more, limit);
      got := got + more;
      if !go {
        return rc, got;
      }
      Handle();
      return verdict, got;
    }

    /** mosquitto_loop_read and the read loop of the broker: any number of calls, until there is an error or nothing more
        to read. If a peer sends acceptable packets, whatever part of them has been received, exactly the packets
        complete in it have been handled, in order, and no error but the network's or the handler's is ever met. wasNew
        is how the connection began, and past is what had been received on it before. */
    method LoopRead(verdicts: seq<Rc>, ghost frames: seq<Frame>, ghost wasNew: bool, ghost past: Bytes)
      returns (rc: Rc, ghost now: Bytes)
      requires Valid() && AllAcceptable(frames, wasNew, limit) && past + sock.incoming <= Stream(frames)
      requires View() == FeedAll(Open(wasNew, IDLE, []), past, limit)
      modifies this, sock, inPacket, inPacket.payload
      ensures Valid() && now + sock.incoming == past + old(sock.incoming)
      ensures View() == FeedAll(Open(wasNew, IDLE, []), now, limit)
      ensures handled == frames[..Whole(frames, |now|)]
      ensures rc in verdicts || rc == Success || rc == Stopped(sock.last, InBody(View())) || rc == NoConn
    {
      hide FeedAll, Valid, View, AllAcceptable, Whole, Stream;
      now, rc := past, Success;
      ghost var start := Open(wasNew, IDLE, []);
      FeedStream(start, frames, now, limit);
      ViewHandled();
      assert handled == [] + frames[..Whole(frames, |now|)];
      for i := 0 to |verdicts|
        invariant Valid() && now + sock.incoming == past + old(sock.incoming)
        invariant View() == FeedAll(start, now, limit) && View().Open? && View().handled == handled
        invariant handled == frames[..Whole(frames, |now|)]
        invariant rc == Success
        invariant inPacket.payload == null || inPacket.payload == old(inPacket.payload) || fresh(inPacket.payload)
      {
        ghost var got;
        rc, got := Read(verdicts[i]);
        FeedAppend(start, now, got, limit);
        now := now + got;
        FeedStream(start, frames, now, limit);
        ViewHandled();
        if rc != Success {
          hasSocket := false;
          return rc, now;
        }
        if sock.last == WouldBlock {
          return rc, now;
        }
      }
    }

    lemma ViewHandled()
      ensures View().Open? && View().handled == handled
    {
    }

    lemma NotYetFull()
      requires Valid() && inPacket.remainingCount > 0
      ensures Soon() == Now(true) && BodyOk()
    {
    }

    lemma Full()
      requires BodyOk() && inPacket.toProcess == 0
      ensures Soon() == Open(false, IDLE, handled + [Frame(inPacket.command, AllBytes())])
    {
      assert inPacket.payload != null ==> inPacket.payload[..inPacket.pos] == inPacket.payload[..];
    }
  }

  lemma NothingFed(c: Conn, limit: nat)
    ensures FeedAll(c, [], limit) == c
  {
  }

  lemma SameMeasure(c: Conn, d: Conn, s: Scan, limit: nat)
    requires c.Open? && d.Open? && c.isNew == d.isNew && c.handled == d.handled
    ensures Measured(c, s, limit) == Measured(d, s, limit)
  {
  }

  lemma TooLarge(c: Conn, s: Scan, limit: nat)
    requires c.Open? && limit > 0 && s.length + 1 > limit
    ensures Measured(c, s, limit) == Closed(OversizePacket, c.handled)
  {
  }

  lemma NotTooLarge(c: Conn, s: Scan, limit: nat)
    requires c.Open? && !(limit > 0 && s.length + 1 > limit)
    ensures Measured(c, s, limit) == Filled(c, s)
  {
  }

  /** The remaining length stays within what its digits can say. */
  lemma AnotherDigit(byte: Byte, mult: nat, length: nat, k: nat)
    requires k < 4 && mult == Limit(k) && length < mult
    ensures mult * 128 == Limit(k + 1) <= VARINT_LIMIT
    ensures length + Digit(byte, mult) < mult * 128
  {
    Limits();
    AtMost127(byte % 128, mult);
  }

  lemma AtMost127(d: nat, mult: nat)
    requires d <= 127
    ensures d * mult <= 127 * mult
  {
  }
}
