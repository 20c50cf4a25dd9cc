/** The client library's list of outgoing QoS 1 and QoS 2 messages: lib/messages_mosq.c and the
    acknowledgement handlers that drive it. The list is kept in call order; a message that the send
    quota has not let out yet has state Invalid. */
module ClientQueue {
  import opened MosqTypes

  type Qos = q: int | 1 <= q <= 2 witness 1

  /** struct mosquitto_message_all; tag stands for the topic and payload handed to one publish call. */
  datatype Msg = Msg(mid: Word, qos: Qos, tag: nat, state: MsgState, dup: bool)

  /** A packet handed to the transport. */
  datatype Packet =
    | Connect
    | Publish(mid: Word, qos: Qos, tag: nat, dup: bool)
    | Pubrel(mid: Word)
    | Pubrec(mid: Word)

  /** What the send functions answer for each packet; a packet that is answered with an error does not
      reach the peer. */
  type Net = Packet -> Rc

  /** mosq->msgs_out as a value, with the packets handed over so far. */
  datatype Out = Out(msgs: seq<Msg>, quota: int, maximum: Word, wire: seq<Packet>)

  datatype Outcome = Outcome(out: Out, rc: Rc)

  // ---------------------------------------------------------------------------------------------
  // Specification functions
  // ---------------------------------------------------------------------------------------------

  function PublishOf(m: Msg): Packet {
    Publish(m.mid, m.qos, m.tag, m.dup)
  }

  function Sent(wire: seq<Packet>, p: Packet, net: Net): seq<Packet> {
    if net(p) == Success then wire + [p] else wire
  }

  /** The state a message waits in once its PUBLISH is out. */
  function InFlight(m: Msg): Msg {
    m.(state := if m.qos == 1 then WaitForPuback else WaitForPubrec)
  }

  /** message__release_to_inflight from index i on. A failed send ends the pass; it leaves the message marked
      in flight and takes no quota. */
  function Release(o: Out, i: nat, net: Net): Outcome
    decreases |o.msgs| - i
  {
    if i >= |o.msgs| || o.quota <= 0 then
      Outcome(o, Success)
    else if o.msgs[i].state != Invalid then
      Release(o, i + 1, net)
    else
      var p := PublishOf(o.msgs[i]);
      var marked := o.(msgs := o.msgs[i := InFlight(o.msgs[i])]);
      if net(p) != Success then
        Outcome(marked, net(p))
      else
        Release(marked.(quota := Decremented(o.quota), wire := o.wire + [p]), i + 1, net)
  }

  /** The index of the first message with this identifier, or |msgs|. */
  function Find(msgs: seq<Msg>, mid: Word): (k: nat)
    ensures k <= |msgs|
    ensures k < |msgs| ==> msgs[k].mid == mid
    ensures forall i :: 0 <= i < k ==> msgs[i].mid != mid
  {
    if msgs == [] || msgs[0].mid == mid then 0 else 1 + Find(msgs[1..], mid)
  }

  /** What message__remove and message__out_update answer for an identifier. */
  function Lookup(msgs: seq<Msg>, mid: Word, qos: int): Rc {
    var k := Find(msgs, mid);
    if k == |msgs| then NotFound else if msgs[k].qos != qos then Protocol else Success
  }

  function Removed(msgs: seq<Msg>, mid: Word, qos: int): seq<Msg> {
    if Lookup(msgs, mid, qos) == Success then Without(msgs, Find(msgs, mid)) else msgs
  }

  function Updated(msgs: seq<Msg>, mid: Word, state: MsgState, qos: int): seq<Msg> {
    if Lookup(msgs, mid, qos) == Success then
      var k := Find(msgs, mid);
      msgs[k := msgs[k].(state := state)]
    else
      msgs
  }

  /** What a reconnect does to one message, depending on whether quota is left when it is reached. */
  function ResetMsg(m: Msg, inWindow: bool): Msg {
    if !inWindow then m.(state := Invalid)
    else if m.qos == 1 then m.(state := PublishQos1)
    else if m.state == WaitForPubrec then m.(state := PublishQos2)
    else if m.state == WaitForPubcomp then m.(state := ResendPubrel)
    else m
  }

  /** message__reconnect_reset: the first maximum messages keep their place in the handshake. */
  function Reset(msgs: seq<Msg>, maximum: Word): (r: seq<Msg>)
    ensures |r| == |msgs|
    ensures forall i :: 0 <= i < |msgs| ==> r[i] == ResetMsg(msgs[i], i < maximum)
  {
    seq(|msgs|, i requires 0 <= i < |msgs| => ResetMsg(msgs[i], i < maximum))
  }

  /** The packet message__retry_check sends for a message. */
  function RetryPacket(m: Msg): Option<Packet> {
    match m.state
    case PublishQos1 | PublishQos2 => Some(PublishOf(m.(dup := true)))
    case WaitForPubrel => Some(Pubrec(m.mid))
    case ResendPubrel | WaitForPubcomp => Some(Pubrel(m.mid))
    case _ => None
  }

  /** message__retry_check from index i on; send errors are ignored. */
  function Retry(o: Out, i: nat, net: Net): Out
    decreases |o.msgs| - i
  {
    if i >= |o.msgs| then o
    else
      var p := RetryPacket(o.msgs[i]);
      if p.None? then Retry(o, i + 1, net)
      else Retry(o.(msgs := o.msgs[i := o.msgs[i].(dup := true)], wire := Sent(o.wire, p.value, net)), i + 1, net)
  }

  /** message__queue for an outgoing message */
  function Enqueue(o: Out, m: Msg, net: Net): Outcome {
    Release(o.(msgs := o.msgs + [m]), 0, net)
  }

  /** handle__pubackcomp of a connected client: the quota grows before the identifier is looked up. */
  function OnAck(o: Out, mid: Word, qos: Qos, net: Net): Outcome {
    var grown := o.(quota := Incremented(o.quota, o.maximum));
    if mid == 0 then Outcome(grown, Protocol)
    else
      var rc := Lookup(o.msgs, mid, qos);
      if rc != Success then Outcome(grown, rc)
      else Outcome(Release(grown.(msgs := Removed(o.msgs, mid, qos)), 0, net).out, Success)
  }

  /** handle__pubrec of a connected client; failed says the reason code is 0x80 or above on MQTT 5. */
  function OnPubrec(o: Out, mid: Word, failed: bool, net: Net): Outcome {
    if mid == 0 then Outcome(o, Protocol)
    else if failed then
      var grown := o.(msgs := Removed(o.msgs, mid, 2), quota := Incremented(o.quota, o.maximum));
      Outcome(Release(grown, 0, net).out, Success)
    else if Lookup(o.msgs, mid, 2) == Protocol then
      Outcome(o, Protocol)
    else
      Outcome(o.(msgs := Updated(o.msgs, mid, WaitForPubcomp, 2), wire := Sent(o.wire, Pubrel(mid), net)),
              net(Pubrel(mid)))
  }

  /** message__reconnect_reset, outgoing half */
  function OnReconnect(o: Out): Out {
    o.(msgs := Reset(o.msgs, o.maximum), quota := Max(0, o.maximum - |o.msgs|))
  }

  /** handle__connack: the quota is refilled whatever the list holds. */
  function OnConnack(o: Out, receiveMaximum: Option<Word>, accepted: bool, net: Net): Out {
    var m := if receiveMaximum.Some? then receiveMaximum.value else o.maximum;
    var refilled := o.(maximum := m, quota := m);
    if accepted then Retry(refilled, 0, net) else refilled
  }

  // ---------------------------------------------------------------------------------------------
  // What a release pass lets out
  // ---------------------------------------------------------------------------------------------

  /** The messages that have not been let out yet */
  function Waiting(msgs: seq<Msg>): (r: seq<Msg>)
    ensures |r| <= |msgs|
  {
    if msgs == [] then [] else (if msgs[0].state == Invalid then [msgs[0]] else []) + Waiting(msgs[1..])
  }

  function Publishes(msgs: seq<Msg>): (r: seq<Packet>)
    ensures |r| == |msgs|
  {
    seq(|msgs|, i requires 0 <= i < |msgs| => Publish(msgs[i].mid, msgs[i].qos, msgs[i].tag, msgs[i].dup))
  }

  /** Let out, a message waits for PUBACK or PUBREC. */
  function Awaiting(m: Msg): Msg {
    if m.state != Invalid then m else m.(state := if m.qos == 1 then WaitForPuback else WaitForPubrec)
  }

  /** Between the indices i and j every waiting message has gone out, each for one quota. */
  ghost predicate AllOut(o: Out, r: Out, i: nat, j: nat)
    requires i <= j <= |o.msgs|
  {
    var out := Waiting(o.msgs[i..j]);
    && |r.msgs| == |o.msgs| && r.maximum == o.maximum
    && r.wire == o.wire + Publishes(out) && r.quota == o.quota - |out|
    && (forall k :: 0 <= k < |o.msgs| && k != j ==> r.msgs[k] == if i <= k < j then Awaiting(o.msgs[k]) else o.msgs[k])
  }

  /** The pass goes up to index j: to the end of the list or of the quota, or to a message whose PUBLISH is not taken; that
      one is marked all the same. */
  ghost predicate LetOutUpTo(o: Out, r: Out, rc: Rc, i: nat, j: nat, net: Net) {
    && i <= j <= |o.msgs| && AllOut(o, r, i, j)
    && if j == |o.msgs| then rc == Success
       else if r.quota <= 0 then rc == Success && r.msgs[j] == o.msgs[j]
       else
         && o.msgs[j].state == Invalid && r.msgs[j] == Awaiting(o.msgs[j])
         && rc == net(Publishes([o.msgs[j]])[0]) && rc != Success
  }

  /** Exactly the next messages are let out. */
  ghost predicate LetOut(o: Out, r: Out, rc: Rc, net: Net) {
    exists j: nat :: LetOutUpTo(o, r, rc, 0, j, net)
  }

  lemma WaitingNext(msgs: seq<Msg>, i: nat, j: nat)
    requires i < j <= |msgs|
    ensures Waiting(msgs[i..j]) == (if msgs[i].state == Invalid then [msgs[i]] else []) + Waiting(msgs[i + 1..j])
  {
    assert msgs[i..j][1..] == msgs[i + 1..j];
  }

  lemma {:induction false} WaitingSame(a: seq<Msg>, b: seq<Msg>)
    requires |a| == |b| && forall k :: 0 <= k < |a| ==> a[k] == b[k]
    ensures Waiting(a) == Waiting(b)
  {
    assert a == b;
  }

  /** One message has gone out and the pass has gone on behind it. */
  lemma OneMoreOut(o: Out, q: Out, r: Out, rc: Rc, i: nat, j: nat, net: Net)
    requires i < |o.msgs| && LetOutUpTo(q, r, rc, i + 1, j, net)
    requires q == (if o.msgs[i].state != Invalid then o
                   else o.(msgs := o.msgs[i := Awaiting(o.msgs[i])], quota := o.quota - 1,
                           wire := o.wire + Publishes([o.msgs[i]])))
    ensures LetOutUpTo(o, r, rc, i, j, net)
  {
    hide AllOut, Publishes;
    OneMoreInAll(o, q, r, i, j);
  }

  lemma OneMoreInAll(o: Out, q: Out, r: Out, i: nat, j: nat)
    requires i < j <= |o.msgs| == |q.msgs| && AllOut(q, r, i + 1, j)
    requires q == (if o.msgs[i].state != Invalid then o
                   else o.(msgs := o.msgs[i := Awaiting(o.msgs[i])], quota := o.quota - 1,
                           wire := o.wire + Publishes([o.msgs[i]])))
    ensures AllOut(o, r, i, j)
  {
    hide Waiting, Publishes;
    WaitingNext(o.msgs, i, j);
    WaitingSame(q.msgs[i + 1..j], o.msgs[i + 1..j]);
    PublishesCons(o.wire, o.msgs[i], Waiting(o.msgs[i + 1..j]));
  }

  lemma PublishesCons(wire: seq<Packet>, m: Msg, rest: seq<Msg>)
    ensures wire + Publishes([m]) + Publishes(rest) == wire + Publishes([m] + rest)
    ensures [] + rest == rest
  {
    assert Publishes([m] + rest) == Publishes([m]) + Publishes(rest);
    assert wire + Publishes([m]) + Publishes(rest) == wire + (Publishes([m]) + Publishes(rest));
  }

  lemma NothingOut(o: Out, i: nat)
    requires i <= |o.msgs|
    ensures AllOut(o, o, i, i)
  {
    assert o.msgs[i..i] == [];
  }

  lemma NotTaken(o: Out, i: nat, net: Net)
    requires i < |o.msgs| && o.msgs[i].state == Invalid && net(PublishOf(o.msgs[i])) != Success && o.quota > 0
    ensures var marked := o.(msgs := o.msgs[i := InFlight(o.msgs[i])]);
      LetOutUpTo(o, marked, net(PublishOf(o.msgs[i])), i, i, net)
  {
    assert o.msgs[i..i] == [];
  }

  lemma {:induction false} ReleaseFrom(o: Out, i: nat, net: Net) returns (j: nat)
    requires i <= |o.msgs|
    ensures LetOutUpTo(o, Release(o, i, net).out, Release(o, i, net).rc, i, j, net)
    decreases |o.msgs| - i
  {
    hide AllOut, Waiting, LetOutUpTo;
    if i == |o.msgs| || o.quota <= 0 {
      j := i;
      NothingOut(o, i);
      EndsAt(o, i, net);
    } else if o.msgs[i].state != Invalid {
      j := ReleaseFrom(o, i + 1, net);
      OneMoreOut(o, o, Release(o, i, net).out, Release(o, i, net).rc, i, j, net);
    } else {
      var p := PublishOf(o.msgs[i]);
      var q := o.(msgs := o.msgs[i := InFlight(o.msgs[i])], quota := o.quota - 1, wire := o.wire + [p]);
      if net(p) != Success {
        j := i;
        NotTaken(o, i, net);
      } else {
        assert Publishes([o.msgs[i]]) == [p];
        j := ReleaseFrom(q, i + 1, net);
        OneMoreOut(o, q, Release(o, i, net).out, Release(o, i, net).rc, i, j, net);
      }
    }
  }

  lemma EndsAt(o: Out, i: nat, net: Net)
    requires i == |o.msgs| || (i < |o.msgs| && o.quota <= 0)
    ensures LetOutUpTo(o, o, Success, i, i, net)
  {
    NothingOut(o, i);
  }

  lemma ReleaseLetsOut(o: Out, net: Net)
    ensures LetOut(o, Release(o, 0, net).out, Release(o, 0, net).rc, net)
  {
    hide LetOutUpTo;
    var j := ReleaseFrom(o, 0, net);
  }

  // ---------------------------------------------------------------------------------------------
  // What an acknowledgement does
  // ---------------------------------------------------------------------------------------------

  function OneMore(o: Out): Out {
    if o.quota < o.maximum then o.(quota := o.quota + 1) else o
  }

  /** PUBACK or PUBCOMP: one more quota in any case. If the first message with the identifier has the QoS, it goes, and the
      next ones are let out. */
  ghost predicate Acknowledged(o: Out, r: Out, rc: Rc, mid: Word, qos: Qos, net: Net) {
    var f := Find(o.msgs, mid);
    if mid == 0 then r == OneMore(o) && rc == Protocol
    else if f == |o.msgs| then r == OneMore(o) && rc == NotFound
    else if o.msgs[f].qos != qos then r == OneMore(o) && rc == Protocol
    else
      var freed := OneMore(o).(msgs := o.msgs[..f] + o.msgs[f + 1..]);
      rc == Success && exists sent: Rc :: LetOut(freed, r, sent, net)
  }

  /** PUBREC with an error: the same, but whatever is found, the call succeeds. */
  ghost predicate Refused(o: Out, r: Out, rc: Rc, mid: Word, net: Net) {
    var f := Find(o.msgs, mid);
    if mid == 0 then r == o && rc == Protocol
    else
      var kept := if f < |o.msgs| && o.msgs[f].qos == 2 then o.msgs[..f] + o.msgs[f + 1..] else o.msgs;
      var freed := OneMore(o).(msgs := kept);
      rc == Success && exists sent: Rc :: LetOut(freed, r, sent, net)
  }

  /** PUBREC: if the first message with the identifier is of QoS 2, it waits for PUBCOMP; PUBREL is the answer unless it is
      not of QoS 2. */
  ghost predicate Committed(o: Out, r: Out, rc: Rc, mid: Word, net: Net) {
    var f := Find(o.msgs, mid);
    if mid == 0 || (f < |o.msgs| && o.msgs[f].qos != 2) then r == o && rc == Protocol
    else
      && rc == net(Pubrel(mid)) && r.wire == (if rc == Success then o.wire + [Pubrel(mid)] else o.wire)
      && |r.msgs| == |o.msgs| && r.quota == o.quota && r.maximum == o.maximum
      && forall k :: 0 <= k < |o.msgs| ==> r.msgs[k] == if k == f then o.msgs[k].(state := WaitForPubcomp) else o.msgs[k]
  }

  lemma AckEffect(o: Out, mid: Word, qos: Qos, net: Net)
    ensures Acknowledged(o, OnAck(o, mid, qos, net).out, OnAck(o, mid, qos, net).rc, mid, qos, net)
  {
    hide Release, LetOut;
    var f := Find(o.msgs, mid);
    if mid != 0 && f < |o.msgs| && o.msgs[f].qos == qos {
      ReleaseLetsOut(OneMore(o).(msgs := o.msgs[..f] + o.msgs[f + 1..]), net);
    }
  }

  lemma PubrecEffect(o: Out, mid: Word, failed: bool, net: Net)
    ensures var r := OnPubrec(o, mid, failed, net);
      if failed then Refused(o, r.out, r.rc, mid, net) else Committed(o, r.out, r.rc, mid, net)
  {
    hide Release, LetOut;
    if failed && mid != 0 {
      var f := Find(o.msgs, mid);
      var kept := if f < |o.msgs| && o.msgs[f].qos == 2 then o.msgs[..f] + o.msgs[f + 1..] else o.msgs;
      ReleaseLetsOut(OneMore(o).(msgs := kept), net);
    }
  }

  // ---------------------------------------------------------------------------------------------
  // What a reconnect makes of the list
  // ---------------------------------------------------------------------------------------------

  /** In the first inflight_maximum places: a QoS 1 message is to be published again, one of QoS 2 as long as PUBREC has not
      come; after that PUBREL is to be sent again. Beyond them a message waits as if it were new. */
  ghost predicate Interrupted(m: Msg, n: Msg, inWindow: bool) {
    && n.mid == m.mid && n.qos == m.qos && n.tag == m.tag && n.dup == m.dup
    && (!inWindow ==> n.state == Invalid)
    && (inWindow && m.qos == 1 ==> n.state == PublishQos1)
    && (inWindow && m.qos == 2 && m.state == WaitForPubrec ==> n.state == PublishQos2)
    && (inWindow && m.qos == 2 && m.state == WaitForPubcomp ==> n.state == ResendPubrel)
    && (inWindow && m.qos == 2 && m.state != WaitForPubrec && m.state != WaitForPubcomp ==> n.state == m.state)
  }

  ghost predicate Restored(o: Out, r: Out) {
    && |r.msgs| == |o.msgs| && (forall i :: 0 <= i < |o.msgs| ==> Interrupted(o.msgs[i], r.msgs[i], i < o.maximum))
    && r.maximum == o.maximum && r.quota == Max(0, o.maximum - |o.msgs|) && r.wire == o.wire
  }

  lemma ReconnectRestores(o: Out)
    ensures Restored(o, OnReconnect(o))
  {
    forall i | 0 <= i < |o.msgs|
      ensures Interrupted(o.msgs[i], OnReconnect(o).msgs[i], i < o.maximum)
    {
      assert OnReconnect(o).msgs[i] == ResetMsg(o.msgs[i], i < o.maximum);
    }
  }

  // ---------------------------------------------------------------------------------------------
  // What a retry pass sends
  // ---------------------------------------------------------------------------------------------

  /** A packet that is sent again, and the publish call it is for */
  datatype Repeat = Repeat(call: nat, packet: Packet)

  /** What state, QoS and identifier of a message call for: PUBLISH with the duplicate flag until it is answered, then
      PUBREL */
  function Due(m: Msg): seq<Packet> {
    if m.state == PublishQos1 || m.state == PublishQos2 then [Publish(m.mid, m.qos, m.tag, true)]
    else if m.state == ResendPubrel || m.state == WaitForPubcomp then [Pubrel(m.mid)]
    else if m.state == WaitForPubrel then [Pubrec(m.mid)]
    else []
  }

  /** What of that the transport takes */
  function Repeats(m: Msg, net: Net): seq<Repeat> {
    if Due(m) != [] && net(Due(m)[0]) == Success then [Repeat(m.tag, Due(m)[0])] else []
  }

  function AllRepeats(msgs: seq<Msg>, net: Net): seq<Repeat> {
    if msgs == [] then [] else Repeats(msgs[0], net) + AllRepeats(msgs[1..], net)
  }

  function Packets(repeats: seq<Repeat>): (r: seq<Packet>)
    ensures |r| == |repeats|
  {
    seq(|repeats|, n requires 0 <= n < |repeats| => repeats[n].packet)
  }

  /** What was due is marked as a duplicate from now on, and nothing else has changed. */
  predicate Marked(a: seq<Msg>, b: seq<Msg>) {
    |a| == |b| && forall k :: 0 <= k < |a| ==> b[k] == if Due(a[k]) != [] then a[k].(dup := true) else a[k]
  }

  /** A retry pass sends each packet that is due and that the transport takes, once, in list order. */
  ghost predicate Retried(o: Out, r: Out, net: Net) {
    && r.wire == o.wire + Packets(AllRepeats(o.msgs, net)) && Marked(o.msgs, r.msgs)
    && r.quota == o.quota && r.maximum == o.maximum
  }

  lemma DueIsSent(m: Msg, wire: seq<Packet>, net: Net)
    ensures RetryPacket(m).None? ==> Repeats(m, net) == []
    ensures RetryPacket(m).Some? ==> Sent(wire, RetryPacket(m).value, net) == wire + Packets(Repeats(m, net))
  {
  }

  lemma PacketsAppend(a: seq<Repeat>, b: seq<Repeat>, wire: seq<Packet>)
    ensures wire + Packets(a + b) == wire + Packets(a) + Packets(b)
  {
  }

  lemma {:induction false} RetryFrom(o: Out, i: nat, net: Net)
    requires i <= |o.msgs|
    ensures Retry(o, i, net).wire == o.wire + Packets(AllRepeats(o.msgs[i..], net))
    decreases |o.msgs| - i
  {
    hide Repeats, RetryPacket, Packets, Sent;
    if i < |o.msgs| {
      var m, p := o.msgs[i], RetryPacket(o.msgs[i]);
      DueIsSent(m, o.wire, net);
      assert o.msgs[i..][1..] == o.msgs[i + 1..];
      PacketsAppend(Repeats(m, net), AllRepeats(o.msgs[i + 1..], net), o.wire);
      if p.None? {
        RetryFrom(o, i + 1, net);
        assert [] + AllRepeats(o.msgs[i + 1..], net) == AllRepeats(o.msgs[i + 1..], net);
      } else {
        var q := o.(msgs := o.msgs[i := m.(dup := true)], wire := Sent(o.wire, p.value, net));
        assert q.msgs[i + 1..] == o.msgs[i + 1..];
        RetryFrom(q, i + 1, net);
      }
    } else {
      NoPackets(o.wire);
    }
  }

  lemma NoPackets(wire: seq<Packet>)
    ensures wire + Packets([]) == wire
  {
  }

  lemma {:induction false} RetryMarks(o: Out, i: nat, net: Net)
    ensures var r := Retry(o, i, net);
      && r.quota == o.quota && r.maximum == o.maximum && |r.msgs| == |o.msgs|
      && forall k :: 0 <= k < |o.msgs| ==>
           r.msgs[k] == if i <= k && Due(o.msgs[k]) != [] then o.msgs[k].(dup := true) else o.msgs[k]
    decreases |o.msgs| - i
  {
    if i < |o.msgs| {
      var m, p := o.msgs[i], RetryPacket(o.msgs[i]);
      var q := if p.None? then o
               else o.(msgs := o.msgs[i := m.(dup := true)], wire := Sent(o.wire, p.value, net));
      RetryMarks(q, i + 1, net);
    }
  }

  lemma RetrySends(o: Out, net: Net)
    ensures Retried(o, Retry(o, 0, net), net)
  {
    hide Retry, AllRepeats;
    RetryFrom(o, 0, net);
    RetryMarks(o, 0, net);
    assert o.msgs[0..] == o.msgs;
  }

  /** After CONNACK the Receive Maximum of the server, or without one the old maximum, is both maximum and quota; if the
      connection was refused, nothing is sent. */
  ghost predicate ConnackTaken(o: Out, r: Out, receiveMaximum: Option<Word>, accepted: bool, net: Net) {
    && r.maximum == r.quota == (if receiveMaximum.Some? then receiveMaximum.value else o.maximum)
    && (if accepted then r.wire == o.wire + Packets(AllRepeats(o.msgs, net)) && Marked(o.msgs, r.msgs)
        else r.wire == o.wire && r.msgs == o.msgs)
  }

  lemma ConnackSets(o: Out, receiveMaximum: Option<Word>, accepted: bool, net: Net)
    ensures ConnackTaken(o, OnConnack(o, receiveMaximum, accepted, net), receiveMaximum, accepted, net)
  {
    hide Retry, AllRepeats, Marked;
    var m := if receiveMaximum.Some? then receiveMaximum.value else o.maximum;
    RetrySends(o.(maximum := m, quota := m), net);
  }

  // ---------------------------------------------------------------------------------------------
  // The list itself
  // ---------------------------------------------------------------------------------------------

  class OutQueue {
    var inflight: seq<Msg>
    var queueLen: int
    var quota: int
    var maximum: Word
    var wire: seq<Packet>

    /** queue_len counts the list, and the quota is never negative. */
    ghost predicate Valid()
      reads this
    {
      queueLen == |inflight| && 0 <= quota
    }

    ghost function View(): Out
      reads this
    {
      Out(inflight, quota, maximum, wire)
    }

    constructor (maximum: Word)
      ensures Valid() && View() == Out([], maximum, maximum, [])
    {
      inflight, queueLen, quota, wire := [], 0, maximum, [];
      this.maximum := maximum;
    }

    method ReleaseToInflight(net: Net) returns (rc: Rc)
      requires Valid()
      modifies this`inflight, this`quota, this`wire
      ensures Valid()
      ensures Outcome(View(), rc) == Release(old(View()), 0, net)
      ensures LetOut(old(View()), View(), rc, net)
    {
      hide LetOut;
      ReleaseLetsOut(View(), net);
      var cur := 0;
      while cur < |inflight|
        invariant 0 <= cur <= |inflight| && Valid()
        invariant Release(View(), cur, net) == Release(old(View()), 0, net)
      {
        if quota > 0 {
          if inflight[cur].state == Invalid {
            var p := PublishOf(inflight[cur]);
            inflight := inflight[cur := InFlight(inflight[cur])];
            rc := net(p);
            if rc != Success {
              return rc;
            }
            wire := wire + [p];
            quota := Decremented(quota);
          }
        } else {
          return Success;
        }
        cur := cur + 1;
      }
      return Success;
    }

    /** message__queue for an outgoing message */
    method Queue(m: Msg, net: Net) returns (rc: Rc)
      requires Valid()
      modifies this
      ensures Valid() && Outcome(View(), rc) == Enqueue(old(View()), m, net)
      ensures LetOut(old(View()).(msgs := old(inflight) + [m]), View(), rc, net)
    {
      hide LetOut;
      inflight := inflight + [m];
      queueLen := queueLen + 1;
      rc := ReleaseToInflight(net);
    }

    /** message__remove, and message__delete which also frees the message */
    method Remove(mid: Word, qos: Qos) returns (rc: Rc)
      requires Valid()
      modifies this`inflight, this`queueLen
      ensures Valid()
      ensures rc == Lookup(old(inflight), mid, qos) && inflight == Removed(old(inflight), mid, qos)
    {
      var cur := 0;
      while cur < |inflight|
        invariant 0 <= cur <= |inflight| && inflight == old(inflight) && queueLen == old(queueLen)
        invariant forall i :: 0 <= i < cur ==> inflight[i].mid != mid
      {
        if inflight[cur].mid == mid {
          if inflight[cur].qos != qos {
            return Protocol;
          }
          inflight := Without(inflight, cur);
          queueLen := queueLen - 1;
          return Success;
        }
        cur := cur + 1;
      }
      return NotFound;
    }

    /** message__out_update */
    method OutUpdate(mid: Word, state: MsgState, qos: Qos) returns (rc: Rc)
      requires Valid()
      modifies this`inflight
      ensures Valid()
      ensures rc == Lookup(old(inflight), mid, qos) && inflight == Updated(old(inflight), mid, state, qos)
    {
      var cur := 0;
      while cur < |inflight|
        invariant 0 <= cur <= |inflight| && inflight == old(inflight)
        invariant forall i :: 0 <= i < cur ==> inflight[i].mid != mid
      {
        if inflight[cur].mid == mid {
          if inflight[cur].qos != qos {
            return Protocol;
          }
          inflight := inflight[cur := inflight[cur].(state := state)];
          return Success;
        }
        cur := cur + 1;
      }
      return NotFound;
    }

    /** message__reconnect_reset, outgoing half */
    method ReconnectReset()
      requires Valid()
      modifies this`inflight, this`quota, this`queueLen
      ensures Valid() && View() == OnReconnect(old(View()))
      ensures Restored(old(View()), View())
    {
      hide Restored;
      ReconnectRestores(View());
      quota := maximum;
      queueLen := 0;
      var cur := 0;
      while cur < |inflight|
        invariant 0 <= cur <= |inflight| == |old(inflight)|
        invariant queueLen == cur && quota == Max(0, maximum - cur)
        invariant forall i :: 0 <= i < cur ==> inflight[i] == ResetMsg(old(inflight)[i], i < maximum)
        invariant forall i :: cur <= i < |inflight| ==> inflight[i] == old(inflight)[i]
      {
        queueLen := queueLen + 1;
        var m := inflight[cur];
        if quota != 0 {
          quota := Decremented(quota);
          if m.qos == 1 {
            m := m.(state := PublishQos1);
          } else if m.state == WaitForPubrec {
            m := m.(state := PublishQos2);
          } else if m.state == WaitForPubcomp {
            m := m.(state := ResendPubrel);
          }
        } else {
          m := m.(state := Invalid);
        }
        inflight := inflight[cur := m];
        cur := cur + 1;
      }
    }

    /** message__retry_check */
    method RetryCheck(net: Net)
      requires Valid()
      modifies this`inflight, this`wire
      ensures Valid() && View() == Retry(old(View()), 0, net)
      ensures Retried(old(View()), View(), net)
    {
      hide Retried;
      RetrySends(View(), net);
      var cur := 0;
      while cur < |inflight|
        invariant 0 <= cur <= |inflight| && Valid()
        invariant Retry(View(), cur, net) == Retry(old(View()), 0, net)
      {
        var p := RetryPacket(inflight[cur]);
        if p.Some? {
          inflight := inflight[cur := inflight[cur].(dup := true)];
          var rc := net(p.value);
          if rc == Success {
            wire := wire + [p.value];
          }
        }
        cur := cur + 1;
      }
    }

    method HandlePubackcomp(mid: Word, qos: Qos, net: Net) returns (rc: Rc)
      requires Valid()
      modifies this
      ensures Valid() && Outcome(View(), rc) == OnAck(old(View()), mid, qos, net)
      ensures Acknowledged(old(View()), View(), rc, mid, qos, net)
    {
      hide LetOut;
      quota := Incremented(quota, maximum);
      if mid == 0 {
        return Protocol;
      }
      rc := Remove(mid, qos);
      if rc == Success {
        var _ := ReleaseToInflight(net);
      }
    }

    method HandlePubrec(mid: Word, failed: bool, net: Net) returns (rc: Rc)
      requires Valid()
      modifies this
      ensures Valid() && Outcome(View(), rc) == OnPubrec(old(View()), mid, failed, net)
      ensures if failed then Refused(old(View()), View(), rc, mid, net) else Committed(old(View()), View(), rc, mid, net)
    {
      hide LetOut;
      if mid == 0 {
        return Protocol;
      }
      if !failed {
        rc := OutUpdate(mid, WaitForPubcomp, 2);
        if rc == Protocol {
          return rc;
        }
        rc := net(Pubrel(mid));
        if rc == Success {
          wire := wire + [Pubrel(mid)];
        }
      } else {
        var _ := Remove(mid, 2);
        quota := Incremented(quota, maximum);
        var _ := ReleaseToInflight(net);
        rc := Success;
      }
    }

    method HandleConnack(receiveMaximum: Option<Word>, accepted: bool, net: Net)
      requires Valid()
      modifies this
      ensures Valid() && View() == OnConnack(old(View()), receiveMaximum, accepted, net)
      ensures ConnackTaken(old(View()), View(), receiveMaximum, accepted, net)
    {
      if receiveMaximum.Some? {
        maximum := receiveMaximum.value;
      }
      quota := maximum;
      if accepted {
        RetryCheck(net);
      }
    }
  }
}
