/** A client and the broker joined by a connection: what the two sides do to the QoS 2 messages that the client
    publishes, over every run of calls, packets, disconnects and reconnects. */
module Qos2 {
  import opened MosqTypes
  import C = ClientQueue
  import B = BrokerDb

  /** The identifier and QoS of one publish call. */
  datatype Origin = Origin(mid: Word, qos: C.Qos)

  /** client.wire and broker.c.wire are the two directions of the connection: each side appends to its own and the
      other takes from the front. The n-th publish call has tag n, and calls records it. routed lists the tags handed to
      the subscription tree as QoS 2 messages. */
  datatype Sys = Sys(
    client: C.Out, linkUp: bool, connacked: bool,
    broker: B.Pair, lim: B.Limits,
    routed: seq<nat>, calls: seq<Origin>)

  datatype Event =
    | PublishCall(mid: Word, qos: C.Qos, net: C.Net)
    | ToBroker(o: Oracle)                      // the broker handles the next packet
    | ToClient(net: C.Net)                     // the client handles the next packet
    | BrokerWrites(expired: B.Expiry, out: B.Net)
    | Disconnect
    | Reconnect

  /** What the broker's surroundings decide while it handles a packet: whether the session is still there, whether the
      access check refuses the message, whether the subscription tree takes it, the payload length, and which replies
      get out. */
  datatype Oracle = Oracle(session: bool, denied: bool, routes: bool, payloadLen: nat, net: B.Net)

  // ---------------------------------------------------------------------------------------------
  // The broker's side
  // ---------------------------------------------------------------------------------------------

  function Reply(p: B.Pair, m: B.ToClient, net: B.Net): B.Pair {
    p.(c := B.SentTo(p.c, m, net))
  }

  function TookReceiveQuota(p: B.Pair): B.Pair {
    p.(c := p.c.(msgsIn := B.QuotaTaken(p.c.msgsIn)))
  }

  function GaveReceiveQuota(p: B.Pair): B.Pair {
    p.(c := p.c.(msgsIn := B.QuotaGiven(p.c.msgsIn)))
  }

  /** send__puback gives receive quota back before it sends. */
  function Acknowledge(p: B.Pair, mid: Word, net: B.Net): B.Pair {
    Reply(GaveReceiveQuota(p), B.Puback(mid), net)
  }

  function Stored(p: B.Pair, mid: Word, qos: C.Qos, tag: nat, payloadLen: nat): B.Pair {
    p.(st := B.StoreAdd(p.st, B.NewMessage(p.st, payloadLen, qos, mid, tag)))
  }

  /** The end of handle__publish, from the access check on, with the tag it routes if it routes one of a QoS 2 message. */
  function OnPublish(p: B.Pair, lim: B.Limits, m: C.Packet, o: Oracle): (B.Pair, seq<nat>)
    requires m.Publish?
  {
    if o.denied then
      if m.qos == 1 then (Acknowledge(p, m.mid, o.net), [])
      else if p.c.v5 then (Reply(GaveReceiveQuota(p), B.PubrecError(m.mid), o.net), [])
      else (Reply(p, B.Pubrec(m.mid), o.net), [])
    else
      var found := B.SourceFind(p.c, m.mid);
      if m.qos == 1 then
        var q := TookReceiveQuota(if found.None? then Stored(p, m.mid, 1, m.tag, o.payloadLen) else p);
        (if o.routes || !p.c.v5 then Acknowledge(q, m.mid, o.net) else q,
         if found.Some? && o.routes then [found.value.content] else [])
      else if found.Some? then
        (Reply(p, B.Pubrec(m.mid), o.net), [])
      else
        var q := TookReceiveQuota(Stored(p, m.mid, 2, m.tag, o.payloadLen));
        var s := B.NewMessage(p.st, o.payloadLen, 2, m.mid, m.tag);
        var (r, res) := B.Insert(q, lim, m.mid, B.In, 2, false, s);
        (if res == 0 then Reply(r, B.Pubrec(m.mid), o.net) else r, [])
  }

  function Contents(ms: seq<B.Message>): (r: seq<nat>)
    ensures |r| == |ms|
    ensures forall i :: 0 <= i < |ms| ==> r[i] == ms[i].content
  {
    seq(|ms|, i requires 0 <= i < |ms| => ms[i].content)
  }

  /** handle__pubrel in the broker: PUBCOMP follows unless the message is not a QoS 2 message. */
  function OnPubrel(p: B.Pair, mid: Word, o: Oracle): (B.Pair, seq<nat>) {
    var r := B.ReleaseIncoming(p, mid, o.routes, o.net);
    (if r.rc == Protocol then r.p else r.p.(c := B.PubcompSent(r.p.c, mid, o.net)), Contents(r.routed))
  }

  /** CONNECT: the session is taken over if it is still there, and CONNACK is sent. */
  function OnConnect(p: B.Pair, lim: B.Limits, o: Oracle): B.Pair {
    var renewed := p.(c := p.c.(connected := true));
    var q := if !o.session then B.DeleteAll(renewed)
             else if B.HasMessages(renewed.c) then B.ReconnectReset(renewed, lim)
             else renewed;
    Reply(q, B.Connack, o.net)
  }

  function OnPacket(p: B.Pair, lim: B.Limits, m: C.Packet, o: Oracle): (B.Pair, seq<nat>) {
    match m
    case Connect => (OnConnect(p, lim, o), [])
    case Publish(_, _, _, _) => OnPublish(p, lim, m, o)
    case Pubrel(mid) => if mid == 0 then (p, []) else OnPubrel(p, mid, o)
    case Pubrec(_) => (p, [])
  }

  // ---------------------------------------------------------------------------------------------
  // The client's side
  // ---------------------------------------------------------------------------------------------

  function Unconnected(): C.Net {
    (p: C.Packet) => NoConn
  }

  /** What the client does with a packet; before CONNACK it accepts nothing else. */
  function OnReply(o: C.Out, connacked: bool, m: B.ToClient, net: C.Net): C.Out {
    if !connacked then (if m.Connack? then C.OnConnack(o, None, true, net) else o)
    else
      match m
      case Puback(mid) => C.OnAck(o, mid, 1, net).out
      case Pubcomp(mid) => C.OnAck(o, mid, 2, net).out
      case Pubrec(mid) => C.OnPubrec(o, mid, false, net).out
      case PubrecError(mid) => C.OnPubrec(o, mid, true, net).out
      case Connack => C.OnConnack(o, None, true, net)
      case _ => o
  }

  // ---------------------------------------------------------------------------------------------
  // Runs
  // ---------------------------------------------------------------------------------------------

  function Step(s: Sys, e: Event): Sys {
    match e
    case PublishCall(mid, qos, net) =>
      var m := C.Msg(mid, qos, |s.calls|, Invalid, false);
      s.(client := C.Enqueue(s.client, m, if s.linkUp then net else Unconnected()).out,
         calls := s.calls + [Origin(mid, qos)])
    case ToBroker(o) =>
      if s.client.wire == [] then s
      else
        var (p, routed) := OnPacket(s.broker, s.lim, s.client.wire[0], o);
        s.(client := s.client.(wire := s.client.wire[1..]), broker := p, routed := s.routed + routed)
    case ToClient(net) =>
      var wire := s.broker.c.wire;
      if wire == [] then s
      else
        s.(client := OnReply(s.client, s.connacked, wire[0], net),
           connacked := s.connacked || wire[0].Connack?,
           broker := s.broker.(c := s.broker.c.(wire := wire[1..])))
    case BrokerWrites(expired, out) =>
      if s.linkUp && s.broker.c.connected then s.(broker := B.Write(s.broker, expired, out).p) else s
    case Disconnect =>
      s.(client := s.client.(wire := []), linkUp := false, connacked := false,
         broker := s.broker.(c := s.broker.c.(connected := false, wire := [])))
    case Reconnect =>
      if s.linkUp then s
      else s.(client := C.OnReconnect(s.client).(wire := [C.Connect]), linkUp := true)
  }

  function Run(s: Sys, es: seq<Event>): Sys
    decreases |es|
  {
    if es == [] then s else Run(Step(s, es[0]), es[1..])
  }

  function Start(maximum: Word, brokerMaximum: Word, v5: bool, lim: B.Limits): Sys {
    var none := B.NoMessages(brokerMaximum);
    Sys(C.Out([], maximum, maximum, []), false, false,
        B.Pair(B.Store([], map[], 0, 0, 0), B.Ctx(Some("client"), false, v5, 2, false, none, none, [])), lim,
        [], [])
  }

  /** No outstanding message has this identifier. */
  predicate FreeAtClient(msgs: seq<C.Msg>, mid: Word) {
    forall i :: 0 <= i < |msgs| ==> msgs[i].mid != mid
  }

  /** Neither does a message that the broker holds or that is on its way. */
  predicate FreeBeyond(s: Sys, mid: Word) {
    && (forall i :: 0 <= i < |s.broker.c.msgsIn.inflight| ==> s.broker.c.msgsIn.inflight[i].mid != mid)
    && (forall i :: 0 <= i < |s.broker.c.msgsIn.queued| ==> s.broker.c.msgsIn.queued[i].mid != mid)
    && (forall i :: 0 <= i < |s.client.wire| ==> !(s.client.wire[i].Publish? && s.client.wire[i].mid == mid))
  }

  /** Identifiers of outstanding messages are distinct and not 0, and a QoS 1 message does not take the identifier of a
      QoS 2 message that the broker still holds. */
  predicate IdsApart(s: Sys, e: Event) {
    e.PublishCall? ==>
      e.mid != 0 && FreeAtClient(s.client.msgs, e.mid) && (e.qos == 1 ==> FreeBeyond(s, e.mid))
  }

  /** At most inflight_maximum messages are outstanding. */
  predicate Bounded(s: Sys, e: Event) {
    e.PublishCall? ==> |s.client.msgs| < s.client.maximum
  }

  predicate Legal(s: Sys, e: Event) {
    IdsApart(s, e) && Bounded(s, e)
  }

  predicate LegalRun(s: Sys, es: seq<Event>)
    decreases |es|
  {
    es == [] || (Legal(s, es[0]) && LegalRun(Step(s, es[0]), es[1..]))
  }

  /** The message has left the stage in which its PUBLISH may be sent again. */
  predicate Committed(m: C.Msg) {
    m.state == ResendPubrel || m.state == WaitForPubcomp
  }
}
