/** What each packet between client and broker does in the two-party system, by the fields of both sides. */
module Qos2Steps {
  import opened MosqTypes
  import C = ClientQueue
  import B = BrokerDb
  import BrokerFifo
  import BrokerAcks
  import BrokerAnswers
  import BrokerResets
  import BrokerInserts
  import BrokerCounters
  import opened Qos2

  /** The wire after a reply that may not be taken */
  function With(wire: seq<B.ToClient>, reply: seq<B.ToClient>, net: B.Net): seq<B.ToClient> {
    if reply != [] && net(reply[0]) == Success then wire + reply else wire
  }

  // ---------------------------------------------------------------------------------------------
  // Packets to the broker
  // ---------------------------------------------------------------------------------------------

  /** The answer to a PUBLISH: PUBACK at QoS 1, unless routing fails for a version 5 client; PUBREC at QoS 2, with an error
      for a message that is refused to a version 5 client, and none for a new message that is not listed at once. */
  function Reply(c: B.Ctx, m: C.Packet, o: Oracle, found: bool, rc: nat): seq<B.ToClient>
    requires m.Publish?
  {
    if m.qos == 1 then (if o.denied || o.routes || !c.v5 then [B.Puback(m.mid)] else [])
    else if o.denied then (if c.v5 then [B.PubrecError(m.mid)] else [B.Pubrec(m.mid)])
    else if found || rc == 0 then [B.Pubrec(m.mid)]
    else []
  }

  /** The receive quota: a message that is taken takes one, and PUBACK and a refusal to a version 5 client give one back. */
  function QuotaLeft(c: B.Ctx, m: C.Packet, o: Oracle, found: bool): int
    requires m.Publish?
  {
    var d := c.msgsIn;
    var less := if d.quota > 0 then d.quota - 1 else d.quota;
    if o.denied then (if (m.qos == 1 || c.v5) && d.quota < d.maximum then d.quota + 1 else d.quota)
    else if m.qos == 1 then (if (o.routes || !c.v5) && less < d.maximum then less + 1 else less)
    else if found then d.quota
    else less
  }

  /** PUBLISH: a message that is refused, or of QoS 1, or of QoS 2 under an identifier that the broker holds, changes no list;
      a QoS 1 message under such an identifier routes the held message. A new QoS 2 message is inserted. */
  ghost predicate PublishTaken(p: B.Pair, r: B.Pair, routed: seq<nat>, lim: B.Limits, m: C.Packet, o: Oracle)
    requires m.Publish?
  {
    var found := B.SourceFind(p.c, m.mid);
    if !o.denied && m.qos == 2 && found.None? then
      exists rc: nat, q: B.Pair, s: B.Message, n: B.Pair ::
        && s.qos == 2 && s.sourceMid == m.mid && s.content == m.tag && s.payloadLen == o.payloadLen
        && SameLists(p.c, q.c) && q.c.wire == p.c.wire
        && BrokerInserts.InsertedAs(q, n, rc, lim, m.mid, B.In, 2, false, s)
        && SameLists(n.c, r.c) && r.c.msgsIn.quota == QuotaLeft(p.c, m, o, false) && r.c.wire == With(p.c.wire, Reply(p.c, m, o, false, rc), o.net) && routed == []
    else
      && SameLists(p.c, r.c) && r.c.msgsIn.quota == QuotaLeft(p.c, m, o, found.Some?)
      && r.c.wire == With(p.c.wire, Reply(p.c, m, o, found.Some?, 0), o.net)
      && routed == if !o.denied && m.qos == 1 && found.Some? && o.routes then [found.value.content] else []
  }

  /** Nothing but quotas, counters and the wire differs. */
  predicate SameLists(c: B.Ctx, r: B.Ctx) {
    && r.id == c.id && r.connected == c.connected && r.v5 == c.v5 && r.maximumQos == c.maximumQos
    && r.lazyBridge == c.lazyBridge && r.msgsOut == c.msgsOut
    && r.msgsIn.inflight == c.msgsIn.inflight && r.msgsIn.queued == c.msgsIn.queued && r.msgsIn.maximum == c.msgsIn.maximum
  }

  lemma PublishHandled(p: B.Pair, lim: B.Limits, m: C.Packet, o: Oracle)
    requires m.Publish? && BrokerCounters.CountersOk(p.c.msgsIn)
    ensures var (r, routed) := OnPublish(p, lim, m, o); PublishTaken(p, r, routed, lim, m, o)
  {
    hide B.SourceFind, OnPublish, PublishTaken, BrokerCounters.CountersOk;
    if o.denied {
      DeniedHandled(p, lim, m, o);
    } else if m.qos == 1 {
      Qos1Handled(p, lim, m, o);
    } else if B.SourceFind(p.c, m.mid).Some? {
      HeldHandled(p, lim, m, o);
    } else {
      NewHandled(p, lim, m, o);
    }
  }

  lemma DeniedHandled(p: B.Pair, lim: B.Limits, m: C.Packet, o: Oracle)
    requires m.Publish? && o.denied
    ensures var (r, routed) := OnPublish(p, lim, m, o); PublishTaken(p, r, routed, lim, m, o)
  {
    hide B.SourceFind, B.Insert, BrokerInserts.InsertedAs;
  }

  lemma Qos1Handled(p: B.Pair, lim: B.Limits, m: C.Packet, o: Oracle)
    requires m.Publish? && !o.denied && m.qos == 1
    ensures var (r, routed) := OnPublish(p, lim, m, o); PublishTaken(p, r, routed, lim, m, o)
  {
    hide B.SourceFind, B.Insert, BrokerInserts.InsertedAs, B.StoreAdd;
  }

  lemma HeldHandled(p: B.Pair, lim: B.Limits, m: C.Packet, o: Oracle)
    requires m.Publish? && !o.denied && m.qos == 2 && B.SourceFind(p.c, m.mid).Some?
    ensures var (r, routed) := OnPublish(p, lim, m, o); PublishTaken(p, r, routed, lim, m, o)
  {
    hide B.SourceFind, B.Insert, BrokerInserts.InsertedAs;
  }

  lemma NewHandled(p: B.Pair, lim: B.Limits, m: C.Packet, o: Oracle)
    requires m.Publish? && m.qos == 2 && !o.denied && B.SourceFind(p.c, m.mid).None?
    requires BrokerCounters.CountersOk(p.c.msgsIn)
    ensures var (r, routed) := OnPublish(p, lim, m, o); PublishTaken(p, r, routed, lim, m, o)
  {
    hide B.SourceFind, B.Insert, BrokerInserts.InsertedAs, BrokerCounters.Weigh;
    var q := TookReceiveQuota(Stored(p, m.mid, 2, m.tag, o.payloadLen));
    var s := B.NewMessage(p.st, o.payloadLen, 2, m.mid, m.tag);
    var (n, rc) := B.Insert(q, lim, m.mid, B.In, 2, false, s);
    BrokerInserts.InsertTakes(q, lim, m.mid, B.In, 2, false, s);
    var (r, routed) := OnPublish(p, lim, m, o);
    assert SameLists(p.c, q.c) && SameLists(n.c, r.c);
    InsertedWire(q, n, rc, lim, m.mid, s);
  }

  lemma InsertedWire(q: B.Pair, n: B.Pair, rc: nat, lim: B.Limits, mid: Word, s: B.Message)
    requires BrokerInserts.InsertedAs(q, n, rc, lim, mid, B.In, 2, false, s)
    ensures n.c.wire == q.c.wire && n.c.msgsIn.quota == q.c.msgsIn.quota
  {
    hide BrokerInserts.Taken, BrokerInserts.ToFlight, BrokerInserts.Recorded, BrokerInserts.InsertRc;
  }

  /** PUBREL: what BrokerAcks.Released says, and then PUBCOMP and one more receive quota, unless a message below QoS 2 was
      found. */
  ghost predicate PubrelTaken(c: B.Ctx, r: B.Ctx, routed: seq<nat>, mid: Word, o: Oracle) {
    exists q: B.Ctx, rc: Rc, stores: seq<B.Message> ::
      && BrokerAcks.Released(c, q, rc, stores, mid, o.routes, o.net)
      && |routed| == |stores| && (forall i :: 0 <= i < |stores| ==> routed[i] == stores[i].content)
      && if rc == Protocol then r == q
         else
           && r == q.(wire := r.wire, msgsIn := r.msgsIn) && r.wire == With(q.wire, [B.Pubcomp(mid)], o.net)
           && r.msgsIn == q.msgsIn.(quota := if q.msgsIn.quota < q.msgsIn.maximum then q.msgsIn.quota + 1 else q.msgsIn.quota)
  }

  lemma PubrelHandled(p: B.Pair, mid: Word, o: Oracle)
    ensures var (r, routed) := OnPubrel(p, mid, o); PubrelTaken(p.c, r.c, routed, mid, o)
  {
    hide B.ReleaseIncoming, BrokerAcks.Released;
    var r := B.ReleaseIncoming(p, mid, o.routes, o.net);
    BrokerAcks.ReleaseIncomingReleases(p, mid, o.routes, o.net);
  }

  /** CONNECT: without a session nothing is left, with one both directions go on as after a reconnect; then CONNACK. */
  ghost predicate ConnectTaken(c: B.Ctx, r: B.Ctx, lim: B.Limits, o: Oracle) {
    && r.connected && r.id == c.id && r.wire == With(c.wire, [B.Connack], o.net)
    && if !o.session then BrokerResets.Empty(r)
       else if BrokerResets.Empty(c) then r.msgsIn == c.msgsIn && r.msgsOut == c.msgsOut
       else BrokerResets.Restarted(c.(connected := true), r.(wire := c.wire), lim)
  }

  lemma ConnectHandled(p: B.Pair, lim: B.Limits, o: Oracle)
    ensures ConnectTaken(p.c, OnConnect(p, lim, o).c, lim, o)
  {
    hide B.ReconnectReset, B.RefDecAll, BrokerResets.OutRestarted, BrokerResets.InRestarted;
    var renewed := p.(c := p.c.(connected := true));
    BrokerResets.ReconnectRestarts(renewed, lim);
    var r := B.ReconnectReset(renewed, lim).c;
    SameIdentity(renewed.c, r, lim);
    assert OnConnect(p, lim, o).c.(wire := p.c.wire) == r || !o.session || !B.HasMessages(p.c);
  }

  lemma SameIdentity(c: B.Ctx, r: B.Ctx, lim: B.Limits)
    requires BrokerResets.Restarted(c, r, lim)
    ensures r == c.(msgsIn := r.msgsIn, msgsOut := r.msgsOut)
  {
    hide BrokerFifo.Promoted, BrokerResets.Qos2Of, BrokerCounters.Weigh, BrokerCounters.Fitting;
  }

  // ---------------------------------------------------------------------------------------------
  // Packets to the client
  // ---------------------------------------------------------------------------------------------

  /** Before CONNACK nothing else counts; after it each packet has the effect of its handler. */
  ghost predicate ReplyTaken(o: C.Out, r: C.Out, connacked: bool, m: B.ToClient, net: C.Net) {
    if m.Connack? then C.ConnackTaken(o, r, None, true, net)
    else if !connacked then r == o
    else if m.Puback? then exists rc: Rc :: C.Acknowledged(o, r, rc, m.mid, 1, net)
    else if m.Pubcomp? then exists rc: Rc :: C.Acknowledged(o, r, rc, m.mid, 2, net)
    else if m.Pubrec? then exists rc: Rc :: C.Committed(o, r, rc, m.mid, net)
    else if m.PubrecError? then exists rc: Rc :: C.Refused(o, r, rc, m.mid, net)
    else r == o
  }

  lemma ReplyHandled(o: C.Out, connacked: bool, m: B.ToClient, net: C.Net)
    ensures ReplyTaken(o, OnReply(o, connacked, m, net), connacked, m, net)
  {
    hide C.OnAck, C.OnPubrec, C.OnConnack, C.Acknowledged, C.Committed, C.Refused, C.ConnackTaken;
    C.ConnackSets(o, None, true, net);
    if m.Puback? {
      C.AckEffect(o, m.mid, 1, net);
    } else if m.Pubcomp? {
      C.AckEffect(o, m.mid, 2, net);
    } else if m.Pubrec? {
      C.PubrecEffect(o, m.mid, false, net);
    } else if m.PubrecError? {
      C.PubrecEffect(o, m.mid, true, net);
    }
  }
}
