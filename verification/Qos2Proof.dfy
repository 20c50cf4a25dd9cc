/** QoS 2 from client to broker: over every legal run each publish call is routed at most once. */
module Qos2Proof {
  import opened MosqTypes
  import C = ClientQueue
  import B = BrokerDb
  import opened Qos2
  import opened Qos2Slots
  import opened Qos2Invariant

  function Connects(up: Up): nat {
    if up == [] then 0 else Connects(up[..|up| - 1]) + if up[|up| - 1].Connect? then 1 else 0
  }

  /** At most inflight_maximum messages are outstanding, and the quota covers at least the room that is left. */
  predicate Window(o: C.Out) {
    |o.msgs| <= o.maximum <= o.quota + |o.msgs| && 0 <= o.quota
  }

  /** A message that waits for CONNACK to be published again has not been published on this connection. */
  ghost predicate NotYetResent(msgs: seq<C.Msg>, up: Up) {
    forall k, j ::
      (0 <= k < |msgs| && (msgs[k].state == PublishQos1 || msgs[k].state == PublishQos2)
       && 0 <= j < |up| && up[j].Publish?)
      ==> up[j].tag != msgs[k].tag
  }

  predicate NoPubrel(up: Up) {
    forall j :: 0 <= j < |up| ==> !up[j].Pubrel?
  }

  /** One CONNECT or CONNACK at most is under way before the client has seen CONNACK, and none after that. */
  ghost predicate Handshake(s: Sys) {
    && (!s.linkUp ==> s.client.wire == [] && s.broker.c.wire == [] && !s.connacked)
    && Connects(s.client.wire) + Connacks(s.broker.c.wire) <= (if s.linkUp && !s.connacked then 1 else 0)
    && (s.linkUp && !s.connacked ==> NoPubrel(s.client.wire) && NotYetResent(s.client.msgs, s.client.wire))
  }

  ghost predicate Flow(s: Sys) {
    Inv(s.client.msgs, s.client.wire, Held(s.broker.c), s.routed, s.calls)
  }

  ghost predicate SysInv(s: Sys) {
    Flow(s) && Window(s.client) && Handshake(s)
  }

  // ---------------------------------------------------------------------------------------------
  // Wires
  // ---------------------------------------------------------------------------------------------

  lemma ConnectsSnoc(up: Up, p: C.Packet)
    ensures Connects(up + [p]) == Connects(up) + if p.Connect? then 1 else 0
  {
    assert (up + [p])[..|up|] == up;
  }

  lemma {:induction false} ConnectsHead(up: Up)
    requires up != []
    ensures Connects(up) == Connects(up[1..]) + if up[0].Connect? then 1 else 0
  {
    var init, last := up[..|up| - 1], up[|up| - 1];
    if init == [] {
      assert up[1..] == [];
    } else {
      ConnectsHead(init);
      assert up[1..] == init[1..] + [last];
      ConnectsSnoc(init[1..], last);
    }
  }

  lemma {:induction false} ConnacksHead(wire: seq<B.ToClient>)
    requires wire != []
    ensures Connacks(wire) == Connacks(wire[1..]) + if wire[0].Connack? then 1 else 0
  {
    var init, last := wire[..|wire| - 1], wire[|wire| - 1];
    if init == [] {
      assert wire[1..] == [];
    } else {
      ConnacksHead(init);
      assert wire[1..] == init[1..] + [last];
      ConnacksSnoc(init[1..], last);
    }
  }

  // ---------------------------------------------------------------------------------------------
  // The client's functions on a list without unreleased messages
  // ---------------------------------------------------------------------------------------------

  lemma {:induction false} NothingToRelease(o: C.Out, i: nat, net: C.Net)
    requires forall k :: i <= k < |o.msgs| ==> o.msgs[k].state != Invalid
    ensures C.Release(o, i, net) == C.Outcome(o, Success)
    decreases |o.msgs| - i
  {
    if i < |o.msgs| && o.quota > 0 {
      NothingToRelease(o, i + 1, net);
    }
  }

  /** The outcome of publishing when nothing waits and there is quota: the message is in flight at once. */
  function Launched(o: C.Out, m: C.Msg, net: C.Net): C.Out {
    var p := C.PublishOf(m);
    if net(p) == Success then o.(msgs := o.msgs + [C.InFlight(m)], quota := o.quota - 1, wire := o.wire + [p])
    else o.(msgs := o.msgs + [C.InFlight(m)])
  }

  lemma {:induction false} ReleaseLast(o: C.Out, m: C.Msg, i: nat, net: C.Net)
    requires i <= |o.msgs| && o.quota > 0 && m.state == Invalid
    requires forall k :: 0 <= k < |o.msgs| ==> o.msgs[k].state != Invalid
    ensures C.Release(o.(msgs := o.msgs + [m]), i, net).out == Launched(o, m, net)
    decreases |o.msgs| - i
  {
    if i < |o.msgs| {
      ReleaseLast(o, m, i + 1, net);
    } else {
      assert (o.msgs + [m])[|o.msgs| := C.InFlight(m)] == o.msgs + [C.InFlight(m)];
    }
  }

  /** The retry pass after CONNACK */
  lemma {:induction false} RetryKeeps(o: C.Out, i: nat, net: C.Net, held: multiset<Slot>, routed: seq<nat>, calls: seq<Origin>)
    requires Inv(o.msgs, o.wire, held, routed, calls)
    requires forall k, j :: i <= k < |o.msgs| && 0 <= j < |o.wire| && o.wire[j].Pubrel? ==> o.wire[j].mid != o.msgs[k].mid
    requires forall k, j ::
      (i <= k < |o.msgs| && (o.msgs[k].state == PublishQos1 || o.msgs[k].state == PublishQos2)
       && 0 <= j < |o.wire| && o.wire[j].Publish?)
      ==> o.wire[j].tag != o.msgs[k].tag
    ensures var r := C.Retry(o, i, net);
      && Inv(r.msgs, r.wire, held, routed, calls)
      && |r.msgs| == |o.msgs| && r.quota == o.quota && r.maximum == o.maximum
      && Connects(r.wire) == Connects(o.wire)
    decreases |o.msgs| - i
  {
    hide UpOk, SlotsOk, ReleaseBeforeNew, ReleaseAfterPublish, ReleaseOfHeld, RoutedGone, NoRepeats, Qos1Apart, Connects;
    if i < |o.msgs| {
      var m := o.msgs[i];
      var p := C.RetryPacket(m);
      if p.None? {
        RetryKeeps(o, i + 1, net, held, routed, calls);
      } else {
        var msgs' := o.msgs[i := m.(dup := true)];
        RetryOne(o.msgs, o.wire, i, held, routed, calls);
        ConnectsSnoc(o.wire, p.value);
        RetryKeeps(o.(msgs := msgs', wire := C.Sent(o.wire, p.value, net)), i + 1, net, held, routed, calls);
      }
    }
  }

  /** One message of the retry pass, whether its packet gets out or not */
  lemma RetryOne(msgs: seq<C.Msg>, up: Up, i: nat, held: multiset<Slot>, routed: seq<nat>, calls: seq<Origin>)
    requires Inv(msgs, up, held, routed, calls) && i < |msgs| && C.RetryPacket(msgs[i]).Some?
    requires forall j :: 0 <= j < |up| && up[j].Pubrel? ==> up[j].mid != msgs[i].mid
    requires msgs[i].state == PublishQos1 || msgs[i].state == PublishQos2 ==>
      forall j :: 0 <= j < |up| && up[j].Publish? ==> up[j].tag != msgs[i].tag
    ensures var msgs' := msgs[i := msgs[i].(dup := true)];
      && Inv(msgs', up, held, routed, calls)
      && Inv(msgs', up + [C.RetryPacket(msgs[i]).value], held, routed, calls)
  {
    hide UpOk, SlotsOk, ReleaseBeforeNew, ReleaseAfterPublish, ReleaseOfHeld, RoutedGone, NoRepeats, Qos1Apart;
    var msgs' := msgs[i := msgs[i].(dup := true)];
    Relabel(msgs, msgs', up, held, routed, calls);
    assert StateFits(msgs[i]);
    if Committed(msgs[i]) {
      SendPubrel(msgs', up, held, routed, calls, msgs[i].mid);
    } else {
      SendPublish(msgs', up, held, routed, calls, i, true);
    }
  }

  // ---------------------------------------------------------------------------------------------
  // Publish calls
  // ---------------------------------------------------------------------------------------------

  lemma HeldMember(c: B.Ctx, x: Slot)
    requires x in Held(c)
    ensures (exists i :: 0 <= i < |c.msgsIn.inflight| && c.msgsIn.inflight[i].mid == x.mid)
         || (exists i :: 0 <= i < |c.msgsIn.queued| && c.msgsIn.queued[i].mid == x.mid)
  {
    hide Slots;
    SlotsMember(c.msgsIn.inflight, x);
    SlotsMember(c.msgsIn.queued, x);
  }

  lemma CallIsApart(s: Sys, mid: Word)
    requires FreeBeyond(s, mid)
    ensures forall x :: x in Held(s.broker.c) ==> x.mid != mid
    ensures forall j :: 0 <= j < |s.client.wire| && s.client.wire[j].Publish? ==> s.client.wire[j].mid != mid
  {
    hide Held;
    forall x | x in Held(s.broker.c)
      ensures x.mid != mid
    {
      HeldMember(s.broker.c, x);
    }
  }

  lemma LaunchKeepsFlow(msgs: seq<C.Msg>, up: Up, held: multiset<Slot>, routed: seq<nat>, calls: seq<Origin>, m: C.Msg)
    requires Inv(msgs, up, held, routed, calls)
    requires m.tag == |calls| && FreeAtClient(msgs, m.mid) && !m.dup
    requires m.qos == 1 ==> forall x :: x in held ==> x.mid != m.mid
    requires m.qos == 1 ==> forall j :: 0 <= j < |up| && up[j].Publish? ==> up[j].mid != m.mid
    ensures var msgs', calls' := msgs + [C.InFlight(m)], calls + [Origin(m.mid, m.qos)];
      && Inv(msgs', up, held, routed, calls')
      && Inv(msgs', up + [C.PublishOf(m)], held, routed, calls')
  {
    hide ClientOk, ReleaseBeforeNew, ReleaseAfterPublish, ReleaseOfHeld, RoutedGone, NoRepeats, Qos1Apart;
    AddMessage(msgs, up, held, routed, calls, C.InFlight(m));
    SendPublish(msgs + [C.InFlight(m)], up, held, routed, calls + [Origin(m.mid, m.qos)], |msgs|, false);
  }

  lemma NewestNotResent(msgs: seq<C.Msg>, up: Up, calls: seq<Origin>, m: C.Msg)
    requires NotYetResent(msgs, up) && ClientOk(msgs, calls) && m.tag == |calls|
    ensures NotYetResent(msgs + [C.InFlight(m)], up)
    ensures NotYetResent(msgs + [C.InFlight(m)], up + [C.PublishOf(m)])
  {
  }

  lemma CallKeeps(s: Sys, e: Event)
    requires SysInv(s) && e.PublishCall? && Legal(s, e)
    ensures SysInv(Step(s, e)) && Step(s, e).client.maximum == s.client.maximum
  {
    hide UpOk, SlotsOk, ReleaseBeforeNew, ReleaseAfterPublish, ReleaseOfHeld, RoutedGone, NoRepeats, Qos1Apart, Held;
    hide Connects, Connacks, NotYetResent, C.Release, FreeBeyond;
    var o, m := s.client, C.Msg(e.mid, e.qos, |s.calls|, Invalid, false);
    var net := if s.linkUp then e.net else Unconnected();
    ReleaseLast(o, m, 0, net);
    if e.qos == 1 {
      CallIsApart(s, e.mid);
    }
    LaunchKeepsFlow(o.msgs, o.wire, Held(s.broker.c), s.routed, s.calls, m);
    ConnectsSnoc(o.wire, C.PublishOf(m));
    if s.linkUp && !s.connacked {
      NewestNotResent(o.msgs, o.wire, s.calls, m);
    }
  }

  // ---------------------------------------------------------------------------------------------
  // Packets to the broker
  // ---------------------------------------------------------------------------------------------

  /** Removing the first packet for the broker leaves the handshake in order if the broker answers with a CONNACK only
      to a CONNECT. */
  lemma HandshakeAfterTake(s: Sys, s': Sys)
    requires Handshake(s) && s.client.wire != [] && s.linkUp
    requires s'.linkUp == s.linkUp && s'.connacked == s.connacked
    requires s'.client.msgs == s.client.msgs && s'.client.wire == s.client.wire[1..]
    requires Connacks(s'.broker.c.wire) <= Connacks(s.broker.c.wire) + if s.client.wire[0].Connect? then 1 else 0
    ensures Handshake(s')
  {
    hide Connects, Connacks;
    ConnectsHead(s.client.wire);
  }

  lemma ReplyConnacks(p: B.Pair, m: B.ToClient, net: B.Net)
    ensures Connacks(Reply(p, m, net).c.wire) <= Connacks(p.c.wire) + if m.Connack? then 1 else 0
    ensures !m.Connack? ==> Connacks(Reply(p, m, net).c.wire) == Connacks(p.c.wire)
    ensures Held(Reply(p, m, net).c) == Held(p.c)
  {
    hide Connacks, Slots;
    ConnacksSnoc(p.c.wire, m);
  }

  lemma ConnectHeld(p: B.Pair, lim: B.Limits, o: Oracle)
    ensures var r := OnConnect(p, lim, o).c;
      Held(r) <= Held(p.c) && Connacks(r.wire) <= Connacks(p.c.wire) + 1
  {
    hide Connacks, Slots, B.DeleteAll, B.ReconnectReset;
    var renewed := p.(c := p.c.(connected := true));
    assert Held(renewed.c) == Held(p.c);
    DeleteAllQuiet(renewed);
    ReconnectResetQuiet(renewed, lim);
    var q := if !o.session then B.DeleteAll(renewed)
             else if B.HasMessages(renewed.c) then B.ReconnectReset(renewed, lim)
             else renewed;
    assert Held(q.c) <= Held(p.c) && Connacks(q.c.wire) == Connacks(p.c.wire);
    ReplyConnacks(q, B.Connack, o.net);
  }

  /** The messages a PUBLISH leaves at the broker, and what it makes the broker route. */
  lemma PublishHeld(p: B.Pair, lim: B.Limits, m: C.Packet, o: Oracle)
    requires m.Publish?
    ensures var (r, routed) := OnPublish(p, lim, m, o);
      && Connacks(r.c.wire) == Connacks(p.c.wire)
      && (Held(r.c) == Held(p.c)
          || (m.qos == 2 && (forall y :: y in Held(p.c) ==> y.store.sourceMid != m.mid)
              && Held(r.c) == Held(p.c)
                 + multiset{Slot(m.mid, B.NewMessage(p.st, o.payloadLen, 2, m.mid, m.tag))}))
      && (routed != [] ==> m.qos == 1 && exists y :: y in Held(p.c) && y.store.sourceMid == m.mid)
  {
    hide Connacks, Slots, B.Insert, B.SourceFind;
    SourceFindHeld(p.c, m.mid);
    assert forall q: B.Pair :: Held(GaveReceiveQuota(q).c) == Held(q.c) && Held(TookReceiveQuota(q).c) == Held(q.c);
    forall q: B.Pair, x: B.ToClient
      ensures !x.Connack? ==> Connacks(Reply(q, x, o.net).c.wire) == Connacks(q.c.wire)
      ensures Held(Reply(q, x, o.net).c) == Held(q.c)
    {
      ReplyConnacks(q, x, o.net);
    }
    var q := TookReceiveQuota(Stored(p, m.mid, 2, m.tag, o.payloadLen));
    assert Held(q.c) == Held(p.c) && q.c.wire == p.c.wire;
    InsertHeld(q, lim, m.mid, B.NewMessage(p.st, o.payloadLen, 2, m.mid, m.tag));
  }

  lemma PublishArrives(s: Sys, o: Oracle)
    requires SysInv(s) && s.client.wire != [] && s.client.wire[0].Publish?
    ensures SysInv(Step(s, ToBroker(o)))
  {
    hide UpOk, ReleaseBeforeNew, ReleaseAfterPublish, ReleaseOfHeld, RoutedGone, NoRepeats;
    hide OnPublish, Held, Connects, Connacks, NotYetResent, NoPubrel;
    var m, held := s.client.wire[0], Held(s.broker.c);
    var (r, routed) := OnPublish(s.broker, s.lim, m, o);
    PublishHeld(s.broker, s.lim, m, o);
    if m.qos == 1 {
      forall y | y in held
        ensures y.store.sourceMid != m.mid
      {
        assert y.mid != m.mid;
      }
    }
    assert routed == [];
    assert s.routed + routed == s.routed;
    var x := Slot(m.mid, B.NewMessage(s.broker.st, o.payloadLen, 2, m.mid, m.tag));
    if Held(r.c) == held {
      TakePacket(s.client.msgs, s.client.wire, held, s.routed, s.calls);
    } else {
      TakeIn(s.client.msgs, s.client.wire, held, s.routed, s.calls, x);
    }
    HandshakeAfterTake(s, Step(s, ToBroker(o)));
  }

  lemma PubrelArrives(s: Sys, o: Oracle)
    requires SysInv(s) && s.client.wire != [] && s.client.wire[0].Pubrel?
    ensures SysInv(Step(s, ToBroker(o)))
  {
    hide Inv, B.ReleaseIncoming, Slots, Connects, Connacks, NotYetResent, NoPubrel;
    var mid, p := s.client.wire[0].mid, s.broker;
    if mid == 0 {
      assert s.routed + [] == s.routed;
      TakePacket(s.client.msgs, s.client.wire, Held(p.c), s.routed, s.calls);
    } else {
      var r := B.ReleaseIncoming(p, mid, o.routes, o.net);
      ReleaseIncomingHeld(p, mid, o.routes, o.net);
      PubcompHeld(r.p.c, mid, o.net);
      RouteAll(s.client.msgs, s.client.wire, Held(r.p.c), r.routed, s.routed, s.calls);
      TakePacket(s.client.msgs, s.client.wire, Held(r.p.c), s.routed + Contents(r.routed), s.calls);
    }
    HandshakeAfterTake(s, Step(s, ToBroker(o)));
  }

  lemma PubcompHeld(c: B.Ctx, mid: Word, net: B.Net)
    ensures Held(B.PubcompSent(c, mid, net)) == Held(c)
    ensures Connacks(B.PubcompSent(c, mid, net).wire) == Connacks(c.wire)
  {
    hide Slots, Connacks;
    ConnacksSnoc(c.wire, B.Pubcomp(mid));
  }

  lemma ConnectArrives(s: Sys, o: Oracle)
    requires SysInv(s) && s.client.wire != [] && s.client.wire[0].Connect?
    ensures SysInv(Step(s, ToBroker(o)))
  {
    hide Inv, OnConnect, Held, Connects, Connacks, NotYetResent, NoPubrel;
    ConnectHeld(s.broker, s.lim, o);
    var r := OnConnect(s.broker, s.lim, o);
    assert s.routed + [] == s.routed;
    TakePacket(s.client.msgs, s.client.wire, Held(s.broker.c), s.routed, s.calls);
    Shrink(s.client.msgs, s.client.wire[1..], Held(s.broker.c), Held(r.c), s.routed, s.calls);
    HandshakeAfterTake(s, Step(s, ToBroker(o)));
  }

  lemma StrayPubrecArrives(s: Sys, o: Oracle)
    requires SysInv(s) && s.client.wire != [] && s.client.wire[0].Pubrec?
    ensures SysInv(Step(s, ToBroker(o)))
  {
    hide Inv, Held, Connects, Connacks, NotYetResent, NoPubrel;
    assert s.routed + [] == s.routed;
    TakePacket(s.client.msgs, s.client.wire, Held(s.broker.c), s.routed, s.calls);
    HandshakeAfterTake(s, Step(s, ToBroker(o)));
  }

  lemma ToBrokerKeeps(s: Sys, o: Oracle)
    requires SysInv(s)
    ensures SysInv(Step(s, ToBroker(o)))
  {
    if s.client.wire == [] {
      NoPacketArrives(s, o);
    } else {
      hide SysInv, Step;
      match s.client.wire[0]
      case Connect => ConnectArrives(s, o);
      case Publish(_, _, _, _) => PublishArrives(s, o);
      case Pubrel(_) => PubrelArrives(s, o);
      case Pubrec(_) => StrayPubrecArrives(s, o);
    }
  }

  lemma NoPacketArrives(s: Sys, o: Oracle)
    requires s.client.wire == []
    ensures Step(s, ToBroker(o)) == s
  {
  }

  // ---------------------------------------------------------------------------------------------
  // Packets to the client
  // ---------------------------------------------------------------------------------------------

  /** What a reply may do to the client: the flow and the window hold on, and no CONNECT is sent. */
  ghost predicate ClientStep(o: C.Out, r: C.Out, held: multiset<Slot>, routed: seq<nat>, calls: seq<Origin>) {
    && Inv(r.msgs, r.wire, held, routed, calls)
    && Window(r) && r.maximum == o.maximum
    && Connects(r.wire) == Connects(o.wire)
  }

  lemma NoneInvalid(msgs: seq<C.Msg>, calls: seq<Origin>)
    requires ClientOk(msgs, calls)
    ensures forall k :: 0 <= k < |msgs| ==> msgs[k].state != Invalid
  {
    assert forall k :: 0 <= k < |msgs| ==> StateFits(msgs[k]);
  }

  lemma AckArrives(o: C.Out, mid: Word, qos: C.Qos, net: C.Net, held: multiset<Slot>, routed: seq<nat>, calls: seq<Origin>)
    requires Inv(o.msgs, o.wire, held, routed, calls) && Window(o)
    ensures ClientStep(o, C.OnAck(o, mid, qos, net).out, held, routed, calls)
  {
    hide UpOk, SlotsOk, ReleaseBeforeNew, ReleaseAfterPublish, ReleaseOfHeld, RoutedGone, NoRepeats, Qos1Apart,
         Connects, C.Release;
    var grown := o.(quota := Incremented(o.quota, o.maximum));
    if mid != 0 && C.Lookup(o.msgs, mid, qos) == Success {
      var f := C.Find(o.msgs, mid);
      Forget(o.msgs, f, o.wire, held, routed, calls);
      NoneInvalid(Without(o.msgs, f), calls);
      NothingToRelease(grown.(msgs := C.Removed(o.msgs, mid, qos)), 0, net);
    }
  }

  lemma PubrecArrives(o: C.Out, mid: Word, net: C.Net, held: multiset<Slot>, routed: seq<nat>, calls: seq<Origin>)
    requires Inv(o.msgs, o.wire, held, routed, calls) && Window(o)
    ensures ClientStep(o, C.OnPubrec(o, mid, false, net).out, held, routed, calls)
  {
    hide UpOk, SlotsOk, ReleaseBeforeNew, ReleaseAfterPublish, ReleaseOfHeld, RoutedGone, NoRepeats, Qos1Apart, Connects;
    if mid != 0 && C.Lookup(o.msgs, mid, 2) != Protocol {
      var msgs' := C.Updated(o.msgs, mid, WaitForPubcomp, 2);
      Relabel(o.msgs, msgs', o.wire, held, routed, calls);
      OnlyMatchCommitted(o.msgs, mid, calls);
      SendPubrel(msgs', o.wire, held, routed, calls, mid);
      ConnectsSnoc(o.wire, C.Pubrel(mid));
    }
  }

  lemma OnlyMatchCommitted(msgs: seq<C.Msg>, mid: Word, calls: seq<Origin>)
    requires ClientOk(msgs, calls) && C.Lookup(msgs, mid, 2) != Protocol
    ensures var msgs' := C.Updated(msgs, mid, WaitForPubcomp, 2);
      forall k :: 0 <= k < |msgs'| && msgs'[k].mid == mid ==> Committed(msgs'[k])
  {
    var f := C.Find(msgs, mid);
    forall k | 0 <= k < |msgs| && msgs[k].mid == mid
      ensures k == f
    {
      assert f <= k;
    }
  }

  lemma PubrecErrorArrives(o: C.Out, mid: Word, net: C.Net, held: multiset<Slot>, routed: seq<nat>, calls: seq<Origin>)
    requires Inv(o.msgs, o.wire, held, routed, calls) && Window(o)
    ensures ClientStep(o, C.OnPubrec(o, mid, true, net).out, held, routed, calls)
  {
    hide UpOk, SlotsOk, ReleaseBeforeNew, ReleaseAfterPublish, ReleaseOfHeld, RoutedGone, NoRepeats, Qos1Apart,
         Connects, C.Release;
    if mid != 0 {
      var kept := C.Removed(o.msgs, mid, 2);
      if C.Lookup(o.msgs, mid, 2) == Success {
        Forget(o.msgs, C.Find(o.msgs, mid), o.wire, held, routed, calls);
      }
      NoneInvalid(kept, calls);
      NothingToRelease(o.(msgs := kept, quota := Incremented(o.quota, o.maximum)), 0, net);
    }
  }

  lemma ConnackArrives(o: C.Out, net: C.Net, held: multiset<Slot>, routed: seq<nat>, calls: seq<Origin>)
    requires Inv(o.msgs, o.wire, held, routed, calls) && Window(o)
    requires NoPubrel(o.wire) && NotYetResent(o.msgs, o.wire)
    ensures ClientStep(o, C.OnConnack(o, None, true, net), held, routed, calls)
  {
    hide Inv, Connects;
    RetryKeeps(o.(quota := o.maximum), 0, net, held, routed, calls);
  }

  lemma ToClientKeeps(s: Sys, net: C.Net)
    requires SysInv(s)
    ensures SysInv(Step(s, Event.ToClient(net))) && Step(s, Event.ToClient(net)).client.maximum == s.client.maximum
  {
    hide Inv, Slots, Connects, Connacks, C.OnAck, C.OnPubrec, C.OnConnack, NotYetResent, NoPubrel;
    var o, wire, held := s.client, s.broker.c.wire, Held(s.broker.c);
    if wire != [] {
      ConnacksHead(wire);
      if !s.connacked {
        if wire[0].Connack? {
          ConnackArrives(o, net, held, s.routed, s.calls);
        }
      } else {
        assert !wire[0].Connack?;
        match wire[0]
        case Puback(mid) => AckArrives(o, mid, 1, net, held, s.routed, s.calls);
        case Pubcomp(mid) => AckArrives(o, mid, 2, net, held, s.routed, s.calls);
        case Pubrec(mid) => PubrecArrives(o, mid, net, held, s.routed, s.calls);
        case PubrecError(mid) => PubrecErrorArrives(o, mid, net, held, s.routed, s.calls);
        case _ =>
      }
    }
  }

  // ---------------------------------------------------------------------------------------------
  // Everything else, and the theorem
  // ---------------------------------------------------------------------------------------------

  lemma BrokerWritesKeeps(s: Sys, expired: B.Expiry, out: B.Net)
    requires SysInv(s)
    ensures SysInv(Step(s, BrokerWrites(expired, out)))
  {
    hide Inv, B.Write, Held, Connects, Connacks, NotYetResent, NoPubrel;
    var r := B.Write(s.broker, expired, out).p;
    WriteQuiet(s.broker, expired, out);
    Shrink(s.client.msgs, s.client.wire, Held(s.broker.c), Held(r.c), s.routed, s.calls);
  }

  lemma DisconnectKeeps(s: Sys)
    requires SysInv(s)
    ensures SysInv(Step(s, Disconnect))
  {
    hide Inv, Slots, NotYetResent;
    LosePackets(s.client.msgs, s.client.wire, Held(s.broker.c), s.routed, s.calls);
  }

  lemma ReconnectKeeps(s: Sys)
    requires SysInv(s)
    ensures SysInv(Step(s, Reconnect))
  {
    hide Slots, UpOk, SlotsOk, ReleaseBeforeNew, ReleaseAfterPublish, ReleaseOfHeld, RoutedGone, NoRepeats, Qos1Apart;
    if !s.linkUp {
      var o, held := s.client, Held(s.broker.c);
      var msgs' := C.Reset(o.msgs, o.maximum);
      Relabel(o.msgs, msgs', o.wire, held, s.routed, s.calls);
      LosePackets(msgs', o.wire, held, s.routed, s.calls);
      SendConnect(msgs', held, s.routed, s.calls);
      ConnectsSnoc([], C.Connect);
      assert [] + [C.Connect] == [C.Connect];
    }
  }

  lemma StepKeeps(s: Sys, e: Event)
    requires SysInv(s) && Legal(s, e)
    ensures SysInv(Step(s, e))
  {
    hide SysInv, Step, Legal;
    match e
    case PublishCall(_, _, _) => CallKeeps(s, e);
    case ToBroker(o) => ToBrokerKeeps(s, o);
    case ToClient(net) => ToClientKeeps(s, net);
    case BrokerWrites(expired, out) => BrokerWritesKeeps(s, expired, out);
    case Disconnect => DisconnectKeeps(s);
    case Reconnect => ReconnectKeeps(s);
  }

  lemma {:induction false} RunKeeps(s: Sys, es: seq<Event>)
    requires SysInv(s) && LegalRun(s, es)
    ensures SysInv(Run(s, es))
    decreases |es|
  {
    hide SysInv, Step, Legal;
    if es != [] {
      StepKeeps(s, es[0]);
      RunKeeps(Step(s, es[0]), es[1..]);
    }
  }

  lemma StartHolds(maximum: Word, brokerMaximum: Word, v5: bool, lim: B.Limits)
    ensures SysInv(Start(maximum, brokerMaximum, v5, lim))
  {
  }

  /** Over every run of publish calls, packets, disconnects and reconnects in which at most inflight_maximum messages
      are outstanding under distinct identifiers, no publish call is routed twice as a QoS 2 message, and a message that
      has been routed but is still held by the client waits for PUBCOMP or is about to repeat PUBREL, so that it will not
      be published again. */
  lemma RoutedAtMostOnce(maximum: Word, brokerMaximum: Word, v5: bool, lim: B.Limits, es: seq<Event>)
    requires LegalRun(Start(maximum, brokerMaximum, v5, lim), es)
    ensures var s := Run(Start(maximum, brokerMaximum, v5, lim), es);
      && NoRepeats(s.routed)
      && (forall n :: 0 <= n < |s.routed| ==> s.routed[n] < |s.calls| && s.calls[s.routed[n]].qos == 2)
      && (forall n, k :: 0 <= n < |s.routed| && 0 <= k < |s.client.msgs| && s.client.msgs[k].tag == s.routed[n]
            ==> s.client.msgs[k].state == WaitForPubcomp || s.client.msgs[k].state == ResendPubrel)
  {
    hide Run, LegalRun, Start, Step, UpOk, SlotsOk, ReleaseBeforeNew, ReleaseAfterPublish, ReleaseOfHeld, Qos1Apart;
    StartHolds(maximum, brokerMaximum, v5, lim);
    RunKeeps(Start(maximum, brokerMaximum, v5, lim), es);
  }
}
