/** QoS 2 from client to broker, the other half: where the broker keeps sessions and neither refuses nor expires
    messages, no publish call is lost. */
module Qos2Complete {
  import opened MosqTypes
  import C = ClientQueue
  import B = BrokerDb
  import opened Qos2
  import opened Qos2Slots
  import opened Qos2Replies
  import opened Qos2Invariant
  import opened Qos2Proof

  type Down = seq<B.ToClient>

  // ---------------------------------------------------------------------------------------------
  // Runs
  // ---------------------------------------------------------------------------------------------

  /** Nothing that the broker holds and no packet of the handshake has this identifier. */
  ghost predicate Unused(s: Sys, mid: Word) {
    && (forall x :: x in Held(s.broker.c) ==> x.mid != mid)
    && (forall p :: p in s.client.wire && (p.Publish? || p.Pubrel?) ==> p.mid != mid)
    && (forall p :: p in s.broker.c.wire && (p.Pubrec? || p.Pubcomp?) ==> p.mid != mid)
  }

  /** CONNECT finds the session, and a QoS 2 message is not refused. */
  predicate Welcome(p: C.Packet, o: Oracle) {
    (p.Connect? ==> o.session) && (p.Publish? && p.qos == 2 ==> !o.denied)
  }

  /** What the surroundings must not do: reuse an identifier before the last trace of it is gone, end a session, refuse a
      message, or let one expire that the broker holds for release. */
  ghost predicate Kind(s: Sys, e: Event) {
    match e
    case PublishCall(mid, qos, _) => qos == 2 ==> Unused(s, mid)
    case ToBroker(o) => s.client.wire != [] ==> Welcome(s.client.wire[0], o)
    case BrokerWrites(expired, _) => NoneExpired(s.broker.c.msgsIn.inflight, expired)
    case _ => true
  }

  ghost predicate KindRun(s: Sys, es: seq<Event>)
    decreases |es|
  {
    es == [] || (Legal(s, es[0]) && Kind(s, es[0]) && KindRun(Step(s, es[0]), es[1..]))
  }

  // ---------------------------------------------------------------------------------------------
  // The invariant
  // ---------------------------------------------------------------------------------------------

  /** The broker has the message of publish call t, or has had it and has routed it. */
  ghost predicate Reached(held: multiset<Slot>, routed: seq<nat>, t: nat) {
    t in routed || exists x :: x in held && x.store.content == t
  }

  /** The client will send the message of publish call t again if need be. */
  ghost predicate Outstanding(msgs: seq<C.Msg>, t: nat) {
    exists k :: 0 <= k < |msgs| && msgs[k].tag == t && !Committed(msgs[k])
  }

  ghost predicate Accounted(msgs: seq<C.Msg>, held: multiset<Slot>, routed: seq<nat>, calls: seq<Origin>) {
    forall t :: 0 <= t < |calls| && calls[t].qos == 2 ==> Reached(held, routed, t) || Outstanding(msgs, t)
  }

  /** An outstanding QoS 2 message with this identifier may be forgotten. */
  ghost predicate MayForget(msgs: seq<C.Msg>, held: multiset<Slot>, routed: seq<nat>, mid: Word) {
    forall k :: 0 <= k < |msgs| && msgs[k].mid == mid && msgs[k].qos == 2 ==> Reached(held, routed, msgs[k].tag)
  }

  /** This identifier stands for publish call t. */
  ghost predicate StandsFor(msgs: seq<C.Msg>, mid: Word, t: nat) {
    forall k :: 0 <= k < |msgs| && msgs[k].mid == mid && msgs[k].qos == 2 ==> msgs[k].tag == t
  }

  ghost predicate UpFits(p: C.Packet, msgs: seq<C.Msg>, held: multiset<Slot>, routed: seq<nat>) {
    && (p.Pubrel? ==> MayForget(msgs, held, routed, p.mid))
    && (p.Publish? && p.qos == 2 ==> StandsFor(msgs, p.mid, p.tag))
  }

  ghost predicate DownFits(p: B.ToClient, msgs: seq<C.Msg>, held: multiset<Slot>, routed: seq<nat>) {
    !p.PubrecError? && (p.Pubrec? || p.Pubcomp? ==> MayForget(msgs, held, routed, p.mid))
  }

  ghost predicate HeldFits(x: Slot, msgs: seq<C.Msg>) {
    StandsFor(msgs, x.mid, x.store.content)
  }

  /** Nothing is lost, and nothing under way or held can make the client forget or the broker mistake a message. */
  ghost predicate Complete(msgs: seq<C.Msg>, up: Up, down: Down, held: multiset<Slot>, routed: seq<nat>,
                           calls: seq<Origin>) {
    && Accounted(msgs, held, routed, calls)
    && (forall p :: p in up ==> UpFits(p, msgs, held, routed))
    && (forall p :: p in down ==> DownFits(p, msgs, held, routed))
    && (forall x :: x in held ==> HeldFits(x, msgs))
  }

  ghost predicate SysComplete(s: Sys) {
    && Complete(s.client.msgs, s.client.wire, s.broker.c.wire, Held(s.broker.c), s.routed, s.calls)
    && s.broker.c.id.Some? && s.broker.c.maximumQos == 2 && AllQos2(s.broker.c.msgsIn)
  }

  // ---------------------------------------------------------------------------------------------
  // What keeps it
  // ---------------------------------------------------------------------------------------------

  /** The client's list changes: messages stay what they are, and an uncommitted one goes or is committed only if the
      broker has it. */
  ghost predicate Moves(msgs: seq<C.Msg>, msgs': seq<C.Msg>, held: multiset<Slot>, routed: seq<nat>) {
    && (forall i :: 0 <= i < |msgs'| ==> Remembered(msgs, msgs'[i]))
    && (forall k :: 0 <= k < |msgs| && msgs[k].qos == 2 && !Committed(msgs[k]) ==>
          Reached(held, routed, msgs[k].tag) || Outstanding(msgs', msgs[k].tag))
  }

  ghost predicate Remembered(msgs: seq<C.Msg>, m: C.Msg) {
    exists k :: 0 <= k < |msgs| && msgs[k].mid == m.mid && msgs[k].qos == m.qos && msgs[k].tag == m.tag
  }

  lemma FewerToFit(msgs: seq<C.Msg>, msgs': seq<C.Msg>, held: multiset<Slot>, routed: seq<nat>, mid: Word, t: nat)
    requires forall i :: 0 <= i < |msgs'| ==> Remembered(msgs, msgs'[i])
    ensures MayForget(msgs, held, routed, mid) ==> MayForget(msgs', held, routed, mid)
    ensures StandsFor(msgs, mid, t) ==> StandsFor(msgs', mid, t)
  {
  }

  /** A step of the client; new packets fit as well. */
  lemma ClientMoves(msgs: seq<C.Msg>, up: Up, down: Down, held: multiset<Slot>, routed: seq<nat>, calls: seq<Origin>,
                    msgs': seq<C.Msg>, up': Up, down': Down)
    requires Complete(msgs, up, down, held, routed, calls) && ClientOk(msgs, calls)
    requires Moves(msgs, msgs', held, routed)
    requires forall p :: p in up' ==> p in up || UpFits(p, msgs, held, routed)
    requires forall p :: p in down' ==> p in down
    ensures Complete(msgs', up', down', held, routed, calls)
  {
    forall mid, t
      ensures MayForget(msgs, held, routed, mid) ==> MayForget(msgs', held, routed, mid)
      ensures StandsFor(msgs, mid, t) ==> StandsFor(msgs', mid, t)
    {
      FewerToFit(msgs, msgs', held, routed, mid, t);
    }
    hide MayForget, StandsFor, Reached, Remembered;
    forall t | 0 <= t < |calls| && calls[t].qos == 2
      ensures Reached(held, routed, t) || Outstanding(msgs', t)
    {
      if !Reached(held, routed, t) {
        var k :| 0 <= k < |msgs| && msgs[k].tag == t && !Committed(msgs[k]);
        assert msgs[k].qos == 2;
      }
    }
  }

  /** A step of the broker: what it had stays held or is routed, and what is new fits. */
  lemma BrokerMoves(msgs: seq<C.Msg>, up: Up, down: Down, held: multiset<Slot>, routed: seq<nat>, calls: seq<Origin>,
                    up': Up, down': Down, held': multiset<Slot>, routed': seq<nat>)
    requires Complete(msgs, up, down, held, routed, calls)
    requires forall p :: p in up' ==> p in up
    requires forall t :: Reached(held, routed, t) ==> Reached(held', routed', t)
    requires forall x :: x in held' ==> x in held || HeldFits(x, msgs)
    requires forall p :: p in down' ==> p in down || DownFits(p, msgs, held', routed')
    ensures Complete(msgs, up', down', held', routed', calls)
  {
    hide Reached, Outstanding, StandsFor;
  }

  /** A publish call under an unused identifier */
  lemma NewCall(s: Sys, m: C.Msg, up': Up)
    requires SysComplete(s) && ClientOk(s.client.msgs, s.calls) && m.tag == |s.calls| && StateFits(m) && !Committed(m)
    requires m.qos == 2 ==> Unused(s, m.mid)
    requires FreeAtClient(s.client.msgs, m.mid)
    requires up' == s.client.wire || up' == s.client.wire + [C.PublishOf(m)]
    ensures Complete(s.client.msgs + [m], up', s.broker.c.wire, Held(s.broker.c), s.routed,
                     s.calls + [Origin(m.mid, m.qos)])
  {
    hide Held, Reached;
    var msgs, held := s.client.msgs, Held(s.broker.c);
    var msgs', calls' := msgs + [m], s.calls + [Origin(m.mid, m.qos)];
    forall t | 0 <= t < |calls'| && calls'[t].qos == 2
      ensures Reached(held, s.routed, t) || Outstanding(msgs', t)
    {
      if t == |s.calls| {
        assert msgs'[|msgs|] == m;
      } else if !Reached(held, s.routed, t) {
        var k :| 0 <= k < |msgs| && msgs[k].tag == t && !Committed(msgs[k]);
        assert msgs'[k] == msgs[k];
      }
    }
    forall mid: Word, t: nat | m.qos == 2 ==> m.mid != mid
      ensures MayForget(msgs, held, s.routed, mid) ==> MayForget(msgs', held, s.routed, mid)
      ensures StandsFor(msgs, mid, t) ==> StandsFor(msgs', mid, t)
    {
    }
    hide MayForget;
    hide Outstanding;
    assert StandsFor(msgs', m.mid, m.tag);
    hide StandsFor;
  }

  /** A committed message has reached the broker. */
  lemma CommittedReached(msgs: seq<C.Msg>, held: multiset<Slot>, routed: seq<nat>, calls: seq<Origin>, k: nat)
    requires ClientOk(msgs, calls) && Accounted(msgs, held, routed, calls) && k < |msgs| && Committed(msgs[k])
    ensures msgs[k].qos == 2 && Reached(held, routed, msgs[k].tag) && MayForget(msgs, held, routed, msgs[k].mid)
  {
    hide Reached;
    assert StateFits(msgs[k]);
  }

  lemma CallCompletes(s: Sys, e: Event)
    requires SysInv(s) && SysComplete(s) && e.PublishCall? && Legal(s, e) && Kind(s, e)
    ensures SysComplete(Step(s, e))
  {
    hide UpOk, SlotsOk, ReleaseBeforeNew, ReleaseAfterPublish, ReleaseOfHeld, RoutedGone, NoRepeats, Qos1Apart, Held;
    hide Connects, Connacks, NotYetResent, C.Release, FreeBeyond, Complete, Unused;
    var o, m := s.client, C.Msg(e.mid, e.qos, |s.calls|, Invalid, false);
    var net := if s.linkUp then e.net else Unconnected();
    ReleaseLast(o, m, 0, net);
    NewCall(s, C.InFlight(m), Launched(o, m, net).wire);
  }

  // ---------------------------------------------------------------------------------------------
  // Packets to the broker
  // ---------------------------------------------------------------------------------------------

  /** What is said of a held message fits. */
  lemma ForHeldFits(x: B.ToClient, msgs: seq<C.Msg>, held: multiset<Slot>, routed: seq<nat>)
    requires ForHeld(x, held) && forall y :: y in held ==> HeldFits(y, msgs)
    ensures DownFits(x, msgs, held, routed)
  {
    if x.Pubrec? || x.Pubcomp? {
      var y :| y in held && y.mid == x.mid;
      assert HeldFits(y, msgs);
      assert Reached(held, routed, y.store.content);
    }
  }

  lemma StillFits(x: B.ToClient, msgs: seq<C.Msg>, held: multiset<Slot>, routed: seq<nat>,
                  held': multiset<Slot>, routed': seq<nat>)
    requires forall t :: Reached(held, routed, t) ==> Reached(held', routed', t)
    ensures DownFits(x, msgs, held, routed) ==> DownFits(x, msgs, held', routed')
  {
    hide Reached;
  }

  /** What a PUBLISH leaves the broker holding, and the new packets, which are for messages it then holds */
  ghost predicate Takes(c: B.Ctx, m: C.Packet, r: B.Ctx)
    requires m.Publish?
  {
    && r.id == c.id && r.maximumQos == c.maximumQos && AllQos2(r.msgsIn)
    && Held(c) <= Held(r)
    && (forall x :: x in Held(r) ==> x in Held(c) || (m.qos == 2 && x.mid == m.mid && x.store.content == m.tag))
    && (forall x :: x in r.wire ==> x in c.wire || ForHeld(x, Held(r)))
  }

  /** A reply about nothing, or about a held message */
  lemma ReplyTakes(c: B.Ctx, m: C.Packet, q: B.Pair, x: B.ToClient, net: B.Net)
    requires m.Publish? && Takes(c, m, q.c) && ForHeld(x, Held(q.c))
    ensures Takes(c, m, Reply(q, x, net).c)
  {
    hide Held, ForHeld, AllQos2;
    SameIncoming(q.c, Reply(q, x, net).c);
  }

  /** Quotas and the store do not matter. */
  lemma SameTakes(c: B.Ctx, m: C.Packet, q: B.Ctx)
    requires m.Publish? && AllQos2(c.msgsIn) && q.id == c.id && q.maximumQos == c.maximumQos && q.wire == c.wire
    requires q.msgsIn.inflight == c.msgsIn.inflight && q.msgsIn.queued == c.msgsIn.queued
    ensures Takes(c, m, q)
  {
    hide Slots, ForHeld;
  }

  lemma Qos1Takes(p: B.Pair, lim: B.Limits, m: C.Packet, o: Oracle)
    requires m.Publish? && m.qos == 1 && AllQos2(p.c.msgsIn) && B.SourceFind(p.c, m.mid).None?
    ensures OnPublish(p, lim, m, o).1 == [] && Takes(p.c, m, OnPublish(p, lim, m, o).0.c)
  {
    hide Takes, B.SourceFind, AllQos2, Reply;
    var q := TookReceiveQuota(Stored(p, m.mid, 1, m.tag, o.payloadLen));
    SameTakes(p.c, m, q.c);
    SameTakes(p.c, m, GaveReceiveQuota(q).c);
    SameTakes(p.c, m, GaveReceiveQuota(p).c);
    ReplyTakes(p.c, m, GaveReceiveQuota(p), B.Puback(m.mid), o.net);
    ReplyTakes(p.c, m, GaveReceiveQuota(q), B.Puback(m.mid), o.net);
  }

  lemma InsertTakes(p: B.Pair, lim: B.Limits, m: C.Packet, s: B.Message)
    requires m.Publish? && m.qos == 2 && p.c.id.Some? && p.c.maximumQos == 2 && AllQos2(p.c.msgsIn) && s.content == m.tag
    ensures var (r, rc) := B.Insert(p, lim, m.mid, B.In, 2, false, s);
      Takes(p.c, m, r.c) && (rc == 0 ==> ForHeld(B.Pubrec(m.mid), Held(r.c)))
  {
    hide Held, AllQos2, B.Insert;
    InsertHeld(p, lim, m.mid, s);
    InsertTells(p, lim, m.mid, s);
    assert Slot(m.mid, s) in Held(p.c) + multiset{Slot(m.mid, s)};
  }

  lemma PublishTakes(p: B.Pair, lim: B.Limits, m: C.Packet, o: Oracle)
    requires m.Publish? && Welcome(m, o) && p.c.id.Some? && p.c.maximumQos == 2 && AllQos2(p.c.msgsIn)
    requires forall x :: x in Held(p.c) ==> x.mid == x.store.sourceMid
    requires m.qos == 1 ==> forall x :: x in Held(p.c) ==> x.mid != m.mid
    ensures OnPublish(p, lim, m, o).1 == [] && Takes(p.c, m, OnPublish(p, lim, m, o).0.c)
  {
    hide Held, Takes, B.Insert, B.SourceFind, AllQos2, Reply;
    SourceFindHeld(p.c, m.mid);
    SameTakes(p.c, m, p.c);
    if m.qos == 1 {
      Qos1Takes(p, lim, m, o);
    } else if B.SourceFind(p.c, m.mid).Some? {
      ReplyTakes(p.c, m, p, B.Pubrec(m.mid), o.net);
    } else {
      StoredTakes(p, lim, m, o);
    }
  }

  lemma StoredTakes(p: B.Pair, lim: B.Limits, m: C.Packet, o: Oracle)
    requires m.Publish? && m.qos == 2 && p.c.id.Some? && p.c.maximumQos == 2 && AllQos2(p.c.msgsIn)
    requires !o.denied && B.SourceFind(p.c, m.mid).None?
    ensures OnPublish(p, lim, m, o).1 == [] && Takes(p.c, m, OnPublish(p, lim, m, o).0.c)
  {
    hide Slots, Takes, B.Insert, B.SourceFind, AllQos2, Reply, ForHeld;
    var q := TookReceiveQuota(Stored(p, m.mid, 2, m.tag, o.payloadLen));
    var s := B.NewMessage(p.st, o.payloadLen, 2, m.mid, m.tag);
    SameLists(p.c.msgsIn, q.c.msgsIn);
    InsertTakes(q, lim, m, s);
    var (r, res) := B.Insert(q, lim, m.mid, B.In, 2, false, s);
    TakesFrom(p.c, q.c, m, r.c);
    if res == 0 {
      ReplyTakes(p.c, m, r, B.Pubrec(m.mid), o.net);
    }
  }

  lemma TakesFrom(c: B.Ctx, q: B.Ctx, m: C.Packet, r: B.Ctx)
    requires m.Publish? && Takes(q, m, r) && q.id == c.id && q.maximumQos == c.maximumQos && q.wire == c.wire
    requires Held(q) == Held(c)
    ensures Takes(c, m, r)
  {
  }

  lemma PublishCompletes(s: Sys, o: Oracle)
    requires SysInv(s) && SysComplete(s) && s.client.wire != [] && s.client.wire[0].Publish? && Kind(s, ToBroker(o))
    ensures SysComplete(Step(s, ToBroker(o)))
  {
    hide UpOk, ReleaseBeforeNew, ReleaseAfterPublish, ReleaseOfHeld, RoutedGone, NoRepeats, ClientOk, Window, Handshake;
    hide OnPublish, Held, AllQos2, Accounted, ForHeld;
    var m, held := s.client.wire[0], Held(s.broker.c);
    assert UpFits(m, s.client.msgs, held, s.routed);
    PublishTakes(s.broker, s.lim, m, o);
    var (r, routed) := OnPublish(s.broker, s.lim, m, o);
    var held' := Held(r.c);
    assert s.routed + routed == s.routed;
    MoreReached(held, held', s.routed);
    assert forall x :: x in held' ==> HeldFits(x, s.client.msgs);
    forall x | x in r.c.wire
      ensures x in s.broker.c.wire || DownFits(x, s.client.msgs, held', s.routed)
    {
      if ForHeld(x, held') {
        ForHeldFits(x, s.client.msgs, held', s.routed);
      }
    }
    hide UpFits, HeldFits, DownFits;
    BrokerMoves(s.client.msgs, s.client.wire, s.broker.c.wire, held, s.routed, s.calls,
                s.client.wire[1..], r.c.wire, held', s.routed);
  }

  lemma MoreReached(held: multiset<Slot>, held': multiset<Slot>, routed: seq<nat>)
    requires held <= held'
    ensures forall t :: Reached(held, routed, t) ==> Reached(held', routed, t)
  {
    assert forall x :: x in held ==> x in held';
  }

  /** What has been taken for routing has been routed. */
  lemma {:induction false} RoutedMember(mid: Word, ms: seq<B.Message>, x: Slot)
    requires x in Routed(mid, ms)
    ensures x.store.content in Contents(ms)
  {
    var init, last := ms[..|ms| - 1], ms[|ms| - 1];
    if x.store == last {
      assert Contents(ms)[|ms| - 1] == x.store.content;
    } else {
      RoutedMember(mid, init, x);
      var k :| 0 <= k < |init| && Contents(init)[k] == x.store.content;
      assert Contents(ms)[k] == x.store.content;
    }
  }

  lemma RoutedReached(mid: Word, held: multiset<Slot>, held': multiset<Slot>, ms: seq<B.Message>, routed: seq<nat>)
    requires held' + Routed(mid, ms) == held
    ensures forall t :: Reached(held, routed, t) ==> Reached(held', routed + Contents(ms), t)
  {
    forall x | x in held
      ensures x in held' || x.store.content in Contents(ms)
    {
      if x !in held' {
        assert x in held' + Routed(mid, ms);
        RoutedMember(mid, ms, x);
      }
    }
  }

  lemma PubrelCompletes(s: Sys, o: Oracle)
    requires SysInv(s) && SysComplete(s) && s.client.wire != [] && s.client.wire[0].Pubrel?
    ensures SysComplete(Step(s, ToBroker(o)))
  {
    hide SysInv, Held, AllQos2, Accounted, B.ReleaseIncoming, Contents, Reached, MayForget, HeldFits, Routed, ForHeld;
    var mid, p, msgs := s.client.wire[0].mid, s.broker, s.client.msgs;
    var held := Held(p.c);
    if mid == 0 {
      assert s.routed + [] == s.routed;
      BrokerMoves(msgs, s.client.wire, p.c.wire, held, s.routed, s.calls, s.client.wire[1..], p.c.wire, held, s.routed);
    } else {
      var r := B.ReleaseIncoming(p, mid, o.routes, o.net);
      ReleaseIncomingHeld(p, mid, o.routes, o.net);
      ReleaseIncomingTells(p, mid, o.routes, o.net);
      var c := OnPubrel(p, mid, o).0.c;
      PubcompTells(r.p.c, mid, o.net);
      var held', routed' := Held(c), s.routed + Contents(r.routed);
      RoutedReached(mid, held, held', r.routed, s.routed);
      assert held' <= held;
      assert UpFits(s.client.wire[0], msgs, held, s.routed);
      forall x | x in c.wire
        ensures x in p.c.wire || DownFits(x, msgs, held', routed')
      {
        StillFits(x, msgs, held, s.routed, held', routed');
        if ForHeld(x, held) {
          ForHeldFits(x, msgs, held, s.routed);
        }
      }
      BrokerMoves(msgs, s.client.wire, p.c.wire, held, s.routed, s.calls, s.client.wire[1..], c.wire, held', routed');
    }
  }

  lemma PubcompTells(c: B.Ctx, mid: Word, net: B.Net)
    ensures var r := B.PubcompSent(c, mid, net);
      && Held(r) == Held(c) && r.id == c.id && r.maximumQos == c.maximumQos && (AllQos2(c.msgsIn) ==> AllQos2(r.msgsIn))
      && (forall x :: x in r.wire ==> x in c.wire || x == B.Pubcomp(mid))
  {
    hide Slots;
  }

  lemma ConnectCompletes(s: Sys, o: Oracle)
    requires SysComplete(s) && s.client.wire != [] && s.client.wire[0].Connect? && Kind(s, ToBroker(o))
    ensures SysComplete(Step(s, ToBroker(o)))
  {
    hide Held, AllQos2, Accounted, B.ReconnectReset, Reached, HeldFits;
    var renewed := s.broker.(c := s.broker.c.(connected := true));
    SameIncoming(s.broker.c, renewed.c);
    ReconnectResetKeeps(renewed, s.lim);
    var q := if B.HasMessages(renewed.c) then B.ReconnectReset(renewed, s.lim) else renewed;
    var c := OnConnect(s.broker, s.lim, o).c;
    SameIncoming(q.c, c);
    assert s.routed + [] == s.routed;
    BrokerMoves(s.client.msgs, s.client.wire, s.broker.c.wire, Held(s.broker.c), s.routed, s.calls,
                s.client.wire[1..], c.wire, Held(c), s.routed);
  }

  lemma WritesComplete(s: Sys, expired: B.Expiry, out: B.Net)
    requires SysComplete(s) && Kind(s, BrokerWrites(expired, out))
    ensures SysComplete(Step(s, BrokerWrites(expired, out)))
  {
    hide Held, AllQos2, Accounted, B.Write, Reached, HeldFits, ForHeld, DownFits, NoneExpired;
    var r, held := B.Write(s.broker, expired, out).p, Held(s.broker.c);
    WriteTells(s.broker, expired, out);
    forall x | x in r.c.wire
      ensures x in s.broker.c.wire || DownFits(x, s.client.msgs, held, s.routed)
    {
      if ForHeld(x, held) {
        ForHeldFits(x, s.client.msgs, held, s.routed);
      }
    }
    BrokerMoves(s.client.msgs, s.client.wire, s.broker.c.wire, held, s.routed, s.calls,
                s.client.wire, r.c.wire, held, s.routed);
  }

  lemma ToBrokerCompletes(s: Sys, o: Oracle)
    requires SysInv(s) && SysComplete(s) && Kind(s, ToBroker(o))
    ensures SysComplete(Step(s, ToBroker(o)))
  {
    if s.client.wire == [] {
      NoPacketArrives(s, o);
    } else {
      hide SysInv, SysComplete, Step, Kind;
      match s.client.wire[0]
      case Connect => ConnectCompletes(s, o);
      case Publish(_, _, _, _) => PublishCompletes(s, o);
      case Pubrel(_) => PubrelCompletes(s, o);
      case Pubrec(_) => StrayPubrecCompletes(s, o);
    }
  }

  lemma StrayPubrecCompletes(s: Sys, o: Oracle)
    requires SysComplete(s) && s.client.wire != [] && s.client.wire[0].Pubrec?
    ensures SysComplete(Step(s, ToBroker(o)))
  {
    hide Held, AllQos2, Accounted, Reached, HeldFits, DownFits, UpFits;
    assert s.routed + [] == s.routed;
    BrokerMoves(s.client.msgs, s.client.wire, s.broker.c.wire, Held(s.broker.c), s.routed, s.calls,
                s.client.wire[1..], s.broker.c.wire, Held(s.broker.c), s.routed);
  }

  // ---------------------------------------------------------------------------------------------
  // Packets to the client
  // ---------------------------------------------------------------------------------------------

  /** The client forgets a message of QoS 1, or one of QoS 2 that the broker has. */
  lemma Forgets(msgs: seq<C.Msg>, f: nat, held: multiset<Slot>, routed: seq<nat>)
    requires f < |msgs| && (msgs[f].qos == 2 ==> MayForget(msgs, held, routed, msgs[f].mid))
    ensures Moves(msgs, Without(msgs, f), held, routed)
  {
    hide Reached;
    var msgs' := Without(msgs, f);
    forall i | 0 <= i < |msgs'|
      ensures Remembered(msgs, msgs'[i])
    {
      assert msgs'[i] == msgs[if i < f then i else i + 1];
    }
    forall k | 0 <= k < |msgs| && msgs[k].qos == 2 && !Committed(msgs[k])
      ensures Reached(held, routed, msgs[k].tag) || Outstanding(msgs', msgs[k].tag)
    {
      if k != f {
        assert msgs'[if k < f then k else k - 1] == msgs[k];
      }
    }
  }

  /** The client commits a message that the broker has, or changes nothing that matters. */
  lemma Relabels(msgs: seq<C.Msg>, msgs': seq<C.Msg>, held: multiset<Slot>, routed: seq<nat>)
    requires |msgs'| == |msgs|
    requires forall k :: 0 <= k < |msgs| ==>
      && msgs'[k].mid == msgs[k].mid && msgs'[k].qos == msgs[k].qos && msgs'[k].tag == msgs[k].tag
      && (msgs[k].qos == 2 && Committed(msgs'[k]) ==> Committed(msgs[k]) || Reached(held, routed, msgs[k].tag))
    ensures Moves(msgs, msgs', held, routed)
  {
    hide Reached;
  }

  lemma AckCompletes(s: Sys, mid: Word, qos: C.Qos, net: C.Net)
    requires SysInv(s) && SysComplete(s)
    requires qos == 2 ==> MayForget(s.client.msgs, Held(s.broker.c), s.routed, mid)
    ensures ClientCompletes(s, C.OnAck(s.client, mid, qos, net).out)
  {
    hide UpOk, SlotsOk, ReleaseBeforeNew, ReleaseAfterPublish, ReleaseOfHeld, RoutedGone, NoRepeats, Qos1Apart,
         Handshake, C.Release, Held, Complete, Moves, MayForget, AllQos2, UpFits;
    var o := s.client;
    var held := Held(s.broker.c);
    if mid != 0 && C.Lookup(o.msgs, mid, qos) == Success {
      var f := C.Find(o.msgs, mid);
      Forgets(o.msgs, f, held, s.routed);
      NoneInvalid(Without(o.msgs, f), s.calls);
      NothingToRelease(o.(msgs := Without(o.msgs, f), quota := Incremented(o.quota, o.maximum)), 0, net);
    } else {
      Relabels(o.msgs, o.msgs, held, s.routed);
    }
    ClientDone(s, C.OnAck(o, mid, qos, net).out);
  }

  /** What the client may look like after a reply, whatever remains of the packets for it */
  ghost predicate ClientCompletes(s: Sys, r: C.Out) {
    forall down :: (forall p :: p in down ==> p in s.broker.c.wire) ==>
      Complete(r.msgs, r.wire, down, Held(s.broker.c), s.routed, s.calls)
  }

  lemma ClientDone(s: Sys, r: C.Out)
    requires SysComplete(s) && ClientOk(s.client.msgs, s.calls)
    requires Moves(s.client.msgs, r.msgs, Held(s.broker.c), s.routed)
    requires forall p :: p in r.wire ==> p in s.client.wire || UpFits(p, s.client.msgs, Held(s.broker.c), s.routed)
    ensures ClientCompletes(s, r)
  {
    hide Complete, ClientOk, Moves, UpFits, Held;
    forall down: Down | forall p :: p in down ==> p in s.broker.c.wire
      ensures Complete(r.msgs, r.wire, down, Held(s.broker.c), s.routed, s.calls)
    {
      ClientMoves(s.client.msgs, s.client.wire, s.broker.c.wire, Held(s.broker.c), s.routed, s.calls,
                  r.msgs, r.wire, down);
    }
  }

  lemma PubrecCompletes(s: Sys, mid: Word, net: C.Net)
    requires SysInv(s) && SysComplete(s) && MayForget(s.client.msgs, Held(s.broker.c), s.routed, mid)
    ensures ClientCompletes(s, C.OnPubrec(s.client, mid, false, net).out)
  {
    hide UpOk, SlotsOk, ReleaseBeforeNew, ReleaseAfterPublish, ReleaseOfHeld, RoutedGone, NoRepeats, Qos1Apart,
         Handshake, Held, Complete, Moves, Reached;
    var o, r := s.client, C.OnPubrec(s.client, mid, false, net).out;
    Relabels(o.msgs, r.msgs, Held(s.broker.c), s.routed);
    ClientDone(s, r);
  }

  /** The retry pass repeats PUBLISH for what it stands for, and PUBREL for what has been committed. */
  lemma {:induction false} RetryCompletes(o: C.Out, i: nat, net: C.Net, down: Down, held: multiset<Slot>,
                                          routed: seq<nat>, calls: seq<Origin>)
    requires Complete(o.msgs, o.wire, down, held, routed, calls) && ClientOk(o.msgs, calls)
    ensures var r := C.Retry(o, i, net); Complete(r.msgs, r.wire, down, held, routed, calls)
    decreases |o.msgs| - i
  {
    hide Complete, ClientOk;
    if i < |o.msgs| {
      var p := C.RetryPacket(o.msgs[i]);
      if p.None? {
        RetryCompletes(o, i + 1, net, down, held, routed, calls);
      } else {
        var n := o.(msgs := o.msgs[i := o.msgs[i].(dup := true)], wire := C.Sent(o.wire, p.value, net));
        RetryOneCompletes(o, i, net, down, held, routed, calls);
        RetryCompletes(n, i + 1, net, down, held, routed, calls);
      }
    }
  }

  lemma RetryOneCompletes(o: C.Out, i: nat, net: C.Net, down: Down, held: multiset<Slot>, routed: seq<nat>,
                          calls: seq<Origin>)
    requires Complete(o.msgs, o.wire, down, held, routed, calls) && ClientOk(o.msgs, calls)
    requires i < |o.msgs| && C.RetryPacket(o.msgs[i]).Some?
    ensures var p, msgs' := C.RetryPacket(o.msgs[i]).value, o.msgs[i := o.msgs[i].(dup := true)];
      ClientOk(msgs', calls) && Complete(msgs', C.Sent(o.wire, p, net), down, held, routed, calls)
  {
    hide Reached, DownFits, HeldFits;
    var m, p, msgs' := o.msgs[i], C.RetryPacket(o.msgs[i]).value, o.msgs[i := o.msgs[i].(dup := true)];
    assert StateFits(m);
    if Committed(m) {
      CommittedReached(o.msgs, held, routed, calls, i);
    }
    assert UpFits(p, o.msgs, held, routed);
    Relabels(o.msgs, msgs', held, routed);
    hide UpFits, Accounted, Moves;
    ClientMoves(o.msgs, o.wire, down, held, routed, calls, msgs', C.Sent(o.wire, p, net), down);
  }

  lemma ConnackCompletes(s: Sys, net: C.Net)
    requires SysInv(s) && SysComplete(s)
    ensures ClientCompletes(s, C.OnConnack(s.client, None, true, net))
  {
    hide Held, UpOk, SlotsOk, ReleaseBeforeNew, ReleaseAfterPublish, ReleaseOfHeld, RoutedGone, NoRepeats, Qos1Apart;
    hide Handshake, ClientOk, Accounted, UpFits, HeldFits, DownFits;
    var o := s.client.(quota := s.client.maximum);
    forall down: Down | forall p :: p in down ==> p in s.broker.c.wire
      ensures var r := C.OnConnack(s.client, None, true, net);
        Complete(r.msgs, r.wire, down, Held(s.broker.c), s.routed, s.calls)
    {
      RetryCompletes(o, 0, net, down, Held(s.broker.c), s.routed, s.calls);
    }
  }

  lemma ToClientCompletes(s: Sys, net: C.Net)
    requires SysInv(s) && SysComplete(s)
    ensures SysComplete(Step(s, Event.ToClient(net)))
  {
    hide Held, SysInv, AllQos2, Accounted, UpFits, HeldFits, C.OnAck, C.OnPubrec, C.OnConnack, MayForget;
    var wire := s.broker.c.wire;
    if wire != [] {
      var x, rest, r := wire[0], wire[1..], OnReply(s.client, s.connacked, wire[0], net);
      SameIncoming(s.broker.c, s.broker.c.(wire := rest));
      assert DownFits(x, s.client.msgs, Held(s.broker.c), s.routed);
      assert forall p :: p in rest ==> p in wire;
      ReplyCompletes(s, x, net);
      assert Complete(r.msgs, r.wire, rest, Held(s.broker.c), s.routed, s.calls);
    }
  }

  lemma ReplyCompletes(s: Sys, x: B.ToClient, net: C.Net)
    requires SysInv(s) && SysComplete(s) && DownFits(x, s.client.msgs, Held(s.broker.c), s.routed)
    ensures ClientCompletes(s, OnReply(s.client, s.connacked, x, net))
  {
    hide Held, SysInv, SysComplete, ClientCompletes, MayForget, C.OnAck, C.OnPubrec, C.OnConnack;
    if s.connacked {
      match x
      case Puback(mid) => AckCompletes(s, mid, 1, net);
      case Pubcomp(mid) => AckCompletes(s, mid, 2, net);
      case Pubrec(mid) => PubrecCompletes(s, mid, net);
      case Connack => ConnackCompletes(s, net);
      case _ => NothingCompletes(s);
    } else if x.Connack? {
      ConnackCompletes(s, net);
    } else {
      NothingCompletes(s);
    }
  }

  lemma NothingCompletes(s: Sys)
    requires SysComplete(s)
    ensures ClientCompletes(s, s.client)
  {
    hide Held, Accounted, UpFits, HeldFits, DownFits, AllQos2;
  }

  // ---------------------------------------------------------------------------------------------
  // The theorems
  // ---------------------------------------------------------------------------------------------

  lemma DisconnectCompletes(s: Sys)
    requires SysComplete(s)
    ensures SysComplete(Step(s, Disconnect))
  {
    hide Held, Accounted, UpFits, HeldFits, DownFits, AllQos2;
    SameIncoming(s.broker.c, Step(s, Disconnect).broker.c);
  }

  lemma ReconnectCompletes(s: Sys)
    requires SysInv(s) && SysComplete(s)
    ensures SysComplete(Step(s, Reconnect))
  {
    hide UpOk, SlotsOk, ReleaseBeforeNew, ReleaseAfterPublish, ReleaseOfHeld, RoutedGone, NoRepeats, Qos1Apart,
         Handshake, Held, Reached, AllQos2, Moves, Accounted, HeldFits, DownFits;
    var msgs, msgs' := s.client.msgs, C.Reset(s.client.msgs, s.client.maximum);
    assert forall k :: 0 <= k < |msgs| ==> StateFits(msgs[k]);
    Relabels(msgs, msgs', Held(s.broker.c), s.routed);
    ClientMoves(msgs, s.client.wire, s.broker.c.wire, Held(s.broker.c), s.routed, s.calls,
                msgs', [C.Connect], s.broker.c.wire);
  }

  lemma StepCompletes(s: Sys, e: Event)
    requires SysInv(s) && SysComplete(s) && Legal(s, e) && Kind(s, e)
    ensures SysComplete(Step(s, e))
  {
    hide SysInv, SysComplete, Step, Legal, Kind;
    match e
    case PublishCall(_, _, _) => CallCompletes(s, e);
    case ToBroker(o) => ToBrokerCompletes(s, o);
    case ToClient(net) => ToClientCompletes(s, net);
    case BrokerWrites(expired, out) => WritesComplete(s, expired, out);
    case Disconnect => DisconnectCompletes(s);
    case Reconnect => ReconnectCompletes(s);
  }

  lemma {:induction false} RunCompletes(s: Sys, es: seq<Event>)
    requires SysInv(s) && SysComplete(s) && KindRun(s, es)
    ensures SysInv(Run(s, es)) && SysComplete(Run(s, es))
    decreases |es|
  {
    hide SysInv, SysComplete, Step, Legal, Kind;
    if es != [] {
      StepKeeps(s, es[0]);
      StepCompletes(s, es[0]);
      RunCompletes(Step(s, es[0]), es[1..]);
    }
  }

  /** Over every run with disconnects, lost packets, failed sends, full queues and failed routing, but with kept sessions
      and without refusals or expiry: a QoS 2 publish call has been routed, or the broker holds its message, or the client
      has the message in a state in which a reconnect publishes it again. */
  lemma NothingLost(maximum: Word, brokerMaximum: Word, v5: bool, lim: B.Limits, es: seq<Event>)
    requires KindRun(Start(maximum, brokerMaximum, v5, lim), es)
    ensures var s := Run(Start(maximum, brokerMaximum, v5, lim), es);
      forall t :: 0 <= t < |s.calls| && s.calls[t].qos == 2 ==>
        || t in s.routed
        || (exists x :: x in Held(s.broker.c) && x.store.content == t)
        || (exists k :: 0 <= k < |s.client.msgs| && s.client.msgs[k].tag == t && !Committed(s.client.msgs[k]))
  {
    StartHolds(maximum, brokerMaximum, v5, lim);
    RunCompletes(Start(maximum, brokerMaximum, v5, lim), es);
  }

  /** So once the client's list is empty and the broker holds nothing, every QoS 2 publish call has been routed exactly
      once. */
  lemma RoutedExactlyOnce(maximum: Word, brokerMaximum: Word, v5: bool, lim: B.Limits, es: seq<Event>)
    requires KindRun(Start(maximum, brokerMaximum, v5, lim), es)
    requires var s := Run(Start(maximum, brokerMaximum, v5, lim), es);
      s.client.msgs == [] && s.broker.c.msgsIn.inflight == [] && s.broker.c.msgsIn.queued == []
    ensures var s := Run(Start(maximum, brokerMaximum, v5, lim), es);
      forall t :: 0 <= t < |s.calls| && s.calls[t].qos == 2 ==> multiset(s.routed)[t] == 1
  {
    hide Run, KindRun, Start;
    var s0 := Start(maximum, brokerMaximum, v5, lim);
    KindIsLegal(s0, es);
    NothingLost(maximum, brokerMaximum, v5, lim, es);
    RoutedAtMostOnce(maximum, brokerMaximum, v5, lim, es);
    var s := Run(s0, es);
    forall t | t in s.routed
      ensures multiset(s.routed)[t] == 1
    {
      OccursOnce(s.routed, t);
    }
  }

  lemma {:induction false} KindIsLegal(s: Sys, es: seq<Event>)
    requires KindRun(s, es)
    ensures LegalRun(s, es)
    decreases |es|
  {
    hide Step, Legal, Kind;
    if es != [] {
      KindIsLegal(Step(s, es[0]), es[1..]);
    }
  }

  lemma OccursOnce(a: seq<nat>, t: nat)
    requires NoRepeats(a) && t in a
    ensures multiset(a)[t] == 1
  {
    var k :| 0 <= k < |a| && a[k] == t;
    assert a == a[..k] + [a[k]] + a[k + 1..];
    assert t !in a[..k] && t !in a[k + 1..];
  }

  // ---------------------------------------------------------------------------------------------
  // A failed routing
  // ---------------------------------------------------------------------------------------------

  /** Where in the incoming list this identifier is, and nowhere else */
  predicate OnlyAt(c: B.Ctx, i: nat, mid: Word) {
    && i < |c.msgsIn.inflight| && c.msgsIn.inflight[i].mid == mid && c.msgsIn.inflight[i].store.sourceMid == mid
    && c.msgsIn.inflight[i].store.qos == 2
    && (forall k :: 0 <= k < |c.msgsIn.inflight| && k != i ==> c.msgsIn.inflight[k].mid != mid)
  }

  lemma {:induction false} ReleaseFails(r: B.ReleaseRun, i: nat, j: nat, mid: Word)
    requires j <= i && OnlyAt(r.p.c, i, mid)
    ensures var q := B.ReleaseMatching(r, j, mid, false);
      q.p == r.p && q.rc == Failed && q.routed == r.routed
    decreases i - j
  {
    if j < i {
      ReleaseFails(r.(index := r.index + 1), i, j + 1, mid);
    }
  }

  lemma {:induction false} ReleaseRoutes(r: B.ReleaseRun, i: nat, j: nat, mid: Word)
    requires j <= i && OnlyAt(r.p.c, i, mid) && r.rc == Success
    ensures var q := B.ReleaseMatching(r, j, mid, true);
      q.rc == Success && q.routed == r.routed + [r.p.c.msgsIn.inflight[i].store]
    decreases i - j
  {
    if j < i {
      ReleaseRoutes(r.(index := r.index + 1), i, j + 1, mid);
    } else {
      var m := r.p.c.msgsIn.inflight[i];
      var r1 := r.(index := r.index + 1, p := B.Remove(r.p, B.In, i), deleted := true, routed := r.routed + [m.store]);
      NoneLeft(r1, i, mid);
    }
  }

  lemma {:induction false} NoneLeft(r: B.ReleaseRun, j: nat, mid: Word)
    requires forall k :: j <= k < |r.p.c.msgsIn.inflight| ==> r.p.c.msgsIn.inflight[k].mid != mid
    ensures var q := B.ReleaseMatching(r, j, mid, true); q.rc == r.rc && q.routed == r.routed
    decreases |r.p.c.msgsIn.inflight| - j
  {
    if j < |r.p.c.msgsIn.inflight| {
      NoneLeft(r.(index := r.index + 1), j + 1, mid);
    }
  }

  /** When the subscription tree fails to take a released message, PUBCOMP goes out all the same and the broker goes on
      holding the message. A later PUBLISH under that identifier is therefore taken for a duplicate: it is acknowledged
      without being stored, and its PUBREL routes the old message. This is why NothingLost asks for identifiers that the
      broker does not hold. */
  lemma FailedRoutingTakesNext(p: B.Pair, lim: B.Limits, i: nat, m: C.Packet, o: Oracle, o': Oracle, o'': Oracle)
    requires m.Publish? && m.qos == 2 && OnlyAt(p.c, i, m.mid)
    requires !o.routes && !o'.denied && o''.routes
    ensures OnPubrel(p, m.mid, o) == (p.(c := B.PubcompSent(p.c, m.mid, o.net)), [])
    ensures var q := OnPubrel(p, m.mid, o).0;
      && OnPublish(q, lim, m, o') == (Reply(q, B.Pubrec(m.mid), o'.net), [])
      && var r := OnPublish(q, lim, m, o').0;
         OnPubrel(r, m.mid, o'').1 == [p.c.msgsIn.inflight[i].store.content]
  {
    hide B.ReleaseMatching, B.ReleaseQueued, B.FirstFrom;
    ReleaseFails(B.ReleaseRun(p, Success, false, 0, []), i, 0, m.mid);
    assert Contents([]) == [];
    var q := OnPubrel(p, m.mid, o).0;
    FoundFirst(q.c.msgsIn.inflight, 0, i, m.mid);
    var r := OnPublish(q, lim, m, o').0;
    ReleaseRoutes(B.ReleaseRun(r, Success, false, 0, []), i, 0, m.mid);
    var s := p.c.msgsIn.inflight[i].store;
    assert [] + [s] == [s] && Contents([s]) == [s.content];
  }

  lemma {:induction false} FoundFirst(msgs: seq<B.ClientMsg>, j: nat, i: nat, mid: Word)
    requires j <= i < |msgs| && msgs[i].store.sourceMid == mid
    ensures B.FirstFrom(msgs, j, mid).Some?
    decreases i - j
  {
    if j < i {
      FoundFirst(msgs, j + 1, i, mid);
    }
  }
}
