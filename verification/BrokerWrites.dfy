/** The four loops of db__message_write together, and what they mean for a client that comes back. */
module BrokerWrites {
  import opened MosqTypes
  import opened BrokerDb
  import opened BrokerCounters
  import opened BrokerFifo
  import BrokerSends
  import BrokerAnswers
  import BrokerResets
  import BrokerInserts

  // ---------------------------------------------------------------------------------------------
  // A write in which every packet is taken and nothing expires
  // ---------------------------------------------------------------------------------------------

  function AllAnswers(msgs: seq<ClientMsg>): seq<ToClient> {
    if msgs == [] then [] else BrokerAnswers.Answer(msgs[0]) + AllAnswers(msgs[1..])
  }

  /** An incoming message after its answer has gone out */
  function Answered(m: ClientMsg): ClientMsg {
    if m.state == SendPubrec || m.state == ResendPubcomp then m.(state := WaitForPubrel) else m
  }

  lemma {:induction false} AllAnswered(msgs: seq<ClientMsg>, expired: Expiry, net: Net)
    requires BrokerSends.Reliable(net) && BrokerSends.NoneExpires(expired)
    ensures BrokerAnswers.FirstUnanswered(msgs, expired, net) == |msgs|
    ensures BrokerAnswers.Answers(msgs, expired) == AllAnswers(msgs)
    ensures var kept := BrokerAnswers.AllKept(msgs, expired);
      |kept| == |msgs| && forall i :: 0 <= i < |msgs| ==> kept[i] == Answered(msgs[i])
  {
    if msgs != [] {
      AllAnswered(msgs[1..], expired, net);
      assert net(Pubrec(msgs[0].mid)) == Success && net(Pubcomp(msgs[0].mid)) == Success;
    }
  }

  /** Every answer that is due has gone out, then every PUBLISH and PUBREL, then a PUBREC for each incoming message that moves
      up; each message in flight is as its packet leaves it, and both queues have moved up as far as quota allows. */
  ghost predicate AllWritten(c: Ctx, r: Ctx, expired: Expiry, net: Net) {
    var i, o := c.msgsIn, c.msgsOut;
    var quota := BrokerAnswers.QuotaAfter(i.inflight, i.quota, i.maximum, expired, net);
    var up, out := Allowed(i.(quota := quota), o.maximum), Allowed(o, o.maximum);
    && r == c.(wire := r.wire, msgsIn := r.msgsIn, msgsOut := r.msgsOut)
    && r.wire == c.wire + AllAnswers(i.inflight) + BrokerSends.AllOwed(o.inflight) + BrokerAnswers.Pubrecs(i.queued[..up])
    && |r.msgsIn.inflight| == |i.inflight| + up && r.msgsIn.queued == i.queued[up..]
    && (forall k :: 0 <= k < |i.inflight| ==> r.msgsIn.inflight[k] == Answered(i.inflight[k]))
    && (forall k :: 0 <= k < up ==> r.msgsIn.inflight[|i.inflight| + k] == i.queued[k].(state := WaitForPubrel))
    && Promoted(o.(inflight := BrokerSends.AllHandled(o.inflight)), r.msgsOut, out, ByQos())
  }

  lemma WriteInAll(p: Pair, expired: Expiry, net: Net)
    requires BrokerSends.Reliable(net) && BrokerSends.NoneExpires(expired)
    ensures var c, a := p.c, WriteIn(p, 0, expired, net);
      && a.rc == Success && a.p.c == c.(wire := a.p.c.wire, msgsIn := a.p.c.msgsIn)
      && a.p.c.wire == c.wire + AllAnswers(c.msgsIn.inflight) && |a.p.c.msgsIn.inflight| == |c.msgsIn.inflight|
      && (forall k :: 0 <= k < |c.msgsIn.inflight| ==> a.p.c.msgsIn.inflight[k] == Answered(c.msgsIn.inflight[k]))
      && a.p.c.msgsIn.queued == c.msgsIn.queued && a.p.c.msgsIn.maximum == c.msgsIn.maximum
      && a.p.c.msgsIn.quota ==
           BrokerAnswers.QuotaAfter(c.msgsIn.inflight, c.msgsIn.quota, c.msgsIn.maximum, expired, net)
  {
    hide WriteIn, BrokerAnswers.FirstUnanswered, BrokerAnswers.Answers, BrokerAnswers.AllKept, BrokerAnswers.QuotaAfter,
         AllAnswers, Answered, BrokerSends.Reliable, BrokerSends.NoneExpires;
    var msgs := p.c.msgsIn.inflight;
    BrokerAnswers.WriteInAnswers(p, expired, net);
    AllAnswered(msgs, expired, net);
    assert msgs[0..] == msgs && msgs[..0] == [] && msgs[..|msgs|] == msgs && msgs[|msgs|..] == [];
    var kept := BrokerAnswers.AllKept(msgs, expired);
    assert [] + (kept + []) == kept;
  }

  lemma WriteInQueuedAll(c: Ctx, net: Net)
    requires BrokerSends.Reliable(net) && BrokerFifo.AllQos2(c.msgsIn.queued)
    ensures var (r, rc) := WriteInQueued(c, 0, net);
      && rc == Success && r == c.(wire := r.wire, msgsIn := r.msgsIn)
      && r.wire == c.wire + BrokerAnswers.Pubrecs(c.msgsIn.queued[..Waiting(c)])
      && Promoted(c.msgsIn, r.msgsIn, Waiting(c), ToPubrel())
  {
    hide WriteInQueued, BrokerSends.Reliable, Waiting, AllQos2, BrokerAnswers.Pubrecs;
    var k := Acknowledgeable(c.msgsIn.queued, net);
    AllAcknowledgeable(c.msgsIn.queued, net);
    WaitingFew(c);
    WriteInQueuedFifo(c, net);
    BrokerAnswers.WriteInQueuedSends(c, net);
    SameStates(c.msgsIn, WriteInQueued(c, 0, net).0.msgsIn, Waiting(c), net);
  }

  lemma WaitingFew(c: Ctx)
    ensures Waiting(c) <= |c.msgsIn.queued|
  {
  }

  lemma AllAcknowledgeable(queued: seq<ClientMsg>, net: Net)
    requires BrokerSends.Reliable(net)
    ensures Acknowledgeable(queued, net) == |queued|
  {
    assert forall mid: Word :: net(Pubrec(mid)) == Success;
  }

  lemma SameStates(d: MsgData, e: MsgData, n: nat, net: Net)
    requires BrokerSends.Reliable(net) && Promoted(d, e, n, AfterPubrec(net))
    ensures Promoted(d, e, n, ToPubrel())
  {
    forall i | 0 <= i < n
      ensures AfterPubrec(net)(d.queued[i]) == ToPubrel()(d.queued[i])
    {
      assert net(Pubrec(d.queued[i].mid)) == Success;
    }
  }

  /** db__message_write */
  lemma WritesAll(p: Pair, expired: Expiry, net: Net)
    requires BrokerSends.Reliable(net) && BrokerSends.NoneExpires(expired) && BrokerFifo.AllQos2(p.c.msgsIn.queued)
    ensures var r := Write(p, expired, net); r.rc == Success && AllWritten(p.c, r.p.c, expired, net)
  {
    hide WriteIn, WriteOut, WriteInQueued, WriteOutQueued, BrokerSends.SentOut, BrokerSends.Reliable, BrokerSends.NoneExpires;
    hide AllAnswers, BrokerSends.AllOwed, BrokerSends.AllHandled, BrokerAnswers.Pubrecs, BrokerAnswers.QuotaAfter, AllQos2;
    var c := p.c;
    var a := WriteIn(p, 0, expired, net).p;
    WriteInAll(p, expired, net);
    var b := WriteOut(a, 0, expired, net);
    BrokerSends.WriteOutSends(a, expired, net);
    BrokerSends.AllSentOut(a.c, b.p.c, b.rc, expired, net);
    BrokerSends.SentOutOnly(a.c, b.p.c, b.rc, expired, net);
    WriteInQueuedAll(b.p.c, net);
    var d := b.p.c.msgsOut;
    WriteOutQueuedFifo(d);
    SamePromoted(d, c.msgsOut.(inflight := d.inflight), WriteOutQueued(d, 0), Allowed(d, d.maximum), ByQos());
    UpIn(a.c, c, WriteInQueued(b.p.c, 0, net).0.msgsIn, Waiting(b.p.c));
  }

  /** What has moved up stands behind what was in flight. */
  lemma UpIn(a: Ctx, c: Ctx, e: MsgData, n: nat)
    requires Promoted(a.msgsIn, e, n, ToPubrel()) && a.msgsIn.queued == c.msgsIn.queued
    requires |a.msgsIn.inflight| == |c.msgsIn.inflight|
    requires forall k :: 0 <= k < |c.msgsIn.inflight| ==> a.msgsIn.inflight[k] == Answered(c.msgsIn.inflight[k])
    ensures var i := c.msgsIn;
      && |e.inflight| == |i.inflight| + n && e.queued == i.queued[n..]
      && (forall k :: 0 <= k < |i.inflight| ==> e.inflight[k] == Answered(i.inflight[k]))
      && (forall k :: 0 <= k < n ==> e.inflight[|i.inflight| + k] == i.queued[k].(state := WaitForPubrel))
  {
    hide Answered;
  }

  // ---------------------------------------------------------------------------------------------
  // Any write
  // ---------------------------------------------------------------------------------------------

  /** What the third loop may do */
  ghost predicate MovedUp(b: Ctx, d: Ctx, rc: Rc, net: Net) {
    && d == b.(wire := d.wire, msgsIn := d.msgsIn)
    && PubrecsFollow(b, d.msgsIn, rc, net) && BrokerAnswers.UpAnswered(b, d.wire, net)
  }

  /** From c over a, b and d to r: answers, packets on their way out, the incoming queue, the outgoing queue; the first error
      ends it. */
  ghost predicate Stages(c: Ctx, a: Ctx, b: Ctx, d: Ctx, r: Ctx, rc: Rc, expired: Expiry, net: Net) {
    && (exists ra: Rc, rb: Rc, rd: Rc ::
          && BrokerAnswers.Answered(c, a, ra, expired, net)
          && (ra == Success ==> BrokerSends.SentOut(a, b, rb, expired, net))
          && (ra == rb == Success ==> MovedUp(b, d, rd, net))
          && if ra != Success then r == a && rc == ra
             else if rb != Success then r == b && rc == rb
             else if rd != Success then r == d && rc == rd
             else
               && rc == Success && r == d.(msgsOut := r.msgsOut)
               && Promoted(d.msgsOut, r.msgsOut, Allowed(d.msgsOut, d.msgsOut.maximum), ByQos()))
  }

  ghost predicate InStages(c: Ctx, r: Ctx, rc: Rc, expired: Expiry, net: Net) {
    exists a: Ctx, b: Ctx, d: Ctx :: Stages(c, a, b, d, r, rc, expired, net)
  }

  lemma WriteInStages(p: Pair, expired: Expiry, net: Net)
    ensures var r := Write(p, expired, net); InStages(p.c, r.p.c, r.rc, expired, net)
  {
    hide WriteIn, WriteOut, WriteInQueued, WriteOutQueued, BrokerSends.SentOut, BrokerAnswers.Answered, Promoted;
    hide PubrecsFollow, BrokerAnswers.UpAnswered, BrokerAnswers.OnlyPubrecs;
    var a := WriteIn(p, 0, expired, net);
    BrokerAnswers.WriteInAnswers(p, expired, net);
    var b := WriteOut(a.p, 0, expired, net);
    BrokerSends.WriteOutSends(a.p, expired, net);
    var (d, rd) := WriteInQueued(b.p.c, 0, net);
    WriteInQueuedFollows(b.p.c, net);
    BrokerAnswers.WriteInQueuedAnswers(b.p.c, net);
    BrokerAnswers.WriteInQueuedOnly(b.p.c, 0, net);
    WriteOutQueuedFifo(d.msgsOut);
    var r := Write(p, expired, net);
    assert MovedUp(b.p.c, d, rd, net);
    assert Stages(p.c, a.p.c, b.p.c, d, r.p.c, r.rc, expired, net);
  }

  // ---------------------------------------------------------------------------------------------
  // A client that comes back
  // ---------------------------------------------------------------------------------------------

  /** With room for all queued messages, each of them fits. */
  lemma AllFit(d: MsgData, lim: Limits)
    requires d.maximum == 0 || |d.queued| <= d.maximum
    requires lim.maxInflightBytes == 0 || Weigh(d.inflight).bytes12 + Weigh(d.queued).bytes12 < lim.maxInflightBytes
    ensures Fitting(AtReconnect(d), lim, |d.queued|) == |d.queued|
  {
    AllFitUpTo(d, lim, |d.queued|);
  }

  lemma {:induction false} AllFitUpTo(d: MsgData, lim: Limits, n: nat)
    requires n <= |d.queued| && (d.maximum == 0 || |d.queued| <= d.maximum)
    requires lim.maxInflightBytes == 0 || Weigh(d.inflight).bytes12 + Weigh(d.queued).bytes12 < lim.maxInflightBytes
    ensures Fitting(AtReconnect(d), lim, n) == n
  {
    hide Weigh;
    if n > 0 {
      AllFitUpTo(d, lim, n - 1);
      assert d.queued == d.queued[..n] + d.queued[n..];
      WeighAppend(d.queued[..n], d.queued[n..]);
      WeighNonnegative(d.queued[n..]);
      assert FitsAt(AtReconnect(d), lim, n - 1);
    }
  }

  /** A message of QoS > 0 for a client that is away and whose queue has room is delivered when the client comes back: if
      there is then room in flight for all that is queued, the write after the reconnect has its PUBLISH on the wire. */
  lemma DeliveredOnReturn(p: Pair, lim: Limits, mid: Word, qos: AnyQos, retain: bool, s: Message, expired: Expiry, net: Net)
    requires !p.c.connected && p.c.id.Some? && qos > 0 && p.c.maximumQos > 0 && CountersOk(p.c.msgsOut)
    requires !BrokerInserts.Overlaps(p, lim, Out, retain, s) && AllAboveZero(p.c.msgsOut.queued)
    requires BrokerInserts.BelowLimits(p.c.msgsOut, lim)
    requires p.c.msgsOut.maximum == 0 || |p.c.msgsOut.queued| < p.c.msgsOut.maximum
    requires lim.maxInflightBytes == 0
          || BrokerInserts.Held(p.c.msgsOut, 1).1 + s.payloadLen < lim.maxInflightBytes
    requires BrokerSends.Reliable(net) && BrokerSends.NoneExpires(expired)
    ensures var r := Insert(p, lim, mid, Out, qos, retain, s).0;
      var back := ReconnectReset(r.(c := r.c.(connected := true)), lim);
      Publish(mid, BrokerInserts.Granted(qos, p.c.maximumQos), s, false) in Write(back, expired, net).p.c.wire
  {
    hide Weigh, Insert, ReconnectReset, Write, BrokerSends.Reliable, BrokerSends.NoneExpires, BrokerResets.Restarted, Fitting;
    BrokerInserts.KeptWhileAway(p, lim, mid, qos, retain, s);
    var r, d := Insert(p, lim, mid, Out, qos, retain, s).0, p.c.msgsOut;
    var e, n := r.c.msgsOut, |d.queued|;
    var m := e.queued[n];
    assert e.queued == d.queued + [m];
    WeighSnoc(d.queued, m);
    AllFit(e, lim);
    PublishedOnReturn(r.(c := r.c.(connected := true)), lim, n, expired, net);
  }

  /** A write in which everything is taken sends what is due for each message in flight. */
  lemma DueGoesOut(p: Pair, k: nat, expired: Expiry, net: Net)
    requires k < |p.c.msgsOut.inflight| && BrokerSends.Reliable(net) && BrokerSends.NoneExpires(expired)
    ensures forall x :: x in BrokerSends.Owed(p.c.msgsOut.inflight[k]) ==> x in Write(p, expired, net).p.c.wire
  {
    hide WriteIn, WriteOut, WriteInQueued, WriteOutQueued, BrokerSends.Reliable, BrokerSends.NoneExpires, BrokerSends.SentOut,
         BrokerSends.AllOwed, BrokerSends.Owed, AllAnswers, Answered, BrokerAnswers.QuotaAfter;
    var a := WriteIn(p, 0, expired, net).p;
    WriteInAll(p, expired, net);
    var b := WriteOut(a, 0, expired, net);
    BrokerSends.WriteOutSends(a, expired, net);
    BrokerSends.AllSentOut(a.c, b.p.c, b.rc, expired, net);
    BrokerSends.OwedGoesOut(a.c.msgsOut.inflight, k);
    BrokerAnswers.WriteInQueuedOnly(b.p.c, 0, net);
    var w := Write(p, expired, net).p.c.wire;
    assert b.p.c.wire <= w;
    forall x | x in BrokerSends.Owed(p.c.msgsOut.inflight[k])
      ensures x in w
    {
      assert x in b.p.c.wire;
      var j :| 0 <= j < |b.p.c.wire| && b.p.c.wire[j] == x;
      assert w[j] == x;
    }
  }

  /** A queued message that fits at a reconnect is published by the next write. */
  lemma PublishedOnReturn(p: Pair, lim: Limits, i: nat, expired: Expiry, net: Net)
    requires AllAboveZero(p.c.msgsOut.queued) && i < Fitting(AtReconnect(p.c.msgsOut), lim, |p.c.msgsOut.queued|)
    requires BrokerSends.Reliable(net) && BrokerSends.NoneExpires(expired)
    ensures var m := p.c.msgsOut.queued[i];
      Publish(m.mid, m.qos, m.store, m.dup) in Write(ReconnectReset(p, lim), expired, net).p.c.wire
  {
    hide Weigh, ReconnectReset, Write, BrokerSends.Reliable, BrokerSends.NoneExpires, Fitting;
    var d, q := p.c.msgsOut, ReconnectReset(p, lim);
    var m, k := d.queued[i], |d.inflight| + i;
    BrokerResets.ReconnectRestarts(p, lim);
    assert q.c.msgsOut.inflight[k] == m.(state := ByQos()(m));
    DueGoesOut(q, k, expired, net);
    assert BrokerSends.Owed(q.c.msgsOut.inflight[k]) == [Publish(m.mid, m.qos, m.store, m.dup)];
  }

  /** So is a QoS > 0 message that was in flight when the connection broke, unless it waited for PUBCOMP: then PUBREL is
      sent. */
  lemma RepeatedOnReturn(p: Pair, lim: Limits, i: nat, expired: Expiry, net: Net)
    requires i < |p.c.msgsOut.inflight| && p.c.msgsOut.inflight[i].qos > 0
    requires BrokerSends.Reliable(net) && BrokerSends.NoneExpires(expired)
    ensures var m := p.c.msgsOut.inflight[i];
      (if m.qos == 2 && m.state == WaitForPubcomp then Pubrel(m.mid) else Publish(m.mid, m.qos, m.store, m.dup))
      in Write(ReconnectReset(p, lim), expired, net).p.c.wire
  {
    hide Weigh, ReconnectReset, Write, BrokerSends.Reliable, BrokerSends.NoneExpires, Fitting, Promoted;
    var m, q := p.c.msgsOut.inflight[i], ReconnectReset(p, lim);
    BrokerResets.ReconnectRestarts(p, lim);
    var n := q.c.msgsOut.inflight[i];
    assert BrokerResets.Again(m, n);
    DueGoesOut(q, i, expired, net);
    assert BrokerSends.Owed(n) ==
      [if m.qos == 2 && m.state == WaitForPubcomp then Pubrel(m.mid) else Publish(m.mid, m.qos, m.store, m.dup)];
  }
}
