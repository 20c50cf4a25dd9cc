/** What a reconnect makes of each message a client has, by position, QoS and state (section 4.4 of MQTT 5.0). */
module BrokerResets {
  import opened MosqTypes
  import opened BrokerDb
  import opened BrokerCounters
  import opened BrokerFifo

  // ---------------------------------------------------------------------------------------------
  // Messages on their way out
  // ---------------------------------------------------------------------------------------------

  /** A message in flight is to be published again, unless PUBREC has been handled and PUBREL sent: then only PUBREL is to be
      sent again. */
  ghost predicate Again(m: ClientMsg, n: ClientMsg) {
    && n.store == m.store && n.mid == m.mid && n.qos == m.qos && n.dup == m.dup && n.retain == m.retain
    && (m.qos == 0 ==> n.state == PublishQos0)
    && (m.qos == 1 ==> n.state == PublishQos1)
    && (m.qos == 2 && m.state == WaitForPubcomp ==> n.state == ResendPubrel)
    && (m.qos == 2 && m.state != WaitForPubcomp ==> n.state == PublishQos2)
  }

  /** Every message in flight stays in its place, and the queue moves up behind them: with QoS > 0 messages queued, as many
      as fit, from the head. The receive quota pays for the messages in flight. */
  ghost predicate OutRestarted(c: Ctx, r: Ctx, lim: Limits) {
    var d, e := c.msgsOut, r.msgsOut;
    && r == c.(msgsOut := e, msgsIn := r.msgsIn)
    && r.msgsIn == c.msgsIn.(quota := Spent(c.msgsIn.quota, Weigh(d.inflight).n12))
    && |d.inflight| <= |e.inflight| && (forall i :: 0 <= i < |d.inflight| ==> Again(d.inflight[i], e.inflight[i]))
    && (AllAboveZero(d.queued) ==>
          var before := d.(inflight := e.inflight[..|d.inflight|], quota := d.maximum);
          Promoted(before, e, Fitting(AtReconnect(d), lim, |d.queued|), ByQos()))
  }

  /** One message of the loop */
  lemma OutStep(c: Ctx, i: nat) returns (q: Ctx)
    requires i < |c.msgsOut.inflight|
    ensures var d, e, m := c.msgsOut, q.msgsOut, c.msgsOut.inflight[i];
      && ResetOutInflight(c, i) == ResetOutInflight(q, i + 1)
      && q == c.(msgsOut := e, msgsIn := c.msgsIn.(quota := Spent(c.msgsIn.quota, if m.qos > 0 then 1 else 0)))
      && |e.inflight| == |d.inflight| && Again(m, e.inflight[i])
      && (forall k :: 0 <= k < |d.inflight| && k != i ==> e.inflight[k] == d.inflight[k])
      && e.queued == d.queued
  {
    var m := c.msgsOut.inflight[i];
    var e := SetInflightState(Counted(c.msgsOut, m), i, OutResetState(m));
    q := c.(msgsOut := e, msgsIn := c.msgsIn.(quota := if m.qos > 0 then Decremented(c.msgsIn.quota) else c.msgsIn.quota));
  }

  lemma {:induction false} OutAgain(c: Ctx, i: nat)
    requires i <= |c.msgsOut.inflight|
    ensures var d, r := c.msgsOut, ResetOutInflight(c, i);
      && r == c.(msgsOut := r.msgsOut, msgsIn := c.msgsIn.(quota := Spent(c.msgsIn.quota, Weigh(d.inflight[i..]).n12)))
      && |r.msgsOut.inflight| == |d.inflight|
      && (forall k :: 0 <= k < i ==> r.msgsOut.inflight[k] == d.inflight[k])
      && (forall k :: i <= k < |d.inflight| ==> Again(d.inflight[k], r.msgsOut.inflight[k]))
    decreases |c.msgsOut.inflight| - i
  {
    hide Weigh, Again;
    var d := c.msgsOut;
    if i < |d.inflight| {
      var q := OutStep(c, i);
      hide ResetOutInflight;
      WeighFrom(d.inflight, q.msgsOut.inflight, i);
      OutAgain(q, i + 1);
    } else {
      assert d.inflight[i..] == [];
      WeighNil();
    }
  }

  lemma WeighFrom(a: seq<ClientMsg>, b: seq<ClientMsg>, i: nat)
    requires i < |a| == |b| && forall k :: i < k < |a| ==> b[k] == a[k]
    ensures Weigh(a[i..]).n12 == (if a[i].qos > 0 then 1 else 0) + Weigh(b[i + 1..]).n12
  {
    hide Weigh;
    assert a[i..] == [a[i]] + a[i + 1..] && b[i + 1..] == a[i + 1..];
    WeighCons(a[i], a[i + 1..]);
  }

  /** db__message_reconnect_reset_outgoing */
  lemma ResetOutgoingRestarts(c: Ctx, lim: Limits)
    ensures OutRestarted(c, ResetOutgoing(c, lim), lim)
  {
    hide Weigh, Again, ResetOutInflight, ResetQueue, Promoted, Fitting, AllAboveZero;
    var d := c.msgsOut;
    var a := c.(msgsOut := Refilled(d));
    OutAgain(a, 0);
    assert d.inflight[0..] == d.inflight;
    assert d.inflight[..0] == [];
    WeighNil();
    ResetOutInflightCounts(a, 0);
    var q := ResetOutInflight(a, 0).msgsOut;
    ResetQueueExtends(q, lim, 0);
    QueueRestarted(q, lim);
    FittingLike(AtReconnect(d), q, lim, |d.queued|);
    var e := ResetQueue(q, lim, 0);
    assert e.inflight[..|d.inflight|] == q.inflight;
    if AllAboveZero(d.queued) {
      SamePromoted(q, d.(inflight := q.inflight, quota := d.maximum), e, Fitting(q, lim, |q.queued|), ByQos());
    }
  }

  lemma QueueRestarted(d: MsgData, lim: Limits)
    requires 0 <= d.quota
    ensures AllAboveZero(d.queued) ==>
      Promoted(d, ResetQueue(d, lim, 0), Fitting(d, lim, |d.queued|), ByQos())
  {
    hide Weigh, ResetQueue, Fitting;
    if AllAboveZero(d.queued) {
      var n := ResetQueueFifo(d, lim);
      ResetQueueMoves(d, lim);
    }
  }

  // ---------------------------------------------------------------------------------------------
  // Messages on their way in
  // ---------------------------------------------------------------------------------------------

  /** The QoS 2 messages of a list */
  function Qos2Of(msgs: seq<ClientMsg>): (r: seq<ClientMsg>)
    ensures |r| <= |msgs|
  {
    if msgs == [] then [] else (if msgs[0].qos == 2 then [msgs[0]] else []) + Qos2Of(msgs[1..])
  }

  /** Of the messages in flight those of QoS 2 stay, as they are, in their places; the others go, but all of QoS > 0 take
      receive quota. The queue moves up behind them. */
  ghost predicate InRestarted(c: Ctx, r: Ctx, lim: Limits) {
    var d, e, kept := c.msgsIn, r.msgsIn, Qos2Of(c.msgsIn.inflight);
    var before := d.(inflight := kept, quota := Spent(d.maximum, Weigh(d.inflight).n12), msgBytes12 := Weigh(kept).bytes12);
    && r == c.(msgsIn := e)
    && |kept| <= |e.inflight| && e.inflight[..|kept|] == kept
    && (AllAboveZero(d.queued) ==>
          Promoted(before, e, Fitting(before, lim, |d.queued|), ByQos()))
  }

  /** One message of the loop */
  function InNext(p: Pair, i: nat): Pair
    requires i < |p.c.msgsIn.inflight|
  {
    var m, counted := p.c.msgsIn.inflight[i], Counted(p.c.msgsIn, p.c.msgsIn.inflight[i]);
    var e := if m.qos > 0 then counted.(quota := Decremented(counted.quota)) else counted;
    var q := p.(c := p.c.(msgsIn := e));
    if m.qos == 2 then q else Remove(q, In, i)
  }

  lemma InStep(p: Pair, i: nat)
    requires i < |p.c.msgsIn.inflight|
    ensures var m, d, n := p.c.msgsIn.inflight[i], p.c.msgsIn, InNext(p, i).c.msgsIn;
      && ResetInInflight(p, i) == ResetInInflight(InNext(p, i), if m.qos == 2 then i + 1 else i)
      && InNext(p, i).c == p.c.(msgsIn := n) && n.maximum == d.maximum
      && n.inflight == d.inflight[..i] + (if m.qos == 2 then [m] else []) + d.inflight[i + 1..]
      && n.quota == Spent(d.quota, if m.qos > 0 then 1 else 0)
  {
    var d := p.c.msgsIn;
    assert d.inflight == d.inflight[..i] + [d.inflight[i]] + d.inflight[i + 1..];
    assert Without(d.inflight, i) == d.inflight[..i] + [] + d.inflight[i + 1..];
  }

  lemma Qos2Next(msgs: seq<ClientMsg>, i: nat)
    requires i < |msgs|
    ensures Qos2Of(msgs[i..]) == (if msgs[i].qos == 2 then [msgs[i]] else []) + Qos2Of(msgs[i + 1..])
    ensures Weigh(msgs[i..]).n12 == (if msgs[i].qos > 0 then 1 else 0) + Weigh(msgs[i + 1..]).n12
  {
    hide Weigh;
    assert msgs[i..] == [msgs[i]] + msgs[i + 1..];
    assert msgs[i..][1..] == msgs[i + 1..];
    WeighCons(msgs[i], msgs[i + 1..]);
  }

  /** What the loop from index i on makes of the lists */
  ghost predicate InKept(d: MsgData, e: MsgData, i: nat)
    requires i <= |d.inflight|
  {
    && e.inflight == d.inflight[..i] + Qos2Of(d.inflight[i..]) && e.maximum == d.maximum
    && e.quota == Spent(d.quota, Weigh(d.inflight[i..]).n12)
  }

  lemma InKeptNext(d: MsgData, n: MsgData, e: MsgData, i: nat)
    requires i < |d.inflight| && n.maximum == d.maximum
    requires var m := d.inflight[i];
      && n.inflight == d.inflight[..i] + (if m.qos == 2 then [m] else []) + d.inflight[i + 1..]
      && n.quota == Spent(d.quota, if m.qos > 0 then 1 else 0)
      && InKept(n, e, if m.qos == 2 then i + 1 else i)
    ensures InKept(d, e, i)
  {
    hide Weigh, Qos2Of;
    var m, rest, front := d.inflight[i], d.inflight[i + 1..], d.inflight[..i];
    Qos2Next(d.inflight, i);
    if m.qos == 2 {
      assert n.inflight[i + 1..] == rest && n.inflight[..i + 1] == front + [m];
      assert front + [m] + Qos2Of(rest) == front + ([m] + Qos2Of(rest));
    } else {
      assert n.inflight[i..] == rest && n.inflight[..i] == front;
      assert [] + Qos2Of(rest) == Qos2Of(rest);
    }
  }

  lemma {:induction false} InAgain(p: Pair, i: nat)
    requires i <= |p.c.msgsIn.inflight|
    ensures var r := ResetInInflight(p, i).c; r == p.c.(msgsIn := r.msgsIn) && InKept(p.c.msgsIn, r.msgsIn, i)
    decreases |p.c.msgsIn.inflight| - i
  {
    hide InKept, InNext, ResetInInflight;
    var d := p.c.msgsIn;
    if i < |d.inflight| {
      InStep(p, i);
      var k := if d.inflight[i].qos == 2 then i + 1 else i;
      InAgain(InNext(p, i), k);
      InKeptNext(d, InNext(p, i).c.msgsIn, ResetInInflight(InNext(p, i), k).c.msgsIn, i);
    } else {
      NoneOfQos2(p, i);
    }
  }

  lemma NoneOfQos2(p: Pair, i: nat)
    requires i == |p.c.msgsIn.inflight|
    ensures ResetInInflight(p, i) == p && InKept(p.c.msgsIn, p.c.msgsIn, i)
  {
    var msgs := p.c.msgsIn.inflight;
    assert msgs[i..] == [] && msgs[..i] == msgs;
  }

  lemma ResetIncomingRestarts(p: Pair, lim: Limits)
    ensures InRestarted(p.c, ResetIncoming(p, lim).c, lim)
  {
    hide Weigh, ResetInInflight, ResetQueue, Promoted, Fitting, Qos2Of, AllAboveZero;
    var d := p.c.msgsIn;
    var a := p.(c := p.c.(msgsIn := Refilled(d)));
    InAgain(a, 0);
    assert d.inflight[0..] == d.inflight && d.inflight[..0] == [];
    WeighNil();
    ResetInInflightCounts(a, 0);
    var q := ResetInInflight(a, 0).c.msgsIn;
    var kept := Qos2Of(d.inflight);
    assert q.inflight == kept;
    ResetQueueExtends(q, lim, 0);
    QueueRestarted(q, lim);
    var before := d.(inflight := kept, quota := Spent(d.maximum, Weigh(d.inflight).n12), msgBytes12 := Weigh(kept).bytes12);
    FittingLike(before, q, lim, |d.queued|);
    var e := ResetQueue(q, lim, 0);
    assert e.inflight[..|kept|] == kept;
    if AllAboveZero(d.queued) {
      SamePromoted(q, before, e, Fitting(q, lim, |q.queued|), ByQos());
    }
  }

  /** db__message_reconnect_reset; the receive quota that the outgoing half has taken is refilled by the incoming half. */
  ghost predicate Restarted(c: Ctx, r: Ctx, lim: Limits) {
    && OutRestarted(c, c.(msgsOut := r.msgsOut, msgsIn := c.msgsIn.(quota := Spent(c.msgsIn.quota, Weigh(c.msgsOut.inflight).n12))), lim)
    && InRestarted(c.(msgsOut := r.msgsOut), r, lim)
  }

  lemma ReconnectRestarts(p: Pair, lim: Limits)
    ensures Restarted(p.c, ReconnectReset(p, lim).c, lim)
  {
    hide Weigh, ResetOutgoing, ResetIncoming, Promoted, Fitting, Qos2Of, Again;
    var q := p.(c := ResetOutgoing(p.c, lim));
    ResetOutgoingRestarts(p.c, lim);
    ResetIncomingRestarts(q, lim);
    var r := ReconnectReset(p, lim).c;
    assert r.msgsOut == q.c.msgsOut;
  }

  // ---------------------------------------------------------------------------------------------
  // A session takeover
  // ---------------------------------------------------------------------------------------------

  /** Neither direction has a message, in flight or queued. */
  predicate Empty(c: Ctx) {
    |c.msgsIn.inflight| + |c.msgsIn.queued| + |c.msgsOut.inflight| + |c.msgsOut.queued| == 0
  }

  /** The new context goes on with both directions of the one found, as after a reconnect, and with its own identity and
      connection; the one found has nothing left. */
  ghost predicate TakenOver(found: Ctx, c: Ctx, f: Ctx, r: Ctx, lim: Limits) {
    if Empty(found) then f == found && r == c
    else
      && Restarted(c.(msgsIn := found.msgsIn, msgsOut := found.msgsOut), r, lim)
      && f == found.(msgsIn := NoMessages(0), msgsOut := NoMessages(0)) && Empty(f)
  }

  lemma TakeoverRestarts(st: Store, found: Ctx, c: Ctx, lim: Limits)
    ensures var (_, f, r) := Takeover(st, found, c, lim); TakenOver(found, c, f, r, lim)
  {
    hide Restarted, ReconnectReset;
    ReconnectRestarts(Pair(st, c.(msgsIn := found.msgsIn, msgsOut := found.msgsOut)), lim);
  }
}
