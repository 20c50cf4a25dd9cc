/** Promotion from the queue is first in, first out: every promotion loop of src/database.c moves exactly the
    messages whose state it sets, as a prefix of the queue. The reconnect loop does so if and only if no QoS 0 message
    stands behind one that does not fit. */
module BrokerFifo {
  import opened MosqTypes
  import opened BrokerDb
  import opened BrokerCounters

  /** A message is queued exactly when its state says so. */
  predicate QueuedIff(d: MsgData) {
    && (forall i :: 0 <= i < |d.inflight| ==> d.inflight[i].state != Queued)
    && (forall i :: 0 <= i < |d.queued| ==> d.queued[i].state == Queued)
  }

  /** The state the message gets in the loop in question. */
  type NewState = ClientMsg -> MsgState

  /** The quota that is left when n has been taken from it */
  function Spent(quota: int, n: nat): int {
    if quota <= 0 then quota else Max(0, quota - n)
  }

  /** The first n queued messages, with their new states, have moved behind the messages in flight, each for one quota;
      nothing else has changed in the two lists. */
  ghost predicate Promoted(d: MsgData, r: MsgData, n: nat, state: NewState) {
    && n <= |d.queued| && r.queued == d.queued[n..] && r.quota == Spent(d.quota, n) && r.maximum == d.maximum
    && |r.inflight| == |d.inflight| + n
    && (forall i :: 0 <= i < |d.inflight| ==> r.inflight[i] == d.inflight[i])
    && (forall i :: 0 <= i < n ==> r.inflight[|d.inflight| + i] == d.queued[i].(state := state(d.queued[i])))
  }

  /** What such a move means: the line of messages in flight and queued stays as it is but for states, and the states
      still say where each message is. */
  lemma PromotedIsFifo(d: MsgData, r: MsgData, n: nat, state: NewState)
    requires Promoted(d, r, n, state)
    requires QueuedIff(d) && forall m :: state(m) != Queued
    ensures QueuedIff(r)
    ensures var a, b := d.inflight + d.queued, r.inflight + r.queued;
      |a| == |b| && forall i :: 0 <= i < |a| ==> a[i].(state := Invalid) == b[i].(state := Invalid)
  {
    forall i | 0 <= i < |r.inflight|
      ensures r.inflight[i].state != Queued
    {
      if i >= |d.inflight| {
        var k := i - |d.inflight|;
        assert r.inflight[|d.inflight| + k] == d.queued[k].(state := state(d.queued[k]));
      }
    }
    var a, b := d.inflight + d.queued, r.inflight + r.queued;
    forall i | 0 <= i < |a|
      ensures a[i].(state := Invalid) == b[i].(state := Invalid)
    {
      if |d.inflight| <= i < |d.inflight| + n {
        assert b[i] == r.inflight[|d.inflight| + (i - |d.inflight|)];
      }
    }
  }

  lemma PromotedNone(d: MsgData, state: NewState)
    ensures Promoted(d, d, 0, state)
  {
  }

  lemma SamePromoted(d: MsgData, d': MsgData, e: MsgData, n: nat, state: NewState)
    requires Promoted(d, e, n, state)
    requires d'.inflight == d.inflight && d'.queued == d.queued && d'.quota == d.quota && d'.maximum == d.maximum
    ensures Promoted(d', e, n, state)
  {
  }

  /** One round at the head of the queue, then n more. */
  lemma PromotedNext(d: MsgData, e: MsgData, r: MsgData, n: nat, state: NewState)
    requires d.queued != []
    requires e.queued == d.queued[1..] && e.quota == Decremented(d.quota) && e.maximum == d.maximum
    requires e.inflight == d.inflight + [d.queued[0].(state := state(d.queued[0]))]
    requires Promoted(e, r, n, state)
    ensures Promoted(d, r, n + 1, state)
  {
    forall i | 0 <= i < n + 1
      ensures r.inflight[|d.inflight| + i] == d.queued[i].(state := state(d.queued[i]))
    {
      if i > 0 {
        assert r.inflight[|e.inflight| + (i - 1)] == e.queued[i - 1].(state := state(e.queued[i - 1]));
      } else {
        assert r.inflight[|d.inflight|] == e.inflight[|d.inflight|];
      }
    }
  }

  function ByQos(): NewState {
    (m: ClientMsg) => if m.qos == 0 then PublishQos0 else if m.qos == 1 then PublishQos1 else PublishQos2
  }

  function ToPubrel(): NewState {
    (m: ClientMsg) => WaitForPubrel
  }

  /** How many messages a bound leaves room for; 0 means no bound. */
  function Room(maximum: Word, used: nat, waiting: nat): nat {
    if maximum == 0 then waiting else Min(waiting, Max(0, maximum - used))
  }

  /** The loop of db__message_delete_outgoing */
  lemma {:induction false} PromoteUpToFifo(d: MsgData, index: nat)
    ensures Promoted(d, PromoteUpTo(d, 0, index), Room(d.maximum, index, |d.queued|), ByQos())
    decreases |d.queued|
  {
    if d.queued != [] && !(d.maximum != 0 && index >= d.maximum) {
      var e := Promote(d, 0, PublishState(d.queued[0].qos));
      PromoteUpToFifo(e, index + 1);
      PromotedNext(d, e, PromoteUpTo(d, 0, index), Room(e.maximum, index + 1, |e.queued|), ByQos());
    } else {
      PromotedNone(d, ByQos());
    }
  }

  /** How many queued messages the quota lets go; the loops end at a quota of exactly 0. */
  function Allowed(d: MsgData, maximum: Word): nat {
    if maximum == 0 || d.quota < 0 then |d.queued| else Min(|d.queued|, d.quota)
  }

  /** The last loop of db__message_write */
  lemma {:induction false} WriteOutQueuedFifo(d: MsgData)
    ensures Promoted(d, WriteOutQueued(d, 0), Allowed(d, d.maximum), ByQos())
    decreases |d.queued|
  {
    if d.queued != [] && !(d.maximum != 0 && d.quota == 0) {
      var e := Promote(d, 0, PublishState(d.queued[0].qos));
      WriteOutQueuedFifo(e);
      PromotedNext(d, e, WriteOutQueued(d, 0), Allowed(e, e.maximum), ByQos());
    } else {
      PromotedNone(d, ByQos());
    }
  }

  predicate AllQos2(msgs: seq<ClientMsg>) {
    forall i :: 0 <= i < |msgs| ==> msgs[i].qos == 2
  }

  predicate AllAboveZero(msgs: seq<ClientMsg>) {
    forall i :: 0 <= i < |msgs| ==> msgs[i].qos > 0
  }

  lemma HeadMovesUp(d: MsgData)
    requires d.queued != [] && AllQos2(d.queued)
    ensures var e := Promote(d, 0, WaitForPubrel);
      && d.queued[0].qos == 2 && e.queued == d.queued[1..] && AllQos2(e.queued)
      && e.inflight == d.inflight + [d.queued[0].(state := WaitForPubrel)]
      && e.quota == Decremented(d.quota) && e.maximum == d.maximum
  {
    assert forall i :: 0 <= i < |d.queued[1..]| ==> d.queued[1..][i] == d.queued[i + 1];
  }

  /** The loop of db__message_release_incoming; only QoS 2 messages come in this way. */
  lemma {:induction false} ReleaseQueuedFifo(c: Ctx, index: nat, net: Net)
    requires AllQos2(c.msgsIn.queued)
    ensures var d := c.msgsIn;
      Promoted(d, ReleaseQueued(c, 0, index, net).msgsIn, Room(d.maximum, index, |d.queued|), ToPubrel())
    decreases |c.msgsIn.queued|
  {
    hide Promoted, AllQos2, Promote;
    var d := c.msgsIn;
    if d.queued != [] && !(d.maximum != 0 && index >= d.maximum) {
      HeadMovesUp(d);
      var e := Promote(d, 0, WaitForPubrel);
      var c' := SentTo(c, Pubrec(d.queued[0].mid), net).(msgsIn := e);
      ReleaseQueuedFifo(c', index + 1, net);
      PromotedNext(d, e, ReleaseQueued(c, 0, index, net).msgsIn, Room(e.maximum, index + 1, |e.queued|), ToPubrel());
    } else {
      PromotedNone(d, ToPubrel());
    }
  }

  /** The state a message is left in by the third loop of db__message_write. */
  function AfterPubrec(net: Net): NewState {
    (m: ClientMsg) => if net(Pubrec(m.mid)) == Success then WaitForPubrel else SendPubrec
  }

  /** How many messages at the head of the queue have their PUBREC sent before the first failure. */
  function Acknowledgeable(queued: seq<ClientMsg>, net: Net): (k: nat)
    ensures k <= |queued|
    ensures forall i :: 0 <= i < k ==> net(Pubrec(queued[i].mid)) == Success
    ensures k < |queued| ==> net(Pubrec(queued[k].mid)) != Success
  {
    if queued == [] || net(Pubrec(queued[0].mid)) != Success then 0 else 1 + Acknowledgeable(queued[1..], net)
  }

  /** How many messages the loop may take; the check is of the outgoing maximum and the incoming quota. */
  function Waiting(c: Ctx): nat {
    Allowed(c.msgsIn, c.msgsOut.maximum)
  }

  /** One round of the loop at the head of the queue. */
  function PubrecRound(c: Ctx, net: Net): Ctx
    requires c.msgsIn.queued != []
  {
    var d, m := c.msgsIn, c.msgsIn.queued[0];
    SentTo(c, Pubrec(m.mid), net).(msgsIn :=
      d.(queued := d.queued[1..], inflight := d.inflight + [m.(state := AfterPubrec(net)(m))], quota := Decremented(d.quota)))
  }

  lemma FirstPromoted(d: MsgData)
    requires d.queued != []
    ensures var e := Promote(d, 0, SendPubrec);
      && e == d.(queued := d.queued[1..], inflight := d.inflight + [d.queued[0].(state := SendPubrec)],
                 quota := Decremented(d.quota))
      && SetInflightState(e, |d.inflight|, WaitForPubrel).inflight ==
           d.inflight + [d.queued[0].(state := WaitForPubrel)]
  {
  }

  lemma WriteInQueuedRound(c: Ctx, net: Net)
    requires c.msgsIn.queued != [] && c.msgsIn.queued[0].qos == 2
    requires c.msgsOut.maximum == 0 || c.msgsIn.quota != 0
    ensures var reply := Pubrec(c.msgsIn.queued[0].mid);
      WriteInQueued(c, 0, net) ==
        if net(reply) == Success then WriteInQueued(PubrecRound(c, net), 0, net) else (PubrecRound(c, net), net(reply))
  {
    hide Promote;
    FirstPromoted(c.msgsIn);
  }

  lemma PubrecRoundLeaves(c: Ctx, net: Net)
    requires AllQos2(c.msgsIn.queued) && Waiting(c) > 0
    ensures c.msgsIn.queued != [] && c.msgsIn.queued[0].qos == 2
    ensures c.msgsOut.maximum == 0 || c.msgsIn.quota != 0
    ensures var d, e := c.msgsIn, PubrecRound(c, net).msgsIn;
      && e.queued == d.queued[1..] && e.inflight == d.inflight + [d.queued[0].(state := AfterPubrec(net)(d.queued[0]))]
      && e.quota == Decremented(d.quota) && e.maximum == d.maximum
      && AllQos2(e.queued) && Waiting(PubrecRound(c, net)) == Waiting(c) - 1
  {
    assert forall i :: 0 <= i < |c.msgsIn.queued[1..]| ==> c.msgsIn.queued[1..][i] == c.msgsIn.queued[i + 1];
  }

  lemma NothingAllowed(c: Ctx, net: Net)
    requires Waiting(c) == 0
    ensures WriteInQueued(c, 0, net) == (c, Success) && Promoted(c.msgsIn, c.msgsIn, 0, AfterPubrec(net))
  {
  }

  /** The third loop of db__message_write: as many messages move as the quota allows, or those up to and with the first
      whose PUBREC is not sent, which ends the loop with its error and stays in send_pubrec. */
  lemma {:induction false} WriteInQueuedFifo(c: Ctx, net: Net)
    requires AllQos2(c.msgsIn.queued)
    ensures var d, k := c.msgsIn, Acknowledgeable(c.msgsIn.queued, net);
      var (r, rc) := WriteInQueued(c, 0, net);
      && Promoted(d, r.msgsIn, Min(Waiting(c), k + 1), AfterPubrec(net))
      && rc == if k < Waiting(c) then net(Pubrec(d.queued[k].mid)) else Success
    decreases |c.msgsIn.queued|
  {
    hide Promoted, WriteInQueued, PubrecRound, Waiting;
    if Waiting(c) > 0 {
      PubrecRoundLeaves(c, net);
      WriteInQueuedRound(c, net);
      var d, c' := c.msgsIn, PubrecRound(c, net);
      if net(Pubrec(d.queued[0].mid)) == Success {
        WriteInQueuedFifo(c', net);
        PromotedNext(d, c'.msgsIn, WriteInQueued(c', 0, net).0.msgsIn,
                     Min(Waiting(c'), Acknowledgeable(d.queued[1..], net) + 1), AfterPubrec(net));
      } else {
        PromotedNone(c'.msgsIn, AfterPubrec(net));
        PromotedNext(d, c'.msgsIn, c'.msgsIn, 0, AfterPubrec(net));
      }
    } else {
      NothingAllowed(c, net);
    }
  }

  /** What the loop makes of the incoming lists. */
  ghost predicate PubrecsFollow(c: Ctx, d: MsgData, rc: Rc, net: Net) {
    && (AllQos2(c.msgsIn.queued) ==>
          var k := Acknowledgeable(c.msgsIn.queued, net);
          && Promoted(c.msgsIn, d, Min(Waiting(c), k + 1), AfterPubrec(net))
          && rc == if k < Waiting(c) then net(Pubrec(c.msgsIn.queued[k].mid)) else Success)
    && (CountersOk(c.msgsIn) ==> CountersOk(d))
  }

  lemma WriteInQueuedFollows(c: Ctx, net: Net)
    ensures var (r, rc) := WriteInQueued(c, 0, net); PubrecsFollow(c, r.msgsIn, rc, net)
  {
    hide Promoted, WriteInQueued, Waiting, CountersOk;
    WriteInQueuedOk(c, 0, net);
    if AllQos2(c.msgsIn.queued) {
      WriteInQueuedFifo(c, net);
    }
  }

  // ---------------------------------------------------------------------------------------------
  // The queue loop of db__message_reconnect_reset, in which cursor and head can come apart
  // ---------------------------------------------------------------------------------------------

  /** Once a QoS > 0 message does not fit, none behind it does. */
  lemma {:induction false} StuckStaysStuck(d: MsgData, lim: Limits, cursor: nat)
    requires forall i :: cursor <= i < |d.queued| ==> d.queued[i].qos > 0
    requires !ReadyForFlight(d, lim, 1)
    ensures var r := ResetQueue(d, lim, cursor);
      r.queued == d.queued && r.inflight == d.inflight && r.quota == d.quota && r.maximum == d.maximum
    decreases |d.queued| - cursor
  {
    if cursor < |d.queued| {
      StuckStaysStuck(Counted(d, d.queued[cursor]), lim, cursor + 1);
    }
  }

  /** With only QoS > 0 messages queued, the reconnect loop promotes a prefix whatever the limits are. */
  lemma {:induction false} ResetQueueFifo(d: MsgData, lim: Limits) returns (n: nat)
    requires AllAboveZero(d.queued)
    ensures Promoted(d, ResetQueue(d, lim, 0), n, ByQos())
    decreases |d.queued|
  {
    n := 0;
    if d.queued != [] {
      var m := d.queued[0];
      var c := Counted(d, m);
      if ReadyForFlight(c, lim, m.qos) {
        var e := Promote(c, 0, PublishState(m.qos));
        assert forall i :: 0 <= i < |e.queued| ==> e.queued[i] == d.queued[i + 1];
        n := ResetQueueFifo(e, lim);
        PromotedNext(d, e, ResetQueue(d, lim, 0), n, ByQos());
        n := n + 1;
      } else {
        StuckStaysStuck(c, lim, 1);
        assert Promoted(d, ResetQueue(d, lim, 0), 0, ByQos());
      }
    } else {
      PromotedNone(d, ByQos());
    }
  }

  lemma {:induction false} ResetQueueExtends(d: MsgData, lim: Limits, cursor: nat)
    ensures var r := ResetQueue(d, lim, cursor);
      |d.inflight| <= |r.inflight| && forall i :: 0 <= i < |d.inflight| ==> r.inflight[i] == d.inflight[i]
    decreases |d.queued| - cursor
  {
    if cursor < |d.queued| {
      var m := d.queued[cursor];
      var e := Counted(d, m);
      if ReadyForFlight(e, lim, m.qos) {
        ResetQueueExtends(Promote(e, cursor, PublishState(m.qos)), lim, cursor);
      } else {
        ResetQueueExtends(e, lim, cursor + 1);
      }
    }
  }

  /** Behind a message that does not fit, a QoS 0 message makes the loop move the wrong one. */
  lemma {:induction false} BehindStuck(d: MsgData, lim: Limits, cursor: nat)
    requires !ReadyForFlight(d, lim, 1) && 1 <= cursor <= |d.queued| && QueuedIff(d)
    ensures QueuedIff(ResetQueue(d, lim, cursor)) <==> forall j :: cursor <= j < |d.queued| ==> d.queued[j].qos > 0
    decreases |d.queued| - cursor
  {
    if cursor < |d.queued| {
      var m := d.queued[cursor];
      var e := Counted(d, m);
      if m.qos > 0 {
        BehindStuck(e, lim, cursor + 1);
      } else {
        var f := Promote(e, cursor, PublishQos0);
        assert f.inflight[|d.inflight|] == d.queued[0];
        ResetQueueExtends(f, lim, cursor);
        assert ResetQueue(d, lim, cursor).inflight[|d.inflight|].state == Queued;
      }
    }
  }

  /** No QoS 0 message is queued behind one that does not fit. */
  ghost predicate NoneBehindMisfit(d: MsgData, lim: Limits) {
    forall i, j :: 0 <= i < j < |d.queued| && !FitsAt(d, lim, i) ==> d.queued[j].qos > 0
  }

  lemma NoneBehindMisfitTail(d: MsgData, lim: Limits)
    requires d.queued != [] && FitsAt(d, lim, 0)
    ensures var e := Promote(Counted(d, d.queued[0]), 0, PublishState(d.queued[0].qos));
      NoneBehindMisfit(e, lim) <==> NoneBehindMisfit(d, lim)
  {
    hide FitsAt;
    var e := Promote(Counted(d, d.queued[0]), 0, PublishState(d.queued[0].qos));
    assert e.queued == d.queued[1..];
    forall i | 0 <= i < |e.queued|
      ensures FitsAt(e, lim, i) <==> FitsAt(d, lim, i + 1)
    {
      TailFits(d, lim, i);
    }
    if NoneBehindMisfit(e, lim) {
      forall i, j | 0 <= i < j < |d.queued| && !FitsAt(d, lim, i)
        ensures d.queued[j].qos > 0
      {
        assert !FitsAt(e, lim, i - 1);
        assert e.queued[j - 1] == d.queued[j];
      }
    }
    if NoneBehindMisfit(d, lim) {
      forall i, j | 0 <= i < j < |e.queued| && !FitsAt(e, lim, i)
        ensures e.queued[j].qos > 0
      {
        assert !FitsAt(d, lim, i + 1);
        assert e.queued[j] == d.queued[j + 1];
      }
    }
  }

  lemma NoneBehindHead(d: MsgData, lim: Limits)
    requires d.queued != [] && !FitsAt(d, lim, 0)
    ensures NoneBehindMisfit(d, lim) <==> forall j :: 1 <= j < |d.queued| ==> d.queued[j].qos > 0
  {
    hide FitsAt;
  }

  /** The reconnect loop leaves exactly the queued messages marked as queued if and only if no QoS 0 message stands
      behind one that does not fit, under any limits. Otherwise a message that is still marked as queued ends up in
      flight, where nothing will ever send it. */
  lemma {:induction false} ResetQueueExact(d: MsgData, lim: Limits)
    requires QueuedIff(d)
    ensures QueuedIff(ResetQueue(d, lim, 0)) <==> NoneBehindMisfit(d, lim)
    decreases |d.queued|
  {
    hide FitsAt, NoneBehindMisfit;
    if d.queued == [] {
      NothingQueued(d, lim);
    } else {
      var m := d.queued[0];
      var c := Counted(d, m);
      HeadFits(d, lim);
      if FitsAt(d, lim, 0) {
        var e := Promote(c, 0, PublishState(m.qos));
        assert forall i :: 0 <= i < |e.queued| ==> e.queued[i] == d.queued[i + 1];
        ResetQueueExact(e, lim);
        NoneBehindMisfitTail(d, lim);
      } else {
        BehindStuck(c, lim, 1);
        NoneBehindHead(d, lim);
      }
    }
  }

  /** What the queue loop does to one direction. */
  ghost predicate QueueReset(d: MsgData, e: MsgData, lim: Limits) {
    && (0 <= d.quota ==> Moved(d, e, Fitting(d, lim, |d.queued|)))
    && (QueuedIff(d) ==> (QueuedIff(e) <==> NoneBehindMisfit(d, lim)))
  }

  lemma ResetQueueResets(d: MsgData, lim: Limits)
    ensures QueueReset(d, ResetQueue(d, lim, 0), lim)
  {
    hide Moved, QueuedIff, NoneBehindMisfit, ResetQueue, Fitting;
    if 0 <= d.quota {
      ResetQueueMoves(d, lim);
    }
    if QueuedIff(d) {
      ResetQueueExact(d, lim);
    }
  }

  lemma NothingQueued(d: MsgData, lim: Limits)
    requires d.queued == []
    ensures NoneBehindMisfit(d, lim)
  {
  }

  /** With a limit on the number of messages in flight only, that is: no QoS 0 message is queued behind a QoS > 0 message
      for which the quota is used up. */
  lemma ResetQueueByQuota(d: MsgData, lim: Limits)
    requires d.maximum > 0 && lim.maxInflightBytes == 0 && 0 <= d.quota && QueuedIff(d)
    ensures QueuedIff(ResetQueue(d, lim, 0)) <==>
      forall i, j :: d.quota <= i < j < |d.queued| && d.queued[i].qos > 0 ==> d.queued[j].qos > 0
  {
    hide ResetQueue, QueuedIff;
    ResetQueueExact(d, lim);
    assert forall i :: 0 <= i < |d.queued| ==> (FitsAt(d, lim, i) <==> i < d.quota || d.queued[i].qos == 0);
  }
}
