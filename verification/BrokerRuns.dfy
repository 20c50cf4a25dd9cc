/** What holds over every run of the broker besides the references: the per-client counters, the flow-control bound
    and the suppression of overlapping deliveries. */
module BrokerRuns {
  import opened MosqTypes
  import opened BrokerDb
  import opened BrokerCounters
  import opened BrokerWorld
  import BrokerRefs

  // ---------------------------------------------------------------------------------------------
  // Counters
  // ---------------------------------------------------------------------------------------------

  ghost predicate AllCountersOk(w: World) {
    forall i :: 0 <= i < |w.ctxs| ==> CtxOk(w.ctxs[i])
  }

  /** An insert does not bring a QoS down to 0, and an access check removes nothing. */
  ghost predicate CounterSafe(w: World, op: Op) {
    match op
    case InsertFor(k, mid, dir, qos, retain, s) =>
      k < |w.ctxs| && w.ctxs[k].maximumQos == 0 ==>
        qos == 0 || InsertVerdict(Pair(w.st, w.ctxs[k]), w.lim, dir, qos, retain, s).Dropped?
    case CheckAcl(k, denied) =>
      k < |w.ctxs| ==>
        forall m :: m in w.ctxs[k].msgsOut.inflight || m in w.ctxs[k].msgsOut.queued ==> !denied(m.store)
    case _ => true
  }

  ghost predicate CounterSafeRun(w: World, ops: seq<Op>)
    decreases |ops|
  {
    ops == [] || (CounterSafe(w, ops[0]) && CounterSafeRun(Apply(w, ops[0]), ops[1..]))
  }

  lemma OnAckCounters(p: Pair, mid: Word, qos: AnyQos)
    requires CtxOk(p.c)
    ensures CtxOk(OnAck(p, mid, qos).p.c)
  {
    hide Weigh, DeleteOutgoing;
    var d := p.c.msgsOut;
    DeleteOutgoingCounters(p.(c := p.c.(msgsOut := d.(quota := Incremented(d.quota, d.maximum)))), mid, WaitForPubcomp, qos);
  }

  lemma DeleteAllCounters(p: Pair)
    ensures CtxOk(DeleteAll(p).c)
  {
    hide RefDecAll, CountersOk;
    EmptyOk(Emptied(p.c.msgsIn));
    EmptyOk(Emptied(p.c.msgsOut));
  }

  lemma OnPubrecCounters(p: Pair, mid: Word, net: Net)
    ensures CtxOk(p.c) ==> CtxOk(OnPubrec(p, mid, net).c)
    ensures FlowOk(p.c.msgsOut) ==> FlowOk(OnPubrec(p, mid, net).c.msgsOut)
  {
    hide Weigh, UpdateOutgoing;
    UpdateOutgoingOk(p, mid, WaitForPubcomp, 2);
  }

  lemma OnClientCounters(w: World, k: nat, op: Op)
    requires k < |w.ctxs| && CtxOk(w.ctxs[k]) && CounterSafe(w, op)
    requires !op.Arrive? && !op.StoreMessage? && !op.Compact? && !op.Hold? && !op.LetGo? && !op.TakeOver? && op.k == k
    ensures CtxOk(OnClient(Pair(w.st, w.ctxs[k]), w.lim, op).c)
  {
    hide Weigh, DeleteOutgoing, OnAck, OnPubrec, ReleaseIncoming, Write, ReconnectReset, DeleteAll, AclPurge, Insert;
    var p := Pair(w.st, w.ctxs[k]);
    match op
    case InsertFor(_, mid, dir, qos, retain, s) =>
      InsertCounters(p, w.lim, mid, dir, qos, retain, s);
    case Acked(_, mid, qos) =>
      OnAckCounters(p, mid, qos);
    case RecOk(_, mid, net) =>
      OnPubrecCounters(p, mid, net);
    case RecError(_, mid) =>
      DeleteOutgoingCounters(p, mid, WaitForPubrec, 2);
    case Rel(_, mid, routes, net) =>
      ReleaseIncomingOk(p, mid, routes, net);
    case WriteTo(_, expired, net) =>
      WriteOk(p, expired, net);
    case Reset(_) =>
      ReconnectResetCounters(p, w.lim);
    case DeleteFor(_) =>
      DeleteAllCounters(p);
    case CheckAcl(_, denied) =>
      AclPurgeCounters(p, denied);
    case TakeReceiveQuota(_) =>
      QuotaOk(p.c.msgsIn, QuotaTaken(p.c.msgsIn).quota);
    case GiveReceiveQuota(_) =>
      QuotaOk(p.c.msgsIn, QuotaGiven(p.c.msgsIn).quota);
    case Disconnect(_) =>
    case Reply(_, _, _) =>
  }

  lemma NothingPlusNothing(a: Tally, b: Tally)
    requires a == b == Tally(0, 0, 0, 0)
    ensures Plus(a, b) == Tally(0, 0, 0, 0)
  {
  }

  lemma EmptyOk(d: MsgData)
    requires d.inflight == [] && d.queued == [] && Counters(d) == Tally(0, 0, 0, 0)
    ensures CountersOk(d)
  {
    hide Weigh, Plus;
    WeighNil();
    NothingPlusNothing(Weigh(d.inflight), Weigh(d.queued));
  }

  lemma NoMessagesOk(maximum: Word)
    ensures CountersOk(NoMessages(maximum)) && FlowOk(NoMessages(maximum))
  {
    hide Weigh, CountersOk;
    WeighNil();
    EmptyOk(NoMessages(maximum));
  }

  lemma ApplyKeepsCounters(w: World, op: Op)
    requires AllCountersOk(w) && CounterSafe(w, op)
    ensures AllCountersOk(Apply(w, op))
  {
    hide CtxOk, OnClient;
    if Enabled(w, op) {
      match op
      case Arrive(id, v5, maximumQos, lazyBridge, maximumIn, maximumOut) =>
        NewContextOk(id, v5, maximumQos, lazyBridge, maximumIn, maximumOut);
      case StoreMessage(_, _, _, _) =>
      case Hold(_) =>
      case LetGo(_) =>
      case Compact =>
      case TakeOver(found, k) =>
        TakeoverCounters(w.st, w.ctxs[found], w.ctxs[k], w.lim);
      case _ =>
        OnClientCounters(w, op.k, op);
    }
  }

  lemma NewContextOk(id: Option<string>, v5: bool, maximumQos: AnyQos, lazyBridge: bool, maximumIn: Word, maximumOut: Word)
    ensures CtxOk(NewCtx(id, v5, maximumQos, lazyBridge, maximumIn, maximumOut))
  {
    NoMessagesOk(maximumIn);
    NoMessagesOk(maximumOut);
  }

  lemma TakeoverCounters(st: Store, found: Ctx, c: Ctx, lim: Limits)
    requires CtxOk(found) && CtxOk(c)
    ensures var (st', found', c') := Takeover(st, found, c, lim); CtxOk(found') && CtxOk(c')
  {
    hide CountersOk, ReconnectReset;
    NoMessagesOk(0);
    ReconnectResetCounters(Pair(st, c.(msgsIn := found.msgsIn, msgsOut := found.msgsOut)), lim);
  }

  lemma {:induction false} RunKeepsCounters(w: World, ops: seq<Op>)
    requires AllCountersOk(w) && CounterSafeRun(w, ops)
    ensures AllCountersOk(Run(w, ops))
    decreases |ops|
  {
    hide AllCountersOk, CounterSafe, Apply;
    if ops != [] {
      ApplyKeepsCounters(w, ops[0]);
      RunKeepsCounters(Apply(w, ops[0]), ops[1..]);
    }
  }

  /** msg_count, msg_bytes and their QoS > 0 versions are the lengths and payload sums over in-flight plus queued
      messages after any run in which inserts and access checks are safe. */
  lemma CountersConserved(lim: Limits, ops: seq<Op>)
    requires CounterSafeRun(Start(lim), ops)
    ensures AllCountersOk(Run(Start(lim), ops))
  {
    RunKeepsCounters(Start(lim), ops);
  }

  // ---------------------------------------------------------------------------------------------
  // Flow control
  // ---------------------------------------------------------------------------------------------

  /** Client k acknowledges only what is outstanding, and reconnects only where the bound survives that. */
  ghost predicate FlowSafe(w: World, op: Op, k: nat) {
    match op
    case Acked(j, mid, qos) =>
      j == k && k < |w.ctxs| ==> qos > 0 && Outstanding(w.ctxs[k].msgsOut, mid, WaitForPubcomp, qos)
    case Reset(j) =>
      j == k && k < |w.ctxs| ==> FlowSurvives(w.ctxs[k].msgsOut, w.lim)
    case TakeOver(found, j) =>
      j == k && Enabled(w, op) && HasMessages(w.ctxs[found]) ==> FlowSurvives(w.ctxs[found].msgsOut, w.lim)
    case _ => true
  }

  ghost predicate FlowSafeRun(w: World, ops: seq<Op>, k: nat)
    decreases |ops|
  {
    ops == [] || (FlowSafe(w, ops[0], k) && FlowSafeRun(Apply(w, ops[0]), ops[1..], k))
  }

  lemma {:induction false} PurgeListLightens(u: Purge, i: nat, denied: Expiry)
    ensures Weigh(PurgeList(u, i, denied).msgs).n12 <= Weigh(u.msgs).n12
    decreases |u.msgs| - i
  {
    hide Weigh;
    if i < |u.msgs| {
      if denied(u.msgs[i].store) {
        WeighWithout(u.msgs, i);
        PurgeListLightens(Purge(RefDec(u.st, u.msgs[i].store), Without(u.msgs, i)), i, denied);
      } else {
        PurgeListLightens(u, i + 1, denied);
      }
    }
  }

  lemma AclPurgeFlow(p: Pair, denied: Expiry)
    requires FlowOk(p.c.msgsOut)
    ensures FlowOk(AclPurge(p, denied).c.msgsOut)
  {
    hide Weigh, PurgeList;
    PurgeListLightens(Purge(p.st, p.c.msgsOut.inflight), 0, denied);
  }

  lemma DeleteAllFlow(p: Pair)
    requires FlowOk(p.c.msgsOut)
    ensures FlowOk(DeleteAll(p).c.msgsOut)
  {
    hide RefDecAll, Weigh;
    WeighNil();
  }

  lemma ReconnectResetFlow(p: Pair, lim: Limits)
    requires FlowSurvives(p.c.msgsOut, lim)
    ensures FlowOk(ReconnectReset(p, lim).c.msgsOut)
  {
    hide Weigh, FlowOk, FlowSurvives, ResetOutgoing;
    ReconnectFlow(p.c, lim);
    WeighNil();
    var q := p.(c := ResetOutgoing(p.c, lim));
    ResetInInflightCounts(q.(c := q.c.(msgsIn := Refilled(q.c.msgsIn))), 0);
  }

  lemma OnClientFlow(w: World, k: nat, op: Op)
    requires k < |w.ctxs| && FlowOk(w.ctxs[k].msgsOut) && FlowSafe(w, op, k)
    requires !op.Arrive? && !op.StoreMessage? && !op.Compact? && !op.Hold? && !op.LetGo? && !op.TakeOver? && op.k == k
    ensures FlowOk(OnClient(Pair(w.st, w.ctxs[k]), w.lim, op).c.msgsOut)
  {
    hide Weigh, FlowOk, FlowSurvives, DeleteOutgoing, OnPubrec, ReleaseIncoming, Write, ReconnectReset, DeleteAll, AclPurge, Insert;
    var p := Pair(w.st, w.ctxs[k]);
    match op
    case InsertFor(_, mid, dir, qos, retain, s) =>
      InsertFlow(p, w.lim, mid, dir, qos, retain, s);
    case Acked(_, mid, qos) =>
      AckFlow(p, mid, qos);
    case RecOk(_, mid, net) =>
      OnPubrecCounters(p, mid, net);
    case RecError(_, mid) =>
      PubrecErrorFlow(p, mid);
    case Rel(_, mid, routes, net) =>
      ReleaseIncomingOk(p, mid, routes, net);
    case WriteTo(_, expired, net) =>
      WriteOk(p, expired, net);
    case Reset(_) =>
      ReconnectResetFlow(p, w.lim);
    case DeleteFor(_) =>
      DeleteAllFlow(p);
    case CheckAcl(_, denied) =>
      AclPurgeFlow(p, denied);
    case TakeReceiveQuota(_) =>
    case GiveReceiveQuota(_) =>
    case Disconnect(_) =>
    case Reply(_, _, _) =>
  }

  lemma TakeoverFlow(st: Store, found: Ctx, c: Ctx, lim: Limits)
    requires FlowOk(found.msgsOut)
    ensures FlowOk(Takeover(st, found, c, lim).1.msgsOut)
  {
    hide FlowOk, CountersOk, ReconnectReset;
    NoMessagesOk(0);
  }

  lemma TakeoverFlowOn(st: Store, found: Ctx, c: Ctx, lim: Limits)
    requires FlowOk(c.msgsOut) && (HasMessages(found) ==> FlowSurvives(found.msgsOut, lim))
    ensures FlowOk(Takeover(st, found, c, lim).2.msgsOut)
  {
    hide FlowOk, FlowSurvives, ReconnectReset;
    if HasMessages(found) {
      ReconnectResetFlow(Pair(st, c.(msgsIn := found.msgsIn, msgsOut := found.msgsOut)), lim);
    }
  }

  lemma ApplyKeepsFlow(w: World, op: Op, k: nat)
    requires k < |w.ctxs| && FlowOk(w.ctxs[k].msgsOut) && FlowSafe(w, op, k)
    ensures k < |Apply(w, op).ctxs| && FlowOk(Apply(w, op).ctxs[k].msgsOut)
  {
    hide FlowOk, FlowSurvives, OnClient, Takeover;
    if Enabled(w, op) {
      match op
      case Arrive(_, _, _, _, _, _) =>
      case StoreMessage(_, _, _, _) =>
      case Hold(_) =>
      case LetGo(_) =>
      case Compact =>
      case TakeOver(found, j) =>
        if found == k {
          TakeoverFlow(w.st, w.ctxs[found], w.ctxs[j], w.lim);
        } else if j == k {
          TakeoverFlowOn(w.st, w.ctxs[found], w.ctxs[j], w.lim);
        }
      case _ =>
        if op.k == k {
          OnClientFlow(w, k, op);
        }
    }
  }

  /** From any state in which the bound holds, such as a new connection with a clean session, it holds to the end of
      the run, reconnects included, and so no more than inflight_maximum QoS > 0 messages are ever in flight. */
  lemma {:induction false} FlowControlled(w: World, ops: seq<Op>, k: nat)
    requires k < |w.ctxs| && FlowOk(w.ctxs[k].msgsOut) && FlowSafeRun(w, ops, k)
    ensures var r := Run(w, ops);
      && k < |r.ctxs| && FlowOk(r.ctxs[k].msgsOut)
      && var d := r.ctxs[k].msgsOut; (d.maximum > 0 ==> Weigh(d.inflight).n12 <= d.maximum)
    decreases |ops|
  {
    hide Apply, FlowSafe, Weigh;
    if ops != [] {
      ApplyKeepsFlow(w, ops[0], k);
      FlowControlled(Apply(w, ops[0]), ops[1..], k);
    }
  }

  // ---------------------------------------------------------------------------------------------
  // Overlap suppression
  // ---------------------------------------------------------------------------------------------

  datatype Delivery = Delivery(id: string, pre5: bool)

  /** Whether this operation lists the stored message for a client, other than as a stale retained message. */
  function Delivered(w: World, op: Op, s: Message): seq<Delivery> {
    if op.InsertFor? && Enabled(w, op) && op.s == s && op.dir == Out && !op.retain
       && InsertVerdict(Pair(w.st, w.ctxs[op.k]), w.lim, Out, op.qos, false, s).Listed?
    then [Delivery(w.ctxs[op.k].id.value, !w.ctxs[op.k].v5)]
    else []
  }

  function Deliveries(w: World, ops: seq<Op>, s: Message): seq<Delivery>
    decreases |ops|
  {
    if ops == [] then [] else Delivered(w, ops[0], s) + Deliveries(Apply(w, ops[0]), ops[1..], s)
  }

  function DeliveredTo(log: seq<Delivery>): (r: seq<string>)
    ensures |r| == |log|
  {
    seq(|log|, i requires 0 <= i < |log| => log[i].id)
  }

  /** A client below MQTT 5 gets the message only if no client with its identifier got it before. */
  predicate NoOverlap(log: seq<Delivery>) {
    forall i, j :: 0 <= i < j < |log| && log[j].pre5 ==> log[i].id != log[j].id
  }

  /** dest_ids holds exactly the identifiers delivered to so far. */
  ghost predicate Recorded(w: World, s: Message, log: seq<Delivery>) {
    && (s in w.st.entries ==> DestIds(w.st, s) == DeliveredTo(log))
    && (s.dbId > w.st.lastId ==> log == [])
    && NoOverlap(log)
  }

  lemma DeliverOne(w: World, op: Op, s: Message, log: seq<Delivery>)
    requires !w.lim.allowDuplicates && Recorded(w, s, log) && Enabled(w, op) && op.InsertFor?
    ensures s in w.st.entries && s.dbId <= w.st.lastId ==> Recorded(Apply(w, op), s, log + Delivered(w, op, s))
    ensures s !in w.st.entries ==> Recorded(Apply(w, op), s, log + Delivered(w, op, s))
  {
    hide ReadyForFlight, ReadyForQueue, Inserted;
    var log' := log + Delivered(w, op, s);
    var p := Pair(w.st, w.ctxs[op.k]);
    var v := InsertVerdict(p, w.lim, op.dir, op.qos, op.retain, op.s);
    if Delivered(w, op, s) != [] {
      var one := Delivered(w, op, s)[0];
      assert DeliveredTo(log') == DeliveredTo(log) + [one.id];
      if one.pre5 {
        assert one.id !in DestIds(w.st, s);
        forall i | 0 <= i < |log|
          ensures log[i].id != one.id
        {
          assert DeliveredTo(log)[i] == log[i].id;
        }
      }
      assert NoOverlap(log');
    } else {
      assert log' == log;
    }
  }

  lemma ShrinkKeepsRecord(a: World, b: World, s: Message, log: seq<Delivery>)
    requires Recorded(a, s, log) && BrokerRefs.Shrinks(a.st, b.st)
    ensures Recorded(b, s, log)
  {
  }

  lemma ApplyKeepsRecord(w: World, op: Op, s: Message, log: seq<Delivery>)
    requires !w.lim.allowDuplicates && RefsOk(w) && Recorded(w, s, log)
    ensures Recorded(Apply(w, op), s, log + Delivered(w, op, s))
    ensures Apply(w, op).lim == w.lim
  {
    hide OnClient, Takeover, Recorded, BrokerRefs.Shrinks, AllRefs;
    assert log + [] == log;
    if Enabled(w, op) {
      match op
      case Arrive(_, _, _, _, _, _) =>
        SameStoreKeepsRecord(w, Apply(w, op), s, log);
      case StoreMessage(payloadLen, qos, sourceMid, content) =>
        StoreKeepsRecord(w, op, s, log);
      case Hold(x) =>
        RefIncKeepsRecord(w, Apply(w, op), x, s, log);
      case LetGo(x) =>
        RefDecShrinks(w.st, x);
        ShrinkKeepsRecord(w, Apply(w, op), s, log);
      case TakeOver(found, k) =>
        TakeOverRefs(w, found, k);
        ShrinkKeepsRecord(w, Apply(w, op), s, log);
      case Compact =>
        BrokerRefs.CompactedGood(w.st, w.st.order, w.held + AllRefs(w.ctxs));
        ShrinkKeepsRecord(w, Apply(w, op), s, log);
      case InsertFor(k, _, _, _, _, _) =>
        DeliverOne(w, op, s, log);
      case _ =>
        OnClientKeeps(Pair(w.st, w.ctxs[op.k]), w.lim, op);
        ShrinkKeepsRecord(w, Apply(w, op), s, log);
    } else {
      SameStoreKeepsRecord(w, Apply(w, op), s, log);
    }
  }

  lemma SameStoreKeepsRecord(a: World, b: World, s: Message, log: seq<Delivery>)
    requires Recorded(a, s, log) && a.st == b.st
    ensures Recorded(b, s, log)
  {
  }

  lemma StoreKeepsRecord(w: World, op: Op, s: Message, log: seq<Delivery>)
    requires RefsOk(w) && Recorded(w, s, log) && op.StoreMessage?
    ensures Recorded(Apply(w, op), s, log)
  {
    hide AllRefs;
  }

  lemma RefIncKeepsRecord(a: World, b: World, x: Message, s: Message, log: seq<Delivery>)
    requires Recorded(a, s, log) && b.st == RefInc(a.st, x)
    ensures Recorded(b, s, log)
  {
  }

  lemma RefDecShrinks(st: Store, x: Message)
    ensures BrokerRefs.Shrinks(st, RefDec(st, x))
  {
  }

  lemma {:induction false} RunKeepsRecord(w: World, ops: seq<Op>, s: Message, log: seq<Delivery>)
    requires !w.lim.allowDuplicates && RefsOk(w) && Recorded(w, s, log)
    ensures Recorded(Run(w, ops), s, log + Deliveries(w, ops, s))
    decreases |ops|
  {
    hide Apply, RefsOk, Recorded, Delivered;
    if ops == [] {
      assert log + [] == log;
    } else {
      ApplyKeepsRecord(w, ops[0], s, log);
      ApplyKeepsRefs(w, ops[0]);
      RunKeepsRecord(Apply(w, ops[0]), ops[1..], s, log + Delivered(w, ops[0], s));
      assert log + Deliveries(w, ops, s) == log + Delivered(w, ops[0], s) + Deliveries(Apply(w, ops[0]), ops[1..], s);
    }
  }

  /** With allow_duplicate_messages off, over any run, a client below MQTT 5 is given a stored message only if no
      client of that identifier has been given it before, and dest_ids is the list of those given it. */
  lemma OverlapSuppressed(lim: Limits, ops: seq<Op>, s: Message)
    requires !lim.allowDuplicates
    ensures var w, log := Run(Start(lim), ops), Deliveries(Start(lim), ops, s);
      NoOverlap(log) && (s in w.st.entries ==> DestIds(w.st, s) == DeliveredTo(log))
  {
    ReferencesConserved(lim, []);
    RunKeepsRecord(Start(lim), ops, s, []);
    assert [] + Deliveries(Start(lim), ops, s) == Deliveries(Start(lim), ops, s);
  }
}
