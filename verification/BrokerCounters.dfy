/** The per-client counters and the flow-control bound of src/database.c. */
module BrokerCounters {
  import opened MosqTypes
  import opened BrokerDb

  /** Number of messages, payload sum, and both again for QoS > 0 only. */
  datatype Tally = Tally(n: int, bytes: int, n12: int, bytes12: int)

  function Plus(a: Tally, b: Tally): Tally {
    Tally(a.n + b.n, a.bytes + b.bytes, a.n12 + b.n12, a.bytes12 + b.bytes12)
  }

  function One(m: ClientMsg): Tally {
    var len := m.store.payloadLen;
    if m.qos > 0 then Tally(1, len, 1, len) else Tally(1, len, 0, 0)
  }

  function Weigh(msgs: seq<ClientMsg>): (t: Tally)
    ensures t.n == |msgs| && 0 <= t.n12 <= t.n
  {
    if msgs == [] then Tally(0, 0, 0, 0) else Plus(One(msgs[0]), Weigh(msgs[1..]))
  }

  function Counters(d: MsgData): Tally {
    Tally(d.msgCount, d.msgBytes, d.msgCount12, d.msgBytes12)
  }

  /** The counters are those of the messages in flight plus those queued. */
  predicate CountersOk(d: MsgData) {
    Counters(d) == Plus(Weigh(d.inflight), Weigh(d.queued))
  }

  predicate CtxOk(c: Ctx) {
    CountersOk(c.msgsIn) && CountersOk(c.msgsOut)
  }

  lemma DataOk(c: Ctx, dir: Direction)
    requires CtxOk(c)
    ensures CountersOk(Data(c, dir))
  {
    hide CountersOk;
  }

  /** In-flight QoS > 0 messages plus the quota stay within inflight_maximum (0 means no limit). */
  predicate FlowOk(d: MsgData) {
    0 <= d.quota && (d.maximum > 0 ==> Weigh(d.inflight).n12 + d.quota <= d.maximum)
  }

  // ---------------------------------------------------------------------------------------------
  // Lists
  // ---------------------------------------------------------------------------------------------

  lemma WeighNil()
    ensures Weigh([]) == Tally(0, 0, 0, 0)
  {
  }

  lemma WeighCons(m: ClientMsg, b: seq<ClientMsg>)
    ensures Weigh([m] + b) == Plus(One(m), Weigh(b))
  {
  }

  lemma {:induction false} WeighAppend(a: seq<ClientMsg>, b: seq<ClientMsg>)
    ensures Weigh(a + b) == Plus(Weigh(a), Weigh(b))
  {
    hide Weigh;
    if a == [] {
      assert a + b == b;
      WeighNil();
    } else {
      WeighAppend(a[1..], b);
      WeighCons(a[0], a[1..]);
      WeighCons(a[0], a[1..] + b);
      assert a == [a[0]] + a[1..] && a + b == [a[0]] + (a[1..] + b);
    }
  }

  lemma WeighSnoc(a: seq<ClientMsg>, m: ClientMsg)
    ensures Weigh(a + [m]) == Plus(Weigh(a), One(m))
  {
    WeighAppend(a, [m]);
  }

  lemma WeighSplit(a: seq<ClientMsg>, i: nat)
    requires i < |a|
    ensures Weigh(a) == Plus(Plus(Weigh(a[..i]), One(a[i])), Weigh(a[i + 1..]))
  {
    assert a == a[..i] + a[i..];
    WeighAppend(a[..i], a[i..]);
    assert a[i..][1..] == a[i + 1..];
  }

  lemma WeighWithout(a: seq<ClientMsg>, i: nat)
    requires i < |a|
    ensures Weigh(a) == Plus(Weigh(Without(a, i)), One(a[i]))
  {
    hide Weigh;
    WeighSplit(a, i);
    WeighAppend(a[..i], a[i + 1..]);
  }

  lemma WeighUpdate(a: seq<ClientMsg>, i: nat, m: ClientMsg)
    requires i < |a| && One(m) == One(a[i])
    ensures Weigh(a[i := m]) == Weigh(a)
  {
    hide Weigh;
    WeighSplit(a, i);
    var b := a[i := m];
    WeighSplit(b, i);
    assert b[..i] == a[..i] && b[i + 1..] == a[i + 1..];
  }

  /** The counters stay right, and so does the bound. */
  ghost predicate StaysOk(d: MsgData, e: MsgData) {
    (CountersOk(d) ==> CountersOk(e)) && (FlowOk(d) ==> FlowOk(e))
  }

  lemma DropOk(d: MsgData, i: nat)
    requires i < |d.inflight|
    ensures StaysOk(d, Drop(d, i))
  {
    hide Weigh;
    WeighWithout(d.inflight, i);
  }

  /** What one promotion adds to the messages in flight. */
  lemma PromoteWeight(d: MsgData, cursor: nat, state: MsgState)
    requires cursor < |d.queued|
    ensures var r := Promote(d, cursor, state);
      && Weigh(r.inflight) == Plus(Weigh(d.inflight), One(d.queued[0]))
      && Weigh(d.queued) == Plus(One(d.queued[0]), Weigh(r.queued))
  {
    var e := SetQueuedState(d, cursor, state);
    WeighUpdate(d.queued, cursor, e.queued[cursor]);
    WeighSnoc(e.inflight, e.queued[0]);
  }

  lemma PromoteOk(d: MsgData, cursor: nat, state: MsgState)
    requires cursor < |d.queued|
    ensures CountersOk(d) ==> CountersOk(Promote(d, cursor, state))
    ensures FlowOk(d) && d.quota > 0 ==> FlowOk(Promote(d, cursor, state))
  {
    PromoteWeight(d, cursor, state);
  }

  /** The head of the queue is now last in flight: the line of both lists is as it was, the counters stay right, and so
      does the bound if there was quota. */
  ghost predicate HeadMoved(d: MsgData, e: MsgData) {
    && e.inflight + e.queued == d.inflight + d.queued && |e.inflight| == |d.inflight| + 1
    && (CountersOk(d) ==> CountersOk(e)) && (FlowOk(d) && d.quota > 0 ==> FlowOk(e))
  }

  lemma DequeueFirstMoves(d: MsgData)
    requires d.queued != []
    ensures HeadMoved(d, DequeueFirst(d))
  {
    hide CountersOk, FlowOk;
    assert d.queued[0 := d.queued[0].(state := d.queued[0].state)] == d.queued;
    PromoteOk(d, 0, d.queued[0].state);
  }

  lemma StateOk(d: MsgData, i: nat, m: ClientMsg)
    requires i < |d.inflight| && One(m) == One(d.inflight[i])
    ensures var r := d.(inflight := d.inflight[i := m]);
      CountersOk(r) == CountersOk(d) && FlowOk(r) == FlowOk(d)
  {
    WeighUpdate(d.inflight, i, m);
  }

  // ---------------------------------------------------------------------------------------------
  // db__message_insert
  // ---------------------------------------------------------------------------------------------

  /** Listing a message keeps the counters right exactly when its QoS is not brought down to 0: the counters go by
      the QoS asked for, db__message_remove by the QoS granted. */
  lemma InsertedCounters(d: MsgData, dir: Direction, m: ClientMsg, qos: AnyQos)
    requires CountersOk(d) && m.qos <= qos
    ensures CountersOk(Inserted(d, dir, m, qos)) <==> !(qos > 0 && m.qos == 0)
  {
    hide Weigh;
    WeighSnoc(d.inflight, m);
    WeighSnoc(d.queued, m);
  }

  lemma InsertCounters(p: Pair, lim: Limits, mid: Word, dir: Direction, qos: AnyQos, retain: bool, s: Message)
    requires CtxOk(p.c)
    ensures var r := Insert(p, lim, mid, dir, qos, retain, s).0;
      CtxOk(r.c) <==> !(qos > 0 && p.c.maximumQos == 0 && InsertVerdict(p, lim, dir, qos, retain, s).Listed?)
  {
    hide Weigh;
    var v := InsertVerdict(p, lim, dir, qos, retain, s);
    if v.Listed? {
      InsertedCounters(Data(p.c, dir), dir, NewClientMsg(p.c, mid, qos, v.state, retain, s), qos);
    }
  }

  /** An insert never breaks the flow-control bound, even where it takes quota for a message it only queues. */
  lemma InsertFlow(p: Pair, lim: Limits, mid: Word, dir: Direction, qos: AnyQos, retain: bool, s: Message)
    requires FlowOk(p.c.msgsOut)
    ensures FlowOk(Insert(p, lim, mid, dir, qos, retain, s).0.c.msgsOut)
  {
    var v := InsertVerdict(p, lim, dir, qos, retain, s);
    if v.Listed? {
      WeighSnoc(p.c.msgsOut.inflight, NewClientMsg(p.c, mid, qos, v.state, retain, s));
    }
  }

  // ---------------------------------------------------------------------------------------------
  // db__message_delete_outgoing and the acknowledgement that leads to it
  // ---------------------------------------------------------------------------------------------

  lemma {:induction false} DeleteMatchingOk(p: Pair, i: nat, mid: Word, wanted: MsgState, qos: AnyQos)
    ensures var d, r := p.c.msgsOut, DeleteMatching(p, i, mid, wanted, qos).p.c.msgsOut;
      && (CountersOk(d) ==> CountersOk(r))
      && r.quota == d.quota && r.maximum == d.maximum && r.queued == d.queued
      && |r.inflight| <= |d.inflight| && Weigh(r.inflight).n12 <= Weigh(d.inflight).n12
      && (qos > 0 && |r.inflight| < |d.inflight| ==> Weigh(r.inflight).n12 < Weigh(d.inflight).n12)
    ensures DeleteMatching(p, i, mid, wanted, qos).p.c.msgsIn == p.c.msgsIn
    decreases |p.c.msgsOut.inflight| - i
  {
    hide Weigh;
    if i < |p.c.msgsOut.inflight| {
      var m := p.c.msgsOut.inflight[i];
      if m.mid != mid {
        DeleteMatchingOk(p, i + 1, mid, wanted, qos);
      } else if !(m.qos != qos || (qos == 2 && m.state != wanted)) {
        DropOk(p.c.msgsOut, i);
        WeighWithout(p.c.msgsOut.inflight, i);
        DeleteMatchingOk(Remove(p, Out, i), i, mid, wanted, qos);
      }
    }
  }

  /** Promotion goes by the number of messages in flight and not by the quota; the bound holds all the same. */
  lemma {:induction false} PromoteUpToOk(d: MsgData, cursor: nat)
    ensures CountersOk(d) ==> CountersOk(PromoteUpTo(d, cursor, |d.inflight|))
    ensures FlowOk(d) ==> FlowOk(PromoteUpTo(d, cursor, |d.inflight|))
    decreases |d.queued| - cursor
  {
    hide CountersOk, FlowOk;
    var index := |d.inflight|;
    if cursor < |d.queued| && !(d.maximum != 0 && index >= d.maximum) {
      var state := PublishState(d.queued[cursor].qos);
      PromoteOk(d, cursor, state);
      PromoteWithRoom(d, cursor, state);
      PromoteUpToOk(Promote(d, cursor, state), cursor);
    }
  }

  lemma PromoteWithRoom(d: MsgData, cursor: nat, state: MsgState)
    requires cursor < |d.queued| && (d.maximum != 0 ==> |d.inflight| < d.maximum)
    ensures FlowOk(d) ==> FlowOk(Promote(d, cursor, state))
  {
    hide Weigh;
    PromoteWeight(d, cursor, state);
  }

  lemma DeleteOutgoingCounters(p: Pair, mid: Word, wanted: MsgState, qos: AnyQos)
    requires CtxOk(p.c)
    ensures CtxOk(DeleteOutgoing(p, mid, wanted, qos).p.c)
  {
    hide Weigh;
    DeleteMatchingOk(p, 0, mid, wanted, qos);
    PromoteUpToOk(DeleteMatching(p, 0, mid, wanted, qos).p.c.msgsOut, 0);
  }

  /** The identifier acknowledges messages in flight, and only such as fit. */
  predicate Outstanding(d: MsgData, mid: Word, wanted: MsgState, qos: AnyQos) {
    && (exists i :: 0 <= i < |d.inflight| && d.inflight[i].mid == mid)
    && (forall i :: 0 <= i < |d.inflight| && d.inflight[i].mid == mid ==>
          d.inflight[i].qos == qos && (qos == 2 ==> d.inflight[i].state == wanted))
  }

  lemma {:induction false} OutstandingGoes(p: Pair, i: nat, mid: Word, wanted: MsgState, qos: AnyQos)
    requires forall j :: i <= j < |p.c.msgsOut.inflight| && p.c.msgsOut.inflight[j].mid == mid ==>
      p.c.msgsOut.inflight[j].qos == qos && (qos == 2 ==> p.c.msgsOut.inflight[j].state == wanted)
    ensures var r := DeleteMatching(p, i, mid, wanted, qos);
      && r.rc == Success && |r.p.c.msgsOut.inflight| <= |p.c.msgsOut.inflight|
      && ((exists j :: i <= j < |p.c.msgsOut.inflight| && p.c.msgsOut.inflight[j].mid == mid) ==>
            |r.p.c.msgsOut.inflight| < |p.c.msgsOut.inflight|)
    decreases |p.c.msgsOut.inflight| - i
  {
    if i < |p.c.msgsOut.inflight| {
      if p.c.msgsOut.inflight[i].mid != mid {
        OutstandingGoes(p, i + 1, mid, wanted, qos);
      } else {
        OutstandingGoes(Remove(p, Out, i), i, mid, wanted, qos);
      }
    }
  }

  lemma AckFlow(p: Pair, mid: Word, qos: AnyQos)
    requires FlowOk(p.c.msgsOut) && qos > 0 && Outstanding(p.c.msgsOut, mid, WaitForPubcomp, qos)
    ensures OnAck(p, mid, qos).rc == Success
    ensures FlowOk(OnAck(p, mid, qos).p.c.msgsOut)
  {
    hide Weigh;
    var d := p.c.msgsOut;
    var grown := p.(c := p.c.(msgsOut := d.(quota := Incremented(d.quota, d.maximum))));
    var r := DeleteMatching(grown, 0, mid, WaitForPubcomp, qos);
    OutstandingGoes(grown, 0, mid, WaitForPubcomp, qos);
    DeleteMatchingOk(grown, 0, mid, WaitForPubcomp, qos);
    assert FlowOk(r.p.c.msgsOut);
    PromoteUpToOk(r.p.c.msgsOut, 0);
  }

  lemma PubrecErrorFlow(p: Pair, mid: Word)
    requires FlowOk(p.c.msgsOut)
    ensures FlowOk(OnPubrecError(p, mid).p.c.msgsOut)
  {
    hide Weigh;
    DeleteMatchingOk(p, 0, mid, WaitForPubrec, 2);
    PromoteUpToOk(DeleteMatching(p, 0, mid, WaitForPubrec, 2).p.c.msgsOut, 0);
  }

  lemma UpdateOutgoingOk(p: Pair, mid: Word, state: MsgState, qos: AnyQos)
    ensures var r := UpdateOutgoing(p, mid, state, qos).p.c;
      && r.msgsIn == p.c.msgsIn
      && CountersOk(r.msgsOut) == CountersOk(p.c.msgsOut) && FlowOk(r.msgsOut) == FlowOk(p.c.msgsOut)
  {
    var d := p.c.msgsOut;
    var k := Find(d.inflight, mid);
    if k < |d.inflight| {
      StateOk(d, k, d.inflight[k].(state := state));
    }
  }

  // ---------------------------------------------------------------------------------------------
  // db__message_write
  // ---------------------------------------------------------------------------------------------

  lemma QuotaOk(d: MsgData, quota: int)
    ensures CountersOk(d.(quota := quota)) == CountersOk(d)
  {
    hide Weigh;
  }

  lemma {:induction false} WriteInOk(p: Pair, i: nat, expired: Expiry, net: Net)
    ensures var r := WriteIn(p, i, expired, net).p.c;
      r.msgsOut == p.c.msgsOut && (CountersOk(p.c.msgsIn) ==> CountersOk(r.msgsIn))
    decreases |p.c.msgsIn.inflight| - i
  {
    hide CountersOk;
    if i < |p.c.msgsIn.inflight| {
      var m := p.c.msgsIn.inflight[i];
      if expired(m.store) {
        DropOk(p.c.msgsIn, i);
        WriteInOk(Remove(p, In, i), i, expired, net);
      } else if m.state == SendPubrec || m.state == ResendPubcomp {
        var c := if m.state == SendPubrec then SentTo(p.c, Pubrec(m.mid), net) else PubcompSent(p.c, m.mid, net);
        QuotaOk(p.c.msgsIn, c.msgsIn.quota);
        StateOk(c.msgsIn, i, m.(state := WaitForPubrel));
        WriteInOk(p.(c := c.(msgsIn := SetInflightState(c.msgsIn, i, WaitForPubrel))), i + 1, expired, net);
      } else {
        WriteInOk(p, i + 1, expired, net);
      }
    }
  }

  lemma {:induction false} WriteOutOk(p: Pair, i: nat, expired: Expiry, net: Net)
    ensures var r := WriteOut(p, i, expired, net).p.c;
      && r.msgsIn == p.c.msgsIn
      && (CountersOk(p.c.msgsOut) ==> CountersOk(r.msgsOut)) && (FlowOk(p.c.msgsOut) ==> FlowOk(r.msgsOut))
    decreases |p.c.msgsOut.inflight| - i
  {
    hide CountersOk, FlowOk;
    if i < |p.c.msgsOut.inflight| {
      var m := p.c.msgsOut.inflight[i];
      var due := DueOut(m);
      if expired(m.store) {
        DropOk(p.c.msgsOut, i);
        WriteOutOk(Remove(p, Out, i), i, expired, net);
      } else if due.None? {
        WriteOutOk(p, i + 1, expired, net);
      } else {
        var q := p.(c := SentTo(p.c, due.value, net));
        var d := q.c.msgsOut;
        DropOk(d, i);
        StateOk(d, i, AfterSend(m));
        if net(due.value) == Success && m.state != PublishQos0 {
          WriteOutOk(q.(c := q.c.(msgsOut := d.(inflight := d.inflight[i := AfterSend(m)]))), i + 1, expired, net);
        } else {
          WriteOutOk(Remove(q, Out, i), i, expired, net);
        }
      }
    }
  }

  lemma QueuedStateOk(d: MsgData, k: nat, state: MsgState)
    requires k < |d.queued|
    ensures CountersOk(SetQueuedState(d, k, state)) == CountersOk(d)
  {
    hide Weigh;
    WeighUpdate(d.queued, k, d.queued[k].(state := state));
  }

  lemma {:induction false} WriteInQueuedOk(c: Ctx, cursor: nat, net: Net)
    ensures var r := WriteInQueued(c, cursor, net).0;
      r.msgsOut == c.msgsOut && (CountersOk(c.msgsIn) ==> CountersOk(r.msgsIn))
    decreases |c.msgsIn.queued| - cursor
  {
    hide CountersOk;
    if cursor < |c.msgsIn.queued| && !(c.msgsOut.maximum != 0 && c.msgsIn.quota == 0) {
      var m := c.msgsIn.queued[cursor];
      if m.qos != 2 {
        WriteInQueuedOk(c, cursor + 1, net);
      } else {
        PromoteOk(c.msgsIn, cursor, SendPubrec);
        var c1 := SentTo(c.(msgsIn := Promote(c.msgsIn, cursor, SendPubrec)), Pubrec(m.mid), net);
        var d := c1.msgsIn;
        var last := |d.inflight| - 1;
        if cursor == 0 {
          StateOk(d, last, d.inflight[last].(state := WaitForPubrel));
          WriteInQueuedOk(c1.(msgsIn := SetInflightState(d, last, WaitForPubrel)), cursor, net);
        } else {
          QueuedStateOk(d, cursor - 1, WaitForPubrel);
          WriteInQueuedOk(c1.(msgsIn := SetQueuedState(d, cursor - 1, WaitForPubrel)), cursor, net);
        }
      }
    }
  }

  lemma {:induction false} WriteOutQueuedOk(d: MsgData, cursor: nat)
    ensures CountersOk(d) ==> CountersOk(WriteOutQueued(d, cursor))
    ensures FlowOk(d) ==> FlowOk(WriteOutQueued(d, cursor))
    decreases |d.queued| - cursor
  {
    hide Weigh;
    if cursor < |d.queued| && !(d.maximum != 0 && d.quota == 0) {
      var state := PublishState(d.queued[cursor].qos);
      PromoteOk(d, cursor, state);
      if d.maximum == 0 && d.quota == 0 {
        PromoteWeight(d, cursor, state);
      }
      WriteOutQueuedOk(Promote(d, cursor, state), cursor);
    }
  }

  lemma WriteOk(p: Pair, expired: Expiry, net: Net)
    ensures CtxOk(p.c) ==> CtxOk(Write(p, expired, net).p.c)
    ensures FlowOk(p.c.msgsOut) ==> FlowOk(Write(p, expired, net).p.c.msgsOut)
  {
    hide Weigh;
    var a := WriteIn(p, 0, expired, net);
    WriteInOk(p, 0, expired, net);
    if a.rc == Success {
      var b := WriteOut(a.p, 0, expired, net);
      WriteOutOk(a.p, 0, expired, net);
      if b.rc == Success {
        WriteInQueuedOk(b.p.c, 0, net);
        WriteOutQueuedOk(WriteInQueued(b.p.c, 0, net).0.msgsOut, 0);
      }
    }
  }

  // ---------------------------------------------------------------------------------------------
  // db__message_release_incoming
  // ---------------------------------------------------------------------------------------------

  lemma {:induction false} ReleaseMatchingOk(r: ReleaseRun, i: nat, mid: Word, routes: bool)
    ensures var q := ReleaseMatching(r, i, mid, routes).p.c;
      q.msgsOut == r.p.c.msgsOut && (CountersOk(r.p.c.msgsIn) ==> CountersOk(q.msgsIn))
    decreases |r.p.c.msgsIn.inflight| - i
  {
    hide Weigh;
    if i < |r.p.c.msgsIn.inflight| {
      var m := r.p.c.msgsIn.inflight[i];
      var r1 := r.(index := r.index + 1);
      if m.mid != mid {
        ReleaseMatchingOk(r1, i + 1, mid, routes);
      } else if m.store.qos == 2 && routes {
        DropOk(r.p.c.msgsIn, i);
        var r2 := r1.(p := Remove(r1.p, In, i), deleted := true, routed := r1.routed + [m.store]);
        ReleaseMatchingOk(r2, i, mid, routes);
      }
    }
  }

  lemma {:induction false} ReleaseQueuedOk(c: Ctx, cursor: nat, index: nat, net: Net)
    ensures var r := ReleaseQueued(c, cursor, index, net);
      r.msgsOut == c.msgsOut && (CountersOk(c.msgsIn) ==> CountersOk(r.msgsIn))
    decreases |c.msgsIn.queued| - cursor
  {
    hide Weigh;
    if cursor < |c.msgsIn.queued| && !(c.msgsIn.maximum != 0 && index >= c.msgsIn.maximum) {
      var m := c.msgsIn.queued[cursor];
      if m.qos != 2 {
        ReleaseQueuedOk(c, cursor + 1, index + 1, net);
      } else {
        var c1 := SentTo(c, Pubrec(m.mid), net);
        PromoteOk(c1.msgsIn, cursor, WaitForPubrel);
        ReleaseQueuedOk(c1.(msgsIn := Promote(c1.msgsIn, cursor, WaitForPubrel)), cursor, index + 1, net);
      }
    }
  }

  lemma ReleaseIncomingOk(p: Pair, mid: Word, routes: bool, net: Net)
    ensures var r := ReleaseIncoming(p, mid, routes, net).p.c;
      r.msgsOut == p.c.msgsOut && (CtxOk(p.c) ==> CtxOk(r))
  {
    var r0 := ReleaseRun(p, Success, false, 0, []);
    var r := ReleaseMatching(r0, 0, mid, routes);
    ReleaseMatchingOk(r0, 0, mid, routes);
    ReleaseQueuedOk(r.p.c, 0, r.index, net);
  }

  // ---------------------------------------------------------------------------------------------
  // db__message_reconnect_reset
  // ---------------------------------------------------------------------------------------------

  /** The counters cover the first i messages in flight. */
  predicate CountedUpTo(d: MsgData, i: nat) {
    i <= |d.inflight| && Counters(d) == Weigh(d.inflight[..i])
  }

  lemma CountedNext(d: MsgData, i: nat)
    requires i < |d.inflight| && CountedUpTo(d, i)
    ensures CountedUpTo(Counted(d, d.inflight[i]), i + 1)
  {
    assert d.inflight[..i + 1] == d.inflight[..i] + [d.inflight[i]];
    WeighSnoc(d.inflight[..i], d.inflight[i]);
  }

  lemma {:induction false} ResetOutInflightCounts(c: Ctx, i: nat)
    requires CountedUpTo(c.msgsOut, i)
    ensures var d, r := c.msgsOut, ResetOutInflight(c, i).msgsOut;
      && Counters(r) == Weigh(r.inflight)
      && r.queued == d.queued && r.quota == d.quota && r.maximum == d.maximum
      && Weigh(r.inflight) == Weigh(d.inflight)
    decreases |c.msgsOut.inflight| - i
  {
    var d := c.msgsOut;
    if i < |d.inflight| {
      var m := d.inflight[i];
      CountedNext(d, i);
      var e := SetInflightState(Counted(d, m), i, OutResetState(m));
      WeighUpdate(d.inflight, i, e.inflight[i]);
      assert e.inflight[..i + 1] == d.inflight[..i + 1][i := e.inflight[i]];
      WeighUpdate(d.inflight[..i + 1], i, e.inflight[i]);
      var quotaIn := if m.qos > 0 then Decremented(c.msgsIn.quota) else c.msgsIn.quota;
      ResetOutInflightCounts(c.(msgsOut := e, msgsIn := c.msgsIn.(quota := quotaIn)), i + 1);
    } else {
      assert d.inflight[..i] == d.inflight;
    }
  }

  /** The counters cover what is in flight and the queue up to the cursor. */
  predicate QueueCountedUpTo(d: MsgData, cursor: nat) {
    cursor <= |d.queued| && Counters(d) == Plus(Weigh(d.inflight), Weigh(d.queued[..cursor]))
  }

  lemma QueueCountedNext(d: MsgData, cursor: nat)
    requires cursor < |d.queued| && QueueCountedUpTo(d, cursor)
    ensures QueueCountedUpTo(Counted(d, d.queued[cursor]), cursor + 1)
  {
    hide Weigh;
    assert d.queued[..cursor + 1] == d.queued[..cursor] + [d.queued[cursor]];
    WeighSnoc(d.queued[..cursor], d.queued[cursor]);
  }

  lemma QueueCountedPromote(d: MsgData, cursor: nat, state: MsgState)
    requires cursor < |d.queued| && QueueCountedUpTo(d, cursor + 1)
    ensures QueueCountedUpTo(Promote(d, cursor, state), cursor)
  {
    hide Weigh;
    var front := d.(queued := d.queued[..cursor + 1]);
    PromoteWeight(front, cursor, state);
    var r := Promote(d, cursor, state);
    assert r.queued[..cursor] == Promote(front, cursor, state).queued;
    assert r.inflight == Promote(front, cursor, state).inflight;
  }

  lemma {:induction false} ResetQueueCounts(d: MsgData, lim: Limits, cursor: nat)
    requires QueueCountedUpTo(d, cursor)
    ensures CountersOk(ResetQueue(d, lim, cursor))
    decreases |d.queued| - cursor
  {
    hide Weigh;
    if cursor < |d.queued| {
      var m := d.queued[cursor];
      QueueCountedNext(d, cursor);
      var e := Counted(d, m);
      if ReadyForFlight(e, lim, m.qos) {
        QueueCountedPromote(e, cursor, PublishState(m.qos));
        ResetQueueCounts(Promote(e, cursor, PublishState(m.qos)), lim, cursor);
      } else {
        ResetQueueCounts(e, lim, cursor + 1);
      }
    } else {
      assert d.queued[..cursor] == d.queued;
    }
  }

  lemma {:induction false} ResetInInflightCounts(p: Pair, i: nat)
    requires CountedUpTo(p.c.msgsIn, i)
    ensures var r := ResetInInflight(p, i).c;
      && r.msgsOut == p.c.msgsOut
      && Counters(r.msgsIn) == Weigh(r.msgsIn.inflight) && r.msgsIn.queued == p.c.msgsIn.queued
    decreases |p.c.msgsIn.inflight| - i
  {
    hide Weigh;
    var d := p.c.msgsIn;
    if i < |d.inflight| {
      var m := d.inflight[i];
      CountedNext(d, i);
      var counted := Counted(d, m);
      var e := if m.qos > 0 then counted.(quota := Decremented(counted.quota)) else counted;
      var q := p.(c := p.c.(msgsIn := e));
      if m.qos != 2 {
        assert Without(d.inflight, i)[..i] == d.inflight[..i];
        ResetInInflightCounts(Remove(q, In, i), i);
      } else {
        ResetInInflightCounts(q, i + 1);
      }
    } else {
      assert d.inflight[..i] == d.inflight;
    }
  }

  lemma ResetOutgoingCounters(c: Ctx, lim: Limits)
    ensures CountersOk(ResetOutgoing(c, lim).msgsOut)
  {
    hide Weigh;
    var a := c.(msgsOut := Refilled(c.msgsOut));
    WeighNil();
    ResetOutInflightCounts(a, 0);
    ResetQueueCounts(ResetOutInflight(a, 0).msgsOut, lim, 0);
  }

  /** A reconnect makes the counters right whatever they were before. */
  lemma ReconnectResetCounters(p: Pair, lim: Limits)
    ensures CtxOk(ReconnectReset(p, lim).c)
  {
    hide Weigh;
    WeighNil();
    ResetOutgoingCounters(p.c, lim);
    var q := p.(c := ResetOutgoing(p.c, lim));
    var b := q.(c := q.c.(msgsIn := Refilled(q.c.msgsIn)));
    ResetInInflightCounts(b, 0);
    ResetQueueCounts(ResetInInflight(b, 0).c.msgsIn, lim, 0);
  }

  /** Room in flight: a QoS 0 message needs none; for others inflight_maximum and max_inflight_bytes count as far as they
      are set. */
  predicate HasRoom(d: MsgData, lim: Limits, qos: AnyQos) {
    || qos == 0
    || ((d.maximum == 0 || d.quota > 0) && (lim.maxInflightBytes == 0 || d.msgBytes12 < lim.maxInflightBytes))
  }

  lemma ReadyWithRoom(d: MsgData, lim: Limits, qos: AnyQos)
    ensures ReadyForFlight(d, lim, qos) <==> HasRoom(d, lim, qos)
  {
  }

  /** Whether the queued message at index i fits at a reconnect: the quota has gone down by one for each message before
      it, and the payload of every QoS > 0 message up to and with this one counts against the byte limit. */
  predicate FitsAt(d: MsgData, lim: Limits, i: nat)
    requires i < |d.queued|
  {
    var reached := d.(quota := Max(0, d.quota - i), msgBytes12 := d.msgBytes12 + Weigh(d.queued[..i + 1]).bytes12);
    HasRoom(reached, lim, d.queued[i].qos)
  }

  /** How many of the first n queued messages fit. */
  function Fitting(d: MsgData, lim: Limits, n: nat): (k: nat)
    requires n <= |d.queued|
    ensures k <= n
  {
    if n == 0 then 0 else Fitting(d, lim, n - 1) + if FitsAt(d, lim, n - 1) then 1 else 0
  }

  /** How many QoS 0 messages there are. */
  function Zeros(msgs: seq<ClientMsg>): (k: nat)
    ensures k <= |msgs|
  {
    Weigh(msgs).n - Weigh(msgs).n12
  }

  lemma {:induction false} WeighLike(a: seq<ClientMsg>, b: seq<ClientMsg>)
    requires |a| == |b| && forall i :: 0 <= i < |a| ==> One(a[i]) == One(b[i])
    ensures Weigh(a) == Weigh(b)
  {
    if a != [] {
      WeighLike(a[1..], b[1..]);
    }
  }

  lemma WeighNonnegative(msgs: seq<ClientMsg>)
    ensures 0 <= Weigh(msgs).bytes12
  {
  }

  lemma HeadFits(d: MsgData, lim: Limits)
    requires d.queued != []
    ensures FitsAt(d, lim, 0) <==> ReadyForFlight(Counted(d, d.queued[0]), lim, d.queued[0].qos)
  {
    hide Weigh;
    var m := d.queued[0];
    assert d.queued[..1] == [m] + [];
    WeighCons(m, []);
    WeighNil();
  }

  /** After the head has been promoted, its successors fit as they did before. */
  lemma TailFits(d: MsgData, lim: Limits, i: nat)
    requires i + 1 < |d.queued|
    ensures var e := Promote(Counted(d, d.queued[0]), 0, PublishState(d.queued[0].qos));
      FitsAt(e, lim, i) <==> FitsAt(d, lim, i + 1)
  {
    hide Weigh;
    var m := d.queued[0];
    var e := Promote(Counted(d, m), 0, PublishState(m.qos));
    assert e.queued == d.queued[1..];
    assert d.queued[..i + 2] == [m] + e.queued[..i + 1];
    WeighCons(m, e.queued[..i + 1]);
  }

  /** Behind a QoS > 0 message that does not fit, exactly the QoS 0 messages do. */
  lemma BehindMisfit(d: MsgData, lim: Limits, k: nat, i: nat)
    requires k <= i < |d.queued| && !FitsAt(d, lim, k)
    ensures FitsAt(d, lim, i) <==> d.queued[i].qos == 0
  {
    hide Weigh;
    assert d.queued[..i + 1] == d.queued[..k + 1] + d.queued[k + 1..i + 1];
    WeighAppend(d.queued[..k + 1], d.queued[k + 1..i + 1]);
    WeighNonnegative(d.queued[k + 1..i + 1]);
  }

  lemma {:induction false} FittingTail(d: MsgData, lim: Limits, n: nat)
    requires n < |d.queued| && FitsAt(d, lim, 0)
    ensures var e := Promote(Counted(d, d.queued[0]), 0, PublishState(d.queued[0].qos));
      Fitting(d, lim, n + 1) == 1 + Fitting(e, lim, n)
  {
    hide FitsAt, Promote;
    if n > 0 {
      FittingTail(d, lim, n - 1);
      TailFits(d, lim, n - 1);
    } else {
      assert Fitting(d, lim, 0) == 0;
    }
  }

  lemma {:induction false} FittingBehindMisfit(d: MsgData, lim: Limits, n: nat)
    requires d.queued != [] && n <= |d.queued| && !FitsAt(d, lim, 0)
    ensures Fitting(d, lim, n) == Zeros(d.queued[..n])
  {
    hide Weigh, FitsAt;
    if n > 0 {
      FittingBehindMisfit(d, lim, n - 1);
      BehindMisfit(d, lim, 0, n - 1);
      assert d.queued[..n] == d.queued[..n - 1] + [d.queued[n - 1]];
      WeighSnoc(d.queued[..n - 1], d.queued[n - 1]);
    } else {
      assert d.queued[..0] == [];
      WeighNil();
    }
  }

  /** n promotions: whichever messages were ready, the first n of the queue moved, and each took quota. */
  ghost predicate Moved(d: MsgData, r: MsgData, n: nat) {
    && n <= |d.queued|
    && |r.inflight| == |d.inflight| + n && Weigh(r.inflight) == Plus(Weigh(d.inflight), Weigh(d.queued[..n]))
    && r.quota == Max(0, d.quota - n) && r.maximum == d.maximum
  }

  lemma MovedNone(d: MsgData, r: MsgData)
    requires r.inflight == d.inflight && r.quota == d.quota && r.maximum == d.maximum && 0 <= d.quota
    ensures Moved(d, r, 0)
  {
    assert d.queued[..0] == [];
  }

  lemma MovedNext(d: MsgData, c: MsgData, cursor: nat, state: MsgState, r: MsgData, n: nat)
    requires 0 <= d.quota && cursor < |d.queued| && c == Counted(d, d.queued[cursor])
    requires Moved(Promote(c, cursor, state), r, n)
    ensures Moved(d, r, n + 1)
  {
    hide Weigh;
    var e := Promote(c, cursor, state);
    PromoteWeight(c, cursor, state);
    assert d.queued[..n + 1] == [d.queued[0]] + d.queued[1..n + 1];
    WeighCons(d.queued[0], d.queued[1..n + 1]);
    WeighLike(e.queued[..n], d.queued[1..n + 1]);
  }

  /** Behind a message that does not fit, the loop promotes as many messages as it still meets of QoS 0. */
  lemma {:induction false} StuckMoves(d: MsgData, lim: Limits, cursor: nat)
    requires 0 <= d.quota && cursor <= |d.queued| && !ReadyForFlight(d, lim, 1)
    ensures Moved(d, ResetQueue(d, lim, cursor), Zeros(d.queued[cursor..]))
    decreases |d.queued| - cursor
  {
    hide Weigh, Moved;
    if cursor < |d.queued| {
      var m := d.queued[cursor];
      var c := Counted(d, m);
      assert d.queued[cursor..] == [m] + d.queued[cursor + 1..];
      WeighCons(m, d.queued[cursor + 1..]);
      if m.qos > 0 {
        StuckMoves(c, lim, cursor + 1);
        MovedLike(d, c, ResetQueue(d, lim, cursor), Zeros(d.queued[cursor + 1..]));
      } else {
        var e := Promote(c, cursor, PublishQos0);
        assert e.queued[cursor..] == d.queued[cursor + 1..];
        StuckMoves(e, lim, cursor);
        MovedNext(d, c, cursor, PublishQos0, ResetQueue(d, lim, cursor), Zeros(e.queued[cursor..]));
      }
    } else {
      WeighNil();
      MovedNone(d, d);
    }
  }

  lemma MovedLike(d: MsgData, c: MsgData, r: MsgData, n: nat)
    requires c.inflight == d.inflight && c.queued == d.queued && c.quota == d.quota && c.maximum == d.maximum
    requires Moved(c, r, n)
    ensures Moved(d, r, n)
  {
  }

  /** The queue loop promotes as many messages as fit, under any limits and for any queue. */
  lemma {:induction false} ResetQueueMoves(d: MsgData, lim: Limits)
    requires 0 <= d.quota
    ensures Moved(d, ResetQueue(d, lim, 0), Fitting(d, lim, |d.queued|))
    decreases |d.queued|
  {
    hide Weigh, Moved, FitsAt;
    if d.queued == [] {
      MovedNone(d, d);
    } else {
      var m := d.queued[0];
      var c := Counted(d, m);
      HeadFits(d, lim);
      if FitsAt(d, lim, 0) {
        var e := Promote(c, 0, PublishState(m.qos));
        ResetQueueMoves(e, lim);
        FittingTail(d, lim, |d.queued| - 1);
        MovedNext(d, c, 0, PublishState(m.qos), ResetQueue(d, lim, 0), Fitting(e, lim, |e.queued|));
      } else {
        StuckMoves(c, lim, 1);
        MovedLike(d, c, ResetQueue(d, lim, 0), Zeros(d.queued[1..]));
        FittingBehindMisfit(d, lim, |d.queued|);
        assert d.queued[..|d.queued|] == d.queued == [m] + d.queued[1..];
        WeighCons(m, d.queued[1..]);
      }
    }
  }

  /** The outgoing half as the queue loop finds it: quota refilled, the messages in flight counted. */
  function AtReconnect(d: MsgData): MsgData {
    d.(quota := d.maximum, msgBytes12 := Weigh(d.inflight).bytes12)
  }

  /** The QoS > 0 messages in flight and those of the messages that will be promoted are together no more than there
      will be promotions, nor more than the maximum. */
  predicate FlowSurvives(d: MsgData, lim: Limits) {
    var n := Fitting(AtReconnect(d), lim, |d.queued|);
    d.maximum == 0 || Weigh(d.inflight).n12 + Weigh(d.queued[..n]).n12 <= Min(n, d.maximum)
  }

  /** A reconnect refills the send quota and takes it back from the receive quota: exactly then does the bound survive
      it. */
  lemma ReconnectFlow(c: Ctx, lim: Limits)
    ensures FlowOk(ResetOutgoing(c, lim).msgsOut) <==> FlowSurvives(c.msgsOut, lim)
  {
    hide Weigh;
    var d := c.msgsOut;
    var a := c.(msgsOut := Refilled(d));
    WeighNil();
    assert Refilled(d).inflight[..0] == [];
    ResetOutInflightCounts(a, 0);
    var e := ResetOutInflight(a, 0).msgsOut;
    ResetQueueMoves(e, lim);
    FittingLike(AtReconnect(d), e, lim, |d.queued|);
  }

  lemma {:induction false} FittingLike(d: MsgData, e: MsgData, lim: Limits, n: nat)
    requires d.queued == e.queued && d.quota == e.quota && d.maximum == e.maximum && d.msgBytes12 == e.msgBytes12
    requires n <= |d.queued|
    ensures Fitting(d, lim, n) == Fitting(e, lim, n)
  {
    if n > 0 {
      FittingLike(d, e, lim, n - 1);
    }
  }

  lemma {:induction false} FittingWithinQuota(d: MsgData, lim: Limits, n: nat)
    requires d.maximum > 0 && 0 <= d.quota && n <= |d.queued|
    requires forall i :: 0 <= i < n ==> d.queued[i].qos > 0
    ensures Fitting(d, lim, n) <= Min(n, d.quota) && Weigh(d.queued[..n]).n12 == n
  {
    hide Weigh;
    if n > 0 {
      FittingWithinQuota(d, lim, n - 1);
      assert d.queued[..n] == d.queued[..n - 1] + [d.queued[n - 1]];
      WeighSnoc(d.queued[..n - 1], d.queued[n - 1]);
    } else {
      WeighNil();
      assert d.queued[..0] == [];
    }
  }

  /** With only QoS > 0 messages queued, that is when no QoS > 0 message was in flight. */
  lemma ReconnectFlowAllAcknowledged(c: Ctx, lim: Limits)
    requires c.msgsOut.maximum > 0
    requires forall i :: 0 <= i < |c.msgsOut.queued| ==> c.msgsOut.queued[i].qos > 0
    ensures FlowOk(ResetOutgoing(c, lim).msgsOut) <==> Weigh(c.msgsOut.inflight).n12 == 0
  {
    hide ResetOutgoing, FlowOk;
    var d := AtReconnect(c.msgsOut);
    ReconnectFlow(c, lim);
    FittingWithinQuota(d, lim, |d.queued|);
    FittingWithinQuota(d, lim, Fitting(d, lim, |d.queued|));
  }

  // ---------------------------------------------------------------------------------------------
  // connection_check_acl
  // ---------------------------------------------------------------------------------------------

  lemma {:induction false} PurgeListLength(u: Purge, i: nat, denied: Expiry)
    requires i <= |u.msgs|
    ensures var v := PurgeList(u, i, denied).msgs;
      && |v| <= |u.msgs|
      && (|v| == |u.msgs| <==> forall j :: i <= j < |u.msgs| ==> !denied(u.msgs[j].store))
      && (|v| == |u.msgs| ==> v == u.msgs)
    decreases |u.msgs| - i
  {
    if i < |u.msgs| {
      if denied(u.msgs[i].store) {
        PurgeListLength(Purge(RefDec(u.st, u.msgs[i].store), Without(u.msgs, i)), i, denied);
      } else {
        PurgeListLength(u, i + 1, denied);
      }
    }
  }

  lemma {:induction false} PurgeListKeeps(u: Purge, i: nat, denied: Expiry, m: ClientMsg)
    requires i <= |u.msgs| && forall j :: 0 <= j < i ==> !denied(u.msgs[j].store)
    ensures m in PurgeList(u, i, denied).msgs <==> m in u.msgs && !denied(m.store)
    decreases |u.msgs| - i
  {
    if i < |u.msgs| {
      if denied(u.msgs[i].store) {
        var v := Purge(RefDec(u.st, u.msgs[i].store), Without(u.msgs, i));
        assert u.msgs == u.msgs[..i] + [u.msgs[i]] + u.msgs[i + 1..];
        PurgeListKeeps(v, i, denied, m);
      } else {
        PurgeListKeeps(u, i + 1, denied, m);
      }
    }
  }

  /** The access check at connect leaves the counters right exactly when it removes nothing. */
  lemma AclPurgeCounters(p: Pair, denied: Expiry)
    requires CtxOk(p.c)
    ensures CtxOk(AclPurge(p, denied).c) <==>
      forall m :: m in p.c.msgsOut.inflight || m in p.c.msgsOut.queued ==> !denied(m.store)
  {
    hide Weigh;
    var o := p.c.msgsOut;
    var u := Purge(p.st, o.inflight);
    var a := PurgeList(u, 0, denied);
    PurgeListLength(u, 0, denied);
    PurgeListLength(Purge(a.st, o.queued), 0, denied);
  }
}
