/** Delivery to a client at least once (section 4.3 of MQTT 5.0): over every run of the broker, a QoS 1 or QoS 2 message for a
    client stays in its lists until the client has acknowledged it, through any number of disconnects, failed sends,
    reconnects and takeovers. */
module BrokerKept {
  import opened MosqTypes
  import opened BrokerDb
  import opened BrokerWorld
  import opened BrokerCommitted
  import BrokerFifo
  import BrokerCounters
  import BrokerSends
  import BrokerAnswers
  import BrokerAcks
  import BrokerResets

  /** The message under this identifier, of QoS > 0 and not about to be sent as one of QoS 0 */
  predicate IsMessage(m: ClientMsg, mid: Word, s: Message) {
    m.mid == mid && m.store == s && m.qos > 0 && m.state != PublishQos0
  }

  ghost predicate Present(d: MsgData, mid: Word, s: Message) {
    exists m :: (m in d.inflight || m in d.queued) && IsMessage(m, mid, s)
  }

  // ---------------------------------------------------------------------------------------------
  // The operations
  // ---------------------------------------------------------------------------------------------

  lemma InFlightPresent(d: MsgData, k: nat, mid: Word, s: Message)
    requires k < |d.inflight| && IsMessage(d.inflight[k], mid, s)
    ensures Present(d, mid, s)
  {
    assert d.inflight[k] in d.inflight;
  }

  lemma QueuedPresent(d: MsgData, k: nat, mid: Word, s: Message)
    requires k < |d.queued| && IsMessage(d.queued[k], mid, s)
    ensures Present(d, mid, s)
  {
    assert d.queued[k] in d.queued;
  }

  lemma PromotedPresent(d: MsgData, e: MsgData, n: nat, state: BrokerFifo.NewState, mid: Word, s: Message)
    requires BrokerFifo.Promoted(d, e, n, state) && Present(d, mid, s)
    requires forall m: ClientMsg :: m.qos > 0 ==> state(m) != PublishQos0
    ensures Present(e, mid, s)
  {
    var m :| (m in d.inflight || m in d.queued) && IsMessage(m, mid, s);
    if m in d.inflight {
      var k :| 0 <= k < |d.inflight| && d.inflight[k] == m;
      InFlightPresent(e, k, mid, s);
    } else {
      var k :| 0 <= k < |d.queued| && d.queued[k] == m;
      if k < n {
        assert e.inflight[|d.inflight| + k] == m.(state := state(m));
        InFlightPresent(e, |d.inflight| + k, mid, s);
      } else {
        assert e.queued[k - n] == m;
        QueuedPresent(e, k - n, mid, s);
      }
    }
  }

  lemma DeletedPresent(c: Ctx, r: Ctx, rc: Rc, other: Word, wanted: MsgState, qos: AnyQos, mid: Word, s: Message)
    requires BrokerAcks.Deleted(c, r, rc, other, wanted, qos) && Present(c.msgsOut, mid, s) && other != mid
    ensures Present(r.msgsOut, mid, s)
  {
    hide BrokerAcks.FirstMisfit, BrokerAcks.Others, BrokerFifo.Promoted;
    var d, e := c.msgsOut, r.msgsOut;
    var n := BrokerAcks.FirstMisfit(d.inflight, other, wanted, qos);
    var m :| (m in d.inflight || m in d.queued) && IsMessage(m, mid, s);
    BrokerAcks.OthersHold(d.inflight, other, m);
    BrokerAcks.OthersHold(d.inflight[..n], other, m);
    if n == |d.inflight| {
      var left := BrokerAcks.Others(d.inflight, other);
      PromotedPresent(d.(inflight := left), e, BrokerFifo.Room(d.maximum, |left|, |d.queued|), BrokerFifo.ByQos(), mid, s);
    } else {
      assert d.inflight == d.inflight[..n] + d.inflight[n..];
      assert m in e.inflight || m in e.queued;
    }
  }

  lemma PubrecPresent(c: Ctx, r: Ctx, other: Word, net: Net, mid: Word, s: Message)
    requires BrokerAcks.PubrecTaken(c, r, other, net) && Present(c.msgsOut, mid, s)
    ensures Present(r.msgsOut, mid, s)
  {
    var d, e := c.msgsOut, r.msgsOut;
    var m :| (m in d.inflight || m in d.queued) && IsMessage(m, mid, s);
    if m in d.inflight && r != c {
      var k :| 0 <= k < |d.inflight| && d.inflight[k] == m;
      InFlightPresent(e, k, mid, s);
    }
  }

  /** The message does not expire, and the client takes its PUBLISH. */
  ghost predicate Fits(mid: Word, s: Message, expired: Expiry, net: Net) {
    !expired(s) && forall qos: AnyQos, dup: bool :: net(Publish(mid, qos, s, dup)) != OversizePacket
  }

  lemma {:induction false} LeftPresent(msgs: seq<ClientMsg>, k: nat, expired: Expiry, net: Net, mid: Word, s: Message)
    returns (j: nat)
    requires k < |msgs| && IsMessage(msgs[k], mid, s) && Fits(mid, s, expired, net)
    requires forall i :: 0 <= i < |msgs| ==> !BrokerSends.Stuck(msgs[i], expired, net)
    ensures var left := BrokerSends.AllLeft(msgs, expired, net); j < |left| && IsMessage(left[j], mid, s)
  {
    hide BrokerSends.Stuck;
    var head := BrokerSends.Left(msgs[0], expired, net);
    if k == 0 {
      OneLeft(msgs[0], expired, net, mid, s);
      j := 0;
    } else {
      j := LeftPresent(msgs[1..], k - 1, expired, net, mid, s);
      j := j + |head|;
    }
  }

  lemma OneLeft(m: ClientMsg, expired: Expiry, net: Net, mid: Word, s: Message)
    requires IsMessage(m, mid, s) && Fits(mid, s, expired, net) && !BrokerSends.Stuck(m, expired, net)
    ensures var left := BrokerSends.Left(m, expired, net); |left| == 1 && IsMessage(left[0], mid, s)
  {
    assert net(Publish(m.mid, m.qos, m.store, m.dup)) != OversizePacket;
  }

  lemma SentOutPresent(c: Ctx, r: Ctx, rc: Rc, expired: Expiry, net: Net, mid: Word, s: Message)
    requires BrokerSends.SentOut(c, r, rc, expired, net) && Present(c.msgsOut, mid, s) && Fits(mid, s, expired, net)
    ensures Present(r.msgsOut, mid, s)
  {
    hide BrokerSends.AllLeft, BrokerSends.Packets, BrokerSends.FirstStuck, IsMessage, Fits, BrokerSends.Stuck;
    var d, e := c.msgsOut, r.msgsOut;
    var n := BrokerSends.FirstStuck(d.inflight, expired, net);
    var m :| (m in d.inflight || m in d.queued) && IsMessage(m, mid, s);
    if m in d.inflight {
      var k :| 0 <= k < |d.inflight| && d.inflight[k] == m;
      var left := BrokerSends.AllLeft(d.inflight[..n], expired, net);
      if k < n {
        var j := LeftPresent(d.inflight[..n], k, expired, net, mid, s);
        assert e.inflight[j] == left[j];
        InFlightPresent(e, j, mid, s);
      } else {
        assert e.inflight[|left| + (k - n)] == m;
        InFlightPresent(e, |left| + (k - n), mid, s);
      }
    }
  }

  lemma WritePresent(p: Pair, expired: Expiry, net: Net, mid: Word, s: Message)
    requires Present(p.c.msgsOut, mid, s) && Fits(mid, s, expired, net)
    ensures Present(Write(p, expired, net).p.c.msgsOut, mid, s)
  {
    hide Present, Fits, WriteIn, WriteOut, WriteInQueued, WriteOutQueued, BrokerSends.SentOut, BrokerAnswers.Answered;
    hide BrokerAnswers.OnlyPubrecs, BrokerFifo.Promoted;
    var a := WriteIn(p, 0, expired, net);
    BrokerAnswers.WriteInAnswers(p, expired, net);
    AnsweredSilent(p.c, a.p.c, a.rc, expired, net, mid);
    if a.rc == Success {
      var b := WriteOut(a.p, 0, expired, net);
      BrokerSends.WriteOutSends(a.p, expired, net);
      SentOutPresent(a.p.c, b.p.c, b.rc, expired, net, mid, s);
      if b.rc == Success {
        BrokerAnswers.WriteInQueuedOnly(b.p.c, 0, net);
        var d := b.p.c.msgsOut;
        BrokerFifo.WriteOutQueuedFifo(d);
        PromotedPresent(d, WriteOutQueued(d, 0), BrokerFifo.Allowed(d, d.maximum), BrokerFifo.ByQos(), mid, s);
      }
    }
  }

  lemma {:induction false} QueuePresent(d: MsgData, lim: Limits, cursor: nat, mid: Word, s: Message)
    requires Present(d, mid, s)
    ensures Present(ResetQueue(d, lim, cursor), mid, s)
    decreases |d.queued| - cursor
  {
    hide Present;
    if cursor < |d.queued| {
      var m := d.queued[cursor];
      var e := Counted(d, m);
      SameListsPresent(d, e, mid, s);
      if ReadyForFlight(e, lim, m.qos) {
        MovedPresent(e, cursor, mid, s);
        QueuePresent(Promote(e, cursor, PublishState(m.qos)), lim, cursor, mid, s);
      } else {
        QueuePresent(e, lim, cursor + 1, mid, s);
      }
    }
  }

  lemma SameListsPresent(d: MsgData, e: MsgData, mid: Word, s: Message)
    requires Present(d, mid, s) && e.inflight == d.inflight && e.queued == d.queued
    ensures Present(e, mid, s)
  {
  }

  lemma MovedPresent(d: MsgData, cursor: nat, mid: Word, s: Message)
    requires cursor < |d.queued| && Present(d, mid, s)
    ensures Present(Promote(d, cursor, PublishState(d.queued[cursor].qos)), mid, s)
  {
    var f := SetQueuedState(d, cursor, PublishState(d.queued[cursor].qos));
    var e := DequeueFirst(f);
    var m :| (m in d.inflight || m in d.queued) && IsMessage(m, mid, s);
    if m in d.inflight {
      var k :| 0 <= k < |d.inflight| && d.inflight[k] == m;
      InFlightPresent(e, k, mid, s);
    } else {
      var k :| 0 <= k < |d.queued| && d.queued[k] == m;
      assert IsMessage(f.queued[k], mid, s);
      if k == 0 {
        assert e.inflight[|d.inflight|] == f.queued[0];
        InFlightPresent(e, |d.inflight|, mid, s);
      } else {
        assert e.queued[k - 1] == f.queued[k];
        QueuedPresent(e, k - 1, mid, s);
      }
    }
  }

  lemma ReconnectPresent(p: Pair, lim: Limits, mid: Word, s: Message)
    requires Present(p.c.msgsOut, mid, s)
    ensures Present(ReconnectReset(p, lim).c.msgsOut, mid, s)
  {
    hide ResetOutInflight, ResetQueue, ResetIncoming, Present, BrokerCounters.Weigh, BrokerFifo.Promoted;
    var a := p.c.(msgsOut := Refilled(p.c.msgsOut));
    BrokerResets.OutAgain(a, 0);
    BrokerCounters.WeighNil();
    assert a.msgsOut.inflight[..0] == [];
    BrokerCounters.ResetOutInflightCounts(a, 0);
    var q := ResetOutInflight(a, 0).msgsOut;
    AgainPresent(p.c.msgsOut, q, mid, s);
    QueuePresent(q, lim, 0, mid, s);
    BrokerResets.ResetIncomingRestarts(p.(c := ResetOutgoing(p.c, lim)), lim);
  }

  lemma AgainPresent(d: MsgData, e: MsgData, mid: Word, s: Message)
    requires Present(d, mid, s) && |e.inflight| == |d.inflight| && e.queued == d.queued
    requires forall k :: 0 <= k < |d.inflight| ==> BrokerResets.Again(d.inflight[k], e.inflight[k])
    ensures Present(e, mid, s)
  {
    var m :| (m in d.inflight || m in d.queued) && IsMessage(m, mid, s);
    if m in d.inflight {
      var k :| 0 <= k < |d.inflight| && d.inflight[k] == m;
      assert BrokerResets.Again(m, e.inflight[k]);
      InFlightPresent(e, k, mid, s);
    }
  }

  lemma PurgePresent(p: Pair, denied: Expiry, mid: Word, s: Message)
    requires Present(p.c.msgsOut, mid, s) && !denied(s)
    ensures Present(AclPurge(p, denied).c.msgsOut, mid, s)
  {
    hide PurgeList;
    var o := p.c.msgsOut;
    var a := PurgeList(Purge(p.st, o.inflight), 0, denied);
    var m :| (m in o.inflight || m in o.queued) && IsMessage(m, mid, s);
    BrokerCounters.PurgeListKeeps(Purge(p.st, o.inflight), 0, denied, m);
    BrokerCounters.PurgeListKeeps(Purge(a.st, o.queued), 0, denied, m);
  }

  lemma InsertPresent(p: Pair, lim: Limits, other: Word, dir: Direction, qos: AnyQos, retain: bool, x: Message, mid: Word, s: Message)
    requires Present(p.c.msgsOut, mid, s)
    ensures Present(Insert(p, lim, other, dir, qos, retain, x).0.c.msgsOut, mid, s)
  {
    hide InsertVerdict, RefInc, AddDestId, IsMessage;
  }

  // ---------------------------------------------------------------------------------------------
  // Runs
  // ---------------------------------------------------------------------------------------------

  /** The client does not acknowledge or refuse the identifier, its session does not end, the message does not expire, is not
      too large for it and not denied to it when it comes back, and no other session's messages are put in its place. */
  ghost predicate NotDone(op: Op, k: nat, mid: Word, s: Message) {
    match op
    case Acked(j, other, _) => j == k ==> other != mid
    case RecError(j, other) => j == k ==> other != mid
    case WriteTo(j, expired, net) => j == k ==> Fits(mid, s, expired, net)
    case DeleteFor(j) => j != k
    case CheckAcl(j, denied) => j == k ==> !denied(s)
    case _ => true
  }

  lemma ClientPresent(p: Pair, lim: Limits, op: Op, mid: Word, s: Message)
    requires Present(p.c.msgsOut, mid, s)
    requires match op
      case Acked(_, other, _) => other != mid
      case RecError(_, other) => other != mid
      case WriteTo(_, expired, net) => Fits(mid, s, expired, net)
      case DeleteFor(_) => false
      case CheckAcl(_, denied) => !denied(s)
      case _ => true
    ensures Present(OnClient(p, lim, op).c.msgsOut, mid, s)
  {
    hide Present, OnAck, OnPubrec, OnPubrecError, ReleaseIncoming, Write, ReconnectReset, DeleteAll, AclPurge, Insert;
    hide BrokerAcks.Deleted, BrokerAcks.PubrecTaken;
    match op
    case InsertFor(_, other, dir, qos, retain, x) =>
      InsertPresent(p, lim, other, dir, qos, retain, x, mid, s);
    case Acked(_, other, qos) =>
      AckPresent(p, other, qos, mid, s);
    case RecOk(_, other, net) =>
      BrokerAcks.PubrecEffect(p, other, net);
      PubrecPresent(p.c, OnPubrec(p, other, net).c, other, net, mid, s);
    case RecError(_, other) =>
      BrokerAcks.PubrecErrorDeletes(p, other);
      var r := OnPubrecError(p, other);
      DeletedPresent(p.c, r.p.c, r.rc, other, WaitForPubrec, 2, mid, s);
    case Rel(_, other, routes, net) =>
      ReleaseCommitted(p, other, routes, net, mid);
    case WriteTo(_, expired, net) =>
      WritePresent(p, expired, net, mid, s);
    case Reset(_) =>
      ReconnectPresent(p, lim, mid, s);
    case CheckAcl(_, denied) =>
      PurgePresent(p, denied, mid, s);
    case _ =>
  }

  lemma AckPresent(p: Pair, other: Word, qos: AnyQos, mid: Word, s: Message)
    requires Present(p.c.msgsOut, mid, s) && other != mid
    ensures Present(OnAck(p, other, qos).p.c.msgsOut, mid, s)
  {
    hide OnAck, BrokerFifo.Promoted, BrokerAcks.FirstMisfit, BrokerAcks.Others, IsMessage;
    var r := OnAck(p, other, qos);
    BrokerAcks.AckDeletes(p, other, qos);
    SameListsPresent(p.c.msgsOut, BrokerAcks.Grown(p.c).msgsOut, mid, s);
    DeletedPresent(BrokerAcks.Grown(p.c), r.p.c, r.rc, other, WaitForPubcomp, qos, mid, s);
  }

  /** One operation of the broker, whichever client it is for */
  lemma ApplyPresent(w: World, op: Op, k: nat, mid: Word, s: Message)
    requires k < |w.ctxs| && Present(w.ctxs[k].msgsOut, mid, s) && NotDone(op, k, mid, s)
    ensures var r, h := Apply(w, op), Holder(w, op, k); h < |r.ctxs| && Present(r.ctxs[h].msgsOut, mid, s)
  {
    hide OnClient, Present, Fits, ReconnectReset;
    HasOne(w.ctxs[k], mid, s);
    if Enabled(w, op) {
      match op
      case Arrive(_, _, _, _, _, _) =>
      case StoreMessage(_, _, _, _) =>
      case Hold(_) =>
      case LetGo(_) =>
      case Compact =>
      case DeleteFor(_) =>
      case TakeOver(found, j) =>
        if found == k {
          ReconnectPresent(Pair(w.st, w.ctxs[j].(msgsIn := w.ctxs[k].msgsIn, msgsOut := w.ctxs[k].msgsOut)), w.lim, mid, s);
        }
      case _ =>
        if op.k == k {
          ClientPresent(Pair(w.st, w.ctxs[k]), w.lim, op, mid, s);
        }
    }
  }

  /** A client with a message does not take another session over. */
  lemma HasOne(c: Ctx, mid: Word, s: Message)
    requires Present(c.msgsOut, mid, s)
    ensures HasMessages(c)
  {
  }

  ghost predicate NotDoneRun(w: World, ops: seq<Op>, k: nat, mid: Word, s: Message)
    requires k < |w.ctxs|
    decreases |ops|
  {
    ops == [] ||
      (NotDone(ops[0], k, mid, s)
       && var r, h := Apply(w, ops[0]), Holder(w, ops[0], k); (h < |r.ctxs| ==> NotDoneRun(r, ops[1..], h, mid, s)))
  }

  /** Who holds the messages of client k at the end of a run */
  function HolderAfter(w: World, ops: seq<Op>, k: nat): nat
    decreases |ops|
  {
    if ops == [] || k >= |w.ctxs| then k else HolderAfter(Apply(w, ops[0]), ops[1..], Holder(w, ops[0], k))
  }

  /** Over every run, a QoS > 0 message for a client stays in its lists, under its identifier, until the client acknowledges
      or refuses it or its session ends. */
  lemma {:induction false} KeptUntilAcknowledged(w: World, ops: seq<Op>, k: nat, mid: Word, s: Message)
    requires k < |w.ctxs| && Present(w.ctxs[k].msgsOut, mid, s) && NotDoneRun(w, ops, k, mid, s)
    ensures var r, h := Run(w, ops), HolderAfter(w, ops, k);
      h < |r.ctxs| && Present(r.ctxs[h].msgsOut, mid, s)
    decreases |ops|
  {
    hide Present, NotDone, Apply, Holder;
    if ops != [] {
      ApplyPresent(w, ops[0], k, mid, s);
      KeptUntilAcknowledged(Apply(w, ops[0]), ops[1..], Holder(w, ops[0], k), mid, s);
    }
  }
}
