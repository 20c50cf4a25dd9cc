/** QoS 2 from the broker to a client (section 4.3.3 of MQTT 5.0): once PUBREC has been handled, the message is not published
    again, over every run of the broker, unless a reconnect finds its PUBREL still to be sent. */
module BrokerCommitted {
  import opened MosqTypes
  import opened BrokerDb
  import opened BrokerWorld
  import BrokerFifo
  import BrokerCounters
  import BrokerSends
  import BrokerAnswers
  import BrokerAcks
  import BrokerResets

  /** PUBREC has been handled: PUBREL has been sent or is due. */
  predicate Committed(m: ClientMsg) {
    m.qos == 2 && (m.state == WaitForPubcomp || m.state == ResendPubrel)
  }

  /** Every outgoing message with this identifier is one of those. */
  ghost predicate AllCommitted(d: MsgData, mid: Word) {
    && (forall m :: m in d.inflight && m.mid == mid ==> Committed(m))
    && (forall m :: m in d.queued ==> m.mid != mid)
  }

  /** b continues a without a PUBLISH under this identifier. */
  predicate Silent(a: seq<ToClient>, b: seq<ToClient>, mid: Word) {
    a <= b && forall i :: |a| <= i < |b| ==> !(b[i].Publish? && b[i].mid == mid)
  }

  /** What an operation must keep and must not send */
  ghost predicate StaysCommitted(c: Ctx, r: Ctx, mid: Word) {
    AllCommitted(r.msgsOut, mid) && Silent(c.wire, r.wire, mid)
  }

  lemma SilentTrans(a: seq<ToClient>, b: seq<ToClient>, c: seq<ToClient>, mid: Word)
    requires Silent(a, b, mid) && Silent(b, c, mid)
    ensures Silent(a, c, mid)
  {
  }

  lemma PubrecsAreSilent(a: seq<ToClient>, b: seq<ToClient>, mid: Word)
    requires BrokerAnswers.OnlyPubrecs(a, b)
    ensures Silent(a, b, mid)
  {
  }

  // ---------------------------------------------------------------------------------------------
  // The operations
  // ---------------------------------------------------------------------------------------------

  /** What moves up from the queue has other identifiers. */
  lemma PromotedCommitted(d: MsgData, e: MsgData, n: nat, state: BrokerFifo.NewState, mid: Word)
    requires BrokerFifo.Promoted(d, e, n, state) && AllCommitted(d, mid)
    ensures AllCommitted(e, mid)
  {
    forall i | 0 <= i < |e.inflight|
      ensures e.inflight[i].mid == mid ==> Committed(e.inflight[i])
    {
      if i < |d.inflight| {
        assert e.inflight[i] == d.inflight[i];
      } else {
        var k := i - |d.inflight|;
        assert e.inflight[|d.inflight| + k] == d.queued[k].(state := state(d.queued[k]));
        assert d.queued[k] in d.queued;
      }
    }
  }

  lemma DeletedCommitted(c: Ctx, r: Ctx, rc: Rc, other: Word, wanted: MsgState, qos: AnyQos, mid: Word)
    requires BrokerAcks.Deleted(c, r, rc, other, wanted, qos) && AllCommitted(c.msgsOut, mid)
    ensures AllCommitted(r.msgsOut, mid)
  {
    hide BrokerAcks.FirstMisfit, BrokerAcks.Others, BrokerFifo.Promoted;
    var d, e := c.msgsOut, r.msgsOut;
    var n := BrokerAcks.FirstMisfit(d.inflight, other, wanted, qos);
    forall m: ClientMsg
      ensures m in BrokerAcks.Others(d.inflight, other) ==> m in d.inflight
      ensures m in BrokerAcks.Others(d.inflight[..n], other) ==> m in d.inflight
    {
      BrokerAcks.OthersHold(d.inflight, other, m);
      BrokerAcks.OthersHold(d.inflight[..n], other, m);
    }
    if n == |d.inflight| {
      var left := BrokerAcks.Others(d.inflight, other);
      PromotedCommitted(d.(inflight := left), e, BrokerFifo.Room(d.maximum, |left|, |d.queued|), BrokerFifo.ByQos(), mid);
    } else {
      assert forall m :: m in e.inflight ==> m in d.inflight;
    }
  }

  lemma PubrecCommitted(c: Ctx, r: Ctx, other: Word, net: Net, mid: Word)
    requires BrokerAcks.PubrecTaken(c, r, other, net) && AllCommitted(c.msgsOut, mid)
    ensures StaysCommitted(c, r, mid)
  {
    forall i | 0 <= i < |r.msgsOut.inflight|
      ensures r.msgsOut.inflight[i].mid == mid ==> Committed(r.msgsOut.inflight[i])
    {
      assert c.msgsOut.inflight[i] in c.msgsOut.inflight;
    }
  }

  /** The message that PUBREC is for */
  lemma PubrecCommits(c: Ctx, r: Ctx, i: nat, net: Net)
    requires i < |c.msgsOut.inflight| && c.msgsOut.inflight[i].qos == 2
    requires var d, mid := c.msgsOut, c.msgsOut.inflight[i].mid;
      && (forall k :: 0 <= k < |d.inflight| && k != i ==> d.inflight[k].mid != mid)
      && (forall m :: m in d.queued ==> m.mid != mid)
      && BrokerAcks.PubrecTaken(c, r, mid, net)
    ensures var mid := c.msgsOut.inflight[i].mid;
      && StaysCommitted(c, r, mid)
      && r.wire == (if net(Pubrel(mid)) == Success then c.wire + [Pubrel(mid)] else c.wire)
      && r.msgsOut.inflight == c.msgsOut.inflight[i := c.msgsOut.inflight[i].(state := WaitForPubcomp)]
  {
    assert Find(c.msgsOut.inflight, c.msgsOut.inflight[i].mid) == i;
  }

  lemma {:induction false} LeftCommitted(msgs: seq<ClientMsg>, expired: Expiry, net: Net, mid: Word)
    requires forall m :: m in msgs && m.mid == mid ==> Committed(m)
    ensures forall m :: m in BrokerSends.AllLeft(msgs, expired, net) && m.mid == mid ==> Committed(m)
    ensures forall x :: x in BrokerSends.Packets(msgs, expired, net) && x.Publish? ==> x.mid != mid
  {
    if msgs != [] {
      assert msgs == [msgs[0]] + msgs[1..];
      LeftCommitted(msgs[1..], expired, net, mid);
    }
  }

  lemma SentOutCommitted(c: Ctx, r: Ctx, rc: Rc, expired: Expiry, net: Net, mid: Word)
    requires BrokerSends.SentOut(c, r, rc, expired, net) && AllCommitted(c.msgsOut, mid)
    ensures StaysCommitted(c, r, mid)
  {
    hide BrokerSends.AllLeft, BrokerSends.Packets, BrokerSends.FirstStuck;
    var msgs := c.msgsOut.inflight;
    var n := BrokerSends.FirstStuck(msgs, expired, net);
    LeftCommitted(msgs[..n], expired, net, mid);
    var out := BrokerSends.Packets(msgs[..n], expired, net);
    forall i | |c.wire| <= i < |r.wire|
      ensures !(r.wire[i].Publish? && r.wire[i].mid == mid)
    {
      assert r.wire[i] == out[i - |c.wire|] && r.wire[i] in out;
    }
  }

  lemma {:induction false} AnswersSilent(msgs: seq<ClientMsg>, expired: Expiry)
    ensures forall x :: x in BrokerAnswers.Answers(msgs, expired) ==> !x.Publish?
  {
    if msgs != [] {
      AnswersSilent(msgs[1..], expired);
    }
  }

  lemma AnsweredSilent(c: Ctx, r: Ctx, rc: Rc, expired: Expiry, net: Net, mid: Word)
    requires BrokerAnswers.Answered(c, r, rc, expired, net)
    ensures r.msgsOut == c.msgsOut && Silent(c.wire, r.wire, mid)
  {
    hide BrokerAnswers.Answers, BrokerAnswers.KeptIn, BrokerAnswers.QuotaAfter, BrokerAnswers.FirstUnanswered;
    var msgs := c.msgsIn.inflight[0..];
    var out := BrokerAnswers.AnswersOut(msgs, expired, net);
    AnswersSilent(msgs[..BrokerAnswers.FirstUnanswered(msgs, expired, net)], expired);
    forall i | |c.wire| <= i < |r.wire|
      ensures !r.wire[i].Publish?
    {
      assert r.wire[i] == out[i - |c.wire|] && r.wire[i] in out;
    }
  }

  lemma WriteCommitted(p: Pair, expired: Expiry, net: Net, mid: Word)
    requires AllCommitted(p.c.msgsOut, mid)
    ensures StaysCommitted(p.c, Write(p, expired, net).p.c, mid)
  {
    hide AllCommitted, Silent, WriteIn, WriteOut, WriteInQueued, WriteOutQueued, BrokerSends.SentOut, BrokerAnswers.Answered;
    hide BrokerAnswers.OnlyPubrecs, BrokerFifo.Promoted;
    var a := WriteIn(p, 0, expired, net);
    BrokerAnswers.WriteInAnswers(p, expired, net);
    AnsweredSilent(p.c, a.p.c, a.rc, expired, net, mid);
    if a.rc == Success {
      var b := WriteOut(a.p, 0, expired, net);
      BrokerSends.WriteOutSends(a.p, expired, net);
      SentOutCommitted(a.p.c, b.p.c, b.rc, expired, net, mid);
      SilentTrans(p.c.wire, a.p.c.wire, b.p.c.wire, mid);
      if b.rc == Success {
        var (c, rc) := WriteInQueued(b.p.c, 0, net);
        BrokerAnswers.WriteInQueuedOnly(b.p.c, 0, net);
        PubrecsAreSilent(b.p.c.wire, c.wire, mid);
        SilentTrans(p.c.wire, b.p.c.wire, c.wire, mid);
        var d := c.msgsOut;
        BrokerFifo.WriteOutQueuedFifo(d);
        PromotedCommitted(d, WriteOutQueued(d, 0), BrokerFifo.Allowed(d, d.maximum), BrokerFifo.ByQos(), mid);
      }
    }
  }

  lemma ReleaseCommitted(p: Pair, other: Word, routes: bool, net: Net, mid: Word)
    ensures var r := ReleaseIncoming(p, other, routes, net).p.c; r.msgsOut == p.c.msgsOut && Silent(p.c.wire, r.wire, mid)
  {
    hide ReleaseMatching, ReleaseQueued, BrokerAcks.RoutedOf, BrokerAcks.Unreleased, BrokerAcks.BlockRc, BrokerAcks.StoresOf;
    hide BrokerAnswers.OnlyPubrecs;
    var s := ReleaseRun(p, Success, false, 0, []);
    var r := ReleaseMatching(s, 0, other, routes);
    BrokerAcks.MatchingRouted(s, 0, other, routes);
    BrokerAnswers.ReleaseQueuedOnly(r.p.c, 0, r.index, net);
    PubrecsAreSilent(r.p.c.wire, ReleaseQueued(r.p.c, 0, r.index, net).wire, mid);
  }

  lemma {:induction false} QueueCommitted(d: MsgData, lim: Limits, cursor: nat, mid: Word)
    requires AllCommitted(d, mid)
    ensures AllCommitted(ResetQueue(d, lim, cursor), mid)
    decreases |d.queued| - cursor
  {
    if cursor < |d.queued| {
      var m := d.queued[cursor];
      var e := Counted(d, m);
      assert m in d.queued && d.queued[0] in d.queued;
      if ReadyForFlight(e, lim, m.qos) {
        var f := SetQueuedState(e, cursor, PublishState(m.qos));
        assert forall k :: 0 <= k < |f.queued| ==> f.queued[k].mid == d.queued[k].mid;
        assert forall k :: 0 <= k < |f.queued| ==> d.queued[k] in d.queued;
        QueueCommitted(Promote(e, cursor, PublishState(m.qos)), lim, cursor, mid);
      } else {
        QueueCommitted(e, lim, cursor + 1, mid);
      }
    }
  }

  /** No PUBREL is still to be sent for this identifier. */
  ghost predicate NoneToResend(d: MsgData, mid: Word) {
    forall m :: m in d.inflight && m.mid == mid ==> m.state != ResendPubrel
  }

  lemma ResetCommitted(c: Ctx, lim: Limits, mid: Word)
    requires AllCommitted(c.msgsOut, mid) && NoneToResend(c.msgsOut, mid)
    ensures AllCommitted(ResetOutgoing(c, lim).msgsOut, mid) && ResetOutgoing(c, lim).wire == c.wire
  {
    hide ResetOutInflight, ResetQueue;
    var a := c.(msgsOut := Refilled(c.msgsOut));
    BrokerResets.OutAgain(a, 0);
    var d, q := c.msgsOut, ResetOutInflight(a, 0).msgsOut;
    BrokerCounters.WeighNil();
    assert a.msgsOut.inflight[..0] == [];
    BrokerCounters.ResetOutInflightCounts(a, 0);
    forall i | 0 <= i < |q.inflight|
      ensures q.inflight[i].mid == mid ==> Committed(q.inflight[i])
    {
      assert BrokerResets.Again(d.inflight[i], q.inflight[i]) && d.inflight[i] in d.inflight;
    }
    QueueCommitted(q, lim, 0, mid);
  }

  lemma ReconnectCommitted(p: Pair, lim: Limits, mid: Word)
    requires AllCommitted(p.c.msgsOut, mid) && NoneToResend(p.c.msgsOut, mid)
    ensures var r := ReconnectReset(p, lim).c; AllCommitted(r.msgsOut, mid) && r.wire == p.c.wire
  {
    hide AllCommitted, NoneToResend, ResetOutgoing, ResetIncoming, BrokerCounters.Weigh, BrokerFifo.Promoted;
    ResetCommitted(p.c, lim, mid);
    BrokerResets.ResetIncomingRestarts(p.(c := ResetOutgoing(p.c, lim)), lim);
  }

  lemma PurgeCommitted(p: Pair, denied: Expiry, mid: Word)
    requires AllCommitted(p.c.msgsOut, mid)
    ensures StaysCommitted(p.c, AclPurge(p, denied).c, mid)
  {
    hide PurgeList;
    var o := p.c.msgsOut;
    var a := PurgeList(Purge(p.st, o.inflight), 0, denied);
    forall m: ClientMsg
      ensures m in AclPurge(p, denied).c.msgsOut.inflight ==> m in o.inflight
      ensures m in AclPurge(p, denied).c.msgsOut.queued ==> m in o.queued
    {
      BrokerCounters.PurgeListKeeps(Purge(p.st, o.inflight), 0, denied, m);
      BrokerCounters.PurgeListKeeps(Purge(a.st, o.queued), 0, denied, m);
    }
  }

  lemma InsertCommitted(p: Pair, lim: Limits, other: Word, dir: Direction, qos: AnyQos, retain: bool, s: Message, mid: Word)
    requires AllCommitted(p.c.msgsOut, mid) && (dir == Out ==> other != mid)
    ensures StaysCommitted(p.c, Insert(p, lim, other, dir, qos, retain, s).0.c, mid)
  {
    hide InsertVerdict, RefInc, AddDestId;
  }

  // ---------------------------------------------------------------------------------------------
  // Runs
  // ---------------------------------------------------------------------------------------------

  /** Nothing new comes to client k under this identifier, and no reconnect finds a PUBREL still to be sent. */
  ghost predicate Calm(w: World, op: Op, k: nat, mid: Word)
    requires k < |w.ctxs|
  {
    match op
    case InsertFor(j, other, dir, _, _, _) => j == k && dir == Out ==> other != mid
    case Reply(j, m, _) => j == k ==> !m.Publish?
    case Reset(j) => j == k ==> NoneToResend(w.ctxs[k].msgsOut, mid)
    case TakeOver(found, j) => j != k && (found == k ==> NoneToResend(w.ctxs[k].msgsOut, mid))
    case _ => true
  }

  /** Where client k's messages are afterwards: a takeover gives them to another context. */
  function Holder(w: World, op: Op, k: nat): nat
    requires k < |w.ctxs|
  {
    if op.TakeOver? && Enabled(w, op) && op.found == k && HasMessages(w.ctxs[k]) then op.k else k
  }

  lemma ClientCommitted(p: Pair, lim: Limits, op: Op, mid: Word)
    requires AllCommitted(p.c.msgsOut, mid)
    requires match op
      case InsertFor(_, other, dir, _, _, _) => dir == Out ==> other != mid
      case Reply(_, m, _) => !m.Publish?
      case Reset(_) => NoneToResend(p.c.msgsOut, mid)
      case _ => true
    ensures StaysCommitted(p.c, OnClient(p, lim, op).c, mid)
  {
    hide OnAck, OnPubrec, OnPubrecError, ReleaseIncoming, Write, ReconnectReset, DeleteAll, AclPurge, Insert;
    hide BrokerAcks.Deleted, BrokerAcks.PubrecTaken;
    match op
    case InsertFor(_, other, dir, qos, retain, s) =>
      InsertCommitted(p, lim, other, dir, qos, retain, s, mid);
    case Acked(_, other, qos) =>
      AckCommitted(p, other, qos, mid);
    case RecOk(_, other, net) =>
      BrokerAcks.PubrecEffect(p, other, net);
      PubrecCommitted(p.c, OnPubrec(p, other, net).c, other, net, mid);
    case RecError(_, other) =>
      PubrecErrorCommitted(p, other, mid);
    case Rel(_, other, routes, net) =>
      ReleaseCommitted(p, other, routes, net, mid);
    case WriteTo(_, expired, net) =>
      WriteCommitted(p, expired, net, mid);
    case Reset(_) =>
      ReconnectCommitted(p, lim, mid);
    case DeleteFor(_) =>
      DeleteAllCommitted(p, mid);
    case CheckAcl(_, denied) =>
      PurgeCommitted(p, denied, mid);
    case _ =>
  }

  lemma AckCommitted(p: Pair, other: Word, qos: AnyQos, mid: Word)
    requires AllCommitted(p.c.msgsOut, mid)
    ensures StaysCommitted(p.c, OnAck(p, other, qos).p.c, mid)
  {
    hide OnAck, BrokerFifo.Promoted, BrokerAcks.FirstMisfit, BrokerAcks.Others;
    var r := OnAck(p, other, qos);
    BrokerAcks.AckDeletes(p, other, qos);
    DeletedCommitted(BrokerAcks.Grown(p.c), r.p.c, r.rc, other, WaitForPubcomp, qos, mid);
  }

  lemma PubrecErrorCommitted(p: Pair, other: Word, mid: Word)
    requires AllCommitted(p.c.msgsOut, mid)
    ensures StaysCommitted(p.c, OnPubrecError(p, other).p.c, mid)
  {
    hide OnPubrecError, BrokerFifo.Promoted, BrokerAcks.FirstMisfit, BrokerAcks.Others;
    var r := OnPubrecError(p, other);
    BrokerAcks.PubrecErrorDeletes(p, other);
    DeletedCommitted(p.c, r.p.c, r.rc, other, WaitForPubrec, 2, mid);
  }

  lemma DeleteAllCommitted(p: Pair, mid: Word)
    ensures StaysCommitted(p.c, DeleteAll(p).c, mid)
  {
    hide RefDecAll;
  }

  /** One operation of the broker, whichever client it is for */
  lemma ApplyCommitted(w: World, op: Op, k: nat, mid: Word)
    requires k < |w.ctxs| && AllCommitted(w.ctxs[k].msgsOut, mid) && Calm(w, op, k, mid)
    ensures var r, h := Apply(w, op), Holder(w, op, k);
      h < |w.ctxs| <= |r.ctxs| && StaysCommitted(w.ctxs[h], r.ctxs[h], mid)
  {
    hide OnClient, AllCommitted, NoneToResend, ReconnectReset;
    if Enabled(w, op) {
      match op
      case Arrive(_, _, _, _, _, _) =>
      case StoreMessage(_, _, _, _) =>
      case Hold(_) =>
      case LetGo(_) =>
      case Compact =>
      case TakeOver(found, j) =>
        if found == k && HasMessages(w.ctxs[k]) {
          ReconnectCommitted(Pair(w.st, w.ctxs[j].(msgsIn := w.ctxs[k].msgsIn, msgsOut := w.ctxs[k].msgsOut)), w.lim, mid);
        }
      case _ =>
        if op.k == k {
          ClientCommitted(Pair(w.st, w.ctxs[k]), w.lim, op, mid);
        }
    }
  }

  ghost predicate CalmRun(w: World, ops: seq<Op>, k: nat, mid: Word)
    requires k < |w.ctxs|
    decreases |ops|
  {
    ops == [] ||
      (Calm(w, ops[0], k, mid)
       && var r, h := Apply(w, ops[0]), Holder(w, ops[0], k); (h < |r.ctxs| ==> CalmRun(r, ops[1..], h, mid)))
  }

  /** In no step of the run does a PUBLISH under this identifier go on the wire of the context that holds the messages. */
  ghost predicate NeverPublished(w: World, ops: seq<Op>, k: nat, mid: Word)
    decreases |ops|
  {
    ops == [] ||
      (k < |w.ctxs|
       && var r, h := Apply(w, ops[0]), Holder(w, ops[0], k);
          h < |w.ctxs| <= |r.ctxs| && Silent(w.ctxs[h].wire, r.ctxs[h].wire, mid) && NeverPublished(r, ops[1..], h, mid))
  }

  /** Over every run of the broker with any number of clients, from a state in which PUBREC has been handled for whatever is
      outstanding under an identifier, nothing is published under it until a new message takes it, takeovers included. */
  lemma {:induction false} NeverPublishedAgain(w: World, ops: seq<Op>, k: nat, mid: Word)
    requires k < |w.ctxs| && AllCommitted(w.ctxs[k].msgsOut, mid) && CalmRun(w, ops, k, mid)
    ensures NeverPublished(w, ops, k, mid)
    decreases |ops|
  {
    hide AllCommitted, Calm, Apply, Silent, Holder;
    if ops != [] {
      ApplyCommitted(w, ops[0], k, mid);
      NeverPublishedAgain(Apply(w, ops[0]), ops[1..], Holder(w, ops[0], k), mid);
    }
  }

  /** So from the PUBREC of a QoS 2 message in flight on, if identifiers are distinct, the message is never published again,
      be it with the same connection or after reconnects. */
  lemma PubrecIsFinal(w: World, ops: seq<Op>, k: nat, i: nat, net: Net)
    requires k < |w.ctxs| && i < |w.ctxs[k].msgsOut.inflight| && w.ctxs[k].msgsOut.inflight[i].qos == 2
    requires var d, mid := w.ctxs[k].msgsOut, w.ctxs[k].msgsOut.inflight[i].mid;
      && (forall j :: 0 <= j < |d.inflight| && j != i ==> d.inflight[j].mid != mid)
      && (forall m :: m in d.queued ==> m.mid != mid)
      && var r := Apply(w, RecOk(k, mid, net)); k < |r.ctxs| && CalmRun(r, ops, k, mid)
    ensures var mid := w.ctxs[k].msgsOut.inflight[i].mid; NeverPublished(w, [RecOk(k, mid, net)] + ops, k, mid)
  {
    hide OnPubrec, CalmRun, BrokerAcks.PubrecTaken;
    var mid := w.ctxs[k].msgsOut.inflight[i].mid;
    var op, p := RecOk(k, mid, net), Pair(w.st, w.ctxs[k]);
    BrokerAcks.PubrecEffect(p, mid, net);
    PubrecCommits(p.c, OnPubrec(p, mid, net).c, i, net);
    NeverPublishedAgain(Apply(w, op), ops, k, mid);
    assert ([op] + ops)[1..] == ops;
  }

  // ---------------------------------------------------------------------------------------------
  // The condition
  // ---------------------------------------------------------------------------------------------

  /** A reconnect followed by a write in which every packet is taken and nothing expires publishes a committed message again
      if and only if its PUBREL was still to be sent when the client reconnected, which is so after an earlier reconnect. */
  lemma PublishedAgainIff(c: Ctx, lim: Limits, st: Store, mid: Word, expired: Expiry, net: Net)
    requires AllCommitted(c.msgsOut, mid) && BrokerSends.Reliable(net) && BrokerSends.NoneExpires(expired)
    ensures var q := ResetOutgoing(c, lim);
      var r := WriteOut(Pair(st, q), 0, expired, net).p.c;
      Silent(q.wire, r.wire, mid) <==> NoneToResend(c.msgsOut, mid)
  {
    hide ResetOutgoing, WriteOut, BrokerSends.SentOut, BrokerSends.Reliable, BrokerSends.NoneExpires, NoneToResend, Silent,
         AllCommitted;
    var q := ResetOutgoing(c, lim);
    var r := WriteOut(Pair(st, q), 0, expired, net);
    BrokerSends.WriteOutSends(Pair(st, q), expired, net);
    if NoneToResend(c.msgsOut, mid) {
      ResetCommitted(c, lim, mid);
      SentOutCommitted(q, r.p.c, r.rc, expired, net, mid);
    } else {
      ResentPublish(c, lim, st, mid, expired, net);
    }
  }

  /** A message whose PUBREL was still to be sent */
  lemma ResentPublish(c: Ctx, lim: Limits, st: Store, mid: Word, expired: Expiry, net: Net)
    requires AllCommitted(c.msgsOut, mid) && !NoneToResend(c.msgsOut, mid)
    requires BrokerSends.Reliable(net) && BrokerSends.NoneExpires(expired)
    ensures var q := ResetOutgoing(c, lim);
      !Silent(q.wire, WriteOut(Pair(st, q), 0, expired, net).p.c.wire, mid)
  {
    hide ResetOutgoing, WriteOut, BrokerSends.SentOut, BrokerSends.Reliable, BrokerSends.NoneExpires, BrokerSends.AllOwed,
         BrokerSends.AllHandled, BrokerFifo.Promoted, BrokerCounters.Fitting, BrokerCounters.Weigh;
    var q := ResetOutgoing(c, lim);
    var r := WriteOut(Pair(st, q), 0, expired, net);
    var m :| m in c.msgsOut.inflight && m.mid == mid && m.state == ResendPubrel;
    var i :| 0 <= i < |c.msgsOut.inflight| && c.msgsOut.inflight[i] == m;
    BrokerResets.ResetOutgoingRestarts(c, lim);
    var n := q.msgsOut.inflight[i];
    assert BrokerResets.Again(m, n) && n.state == PublishQos2;
    BrokerSends.WriteOutSends(Pair(st, q), expired, net);
    BrokerSends.AllSentOut(q, r.p.c, r.rc, expired, net);
    BrokerSends.OwedGoesOut(q.msgsOut.inflight, i);
    var x, out := Publish(n.mid, n.qos, n.store, n.dup), BrokerSends.AllOwed(q.msgsOut.inflight);
    assert x in out;
    var j :| 0 <= j < |out| && out[j] == x;
    assert r.p.c.wire[|q.wire| + j] == x;
  }
}
