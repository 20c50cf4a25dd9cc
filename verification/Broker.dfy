/** The broker as code: one message store and its clients, served one operation after another. What BrokerWorld and
    BrokerRuns prove of every run on values holds of every run of this code. */
module Broker {
  import opened MosqTypes
  import opened BrokerDb
  import opened BrokerDbMethods
  import opened BrokerWorld
  import BrokerRefs
  import BrokerCounters
  import BrokerRuns
  import BrokerAcks
  import BrokerKept
  import BrokerOrder

  /** The operations that work on one client. */
  predicate OfClient(op: Op) {
    match op
    case Arrive(_, _, _, _, _, _) => false
    case StoreMessage(_, _, _, _) => false
    case Hold(_) => false
    case LetGo(_) => false
    case TakeOver(_, _) => false
    case Compact => false
    case _ => true
  }

  /** struct mosquitto_db with its contexts; held are the references of retained messages and of messages being
      routed. */
  class Server {
    const db: Db
    var contexts: seq<Context>
    var held: multiset<Message>

    /** No context is listed twice. */
    ghost predicate Valid()
      reads this
    {
      forall i, j :: 0 <= i < j < |contexts| ==> contexts[i] != contexts[j]
    }

    ghost function Views(): (r: seq<Ctx>)
      reads this, contexts
      ensures |r| == |contexts| && forall i :: 0 <= i < |r| ==> r[i] == contexts[i].View()
    {
      seq(|contexts|, i requires 0 <= i < |contexts| reads this, contexts => contexts[i].View())
    }

    ghost function View(): World
      reads this, db, contexts
    {
      World(db.View(), Views(), held, db.lim)
    }

    constructor (lim: Limits)
      ensures Valid() && View() == Start(lim) && fresh(db) && contexts == []
    {
      db := new Db(lim);
      contexts, held := [], multiset{};
    }

    /** An operation on client k */
    method ServeClient(k: nat, op: Op)
      requires Valid() && OfClient(op) && k == op.k < |contexts|
      requires op.InsertFor? ==> op.s in db.entries
      modifies db, contexts
      ensures Pair(db.View(), contexts[k].View()) == OnClient(old(db.With(contexts[k])), db.lim, op)
      ensures forall i :: 0 <= i < |contexts| && i != k ==> contexts[i].View() == old(contexts[i].View())
    {
      hide BrokerRefs.Keeps, BrokerRefs.KeepsRefs, BrokerCounters.CtxOk, BrokerCounters.FlowOk;
      hide OnClient, BrokerRefs.Good, BrokerRefs.Refs;
      if OfConnection(op) {
        ServeConnection(k, op);
      } else {
        ServeLists(k, op);
      }
    }

    /** Connection and receive quota, replies, and the acknowledgements of what the client was sent */
    predicate OfConnection(op: Op) {
      op.Disconnect? || op.TakeReceiveQuota? || op.GiveReceiveQuota? || op.Reply? || op.Acked? || op.RecOk? || op.RecError?
    }

    method ServeConnection(k: nat, op: Op)
      requires Valid() && OfConnection(op) && k == op.k < |contexts|
      modifies db, contexts
      ensures Pair(db.View(), contexts[k].View()) == OnClient(old(db.With(contexts[k])), db.lim, op)
      ensures forall i :: 0 <= i < |contexts| && i != k ==> contexts[i].View() == old(contexts[i].View())
    {
      hide BrokerRefs.Keeps, BrokerRefs.KeepsRefs, BrokerCounters.CtxOk, BrokerCounters.FlowOk;
      hide OnAck, OnPubrec, OnPubrecError, BrokerAcks.Deleted, BrokerAcks.PubrecTaken, BrokerAcks.PubrecRc, BrokerAcks.Grown;
      hide BrokerCounters.Outstanding;
      var c := contexts[k];
      match op
      case Disconnect(_) =>
        c.connected := false;
      case TakeReceiveQuota(_) =>
        c.TakeReceiveQuota();
      case GiveReceiveQuota(_) =>
        c.GiveReceiveQuota();
      case Reply(_, m, net) =>
        var _ := c.Send(m, net);
      case Acked(_, mid, qos) =>
        var _ := db.HandlePubackcomp(c, mid, qos);
      case RecOk(_, mid, net) =>
        var _ := db.HandlePubrec(c, mid, false, net);
      case RecError(_, mid) =>
        var _ := db.HandlePubrec(c, mid, true, (_) => Success);
    }

    method ServeLists(k: nat, op: Op)
      requires Valid() && OfClient(op) && k == op.k < |contexts| && !OfConnection(op)
      requires op.InsertFor? ==> op.s in db.entries
      modifies db, contexts
      ensures Pair(db.View(), contexts[k].View()) == OnClient(old(db.With(contexts[k])), db.lim, op)
      ensures forall i :: 0 <= i < |contexts| && i != k ==> contexts[i].View() == old(contexts[i].View())
    {
      hide BrokerRefs.Keeps, BrokerRefs.KeepsRefs, BrokerCounters.CtxOk, BrokerCounters.FlowOk;
      hide Insert, ReleaseIncoming, Write, ReconnectReset, DeleteAll, AclPurge;
      var c := contexts[k];
      match op
      case InsertFor(_, mid, dir, qos, retain, s) =>
        var _ := db.Insert(c, mid, dir, qos, retain, s);
      case Rel(_, mid, routes, net) =>
        var _, _ := db.ReleaseIncoming(c, mid, routes, net);
      case WriteTo(_, expired, net) =>
        var _ := db.Write(c, expired, net);
      case Reset(_) =>
        db.ReconnectReset(c);
      case DeleteFor(_) =>
        db.MessagesDelete(c);
      case CheckAcl(_, denied) =>
        db.CheckAcls(c, denied);
    }

    method ServeOn(op: Op)
      requires Valid() && Enabled(View(), op) && OfClient(op)
      modifies db, contexts
      ensures View() == Apply(old(View()), op)
    {
      hide OnClient;
      ServeClient(op.k, op);
      assert Views() == old(Views())[op.k := contexts[op.k].View()];
    }

    /** A session takeover between two clients */
    method ServeTakeOver(found: nat, k: nat)
      requires Valid() && Enabled(View(), TakeOver(found, k))
      modifies db, contexts
      ensures View() == Apply(old(View()), TakeOver(found, k))
    {
      hide BrokerRefs.Good, BrokerRefs.Refs, Takeover;
      var f, c := contexts[found], contexts[k];
      assert f != c;
      db.TakeOver(f, c);
      assert Views() == old(Views())[found := f.View()][k := c.View()];
    }

    /** A new connection */
    method ServeArrive(id: Option<string>, v5: bool, maximumQos: AnyQos, lazyBridge: bool,
                       maximumIn: Word, maximumOut: Word)
      requires Valid()
      modifies this`contexts
      ensures Valid() && View() == Apply(old(View()), Arrive(id, v5, maximumQos, lazyBridge, maximumIn, maximumOut))
      ensures old(contexts) <= contexts && |contexts| == |old(contexts)| + 1 && fresh(contexts[|old(contexts)|])
    {
      var c := new Context(id, v5, maximumQos, lazyBridge, maximumIn, maximumOut);
      contexts := contexts + [c];
      assert Views() == old(Views()) + [c.View()];
    }

    method ServeHold(s: Message)
      requires Valid() && s in db.entries
      modifies this`held, db
      ensures View() == Apply(old(View()), Hold(s))
    {
      hide BrokerRefs.Good, RefInc;
      db.RefInc(s);
      held := held + multiset{s};
      assert Views() == old(Views());
    }

    method ServeLetGo(s: Message)
      requires Valid() && s in held
      modifies this`held, db
      ensures View() == Apply(old(View()), LetGo(s))
    {
      hide BrokerRefs.Good, RefDec;
      db.RefDec(s);
      held := held - multiset{s};
      assert Views() == old(Views());
    }

    /** A new message, and the removal of those that no one refers to */
    method ServeStore(op: Op)
      requires Valid() && (op.StoreMessage? || op.Compact?)
      modifies db
      ensures View() == Apply(old(View()), op)
    {
      hide BrokerRefs.Good, Compacted, StoreAdd, NewMessage;
      if op.StoreMessage? {
        var _ := db.MessageStore(op.payloadLen, op.qos, op.sourceMid, op.content);
      } else {
        db.Compact();
      }
      assert Views() == old(Views());
    }

    /** Whatever a caller may ask for in this state is done as Apply says, and keeps the references conserved. */
    method Serve(op: Op)
      requires Valid() && Enabled(View(), op)
      modifies this, db, contexts
      ensures Valid() && View() == Apply(old(View()), op)
      ensures forall i :: 0 <= i < |contexts| ==> contexts[i] in old(contexts) || fresh(contexts[i])
      ensures old(RefsOk(View())) ==> RefsOk(View())
    {
      hide RefsOk, Apply;
      if RefsOk(View()) {
        ApplyKeepsRefs(View(), op);
      }
      if op.Arrive? {
        ServeArrive(op.id, op.v5, op.maximumQos, op.lazyBridge, op.maximumIn, op.maximumOut);
      } else if op.TakeOver? {
        ServeTakeOver(op.found, op.k);
      } else if OfClient(op) {
        ServeOn(op);
      } else if op.Hold? {
        ServeHold(op.s);
      } else if op.LetGo? {
        ServeLetGo(op.s);
      } else {
        ServeStore(op);
      }
    }

    /** Any sequence of operations. The theorems about runs hold of the state it leaves. */
    method ServeAll(ops: seq<Op>)
      requires Valid() && EnabledRun(View(), ops)
      modifies this, db, contexts
      ensures Valid() && View() == Run(old(View()), ops)
      ensures old(RefsOk(View())) ==> RefsOk(View())
      ensures old(BrokerRuns.AllCountersOk(View()) && BrokerRuns.CounterSafeRun(View(), ops)) ==>
        BrokerRuns.AllCountersOk(View())
      ensures old(BrokerOrder.AllInOrder(View()) && BrokerOrder.OrderSafeRun(View(), ops)) ==>
        BrokerOrder.AllInOrder(View())
      ensures forall k :: 0 <= k < old(|contexts|) && old(FlowSafeFrom(View(), ops, k)) ==>
        k < |contexts| && BrokerCounters.FlowOk(contexts[k].msgsOut)
      ensures KeptBy(old(View()), ops, View())
    {
      hide RefsOk, Apply, Enabled, KeptBy;
      var left := ops;
      while left != []
        invariant Valid() && EnabledRun(View(), left) && Run(View(), left) == Run(old(View()), ops)
        invariant old(RefsOk(View())) ==> RefsOk(View())
        invariant forall i :: 0 <= i < |contexts| ==> contexts[i] in old(contexts) || fresh(contexts[i])
        decreases |left|
      {
        Serve(left[0]);
        left := left[1..];
      }
      RunMeans(old(View()), ops);
      RunKeeps(old(View()), ops);
    }
  }

  /** The caller's side of every operation of a run */
  predicate EnabledRun(w: World, ops: seq<Op>)
    decreases |ops|
  {
    ops == [] || (Enabled(w, ops[0]) && EnabledRun(Apply(w, ops[0]), ops[1..]))
  }

  /** Client k starts within the flow-control bound and behaves. */
  ghost predicate FlowSafeFrom(w: World, ops: seq<Op>, k: nat)
    requires k < |w.ctxs|
  {
    BrokerCounters.FlowOk(w.ctxs[k].msgsOut) && BrokerRuns.FlowSafeRun(w, ops, k)
  }

  /** Every message for a client that is not done with is still there. */
  ghost predicate KeptBy(w: World, ops: seq<Op>, r: World) {
    forall k: nat, mid: Word, s: Message ::
      (k < |w.ctxs| && BrokerKept.Present(w.ctxs[k].msgsOut, mid, s) && BrokerKept.NotDoneRun(w, ops, k, mid, s)) ==>
        var h := BrokerKept.HolderAfter(w, ops, k);
        h < |r.ctxs| && BrokerKept.Present(r.ctxs[h].msgsOut, mid, s)
  }

  lemma RunKeeps(w: World, ops: seq<Op>)
    ensures KeptBy(w, ops, Run(w, ops))
  {
    hide Run, BrokerKept.Present, BrokerKept.NotDoneRun, BrokerKept.HolderAfter;
    forall k: nat, mid: Word, s: Message
      | k < |w.ctxs| && BrokerKept.Present(w.ctxs[k].msgsOut, mid, s) && BrokerKept.NotDoneRun(w, ops, k, mid, s)
      ensures var r, h := Run(w, ops), BrokerKept.HolderAfter(w, ops, k);
        h < |r.ctxs| && BrokerKept.Present(r.ctxs[h].msgsOut, mid, s)
    {
      BrokerKept.KeptUntilAcknowledged(w, ops, k, mid, s);
    }
  }

  lemma RunMeans(w: World, ops: seq<Op>)
    ensures BrokerRuns.AllCountersOk(w) && BrokerRuns.CounterSafeRun(w, ops) ==> BrokerRuns.AllCountersOk(Run(w, ops))
    ensures BrokerOrder.AllInOrder(w) && BrokerOrder.OrderSafeRun(w, ops) ==> BrokerOrder.AllInOrder(Run(w, ops))
    ensures forall k :: 0 <= k < |w.ctxs| && FlowSafeFrom(w, ops, k) ==>
      k < |Run(w, ops).ctxs| && BrokerCounters.FlowOk(Run(w, ops).ctxs[k].msgsOut)
  {
    hide BrokerRuns.AllCountersOk, BrokerRuns.CounterSafeRun, BrokerRuns.FlowSafeRun, BrokerCounters.FlowOk, Run;
    hide BrokerOrder.AllInOrder, BrokerOrder.OrderSafeRun;
    if BrokerOrder.AllInOrder(w) && BrokerOrder.OrderSafeRun(w, ops) {
      BrokerOrder.RunKeepsOrder(w, ops);
    }
    if BrokerRuns.AllCountersOk(w) && BrokerRuns.CounterSafeRun(w, ops) {
      BrokerRuns.RunKeepsCounters(w, ops);
    }
    forall k | 0 <= k < |w.ctxs| && FlowSafeFrom(w, ops, k)
      ensures k < |Run(w, ops).ctxs| && BrokerCounters.FlowOk(Run(w, ops).ctxs[k].msgsOut)
    {
      BrokerRuns.FlowControlled(w, ops, k);
    }
  }
}
