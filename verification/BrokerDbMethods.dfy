/** src/database.c as code over mutable structures: each method leaves exactly the state that the specification
    function of BrokerDb.dfy computes from the old one, and says what that means for its caller: references stay
    conserved, counters and the flow-control bound stay right, queues move from the head. */
module BrokerDbMethods {
  import opened MosqTypes
  import opened BrokerDb
  import opened BrokerRefs
  import opened BrokerCounters
  import opened BrokerFifo
  import BrokerSends
  import BrokerAnswers
  import BrokerAcks
  import BrokerResets
  import BrokerInserts
  import BrokerWrites

  /** struct mosquitto in the broker */
  class Context {
    var id: Option<string>
    var connected: bool
    var v5: bool
    var maximumQos: AnyQos
    var lazyBridge: bool
    var msgsIn: MsgData
    var msgsOut: MsgData
    var wire: seq<ToClient>

    constructor (id: Option<string>, v5: bool, maximumQos: AnyQos, lazyBridge: bool, maximumIn: Word, maximumOut: Word)
      ensures View() == NewCtx(id, v5, maximumQos, lazyBridge, maximumIn, maximumOut)
      ensures connected && BrokerResets.Empty(View()) && wire == []
      ensures msgsIn.quota == msgsIn.maximum == maximumIn && msgsOut.quota == msgsOut.maximum == maximumOut
    {
      this.id, this.v5, this.maximumQos, this.lazyBridge := id, v5, maximumQos, lazyBridge;
      connected, wire := true, [];
      msgsIn, msgsOut := NoMessages(maximumIn), NoMessages(maximumOut);
    }

    function View(): Ctx
      reads this
    {
      Ctx(id, connected, v5, maximumQos, lazyBridge, msgsIn, msgsOut, wire)
    }

    method Send(m: ToClient, net: Net) returns (rc: Rc)
      modifies this`wire
      ensures rc == net(m) && View() == SentTo(old(View()), m, net)
    {
      rc := net(m);
      if rc == Success {
        wire := wire + [m];
      }
    }

    /** send__pubcomp */
    method SendPubcomp(mid: Word, net: Net) returns (rc: Rc)
      modifies this`wire, this`msgsIn
      ensures rc == net(Pubcomp(mid)) && View() == PubcompSent(old(View()), mid, net)
    {
      GiveReceiveQuota();
      rc := Send(Pubcomp(mid), net);
    }

    /** db__message_dequeue_first, both directions */
    method DequeueFirst(dir: Direction)
      requires Data(View(), dir).queued != []
      modifies this`msgsIn, this`msgsOut
      ensures View() == WithData(old(View()), dir, BrokerDb.DequeueFirst(Data(old(View()), dir)))
      ensures HeadMoved(Data(old(View()), dir), Data(View(), dir))
    {
      hide HeadMoved;
      DequeueFirstMoves(Data(View(), dir));
      var d := if dir == In then msgsIn else msgsOut;
      var msg := d.queued[0];
      d := d.(queued := d.queued[1..], inflight := d.inflight + [msg]);
      if d.quota > 0 {
        d := d.(quota := d.quota - 1);
      }
      if dir == In {
        msgsIn := d;
      } else {
        msgsOut := d;
      }
    }

    /** util__decrement_receive_quota */
    method TakeReceiveQuota()
      modifies this`msgsIn
      ensures View() == old(View()).(msgsIn := QuotaTaken(old(msgsIn)))
      ensures msgsIn == old(msgsIn).(quota := if old(msgsIn.quota) > 0 then old(msgsIn.quota) - 1 else old(msgsIn.quota))
    {
      if msgsIn.quota > 0 {
        msgsIn := msgsIn.(quota := msgsIn.quota - 1);
      }
    }

    /** util__increment_receive_quota */
    method GiveReceiveQuota()
      modifies this`msgsIn
      ensures View() == old(View()).(msgsIn := QuotaGiven(old(msgsIn)))
      ensures var d := old(msgsIn); msgsIn == if d.quota < d.maximum then d.(quota := d.quota + 1) else d
    {
      if msgsIn.quota < msgsIn.maximum {
        msgsIn := msgsIn.(quota := msgsIn.quota + 1);
      }
    }

    /** db__message_update_outgoing */
    method UpdateOutgoing(mid: Word, state: MsgState, qos: AnyQos, ghost st: Store) returns (rc: Rc)
      modifies this`msgsOut
      ensures Result(Pair(st, View()), rc) == BrokerDb.UpdateOutgoing(Pair(st, old(View())), mid, state, qos)
      ensures var d := old(msgsOut);
        var k := Find(d.inflight, mid);
        && rc == (if k == |d.inflight| then NotFound else if d.inflight[k].qos != qos then Protocol else Success)
        && msgsOut == if rc == Success then d.(inflight := d.inflight[k := d.inflight[k].(state := state)]) else d
    {
      var i := 0;
      while i < |msgsOut.inflight|
        invariant 0 <= i <= |msgsOut.inflight| && View() == old(View())
        invariant forall j :: 0 <= j < i ==> msgsOut.inflight[j].mid != mid
      {
        if msgsOut.inflight[i].mid == mid {
          if msgsOut.inflight[i].qos != qos {
            return Protocol;
          }
          msgsOut := SetInflightState(msgsOut, i, state);
          return Success;
        }
        i := i + 1;
      }
      return NotFound;
    }

    /** db__message_store_find */
    method StoreFind(mid: Word) returns (found: Option<Message>)
      ensures found == SourceFind(View(), mid) && BrokerAcks.FoundFirst(View(), mid, found)
    {
      hide BrokerAcks.FoundFirst;
      BrokerAcks.SourceFindsFirst(View(), mid);
      var i := 0;
      while i < |msgsIn.inflight|
        invariant 0 <= i <= |msgsIn.inflight|
        invariant FirstFrom(msgsIn.inflight, i, mid) == FirstFrom(msgsIn.inflight, 0, mid)
      {
        if msgsIn.inflight[i].store.sourceMid == mid {
          return Some(msgsIn.inflight[i].store);
        }
        i := i + 1;
      }
      i := 0;
      while i < |msgsIn.queued|
        invariant 0 <= i <= |msgsIn.queued|
        invariant FirstFrom(msgsIn.queued, i, mid) == FirstFrom(msgsIn.queued, 0, mid)
      {
        if msgsIn.queued[i].store.sourceMid == mid {
          return Some(msgsIn.queued[i].store);
        }
        i := i + 1;
      }
      return None;
    }

    /** Second loop of db__message_delete_outgoing */
    method PromoteOut(inFlight: nat)
      modifies this`msgsIn, this`msgsOut
      ensures View() == old(View()).(msgsOut := PromoteUpTo(old(msgsOut), 0, inFlight))
      ensures var d := old(msgsOut);
        Promoted(d, msgsOut, Room(d.maximum, inFlight, |d.queued|), ByQos())
    {
      hide Promoted, HeadMoved;
      var cursor, index: nat := 0, inFlight;
      while cursor < |msgsOut.queued|
        invariant 0 <= cursor <= |msgsOut.queued|
        invariant View() == old(View()).(msgsOut := msgsOut)
        invariant PromoteUpTo(msgsOut, cursor, index) == PromoteUpTo(old(msgsOut), 0, inFlight)
        decreases |msgsOut.queued| - cursor
      {
        if msgsOut.maximum != 0 && index >= msgsOut.maximum {
          break;
        }
        index := index + 1;
        msgsOut := SetQueuedState(msgsOut, cursor, PublishState(msgsOut.queued[cursor].qos));
        DequeueFirst(Out);
      }
      PromoteUpToFifo(old(msgsOut), inFlight);
    }

    /** Second loop of db__message_release_incoming */
    method PromoteIn(inFlight: nat, net: Net)
      modifies this`msgsIn, this`msgsOut, this`wire
      ensures View() == ReleaseQueued(old(View()), 0, inFlight, net)
      ensures var d := old(msgsIn);
        AllQos2(d.queued) ==>
          && Promoted(d, msgsIn, Room(d.maximum, inFlight, |d.queued|), ToPubrel())
          && wire == old(wire) + BrokerAnswers.Taken(
               BrokerAnswers.Pubrecs(d.queued[..Room(d.maximum, inFlight, |d.queued|)]), net)
    {
      hide Promoted, HeadMoved, AllQos2, BrokerAnswers.Taken, BrokerAnswers.Pubrecs;
      var cursor, index: nat := 0, inFlight;
      while cursor < |msgsIn.queued|
        invariant 0 <= cursor <= |msgsIn.queued|
        invariant ReleaseQueued(View(), cursor, index, net) == ReleaseQueued(old(View()), 0, inFlight, net)
        decreases |msgsIn.queued| - cursor
      {
        if msgsIn.maximum != 0 && index >= msgsIn.maximum {
          break;
        }
        index := index + 1;
        if msgsIn.queued[cursor].qos == 2 {
          var _ := Send(Pubrec(msgsIn.queued[cursor].mid), net);
          msgsIn := SetQueuedState(msgsIn, cursor, WaitForPubrel);
          DequeueFirst(In);
        } else {
          cursor := cursor + 1;
        }
      }
      if AllQos2(old(msgsIn.queued)) {
        ReleaseQueuedFifo(old(View()), inFlight, net);
        BrokerAnswers.ReleaseQueuedSends(old(View()), inFlight, net);
      }
    }

    /** Third loop of db__message_write */
    method WriteQueuedIn(net: Net) returns (rc: Rc)
      modifies this`msgsIn, this`msgsOut, this`wire
      ensures (View(), rc) == WriteInQueued(old(View()), 0, net)
      ensures PubrecsFollow(old(View()), msgsIn, rc, net)
      ensures BrokerAnswers.UpAnswered(old(View()), wire, net)
    {
      hide PubrecsFollow, HeadMoved, BrokerAnswers.UpAnswered;
      WriteInQueuedFollows(View(), net);
      BrokerAnswers.WriteInQueuedAnswers(View(), net);
      var cursor := 0;
      while cursor < |msgsIn.queued|
        invariant 0 <= cursor <= |msgsIn.queued|
        invariant WriteInQueued(View(), cursor, net) == WriteInQueued(old(View()), 0, net)
        decreases |msgsIn.queued| - cursor
      {
        if msgsOut.maximum != 0 && msgsIn.quota == 0 {
          break;
        }
        if msgsIn.queued[cursor].qos == 2 {
          var mid := msgsIn.queued[cursor].mid;
          msgsIn := SetQueuedState(msgsIn, cursor, SendPubrec);
          DequeueFirst(In);
          rc := Send(Pubrec(mid), net);
          if rc != Success {
            return;
          }
          msgsIn := if cursor == 0 then SetInflightState(msgsIn, |msgsIn.inflight| - 1, WaitForPubrel)
                    else SetQueuedState(msgsIn, cursor - 1, WaitForPubrel);
        } else {
          cursor := cursor + 1;
        }
      }
      return Success;
    }

    /** Fourth loop of db__message_write */
    method WriteQueuedOut()
      modifies this`msgsIn, this`msgsOut
      ensures View() == old(View()).(msgsOut := WriteOutQueued(old(msgsOut), 0))
      ensures Promoted(old(msgsOut), msgsOut, Allowed(old(msgsOut), old(msgsOut.maximum)), ByQos())
      ensures old(CountersOk(msgsOut)) ==> CountersOk(msgsOut)
      ensures old(FlowOk(msgsOut)) ==> FlowOk(msgsOut)
    {
      hide Promoted, CountersOk, FlowOk, HeadMoved;
      WriteOutQueuedFifo(msgsOut);
      WriteOutQueuedOk(msgsOut, 0);
      var cursor := 0;
      while cursor < |msgsOut.queued|
        invariant 0 <= cursor <= |msgsOut.queued|
        invariant View() == old(View()).(msgsOut := msgsOut)
        invariant WriteOutQueued(msgsOut, cursor) == WriteOutQueued(old(msgsOut), 0)
        decreases |msgsOut.queued| - cursor
      {
        if msgsOut.maximum != 0 && msgsOut.quota == 0 {
          break;
        }
        msgsOut := SetQueuedState(msgsOut, cursor, PublishState(msgsOut.queued[cursor].qos));
        DequeueFirst(Out);
      }
    }

    /** The in-flight loop of db__message_reconnect_reset_outgoing, and its queue loop */
    method ResetOutgoing(lim: Limits)
      modifies this`msgsIn, this`msgsOut
      ensures View() == BrokerDb.ResetOutgoing(old(View()), lim)
      ensures CountersOk(msgsOut)
      ensures FlowOk(msgsOut) <==> FlowSurvives(old(msgsOut), lim)
      ensures BrokerResets.OutRestarted(old(View()), View(), lim)
    {
      hide CountersOk, FlowOk, FlowSurvives, QueueReset, BrokerResets.OutRestarted;
      msgsOut := Refilled(msgsOut);
      ghost var start := View();
      var i := 0;
      while i < |msgsOut.inflight|
        invariant 0 <= i <= |msgsOut.inflight|
        invariant ResetOutInflight(View(), i) == ResetOutInflight(start, 0)
      {
        var msg := msgsOut.inflight[i];
        msgsOut := Counted(msgsOut, msg);
        if msg.qos > 0 {
          msgsIn := msgsIn.(quota := Decremented(msgsIn.quota));
        }
        msgsOut := SetInflightState(msgsOut, i, OutResetState(msg));
        i := i + 1;
      }
      ResetQueueLoop(Out, lim);
      ReconnectFlow(old(View()), lim);
      ResetOutgoingCounters(old(View()), lim);
      BrokerResets.ResetOutgoingRestarts(old(View()), lim);
    }

    /** The queue loop of both reconnect functions */
    method ResetQueueLoop(dir: Direction, lim: Limits)
      modifies this`msgsIn, this`msgsOut
      ensures View() == WithData(old(View()), dir, ResetQueue(Data(old(View()), dir), lim, 0))
      ensures QueueReset(Data(old(View()), dir), Data(View(), dir), lim)
    {
      hide QueueReset, HeadMoved;
      var cursor := 0;
      while cursor < |Data(View(), dir).queued|
        invariant 0 <= cursor <= |Data(View(), dir).queued|
        invariant ResetQueue(Data(View(), dir), lim, cursor) == ResetQueue(Data(old(View()), dir), lim, 0)
        invariant View() == WithData(old(View()), dir, Data(View(), dir))
        decreases |Data(View(), dir).queued| - cursor
      {
        var d := Data(View(), dir);
        var msg := d.queued[cursor];
        d := Counted(d, msg);
        if ReadyForFlight(d, lim, msg.qos) {
          d := SetQueuedState(d, cursor, PublishState(msg.qos));
          if dir == In { msgsIn := d; } else { msgsOut := d; }
          DequeueFirst(dir);
        } else {
          if dir == In { msgsIn := d; } else { msgsOut := d; }
          cursor := cursor + 1;
        }
      }
      ResetQueueResets(Data(old(View()), dir), lim);
    }
  }

  /** struct mosquitto_db, message store part */
  class Db {
    var order: seq<Message>
    var entries: map<Message, Entry>
    var count: int
    var bytes: int
    var lastId: nat
    const lim: Limits

    constructor (lim: Limits)
      ensures View() == Store([], map[], 0, 0, 0) && this.lim == lim
    {
      order, entries, count, bytes, lastId := [], map[], 0, 0, 0;
      this.lim := lim;
    }

    function View(): Store
      reads this
    {
      Store(order, entries, count, bytes, lastId)
    }

    ghost function With(c: Context): Pair
      reads this, c
    {
      Pair(View(), c.View())
    }

    /** db__msg_store_ref_inc, on a message that is in the store */
    method RefInc(s: Message)
      requires s in entries
      modifies this`entries
      ensures View() == BrokerDb.RefInc(old(View()), s)
      ensures forall refs :: Good(old(View()), refs) ==> Good(View(), refs + multiset{s})
    {
      hide Good;
      forall refs | Good(View(), refs)
        ensures Good(BrokerDb.RefInc(View(), s), refs + multiset{s})
      {
        RefIncGood(View(), s, refs);
      }
      entries := entries[s := entries[s].(refCount := entries[s].refCount + 1)];
    }

    /** db__msg_store_ref_dec; a message that is no longer stored would be a dangling pointer */
    method RefDec(s: Message)
      modifies this
      ensures View() == BrokerDb.RefDec(old(View()), s)
      ensures forall refs :: Good(old(View()), refs + multiset{s}) ==> Good(View(), refs)
    {
      hide Good;
      forall refs | Good(View(), refs + multiset{s})
        ensures Good(BrokerDb.RefDec(View(), s), refs)
      {
        RefDecGood(View(), s, refs);
      }
      if s in entries {
        var left := entries[s].refCount - 1;
        if left == 0 {
          order := Unlinked(order, s);
          entries := entries - {s};
          count := count - 1;
          bytes := bytes - s.payloadLen;
        } else {
          entries := entries[s := entries[s].(refCount := left)];
        }
      }
    }

    /** db__message_store */
    method MessageStore(payloadLen: nat, qos: AnyQos, sourceMid: Word, content: nat) returns (s: Message)
      modifies this
      ensures s == NewMessage(old(View()), payloadLen, qos, sourceMid, content)
      ensures View() == StoreAdd(old(View()), s)
      ensures forall refs :: Good(old(View()), refs) ==> s !in old(entries) && Good(View(), refs)
    {
      hide Good;
      forall refs | Good(View(), refs)
        ensures var s := NewMessage(View(), payloadLen, qos, sourceMid, content);
          s !in entries && Good(StoreAdd(View(), s), refs)
      {
        StoreAddGood(View(), payloadLen, qos, sourceMid, content, refs);
      }
      s := Message(lastId + 1, payloadLen, qos, sourceMid, content);
      count := count + 1;
      bytes := bytes + payloadLen;
      lastId := lastId + 1;
      order := [s] + order;
      entries := entries[s := Entry(0, [])];
    }

    /** db__message_remove */
    method Remove(c: Context, dir: Direction, i: nat)
      requires i < |Data(c.View(), dir).inflight|
      modifies this, c`msgsIn, c`msgsOut
      ensures With(c) == BrokerDb.Remove(old(With(c)), dir, i)
      ensures Keeps(old(With(c)), With(c))
      ensures StaysOk(Data(old(c.View()), dir), Data(c.View(), dir))
    {
      hide Keeps, StaysOk;
      RemoveKeeps(With(c), dir, i);
      DropOk(Data(c.View(), dir), i);
      var d := Data(c.View(), dir);
      var item := d.inflight[i];
      d := d.(inflight := Without(d.inflight, i));
      d := d.(msgCount := d.msgCount - 1, msgBytes := d.msgBytes - item.store.payloadLen);
      if item.qos > 0 {
        d := d.(msgCount12 := d.msgCount12 - 1, msgBytes12 := d.msgBytes12 - item.store.payloadLen);
      }
      if dir == In { c.msgsIn := d; } else { c.msgsOut := d; }
      RefDec(item.store);
    }

    /** db__message_delete_outgoing */
    method DeleteOutgoing(c: Context, mid: Word, wanted: MsgState, qos: AnyQos) returns (rc: Rc)
      modifies this, c`msgsIn, c`msgsOut
      ensures Result(With(c), rc) == BrokerDb.DeleteOutgoing(old(With(c)), mid, wanted, qos)
      ensures Keeps(old(With(c)), With(c))
      ensures old(CtxOk(c.View())) ==> CtxOk(c.View())
      ensures BrokerAcks.Deleted(old(c.View()), c.View(), rc, mid, wanted, qos)
    {
      hide Keeps, FlowOk, CtxOk, StaysOk, Promoted, BrokerAcks.Deleted;
      DeleteOutgoingKeeps(With(c), mid, wanted, qos);
      BrokerAcks.DeleteOutgoingDeletes(With(c), mid, wanted, qos);
      if CtxOk(c.View()) {
        DeleteOutgoingCounters(With(c), mid, wanted, qos);
      }
      var i, index := 0, 0;
      while i < |c.msgsOut.inflight|
        invariant 0 <= i == index <= |c.msgsOut.inflight|
        invariant DeleteMatching(With(c), i, mid, wanted, qos) == DeleteMatching(old(With(c)), 0, mid, wanted, qos)
        decreases |c.msgsOut.inflight| - i
      {
        index := index + 1;
        if c.msgsOut.inflight[i].mid == mid {
          if c.msgsOut.inflight[i].qos != qos {
            return Protocol;
          } else if qos == 2 && c.msgsOut.inflight[i].state != wanted {
            return Protocol;
          }
          index := index - 1;
          Remove(c, Out, i);
        } else {
          i := i + 1;
        }
      }
      c.PromoteOut(index);
      return Success;
    }

    /** handle__pubackcomp: the send quota grows before the identifier is looked up. The bound holds all the same if the
        peer acknowledges what is outstanding. */
    method HandlePubackcomp(c: Context, mid: Word, qos: AnyQos) returns (rc: Rc)
      modifies this, c`msgsIn, c`msgsOut
      ensures Result(With(c), rc) == OnAck(old(With(c)), mid, qos)
      ensures old(FlowOk(c.msgsOut)) && qos > 0 && old(Outstanding(c.msgsOut, mid, WaitForPubcomp, qos)) ==>
        rc == Success && FlowOk(c.msgsOut)
      ensures BrokerAcks.Deleted(BrokerAcks.Grown(old(c.View())), c.View(), rc, mid, WaitForPubcomp, qos)
    {
      hide Keeps, CtxOk, FlowOk, Outstanding, Promoted, BrokerAcks.Deleted;
      if FlowOk(c.msgsOut) && qos > 0 && Outstanding(c.msgsOut, mid, WaitForPubcomp, qos) {
        AckFlow(With(c), mid, qos);
      }
      if c.msgsOut.quota < c.msgsOut.maximum {
        c.msgsOut := c.msgsOut.(quota := c.msgsOut.quota + 1);
      }
      rc := DeleteOutgoing(c, mid, WaitForPubcomp, qos);
    }

    /** handle__pubrec */
    method HandlePubrec(c: Context, mid: Word, failed: bool, net: Net) returns (rc: Rc)
      modifies this, c`msgsIn, c`msgsOut, c`wire
      ensures With(c) == if failed then OnPubrecError(old(With(c)), mid).p else OnPubrec(old(With(c)), mid, net)
      ensures old(FlowOk(c.msgsOut)) ==> FlowOk(c.msgsOut)
      ensures if failed then BrokerAcks.Deleted(old(c.View()), c.View(), rc, mid, WaitForPubrec, 2)
              else BrokerAcks.PubrecTaken(old(c.View()), c.View(), mid, net) && rc == BrokerAcks.PubrecRc(old(c.View()), mid, net)
    {
      hide Keeps, CtxOk, FlowOk, CountersOk, Promoted, BrokerAcks.Deleted;
      if failed {
        if FlowOk(c.msgsOut) {
          PubrecErrorFlow(With(c), mid);
        }
        rc := DeleteOutgoing(c, mid, WaitForPubrec, 2);
      } else {
        UpdateOutgoingOk(With(c), mid, WaitForPubcomp, 2);
        rc := c.UpdateOutgoing(mid, WaitForPubcomp, 2, View());
        if rc == Success || rc == NotFound {
          rc := c.Send(Pubrel(mid), net);
        }
      }
    }

    /** Whether this message has been sent to this client before */
    method AlreadySent(s: Message, id: string) returns (found: bool)
      requires s in entries
      ensures found <==> id in DestIds(View(), s)
    {
      var i := 0;
      while i < |entries[s].destIds|
        invariant 0 <= i <= |entries[s].destIds|
        invariant forall j :: 0 <= j < i ==> entries[s].destIds[j] != id
      {
        if entries[s].destIds[i] == id {
          return true;
        }
        i := i + 1;
      }
      return false;
    }

    /** db__message_insert up to the allocation of the new list element */
    method Judge(c: Context, dir: Direction, qos: AnyQos, retain: bool, s: Message) returns (v: Verdict)
      requires s in entries
      ensures v == InsertVerdict(With(c), lim, dir, qos, retain, s)
    {
      if c.id.None? {
        return Dropped(0);
      }
      if !c.v5 && !lim.allowDuplicates && dir == Out && !retain {
        var sent := AlreadySent(s, c.id.value);
        if sent {
          return Dropped(0);
        }
      }
      if !c.connected && qos == 0 && !lim.queueQos0 && !c.lazyBridge {
        return Dropped(2);
      }
      var d := if dir == In then c.msgsIn else c.msgsOut;
      if c.connected {
        if ReadyForFlight(d, lim, qos) {
          if dir == Out {
            return Listed(PublishState(qos), 0);
          } else if qos == 2 {
            return Listed(WaitForPubrel, 0);
          } else {
            return Dropped(1);
          }
        } else if ReadyForQueue(d, true, lim, qos) {
          return Listed(Queued, 2);
        }
      } else if ReadyForQueue(d, false, lim, qos) {
        return Listed(Queued, 0);
      }
      return Dropped(2);
    }

    /** db__message_insert */
    method Insert(c: Context, mid: Word, dir: Direction, qos: AnyQos, retain: bool, s: Message) returns (rc: nat)
      requires s in entries
      modifies this`entries, c`msgsIn, c`msgsOut
      ensures (With(c), rc) == BrokerDb.Insert(old(With(c)), lim, mid, dir, qos, retain, s)
      ensures KeepsRefs(old(With(c)), With(c))
      ensures old(FlowOk(c.msgsOut)) ==> FlowOk(c.msgsOut)
      ensures old(CtxOk(c.View())) ==>
        (CtxOk(c.View()) <==>
          !(qos > 0 && c.maximumQos == 0 && BrokerInserts.Taken(old(With(c)), lim, dir, qos, retain, s)))
      ensures old(CountersOk(Data(c.View(), dir))) ==>
        BrokerInserts.InsertedAs(old(With(c)), With(c), rc, lim, mid, dir, qos, retain, s)
    {
      hide KeepsRefs, FlowOk, CtxOk, Good, ReadyForFlight, ReadyForQueue, BrokerInserts.InsertedAs, BrokerInserts.Taken, CountersOk;
      var v := Judge(c, dir, qos, retain, s);
      if v.Listed? {
        RefInc(s);
        var msg := NewClientMsg(c.View(), mid, qos, v.state, retain, s);
        var d := Appended(if dir == In then c.msgsIn else c.msgsOut, msg);
        d := CountedByAskedQos(d, msg, qos);
        if !lim.allowDuplicates && dir == Out && !retain {
          entries := entries[s := entries[s].(destIds := entries[s].destIds + [c.id.value])];
        }
        if dir == Out && msg.qos > 0 {
          d := d.(quota := Decremented(d.quota));
        }
        if dir == In { c.msgsIn := d; } else { c.msgsOut := d; }
      }
      rc := v.rc;
      ghost var before := old(With(c));
      InsertKeeps(before, lim, mid, dir, qos, retain, s);
      if FlowOk(before.c.msgsOut) {
        InsertFlow(before, lim, mid, dir, qos, retain, s);
      }
      if CountersOk(Data(before.c, dir)) {
        BrokerInserts.InsertTakes(before, lim, mid, dir, qos, retain, s);
        BrokerInserts.TakenIsListed(before, lim, dir, qos, retain, s);
      }
      if CtxOk(before.c) {
        DataOk(before.c, dir);
        InsertCounters(before, lim, mid, dir, qos, retain, s);
      }
    }

    /** db__message_reconnect_reset */
    method ReconnectReset(c: Context)
      modifies this, c`msgsIn, c`msgsOut
      ensures With(c) == BrokerDb.ReconnectReset(old(With(c)), lim)
      ensures Keeps(old(With(c)), With(c)) && CtxOk(c.View())
      ensures BrokerResets.Restarted(old(c.View()), c.View(), lim)
    {
      hide Keeps, CtxOk, CountersOk, FlowOk, FlowSurvives, QueueReset, BrokerResets.Restarted, BrokerResets.OutRestarted;
      BrokerResets.ReconnectRestarts(With(c), lim);
      ReconnectResetKeeps(With(c), lim);
      ReconnectResetCounters(With(c), lim);
      c.ResetOutgoing(lim);
      c.msgsIn := Refilled(c.msgsIn);
      ghost var start := With(c);
      var i := 0;
      while i < |c.msgsIn.inflight|
        invariant 0 <= i <= |c.msgsIn.inflight|
        invariant ResetInInflight(With(c), i) == ResetInInflight(start, 0)
        decreases |c.msgsIn.inflight| - i
      {
        var msg := c.msgsIn.inflight[i];
        c.msgsIn := Counted(c.msgsIn, msg);
        if msg.qos > 0 {
          c.msgsIn := c.msgsIn.(quota := Decremented(c.msgsIn.quota));
        }
        if msg.qos != 2 {
          Remove(c, In, i);
        } else {
          i := i + 1;
        }
      }
      c.ResetQueueLoop(In, lim);
    }

    /** db__message_release_incoming; routes says whether the subscription tree takes the message */
    method ReleaseIncoming(c: Context, mid: Word, routes: bool, net: Net) returns (rc: Rc, routed: seq<Message>)
      modifies this, c`msgsIn, c`msgsOut, c`wire
      ensures var r := BrokerDb.ReleaseIncoming(old(With(c)), mid, routes, net);
        With(c) == r.p && rc == r.rc && routed == r.routed
      ensures Keeps(old(With(c)), With(c))
      ensures old(CtxOk(c.View())) ==> CtxOk(c.View())
      ensures BrokerAcks.Released(old(c.View()), c.View(), rc, routed, mid, routes, net)
    {
      hide Keeps, FlowOk, CtxOk, StaysOk, Promoted, AllQos2, BrokerAcks.Released, BrokerAnswers.Taken, BrokerAnswers.Pubrecs;
      BrokerAcks.ReleaseIncomingReleases(With(c), mid, routes, net);
      ReleaseIncomingKeeps(With(c), mid, routes, net);
      ReleaseIncomingOk(With(c), mid, routes, net);
      var i, index, deleted := 0, 0, false;
      routed := [];
      ghost var first := ReleaseMatching(ReleaseRun(With(c), Success, false, 0, []), 0, mid, routes);
      while i < |c.msgsIn.inflight|
        invariant 0 <= i <= |c.msgsIn.inflight|
        invariant ReleaseMatching(ReleaseRun(With(c), Success, deleted, index, routed), i, mid, routes) == first
        decreases |c.msgsIn.inflight| - i
      {
        index := index + 1;
        var tail := c.msgsIn.inflight[i];
        if tail.mid == mid {
          if tail.store.qos != 2 {
            return Protocol, routed;
          }
          if routes {
            routed := routed + [tail.store];
            Remove(c, In, i);
            deleted := true;
          } else {
            return Failed, routed;
          }
        } else {
          i := i + 1;
        }
      }
      c.PromoteIn(index, net);
      rc := if deleted then Success else Failed;
    }

    /** First loop of db__message_write */
    method WriteIncoming(c: Context, expired: Expiry, net: Net) returns (rc: Rc)
      modifies this, c`msgsIn, c`msgsOut, c`wire
      ensures Result(With(c), rc) == WriteIn(old(With(c)), 0, expired, net)
      ensures Keeps(old(With(c)), With(c))
      ensures BrokerAnswers.Answered(old(c.View()), c.View(), rc, expired, net)
    {
      hide Keeps, StaysOk, BrokerAnswers.Answered;
      BrokerAnswers.WriteInAnswers(With(c), expired, net);
      WriteInKeeps(With(c), 0, expired, net);
      var i := 0;
      while i < |c.msgsIn.inflight|
        invariant 0 <= i <= |c.msgsIn.inflight|
        invariant WriteIn(With(c), i, expired, net) == WriteIn(old(With(c)), 0, expired, net)
        decreases |c.msgsIn.inflight| - i
      {
        var tail := c.msgsIn.inflight[i];
        if expired(tail.store) {
          Remove(c, In, i);
        } else {
          if tail.state == SendPubrec || tail.state == ResendPubcomp {
            if tail.state == SendPubrec {
              rc := c.Send(Pubrec(tail.mid), net);
            } else {
              rc := c.SendPubcomp(tail.mid, net);
            }
            if rc != Success {
              return rc;
            }
            c.msgsIn := SetInflightState(c.msgsIn, i, WaitForPubrel);
          }
          i := i + 1;
        }
      }
      return Success;
    }

    /** Second loop of db__message_write */
    method WriteOutgoing(c: Context, expired: Expiry, net: Net) returns (rc: Rc)
      modifies this, c`msgsIn, c`msgsOut, c`wire
      ensures Result(With(c), rc) == WriteOut(old(With(c)), 0, expired, net)
      ensures Keeps(old(With(c)), With(c))
      ensures old(FlowOk(c.msgsOut)) ==> FlowOk(c.msgsOut)
      ensures BrokerSends.SentOut(old(c.View()), c.View(), rc, expired, net)
    {
      hide Keeps, FlowOk, StaysOk, BrokerSends.SentOut;
      BrokerSends.WriteOutSends(With(c), expired, net);
      WriteOutKeeps(With(c), 0, expired, net);
      WriteOutOk(With(c), 0, expired, net);
      var i := 0;
      while i < |c.msgsOut.inflight|
        invariant 0 <= i <= |c.msgsOut.inflight|
        invariant WriteOut(With(c), i, expired, net) == WriteOut(old(With(c)), 0, expired, net)
        decreases |c.msgsOut.inflight| - i
      {
        var tail := c.msgsOut.inflight[i];
        var due := DueOut(tail);
        if expired(tail.store) {
          Remove(c, Out, i);
        } else if due.None? {
          i := i + 1;
        } else {
          rc := c.Send(due.value, net);
          if rc == Success && tail.state != PublishQos0 {
            c.msgsOut := c.msgsOut.(inflight := c.msgsOut.inflight[i := AfterSend(tail)]);
            i := i + 1;
          } else if rc == Success || (rc == OversizePacket && tail.state != ResendPubrel) {
            Remove(c, Out, i);
          } else {
            return rc;
          }
        }
      }
      return Success;
    }

    /** db__message_write */
    method Write(c: Context, expired: Expiry, net: Net) returns (rc: Rc)
      modifies this, c`msgsIn, c`msgsOut, c`wire
      ensures Result(With(c), rc) == BrokerDb.Write(old(With(c)), expired, net)
      ensures Keeps(old(With(c)), With(c))
      ensures old(CtxOk(c.View())) ==> CtxOk(c.View())
      ensures old(FlowOk(c.msgsOut)) ==> FlowOk(c.msgsOut)
      ensures BrokerSends.Reliable(net) && BrokerSends.NoneExpires(expired) && old(AllQos2(c.msgsIn.queued)) ==>
        rc == Success && BrokerWrites.AllWritten(old(c.View()), c.View(), expired, net)
      ensures BrokerWrites.InStages(old(c.View()), c.View(), rc, expired, net)
    {
      hide BrokerWrites.InStages;
      BrokerWrites.WriteInStages(With(c), expired, net);
      hide Keeps, FlowOk, CtxOk, StaysOk, Promoted, PubrecsFollow, AllQos2, BrokerSends.SentOut, BrokerAnswers.Answered,
           BrokerAnswers.UpAnswered, BrokerWrites.AllWritten, BrokerSends.Reliable, BrokerSends.NoneExpires;
      if BrokerSends.Reliable(net) && BrokerSends.NoneExpires(expired) && AllQos2(c.msgsIn.queued) {
        BrokerWrites.WritesAll(With(c), expired, net);
      }
      WriteKeeps(With(c), expired, net);
      WriteOk(With(c), expired, net);
      rc := WriteIncoming(c, expired, net);
      if rc != Success {
        return;
      }
      rc := WriteOutgoing(c, expired, net);
      if rc != Success {
        return;
      }
      rc := c.WriteQueuedIn(net);
      if rc != Success {
        return;
      }
      c.WriteQueuedOut();
    }

    /** db__messages_delete_list */
    method DeleteList(msgs: seq<ClientMsg>)
      modifies this
      ensures View() == RefDecAll(old(View()), msgs)
      ensures forall rest :: Good(old(View()), rest + Ids(msgs)) ==> Good(View(), rest)
    {
      hide Good;
      forall rest | Good(View(), rest + Ids(msgs))
        ensures Good(RefDecAll(View(), msgs), rest)
      {
        RefDecAllGood(View(), msgs, rest);
      }
      var left := msgs;
      while left != []
        invariant RefDecAll(View(), left) == RefDecAll(old(View()), msgs)
        decreases |left|
      {
        RefDec(left[0].store);
        left := left[1..];
      }
    }

    /** db__messages_delete */
    method MessagesDelete(c: Context)
      modifies this, c`msgsIn, c`msgsOut
      ensures With(c) == DeleteAll(old(With(c)))
      ensures Keeps(old(With(c)), With(c)) && Refs(c.View()) == multiset{}
    {
      hide Good, Keeps;
      DeleteAllKeeps(With(c));
      DeleteList(c.msgsIn.inflight);
      DeleteList(c.msgsIn.queued);
      DeleteList(c.msgsOut.inflight);
      DeleteList(c.msgsOut.queued);
      c.msgsIn := Emptied(c.msgsIn);
      c.msgsOut := Emptied(c.msgsOut);
    }

    /** connection_check_acl on one outgoing list */
    method CheckAcl(msgs: seq<ClientMsg>, denied: Expiry) returns (kept: seq<ClientMsg>)
      modifies this
      ensures Purge(View(), kept) == PurgeList(Purge(old(View()), msgs), 0, denied)
      ensures forall rest :: Good(old(View()), rest + Ids(msgs)) ==> Good(View(), rest + Ids(kept))
      ensures forall m :: m in kept <==> m in msgs && !denied(m.store)
    {
      hide Good;
      forall m: ClientMsg
        ensures m in PurgeList(Purge(View(), msgs), 0, denied).msgs <==> m in msgs && !denied(m.store)
      {
        PurgeListKeeps(Purge(View(), msgs), 0, denied, m);
      }
      forall rest | Good(View(), rest + Ids(msgs))
        ensures Good(PurgeList(Purge(View(), msgs), 0, denied).st, rest + Ids(PurgeList(Purge(View(), msgs), 0, denied).msgs))
      {
        PurgeListGood(Purge(View(), msgs), 0, denied, rest);
      }
      kept := msgs;
      var i := 0;
      while i < |kept|
        invariant 0 <= i <= |kept|
        invariant PurgeList(Purge(View(), kept), i, denied) == PurgeList(Purge(old(View()), msgs), 0, denied)
        decreases |kept| - i
      {
        if denied(kept[i].store) {
          RefDec(kept[i].store);
          kept := Without(kept, i);
        } else {
          i := i + 1;
        }
      }
    }

    /** connection_check_acl of the outgoing messages: the counters stay right exactly when nothing is denied. */
    method CheckAcls(c: Context, denied: Expiry)
      modifies this, c`msgsOut
      ensures With(c) == AclPurge(old(With(c)), denied)
      ensures Keeps(old(With(c)), With(c))
      ensures old(CtxOk(c.View())) ==>
        (CtxOk(c.View()) <==>
          forall m :: m in old(c.msgsOut.inflight) || m in old(c.msgsOut.queued) ==> !denied(m.store))
    {
      hide Keeps, CtxOk, Good;
      AclPurgeKeeps(With(c), denied);
      if CtxOk(c.View()) {
        AclPurgeCounters(With(c), denied);
      }
      var inflight := CheckAcl(c.msgsOut.inflight, denied);
      var queued := CheckAcl(c.msgsOut.queued, denied);
      c.msgsOut := c.msgsOut.(inflight := inflight, queued := queued);
    }

    /** The session takeover of connect__on_authorised */
    method TakeOver(found: Context, c: Context)
      requires found != c
      modifies this, found`msgsIn, found`msgsOut, c`msgsIn, c`msgsOut
      ensures (View(), found.View(), c.View()) == Takeover(old(View()), old(found.View()), old(c.View()), lim)
      ensures old(!HasMessages(c.View())) ==>
        forall rest :: Good(old(View()), rest + old(Refs(found.View())) + old(Refs(c.View()))) ==>
          Good(View(), rest + Refs(found.View()) + Refs(c.View()))
      ensures BrokerResets.TakenOver(old(found.View()), old(c.View()), found.View(), c.View(), lim)
    {
      hide Good, Refs, Keeps, CtxOk, BrokerResets.Restarted, BrokerResets.TakenOver;
      BrokerResets.TakeoverRestarts(View(), found.View(), c.View(), lim);
      forall rest | !HasMessages(c.View()) && Good(View(), rest + Refs(found.View()) + Refs(c.View()))
        ensures var (st', found', c') := Takeover(View(), found.View(), c.View(), lim);
          Good(st', rest + Refs(found') + Refs(c'))
      {
        TakeoverKeeps(View(), found.View(), c.View(), lim, rest);
      }
      if found.msgsIn.inflight != [] || found.msgsIn.queued != []
         || found.msgsOut.inflight != [] || found.msgsOut.queued != [] {
        c.msgsIn, c.msgsOut := found.msgsIn, found.msgsOut;
        found.msgsIn, found.msgsOut := NoMessages(0), NoMessages(0);
        ReconnectReset(c);
      }
    }

    /** db__msg_store_compact: what no one refers to goes. */
    method Compact()
      modifies this
      ensures View() == Compacted(old(View()), old(order))
      ensures forall refs :: Good(old(View()), refs) ==> Good(View(), refs) && forall s :: s in entries <==> s in refs
    {
      hide Good;
      forall refs | Good(View(), refs)
        ensures Good(Compacted(View(), order), refs) && forall s :: s in Compacted(View(), order).entries <==> s in refs
      {
        CompactedGood(View(), order, refs);
        CompactedExactly(View(), refs);
      }
      var left := order;
      while left != []
        invariant Compacted(View(), left) == Compacted(old(View()), old(order))
        decreases |left|
      {
        var s := left[0];
        if s in entries && entries[s].refCount < 1 {
          order := Unlinked(order, s);
          entries := entries - {s};
          count := count - 1;
          bytes := bytes - s.payloadLen;
        }
        left := left[1..];
      }
    }
  }
}
