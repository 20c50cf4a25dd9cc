/** What the broker tells a client about incoming QoS 2 messages: PUBREC and PUBCOMP of its loops are for messages it
    holds, and without expiry the loops let go of none. */
module Qos2Replies {
  import opened MosqTypes
  import opened BrokerDb
  import opened Qos2Slots

  predicate AllQos2(d: MsgData) {
    && (forall k :: 0 <= k < |d.inflight| ==> d.inflight[k].qos == 2)
    && (forall k :: 0 <= k < |d.queued| ==> d.queued[k].qos == 2)
  }

  /** A packet that says nothing of a message or is for one that is held */
  ghost predicate ForHeld(x: ToClient, held: multiset<Slot>) {
    && !x.PubrecError?
    && (x.Pubrec? || x.Pubcomp? ==> exists y :: y in held && y.mid == x.mid)
  }

  /** The context stays what it is, and every new packet is of that kind. */
  ghost predicate Tells(c: Ctx, r: Ctx, held: multiset<Slot>) {
    && r.id == c.id && r.maximumQos == c.maximumQos
    && (AllQos2(c.msgsIn) ==> AllQos2(r.msgsIn))
    && (forall x :: x in r.wire ==> x in c.wire || ForHeld(x, held))
  }

  lemma TellsTrans(a: Ctx, b: Ctx, c: Ctx, held: multiset<Slot>)
    requires Tells(a, b, held) && Tells(b, c, held)
    ensures Tells(a, c, held)
  {
  }

  lemma Sends(c: Ctx, x: ToClient, net: Net, held: multiset<Slot>)
    requires ForHeld(x, held)
    ensures Tells(c, SentTo(c, x, net), held)
  {
    hide ForHeld;
  }

  /** The messages of the two lists are held. */
  lemma ListedIsHeld(c: Ctx, m: ClientMsg)
    requires m in c.msgsIn.inflight || m in c.msgsIn.queued
    ensures Slot(m.mid, m.store) in Held(c)
  {
    hide Slots;
    SlotsMember(c.msgsIn.inflight, Slot(m.mid, m.store));
    SlotsMember(c.msgsIn.queued, Slot(m.mid, m.store));
  }

  lemma PubrecOfListed(c: Ctx, m: ClientMsg)
    requires m in c.msgsIn.inflight || m in c.msgsIn.queued
    ensures ForHeld(Pubrec(m.mid), Held(c)) && ForHeld(Pubcomp(m.mid), Held(c))
  {
    hide Held;
    ListedIsHeld(c, m);
    assert Slot(m.mid, m.store).mid == m.mid;
  }

  lemma PromotedAllQos2(d: MsgData, cursor: nat, state: MsgState)
    requires AllQos2(d) && cursor < |d.queued|
    ensures AllQos2(Promote(d, cursor, state))
  {
    var e := SetQueuedState(d, cursor, state);
    assert e.queued[0].qos == 2;
  }

  // ---------------------------------------------------------------------------------------------
  // db__message_write
  // ---------------------------------------------------------------------------------------------

  /** Nothing of this list expires. */
  predicate NoneExpired(msgs: seq<ClientMsg>, expired: Expiry) {
    forall k :: 0 <= k < |msgs| ==> !expired(msgs[k].store)
  }

  lemma {:induction false} WriteInTells(p: Pair, i: nat, expired: Expiry, net: Net)
    requires NoneExpired(p.c.msgsIn.inflight, expired)
    ensures var r := WriteIn(p, i, expired, net).p.c;
      Held(r) == Held(p.c) && Tells(p.c, r, Held(p.c))
    decreases |p.c.msgsIn.inflight| - i
  {
    hide Tells, Held;
    if i < |p.c.msgsIn.inflight| {
      var m := p.c.msgsIn.inflight[i];
      if m.state == SendPubrec || m.state == ResendPubcomp {
        AnswerTells(p, i, net);
        var c := Answered(p.c, m, net);
        var q := p.(c := c.(msgsIn := SetInflightState(c.msgsIn, i, WaitForPubrel)));
        WriteInTells(q, i + 1, expired, net);
        TellsTrans(p.c, q.c, WriteIn(q, i + 1, expired, net).p.c, Held(p.c));
      } else {
        WriteInTells(p, i + 1, expired, net);
      }
    } else {
      TellsNothing(p.c);
    }
  }

  lemma TellsNothing(c: Ctx)
    ensures Tells(c, c, Held(c))
  {
  }

  lemma AnswerTells(p: Pair, i: nat, net: Net)
    requires i < |p.c.msgsIn.inflight|
    ensures var c := Answered(p.c, p.c.msgsIn.inflight[i], net);
      && Held(c) == Held(p.c) && Tells(p.c, c, Held(p.c)) && c.msgsIn.inflight == p.c.msgsIn.inflight
      && var r := c.(msgsIn := SetInflightState(c.msgsIn, i, WaitForPubrel));
         Held(r) == Held(p.c) && Tells(p.c, r, Held(p.c))
  {
    hide Slots, ForHeld;
    var m := p.c.msgsIn.inflight[i];
    PubrecOfListed(p.c, m);
    SlotsUpdate(p.c.msgsIn.inflight, i, m.(state := WaitForPubrel));
  }

  lemma {:induction false} WriteOutTells(p: Pair, i: nat, expired: Expiry, net: Net, held: multiset<Slot>)
    ensures Tells(p.c, WriteOut(p, i, expired, net).p.c, held)
    decreases |p.c.msgsOut.inflight| - i
  {
    hide Tells;
    if i < |p.c.msgsOut.inflight| {
      var m := p.c.msgsOut.inflight[i];
      var due := DueOut(m);
      if expired(m.store) {
        WriteOutTells(Remove(p, Out, i), i, expired, net, held);
        OutgoingTells(p.c, Remove(p, Out, i).c, WriteOut(p, i, expired, net).p.c, held);
      } else if due.None? {
        WriteOutTells(p, i + 1, expired, net, held);
      } else {
        var q := p.(c := SentTo(p.c, due.value, net));
        DueTells(p.c, m, net, held);
        var d := q.c.msgsOut;
        if net(due.value) == Success && m.state != PublishQos0 {
          var n := q.(c := q.c.(msgsOut := d.(inflight := d.inflight[i := AfterSend(m)])));
          WriteOutTells(n, i + 1, expired, net, held);
          OutgoingTells(q.c, n.c, WriteOut(n, i + 1, expired, net).p.c, held);
          TellsTrans(p.c, q.c, WriteOut(n, i + 1, expired, net).p.c, held);
        } else {
          WriteOutTells(Remove(q, Out, i), i, expired, net, held);
          OutgoingTells(q.c, Remove(q, Out, i).c, WriteOut(Remove(q, Out, i), i, expired, net).p.c, held);
          TellsTrans(p.c, q.c, WriteOut(Remove(q, Out, i), i, expired, net).p.c, held);
        }
      }
    } else {
      OutgoingTells(p.c, p.c, p.c, held);
    }
  }

  /** A change of the outgoing lists tells the client nothing. */
  lemma OutgoingTells(c: Ctx, n: Ctx, r: Ctx, held: multiset<Slot>)
    requires n == c.(msgsOut := n.msgsOut) && (r == n || Tells(n, r, held))
    ensures Tells(c, r, held)
  {
    hide ForHeld;
  }

  lemma DueTells(c: Ctx, m: ClientMsg, net: Net, held: multiset<Slot>)
    requires DueOut(m).Some?
    ensures Tells(c, SentTo(c, DueOut(m).value, net), held)
  {
    Sends(c, DueOut(m).value, net, held);
  }

  lemma {:induction false} WriteInQueuedTells(c: Ctx, cursor: nat, net: Net, held: multiset<Slot>)
    requires held == Held(c)
    ensures Tells(c, WriteInQueued(c, cursor, net).0, held)
    decreases |c.msgsIn.queued| - cursor
  {
    hide Tells, Held, AllQos2, ForHeld;
    if cursor < |c.msgsIn.queued| && !(c.msgsOut.maximum != 0 && c.msgsIn.quota == 0) {
      var m := c.msgsIn.queued[cursor];
      if m.qos != 2 {
        WriteInQueuedTells(c, cursor + 1, net, held);
      } else {
        QueuedTells(c, cursor, SendPubrec, net);
        var c1 := SentTo(c.(msgsIn := Promote(c.msgsIn, cursor, SendPubrec)), Pubrec(m.mid), net);
        if net(Pubrec(m.mid)) == Success {
          var d := c1.msgsIn;
          var d' := if cursor == 0 then SetInflightState(d, |d.inflight| - 1, WaitForPubrel)
                    else SetQueuedState(d, cursor - 1, WaitForPubrel);
          MarkedTells(c1, cursor);
          var c2 := c1.(msgsIn := d');
          WriteInQueuedTells(c2, cursor, net, held);
          TellsTrans(c1, c2, WriteInQueued(c2, cursor, net).0, held);
          TellsTrans(c, c1, WriteInQueued(c2, cursor, net).0, held);
        }
      }
    } else {
      TellsNothing(c);
    }
  }

  /** A message of the queue is acknowledged as the first one moves up. */
  lemma QueuedTells(c: Ctx, cursor: nat, state: MsgState, net: Net)
    requires cursor < |c.msgsIn.queued|
    ensures var m, d := c.msgsIn.queued[cursor], Promote(c.msgsIn, cursor, state);
      && var r := SentTo(c.(msgsIn := d), Pubrec(m.mid), net);
         Held(r) == Held(c) && Tells(c, r, Held(c)) && r.msgsIn == d && d.inflight != []
  {
    hide DataSlots, ForHeld, AllQos2;
    PubrecOfListed(c, c.msgsIn.queued[cursor]);
    PromoteKeepsSlots(c.msgsIn, cursor, state);
    if AllQos2(c.msgsIn) {
      PromotedAllQos2(c.msgsIn, cursor, state);
    }
  }

  /** The state that WriteInQueued sets last */
  lemma MarkedTells(c: Ctx, cursor: nat)
    requires c.msgsIn.inflight != [] && cursor <= |c.msgsIn.queued|
    ensures var d := c.msgsIn;
      && var r := c.(msgsIn := if cursor == 0 then SetInflightState(d, |d.inflight| - 1, WaitForPubrel)
                               else SetQueuedState(d, cursor - 1, WaitForPubrel));
         Held(r) == Held(c) && Tells(c, r, Held(c))
  {
    hide Slots, ForHeld;
    var d, last := c.msgsIn, |c.msgsIn.inflight| - 1;
    if cursor == 0 {
      SlotsUpdate(d.inflight, last, d.inflight[last].(state := WaitForPubrel));
    } else {
      SlotsUpdate(d.queued, cursor - 1, d.queued[cursor - 1].(state := WaitForPubrel));
    }
  }

  lemma WriteTells(p: Pair, expired: Expiry, net: Net)
    requires NoneExpired(p.c.msgsIn.inflight, expired)
    ensures var r := Write(p, expired, net).p.c;
      Held(r) == Held(p.c) && Tells(p.c, r, Held(p.c))
  {
    hide Tells, Held, WriteIn, WriteOut, WriteInQueued, WriteOutQueued, NoneExpired;
    var held := Held(p.c);
    var a := WriteIn(p, 0, expired, net);
    WriteInTells(p, 0, expired, net);
    if a.rc == Success {
      var b := WriteOut(a.p, 0, expired, net);
      WriteOutHeld(a.p, expired, net);
      WriteOutTells(a.p, 0, expired, net, held);
      TellsTrans(p.c, a.p.c, b.p.c, held);
      if b.rc == Success {
        var (c, rc) := WriteInQueued(b.p.c, 0, net);
        WriteInQueuedQuiet(b.p.c, 0, net);
        WriteInQueuedTells(b.p.c, 0, net, held);
        TellsTrans(p.c, b.p.c, c, held);
        var r := c.(msgsOut := WriteOutQueued(c.msgsOut, 0));
        OutgoingTells(c, r, r, held);
        TellsTrans(p.c, c, r, held);
        SameIncoming(c, r);
      }
    }
  }

  lemma SameIncoming(c: Ctx, r: Ctx)
    requires r.msgsIn == c.msgsIn
    ensures Held(r) == Held(c)
  {
  }

  lemma WriteOutHeld(p: Pair, expired: Expiry, net: Net)
    ensures Held(WriteOut(p, 0, expired, net).p.c) == Held(p.c)
  {
    hide Slots, WriteOut;
    WriteOutQuiet(p, 0, expired, net);
  }

  // ---------------------------------------------------------------------------------------------
  // db__message_release_incoming
  // ---------------------------------------------------------------------------------------------

  lemma {:induction false} ReleaseMatchingTells(r: ReleaseRun, i: nat, mid: Word, routes: bool, held: multiset<Slot>)
    ensures Tells(r.p.c, ReleaseMatching(r, i, mid, routes).p.c, held)
    decreases |r.p.c.msgsIn.inflight| - i
  {
    hide Tells;
    if i < |r.p.c.msgsIn.inflight| {
      var m := r.p.c.msgsIn.inflight[i];
      var r1 := r.(index := r.index + 1);
      if m.mid != mid {
        ReleaseMatchingTells(r1, i + 1, mid, routes, held);
      } else if m.store.qos == 2 && routes {
        var r2 := r1.(p := Remove(r1.p, In, i), deleted := true, routed := r1.routed + [m.store]);
        ReleaseMatchingTells(r2, i, mid, routes, held);
        RemovedTells(r.p, i, held);
        TellsTrans(r.p.c, r2.p.c, ReleaseMatching(r2, i, mid, routes).p.c, held);
      } else {
        OutgoingTells(r.p.c, r.p.c, r.p.c, held);
      }
    } else {
      OutgoingTells(r.p.c, r.p.c, r.p.c, held);
    }
  }

  lemma RemovedTells(p: Pair, i: nat, held: multiset<Slot>)
    requires i < |p.c.msgsIn.inflight|
    ensures Tells(p.c, Remove(p, In, i).c, held)
  {
    hide ForHeld;
  }

  lemma {:induction false} ReleaseQueuedTells(c: Ctx, cursor: nat, index: nat, net: Net, held: multiset<Slot>)
    requires held == Held(c)
    ensures Tells(c, ReleaseQueued(c, cursor, index, net), held)
    decreases |c.msgsIn.queued| - cursor
  {
    hide Tells, Held, AllQos2, ForHeld;
    if cursor < |c.msgsIn.queued| && !(c.msgsIn.maximum != 0 && index >= c.msgsIn.maximum) {
      var m := c.msgsIn.queued[cursor];
      if m.qos != 2 {
        ReleaseQueuedTells(c, cursor + 1, index + 1, net, held);
      } else {
        QueuedTells(c, cursor, WaitForPubrel, net);
        var c1 := SentTo(c, Pubrec(m.mid), net);
        var c2 := c1.(msgsIn := Promote(c1.msgsIn, cursor, WaitForPubrel));
        assert c2 == SentTo(c.(msgsIn := Promote(c.msgsIn, cursor, WaitForPubrel)), Pubrec(m.mid), net);
        ReleaseQueuedTells(c2, cursor, index + 1, net, held);
        TellsTrans(c, c2, ReleaseQueued(c2, cursor, index + 1, net), held);
      }
    } else {
      TellsNothing(c);
    }
  }

  lemma ReleaseIncomingTells(p: Pair, mid: Word, routes: bool, net: Net)
    ensures Tells(p.c, ReleaseIncoming(p, mid, routes, net).p.c, Held(p.c))
  {
    hide Tells, Slots, DataSlots, ReleaseMatching, ReleaseQueued;
    var held := Held(p.c);
    var r0 := ReleaseRun(p, Success, false, 0, []);
    var r := ReleaseMatching(r0, 0, mid, routes);
    ReleaseMatchingTells(r0, 0, mid, routes, held);
    ReleaseMatchingHeld(r0, 0, mid, routes);
    assert Routed(mid, []) == multiset{};
    assert Held(r.p.c) + Routed(mid, r.routed) == held;
    if r.rc == Success {
      var c := ReleaseQueued(r.p.c, 0, r.index, net);
      ReleaseQueuedTells(r.p.c, 0, r.index, net, Held(r.p.c));
      TellsOfMore(r.p.c, c, Held(r.p.c), held);
      TellsTrans(p.c, r.p.c, c, held);
    }
  }

  lemma TellsOfMore(c: Ctx, r: Ctx, held: multiset<Slot>, more: multiset<Slot>)
    requires Tells(c, r, held) && held <= more
    ensures Tells(c, r, more)
  {
    assert forall y :: y in held ==> y in more;
  }

  // ---------------------------------------------------------------------------------------------
  // db__message_reconnect_reset and db__message_insert
  // ---------------------------------------------------------------------------------------------

  lemma {:induction false} ResetQueueAllQos2(d: MsgData, lim: Limits, cursor: nat)
    requires AllQos2(d)
    ensures AllQos2(ResetQueue(d, lim, cursor))
    decreases |d.queued| - cursor
  {
    hide AllQos2;
    if cursor < |d.queued| {
      var m := d.queued[cursor];
      var e := Counted(d, m);
      SameLists(d, e);
      if ReadyForFlight(e, lim, m.qos) {
        PromotedAllQos2(e, cursor, PublishState(m.qos));
        ResetQueueAllQos2(Promote(e, cursor, PublishState(m.qos)), lim, cursor);
      } else {
        ResetQueueAllQos2(e, lim, cursor + 1);
      }
    }
  }

  lemma SameLists(d: MsgData, e: MsgData)
    requires e.inflight == d.inflight && e.queued == d.queued
    ensures AllQos2(d) ==> AllQos2(e)
    ensures DataSlots(e) == DataSlots(d)
  {
  }

  /** With QoS 2 messages only, the reset lets go of nothing. */
  lemma {:induction false} ResetInInflightKeeps(p: Pair, i: nat)
    requires AllQos2(p.c.msgsIn)
    ensures var r := ResetInInflight(p, i).c;
      && r == p.c.(msgsIn := r.msgsIn) && r.msgsIn.inflight == p.c.msgsIn.inflight && r.msgsIn.queued == p.c.msgsIn.queued
    decreases |p.c.msgsIn.inflight| - i
  {
    if i < |p.c.msgsIn.inflight| {
      var m := p.c.msgsIn.inflight[i];
      var d := Counted(p.c.msgsIn, m);
      var e := if m.qos > 0 then d.(quota := Decremented(d.quota)) else d;
      ResetInInflightKeeps(p.(c := p.c.(msgsIn := e)), i + 1);
    }
  }

  lemma {:induction false} ResetOutInflightId(c: Ctx, i: nat)
    ensures var r := ResetOutInflight(c, i); r.id == c.id && r.maximumQos == c.maximumQos
    decreases |c.msgsOut.inflight| - i
  {
    if i < |c.msgsOut.inflight| {
      var m := c.msgsOut.inflight[i];
      var d := SetInflightState(Counted(c.msgsOut, m), i, OutResetState(m));
      var quotaIn := if m.qos > 0 then Decremented(c.msgsIn.quota) else c.msgsIn.quota;
      ResetOutInflightId(c.(msgsOut := d, msgsIn := c.msgsIn.(quota := quotaIn)), i + 1);
    }
  }

  lemma ReconnectResetKeeps(p: Pair, lim: Limits)
    requires AllQos2(p.c.msgsIn)
    ensures var r := ReconnectReset(p, lim).c;
      && r.id == p.c.id && r.maximumQos == p.c.maximumQos && r.wire == p.c.wire
      && AllQos2(r.msgsIn) && Held(r) == Held(p.c)
  {
    hide AllQos2, DataSlots, ResetQueue, ResetInInflight, ResetOutInflight;
    var a := p.c.(msgsOut := Refilled(p.c.msgsOut));
    ResetOutInflightHeld(a, 0);
    ResetOutInflightId(a, 0);
    var q := p.(c := ResetOutgoing(p.c, lim));
    var b := q.(c := q.c.(msgsIn := Refilled(q.c.msgsIn)));
    SameLists(p.c.msgsIn, b.c.msgsIn);
    ResetInInflightKeeps(b, 0);
    var d := ResetInInflight(b, 0).c.msgsIn;
    SameLists(b.c.msgsIn, d);
    ResetQueueSlots(d, lim, 0);
    ResetQueueAllQos2(d, lim, 0);
  }

  /** An incoming message that the broker is to acknowledge has been listed. */
  lemma InsertTells(p: Pair, lim: Limits, mid: Word, s: Message)
    requires p.c.id.Some? && p.c.maximumQos == 2
    ensures var (r, rc) := Insert(p, lim, mid, In, 2, false, s);
      && r.c.id == p.c.id && r.c.maximumQos == p.c.maximumQos && r.c.wire == p.c.wire
      && (AllQos2(p.c.msgsIn) ==> AllQos2(r.c.msgsIn))
      && (rc == 0 ==> Held(r.c) == Held(p.c) + multiset{Slot(mid, s)})
  {
    hide Slots, ReadyForFlight, ReadyForQueue;
    var v := InsertVerdict(p, lim, In, 2, false, s);
    if v.Listed? {
      var m := NewClientMsg(p.c, mid, 2, v.state, false, s);
      SlotsSnoc(p.c.msgsIn.inflight, m);
      SlotsSnoc(p.c.msgsIn.queued, m);
    }
  }
}
