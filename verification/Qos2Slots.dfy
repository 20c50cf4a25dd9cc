/** What the broker's operations do to the incoming messages it holds for a client, seen as a multiset of packet
    identifier and stored message: apart from a new PUBLISH they only ever take messages away. */
module Qos2Slots {
  import opened MosqTypes
  import opened BrokerDb

  datatype Slot = Slot(mid: Word, store: Message)

  function Slots(msgs: seq<ClientMsg>): multiset<Slot> {
    if msgs == [] then multiset{} else multiset{Slot(msgs[0].mid, msgs[0].store)} + Slots(msgs[1..])
  }

  function DataSlots(d: MsgData): multiset<Slot> {
    Slots(d.inflight) + Slots(d.queued)
  }

  function Held(c: Ctx): multiset<Slot> {
    DataSlots(c.msgsIn)
  }

  function Connacks(wire: seq<ToClient>): nat {
    if wire == [] then 0
    else Connacks(wire[..|wire| - 1]) + if wire[|wire| - 1].Connack? then 1 else 0
  }

  /** No message more is held, and no CONNACK is sent. */
  ghost predicate Quiet(c: Ctx, r: Ctx) {
    Held(r) <= Held(c) && Connacks(r.wire) == Connacks(c.wire)
  }

  lemma QuietTrans(a: Ctx, b: Ctx, c: Ctx)
    requires Quiet(a, b) && Quiet(b, c)
    ensures Quiet(a, c)
  {
  }

  // ---------------------------------------------------------------------------------------------
  // Lists
  // ---------------------------------------------------------------------------------------------

  lemma {:induction false} SlotsAppend(a: seq<ClientMsg>, b: seq<ClientMsg>)
    ensures Slots(a + b) == Slots(a) + Slots(b)
  {
    if a == [] {
      assert a + b == b;
    } else {
      assert (a + b)[1..] == a[1..] + b;
      SlotsAppend(a[1..], b);
    }
  }

  lemma SlotsSplit(a: seq<ClientMsg>, i: nat)
    requires i < |a|
    ensures Slots(a) == Slots(a[..i]) + multiset{Slot(a[i].mid, a[i].store)} + Slots(a[i + 1..])
  {
    assert a == a[..i] + a[i..];
    SlotsAppend(a[..i], a[i..]);
    assert a[i..][1..] == a[i + 1..];
  }

  lemma SlotsWithout(a: seq<ClientMsg>, i: nat)
    requires i < |a|
    ensures Slots(a) == Slots(Without(a, i)) + multiset{Slot(a[i].mid, a[i].store)}
  {
    SlotsSplit(a, i);
    SlotsAppend(a[..i], a[i + 1..]);
  }

  lemma SlotsUpdate(a: seq<ClientMsg>, i: nat, m: ClientMsg)
    requires i < |a| && m.store == a[i].store && m.mid == a[i].mid
    ensures Slots(a[i := m]) == Slots(a)
  {
    SlotsSplit(a, i);
    var b := a[i := m];
    SlotsSplit(b, i);
    assert b[..i] == a[..i] && b[i + 1..] == a[i + 1..];
  }

  lemma SlotsSnoc(a: seq<ClientMsg>, m: ClientMsg)
    ensures Slots(a + [m]) == Slots(a) + multiset{Slot(m.mid, m.store)}
  {
    SlotsAppend(a, [m]);
    assert [m][1..] == [];
  }

  /** Held messages are the members of the two lists. */
  lemma {:induction false} SlotsMember(a: seq<ClientMsg>, x: Slot)
    ensures x in Slots(a) <==> exists i :: 0 <= i < |a| && Slot(a[i].mid, a[i].store) == x
  {
    if a != [] {
      SlotsMember(a[1..], x);
      if i :| 0 <= i < |a| && Slot(a[i].mid, a[i].store) == x {
        if i > 0 {
          assert a[1..][i - 1] == a[i];
        }
      }
    }
  }

  lemma PromoteKeepsSlots(d: MsgData, cursor: nat, state: MsgState)
    requires cursor < |d.queued|
    ensures DataSlots(Promote(d, cursor, state)) == DataSlots(d)
  {
    hide Slots;
    var e := SetQueuedState(d, cursor, state);
    SlotsUpdate(d.queued, cursor, e.queued[cursor]);
    SlotsSnoc(e.inflight, e.queued[0]);
    SlotsSplit(e.queued, 0);
    NoSlots();
    assert e.queued[..0] == [];
  }

  lemma NoSlots()
    ensures Slots([]) == multiset{}
  {
  }

  lemma ConnacksSnoc(wire: seq<ToClient>, m: ToClient)
    ensures Connacks(wire + [m]) == Connacks(wire) + if m.Connack? then 1 else 0
  {
    assert (wire + [m])[..|wire|] == wire;
  }

  lemma SentToConnacks(c: Ctx, m: ToClient, net: Net)
    requires !m.Connack?
    ensures Connacks(SentTo(c, m, net).wire) == Connacks(c.wire)
  {
    ConnacksSnoc(c.wire, m);
  }

  // ---------------------------------------------------------------------------------------------
  // Operations
  // ---------------------------------------------------------------------------------------------

  lemma RemoveHeld(p: Pair, i: nat)
    requires i < |p.c.msgsIn.inflight|
    ensures var m, r := p.c.msgsIn.inflight[i], Remove(p, In, i);
      Held(p.c) == Held(r.c) + multiset{Slot(m.mid, m.store)} && r.c.wire == p.c.wire
  {
    hide Slots;
    SlotsWithout(p.c.msgsIn.inflight, i);
  }

  lemma {:induction false} ResetOutInflightHeld(c: Ctx, i: nat)
    ensures var r := ResetOutInflight(c, i);
      r.msgsIn.inflight == c.msgsIn.inflight && r.msgsIn.queued == c.msgsIn.queued && r.wire == c.wire
    decreases |c.msgsOut.inflight| - i
  {
    if i < |c.msgsOut.inflight| {
      var m := c.msgsOut.inflight[i];
      var d := SetInflightState(Counted(c.msgsOut, m), i, OutResetState(m));
      var quotaIn := if m.qos > 0 then Decremented(c.msgsIn.quota) else c.msgsIn.quota;
      ResetOutInflightHeld(c.(msgsOut := d, msgsIn := c.msgsIn.(quota := quotaIn)), i + 1);
    }
  }

  lemma {:induction false} ResetQueueSlots(d: MsgData, lim: Limits, cursor: nat)
    ensures DataSlots(ResetQueue(d, lim, cursor)) == DataSlots(d)
    decreases |d.queued| - cursor
  {
    hide Slots;
    if cursor < |d.queued| {
      var m := d.queued[cursor];
      var e := Counted(d, m);
      if ReadyForFlight(e, lim, m.qos) {
        PromoteKeepsSlots(e, cursor, PublishState(m.qos));
        ResetQueueSlots(Promote(e, cursor, PublishState(m.qos)), lim, cursor);
      } else {
        ResetQueueSlots(e, lim, cursor + 1);
      }
    }
  }

  lemma {:induction false} ResetInInflightQuiet(p: Pair, i: nat)
    ensures Quiet(p.c, ResetInInflight(p, i).c)
    decreases |p.c.msgsIn.inflight| - i
  {
    hide Slots;
    if i < |p.c.msgsIn.inflight| {
      var m := p.c.msgsIn.inflight[i];
      var d := Counted(p.c.msgsIn, m);
      var e := if m.qos > 0 then d.(quota := Decremented(d.quota)) else d;
      var q := p.(c := p.c.(msgsIn := e));
      if m.qos != 2 {
        RemoveHeld(q, i);
        ResetInInflightQuiet(Remove(q, In, i), i);
      } else {
        ResetInInflightQuiet(q, i + 1);
      }
    }
  }

  lemma ReconnectResetQuiet(p: Pair, lim: Limits)
    ensures Quiet(p.c, ReconnectReset(p, lim).c)
  {
    hide Slots;
    var a := p.c.(msgsOut := Refilled(p.c.msgsOut));
    ResetOutInflightHeld(a, 0);
    var q := p.(c := ResetOutgoing(p.c, lim));
    var b := q.(c := q.c.(msgsIn := Refilled(q.c.msgsIn)));
    assert Held(b.c) == Held(p.c) && b.c.wire == p.c.wire;
    ResetInInflightQuiet(b, 0);
    ResetQueueSlots(ResetInInflight(b, 0).c.msgsIn, lim, 0);
  }

  lemma DeleteAllQuiet(p: Pair)
    ensures Quiet(p.c, DeleteAll(p).c)
  {
    hide RefDecAll, Slots;
    NoSlots();
  }

  /** The slots of messages routed for one identifier. */
  function Routed(mid: Word, ms: seq<Message>): multiset<Slot> {
    if ms == [] then multiset{}
    else Routed(mid, ms[..|ms| - 1]) + multiset{Slot(mid, ms[|ms| - 1])}
  }

  /** What is routed is taken from what was held. */
  lemma {:induction false} ReleaseMatchingHeld(r: ReleaseRun, i: nat, mid: Word, routes: bool)
    ensures var q := ReleaseMatching(r, i, mid, routes);
      && Held(q.p.c) + Routed(mid, q.routed) == Held(r.p.c) + Routed(mid, r.routed)
      && q.p.c.wire == r.p.c.wire
    decreases |r.p.c.msgsIn.inflight| - i
  {
    hide Held, Routed;
    if i < |r.p.c.msgsIn.inflight| {
      var m := r.p.c.msgsIn.inflight[i];
      var r1 := r.(index := r.index + 1);
      if m.mid != mid {
        ReleaseMatchingHeld(r1, i + 1, mid, routes);
      } else if m.store.qos == 2 && routes {
        var r2 := r1.(p := Remove(r1.p, In, i), deleted := true, routed := r1.routed + [m.store]);
        RemoveHeld(r.p, i);
        RoutedSnoc(mid, r.routed, m.store);
        ReleaseMatchingHeld(r2, i, mid, routes);
      }
    }
  }

  lemma RoutedSnoc(mid: Word, ms: seq<Message>, m: Message)
    ensures Routed(mid, ms + [m]) == Routed(mid, ms) + multiset{Slot(mid, m)}
  {
    assert (ms + [m])[..|ms|] == ms;
  }

  lemma {:induction false} ReleaseQueuedQuiet(c: Ctx, cursor: nat, index: nat, net: Net)
    ensures var r := ReleaseQueued(c, cursor, index, net);
      Held(r) == Held(c) && Connacks(r.wire) == Connacks(c.wire)
    decreases |c.msgsIn.queued| - cursor
  {
    hide DataSlots, Connacks;
    if cursor < |c.msgsIn.queued| && !(c.msgsIn.maximum != 0 && index >= c.msgsIn.maximum) {
      var m := c.msgsIn.queued[cursor];
      if m.qos != 2 {
        ReleaseQueuedQuiet(c, cursor + 1, index + 1, net);
      } else {
        var c1 := SentTo(c, Pubrec(m.mid), net);
        SentToConnacks(c, Pubrec(m.mid), net);
        PromoteKeepsSlots(c1.msgsIn, cursor, WaitForPubrel);
        ReleaseQueuedQuiet(c1.(msgsIn := Promote(c1.msgsIn, cursor, WaitForPubrel)), cursor, index + 1, net);
      }
    }
  }

  lemma ReleaseIncomingHeld(p: Pair, mid: Word, routes: bool, net: Net)
    ensures var r := ReleaseIncoming(p, mid, routes, net);
      && Held(r.p.c) + Routed(mid, r.routed) == Held(p.c)
      && Connacks(r.p.c.wire) == Connacks(p.c.wire)
  {
    hide Held, Connacks, ReleaseMatching, ReleaseQueued;
    var r0 := ReleaseRun(p, Success, false, 0, []);
    ReleaseMatchingHeld(r0, 0, mid, routes);
    var r := ReleaseMatching(r0, 0, mid, routes);
    ReleaseQueuedQuiet(r.p.c, 0, r.index, net);
  }

  /** The context after the reply that a message's state calls for */
  function Answered(c: Ctx, m: ClientMsg, net: Net): Ctx {
    if m.state == SendPubrec then SentTo(c, Pubrec(m.mid), net) else PubcompSent(c, m.mid, net)
  }

  lemma AnsweredQuiet(p: Pair, i: nat, net: Net)
    requires i < |p.c.msgsIn.inflight|
    ensures var c := Answered(p.c, p.c.msgsIn.inflight[i], net);
      && Quiet(p.c, c) && |c.msgsIn.inflight| == |p.c.msgsIn.inflight|
      && var d := SetInflightState(c.msgsIn, i, WaitForPubrel);
         Quiet(p.c, c.(msgsIn := d)) && |d.inflight| == |p.c.msgsIn.inflight|
  {
    hide Slots, Connacks;
    var m := p.c.msgsIn.inflight[i];
    SentToConnacks(p.c, Pubrec(m.mid), net);
    SentToConnacks(p.c, Pubcomp(m.mid), net);
    SlotsUpdate(p.c.msgsIn.inflight, i, m.(state := WaitForPubrel));
  }

  lemma RemovedQuiet(p: Pair, i: nat)
    requires i < |p.c.msgsIn.inflight|
    ensures Quiet(p.c, Remove(p, In, i).c)
  {
    RemoveHeld(p, i);
  }

  lemma {:induction false} WriteInQuiet(p: Pair, i: nat, expired: Expiry, net: Net)
    ensures Quiet(p.c, WriteIn(p, i, expired, net).p.c)
    decreases |p.c.msgsIn.inflight| - i
  {
    hide Quiet, SentTo, PubcompSent;
    if i < |p.c.msgsIn.inflight| {
      var m := p.c.msgsIn.inflight[i];
      if expired(m.store) {
        RemovedQuiet(p, i);
        WriteInQuiet(Remove(p, In, i), i, expired, net);
        QuietTrans(p.c, Remove(p, In, i).c, WriteIn(p, i, expired, net).p.c);
      } else if m.state == SendPubrec || m.state == ResendPubcomp {
        AnsweredQuiet(p, i, net);
        var c := Answered(p.c, m, net);
        var q := p.(c := c.(msgsIn := SetInflightState(c.msgsIn, i, WaitForPubrel)));
        WriteInQuiet(q, i + 1, expired, net);
        QuietTrans(p.c, q.c, WriteIn(q, i + 1, expired, net).p.c);
      } else {
        WriteInQuiet(p, i + 1, expired, net);
      }
    } else {
      QuietSelf(p.c);
    }
  }

  lemma QuietSelf(c: Ctx)
    ensures Quiet(c, c)
  {
  }

  lemma {:induction false} WriteOutQuiet(p: Pair, i: nat, expired: Expiry, net: Net)
    ensures var r := WriteOut(p, i, expired, net).p.c;
      r.msgsIn == p.c.msgsIn && Connacks(r.wire) == Connacks(p.c.wire)
    decreases |p.c.msgsOut.inflight| - i
  {
    hide Connacks;
    if i < |p.c.msgsOut.inflight| {
      var m := p.c.msgsOut.inflight[i];
      var due := DueOut(m);
      if expired(m.store) {
        WriteOutQuiet(Remove(p, Out, i), i, expired, net);
      } else if due.None? {
        WriteOutQuiet(p, i + 1, expired, net);
      } else {
        SentToConnacks(p.c, due.value, net);
        var q := p.(c := SentTo(p.c, due.value, net));
        var d := q.c.msgsOut;
        if net(due.value) == Success && m.state != PublishQos0 {
          WriteOutQuiet(q.(c := q.c.(msgsOut := d.(inflight := d.inflight[i := AfterSend(m)]))), i + 1, expired, net);
        } else {
          WriteOutQuiet(Remove(q, Out, i), i, expired, net);
        }
      }
    }
  }

  lemma {:induction false} WriteInQueuedQuiet(c: Ctx, cursor: nat, net: Net)
    ensures var r := WriteInQueued(c, cursor, net).0;
      Held(r) == Held(c) && Connacks(r.wire) == Connacks(c.wire)
    decreases |c.msgsIn.queued| - cursor
  {
    hide Slots, Connacks;
    if cursor < |c.msgsIn.queued| && !(c.msgsOut.maximum != 0 && c.msgsIn.quota == 0) {
      var m := c.msgsIn.queued[cursor];
      if m.qos != 2 {
        WriteInQueuedQuiet(c, cursor + 1, net);
      } else {
        PromoteKeepsSlots(c.msgsIn, cursor, SendPubrec);
        var c0 := c.(msgsIn := Promote(c.msgsIn, cursor, SendPubrec));
        SentToConnacks(c0, Pubrec(m.mid), net);
        var c1 := SentTo(c0, Pubrec(m.mid), net);
        var d := c1.msgsIn;
        var last := |d.inflight| - 1;
        if cursor == 0 {
          SlotsUpdate(d.inflight, last, d.inflight[last].(state := WaitForPubrel));
          WriteInQueuedQuiet(c1.(msgsIn := SetInflightState(d, last, WaitForPubrel)), cursor, net);
        } else {
          SlotsUpdate(d.queued, cursor - 1, d.queued[cursor - 1].(state := WaitForPubrel));
          WriteInQueuedQuiet(c1.(msgsIn := SetQueuedState(d, cursor - 1, WaitForPubrel)), cursor, net);
        }
      }
    }
  }

  lemma WriteQuiet(p: Pair, expired: Expiry, net: Net)
    ensures Quiet(p.c, Write(p, expired, net).p.c)
  {
    hide DataSlots, Connacks, WriteIn, WriteOut, WriteInQueued, WriteOutQueued;
    var a := WriteIn(p, 0, expired, net);
    WriteInQuiet(p, 0, expired, net);
    if a.rc == Success {
      var b := WriteOut(a.p, 0, expired, net);
      WriteOutQuiet(a.p, 0, expired, net);
      if b.rc == Success {
        WriteInQueuedQuiet(b.p.c, 0, net);
      }
    }
  }

  /** A new incoming message adds at most its own slot. */
  lemma InsertHeld(p: Pair, lim: Limits, mid: Word, s: Message)
    ensures var r := Insert(p, lim, mid, In, 2, false, s).0;
      && (Held(r.c) == Held(p.c) || Held(r.c) == Held(p.c) + multiset{Slot(mid, s)})
      && r.c.wire == p.c.wire
  {
    hide Slots, ReadyForFlight, ReadyForQueue;
    var v := InsertVerdict(p, lim, In, 2, false, s);
    if v.Listed? {
      var m := NewClientMsg(p.c, mid, 2, v.state, false, s);
      SlotsSnoc(p.c.msgsIn.inflight, m);
      SlotsSnoc(p.c.msgsIn.queued, m);
    }
  }

  lemma {:induction false} FirstFromNone(msgs: seq<ClientMsg>, i: nat, mid: Word)
    requires FirstFrom(msgs, i, mid).None?
    ensures forall j :: i <= j < |msgs| ==> msgs[j].store.sourceMid != mid
    decreases |msgs| - i
  {
    if i < |msgs| {
      FirstFromNone(msgs, i + 1, mid);
    }
  }

  lemma {:induction false} FirstFromSome(msgs: seq<ClientMsg>, i: nat, mid: Word) returns (j: nat)
    requires FirstFrom(msgs, i, mid).Some?
    ensures i <= j < |msgs| && msgs[j].store.sourceMid == mid && FirstFrom(msgs, i, mid) == Some(msgs[j].store)
    decreases |msgs| - i
  {
    j := i;
    if msgs[i].store.sourceMid != mid {
      j := FirstFromSome(msgs, i + 1, mid);
    }
  }

  /** The lookup by the sender's identifier finds a held message of that identifier if there is one. */
  lemma SourceFindHeld(c: Ctx, mid: Word)
    ensures SourceFind(c, mid).None? ==> forall x :: x in Held(c) ==> x.store.sourceMid != mid
    ensures SourceFind(c, mid).Some? ==> exists x :: x in Held(c) && x.store.sourceMid == mid
  {
    hide Slots;
    if SourceFind(c, mid).None? {
      FirstFromNone(c.msgsIn.inflight, 0, mid);
      FirstFromNone(c.msgsIn.queued, 0, mid);
      forall x | x in Held(c)
        ensures x.store.sourceMid != mid
      {
        SlotsMember(c.msgsIn.inflight, x);
        SlotsMember(c.msgsIn.queued, x);
      }
    } else {
      var l := if FirstFrom(c.msgsIn.inflight, 0, mid).Some? then c.msgsIn.inflight else c.msgsIn.queued;
      var j := FirstFromSome(l, 0, mid);
      var x := Slot(l[j].mid, l[j].store);
      SlotsMember(l, x);
      assert x in Held(c);
    }
  }
}
