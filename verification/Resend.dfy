/** What a reconnect sends again comes in the order of the publish calls (section 4.6 of MQTT 5.0), over every run of the
    two-party system, whatever identifiers the calls come with and however many messages are outstanding. */
module Resend {
  import opened MosqTypes
  import C = ClientQueue
  import B = BrokerDb
  import opened Qos2

  /** The list is in call order, and the calls so far are n. */
  predicate InCallOrder(msgs: seq<C.Msg>, n: nat) {
    && (forall k :: 0 <= k < |msgs| ==> msgs[k].tag < n)
    && (forall i, j :: 0 <= i < j < |msgs| ==> msgs[i].tag < msgs[j].tag)
  }

  /** The same messages in the same places */
  predicate SameCalls(a: seq<C.Msg>, b: seq<C.Msg>) {
    |a| == |b| && forall k :: 0 <= k < |a| ==> a[k].tag == b[k].tag
  }

  lemma {:induction false} ReleaseKeepsPlaces(o: C.Out, i: nat, net: C.Net)
    ensures SameCalls(o.msgs, C.Release(o, i, net).out.msgs)
    decreases |o.msgs| - i
  {
    if i < |o.msgs| && o.quota > 0 {
      var p := C.PublishOf(o.msgs[i]);
      var marked := o.(msgs := o.msgs[i := C.InFlight(o.msgs[i])]);
      if o.msgs[i].state != Invalid {
        ReleaseKeepsPlaces(o, i + 1, net);
      } else if net(p) == Success {
        ReleaseKeepsPlaces(marked.(quota := Decremented(o.quota), wire := o.wire + [p]), i + 1, net);
      }
    }
  }

  /** The publish calls that packets are for, in order and from least on */
  predicate Ascending(r: seq<C.Repeat>, least: nat) {
    && (forall i, j :: 0 <= i < j < |r| ==> r[i].call < r[j].call)
    && (forall i :: 0 <= i < |r| ==> least <= r[i].call)
  }

  lemma {:induction false} RepeatsInOrder(msgs: seq<C.Msg>, net: C.Net, n: nat, least: nat)
    requires InCallOrder(msgs, n) && forall k :: 0 <= k < |msgs| ==> least <= msgs[k].tag
    ensures Ascending(C.AllRepeats(msgs, net), least)
  {
    if msgs != [] {
      assert forall k :: 0 <= k < |msgs[1..]| ==> msgs[1..][k] == msgs[k + 1];
      RepeatsInOrder(msgs[1..], net, n, msgs[0].tag + 1);
    }
  }

  lemma RetryIsSame(o: C.Out, net: C.Net)
    ensures SameCalls(o.msgs, C.Retry(o, 0, net).msgs)
  {
    hide C.Due;
    C.RetryMarks(o, 0, net);
  }

  lemma RemovedKeepsOrder(msgs: seq<C.Msg>, mid: Word, qos: int, n: nat)
    requires InCallOrder(msgs, n)
    ensures InCallOrder(C.Removed(msgs, mid, qos), n)
  {
  }

  lemma SameKeepsOrder(a: seq<C.Msg>, b: seq<C.Msg>, n: nat)
    requires InCallOrder(a, n) && SameCalls(a, b)
    ensures InCallOrder(b, n)
  {
  }

  lemma ReplyKeepsOrder(o: C.Out, connacked: bool, m: B.ToClient, net: C.Net, n: nat)
    requires InCallOrder(o.msgs, n)
    ensures InCallOrder(OnReply(o, connacked, m, net).msgs, n)
  {
    hide InCallOrder, SameCalls, C.Retry, C.Release;
    var none: Option<Word> := None;
    if m.Connack? {
      var refilled := o.(quota := o.maximum);
      RetryIsSame(refilled, net);
      SameKeepsOrder(o.msgs, C.Retry(refilled, 0, net).msgs, n);
    } else if connacked {
      var grown := o.(quota := Incremented(o.quota, o.maximum));
      if m.Puback? || m.Pubcomp? || m.PubrecError? {
        var kept := C.Removed(o.msgs, m.mid, if m.Puback? then 1 else 2);
        RemovedKeepsOrder(o.msgs, m.mid, if m.Puback? then 1 else 2, n);
        ReleaseKeepsPlaces(grown.(msgs := kept), 0, net);
        SameKeepsOrder(kept, C.Release(grown.(msgs := kept), 0, net).out.msgs, n);
      } else if m.Pubrec? {
        UpdatedIsSame(o.msgs, m.mid);
        SameKeepsOrder(o.msgs, C.Updated(o.msgs, m.mid, WaitForPubcomp, 2), n);
      }
    }
  }

  lemma UpdatedIsSame(msgs: seq<C.Msg>, mid: Word)
    ensures SameCalls(msgs, C.Updated(msgs, mid, WaitForPubcomp, 2))
  {
  }

  lemma StepKeepsOrder(s: Sys, e: Event)
    requires InCallOrder(s.client.msgs, |s.calls|)
    ensures InCallOrder(Step(s, e).client.msgs, |Step(s, e).calls|)
  {
    hide OnPacket, OnReply, C.Release, SameCalls;
    match e
    case PublishCall(mid, qos, net) =>
      var m := C.Msg(mid, qos, |s.calls|, Invalid, false);
      var taken := if s.linkUp then net else Unconnected();
      var o := s.client.(msgs := s.client.msgs + [m]);
      ReleaseKeepsPlaces(o, 0, taken);
      SameKeepsOrder(o.msgs, C.Release(o, 0, taken).out.msgs, |s.calls| + 1);
    case ToBroker(o) =>
    case ToClient(net) =>
      if s.broker.c.wire != [] {
        ReplyKeepsOrder(s.client, s.connacked, s.broker.c.wire[0], net, |s.calls|);
      }
    case BrokerWrites(_, _) =>
    case Disconnect =>
    case Reconnect =>
      ResetIsSame(s.client.msgs, s.client.maximum);
      SameKeepsOrder(s.client.msgs, C.Reset(s.client.msgs, s.client.maximum), |s.calls|);
  }

  lemma ResetIsSame(msgs: seq<C.Msg>, maximum: Word)
    ensures SameCalls(msgs, C.Reset(msgs, maximum))
  {
  }

  lemma {:induction false} RunKeepsOrder(s: Sys, es: seq<Event>)
    requires InCallOrder(s.client.msgs, |s.calls|)
    ensures InCallOrder(Run(s, es).client.msgs, |Run(s, es).calls|)
    decreases |es|
  {
    hide Step, InCallOrder;
    if es != [] {
      StepKeepsOrder(s, es[0]);
      RunKeepsOrder(Step(s, es[0]), es[1..]);
    }
  }

  /** Whatever has happened before, CONNACK makes the client send again exactly the packets that the states, qualities of
      service and identifiers of its messages call for and that the transport takes, in the order of the publish calls. */
  lemma ResentInCallOrder(maximum: Word, brokerMaximum: Word, v5: bool, lim: B.Limits, es: seq<Event>, net: C.Net)
    ensures var o := Run(Start(maximum, brokerMaximum, v5, lim), es).client;
      var r := C.AllRepeats(o.msgs, net);
      && C.OnConnack(o, None, true, net).wire == o.wire + C.Packets(r)
      && Ascending(r, 0)
  {
    hide C.Retry, C.AllRepeats, C.Marked;
    var s := Run(Start(maximum, brokerMaximum, v5, lim), es);
    RunKeepsOrder(Start(maximum, brokerMaximum, v5, lim), es);
    C.ConnackSets(s.client, None, true, net);
    RepeatsInOrder(s.client.msgs, net, |s.calls|, 0);
  }

  // ---------------------------------------------------------------------------------------------
  // From the break of a connection to the packets of the next one
  // ---------------------------------------------------------------------------------------------

  /** The states of an outgoing message */
  predicate Proper(m: C.Msg) {
    if m.qos == 1 then m.state in {Invalid, WaitForPuback, PublishQos1}
    else m.state in {Invalid, WaitForPubrec, PublishQos2, WaitForPubcomp, ResendPubrel}
  }

  predicate AllProper(msgs: seq<C.Msg>) {
    forall k :: 0 <= k < |msgs| ==> Proper(msgs[k])
  }

  /** What is sent for one of the first inflight_maximum messages after a reconnect, by what it waited for when the
      connection broke: PUBLISH with the duplicate flag as long as it has not been answered, PUBREL from then on, and
      nothing for a QoS 2 message that had not been let out. */
  function Owed(m: C.Msg): seq<C.Packet> {
    if m.qos == 1 then [C.Publish(m.mid, 1, m.tag, true)]
    else if m.state == WaitForPubrec || m.state == PublishQos2 then [C.Publish(m.mid, 2, m.tag, true)]
    else if m.state == WaitForPubcomp || m.state == ResendPubrel then [C.Pubrel(m.mid)]
    else []
  }

  function AllOwed(msgs: seq<C.Msg>): seq<C.Packet> {
    if msgs == [] then [] else Owed(msgs[0]) + AllOwed(msgs[1..])
  }

  /** The packets of this list that the transport takes */
  function Taken(ps: seq<C.Packet>, net: C.Net): seq<C.Packet> {
    if ps == [] then [] else (if net(ps[0]) == Success then [ps[0]] else []) + Taken(ps[1..], net)
  }

  lemma TakenCons(p: C.Packet, ps: seq<C.Packet>, net: C.Net)
    ensures Taken([p] + ps, net) == (if net(p) == Success then [p] else []) + Taken(ps, net)
  {
  }

  lemma {:induction false} TakenAppend(a: seq<C.Packet>, b: seq<C.Packet>, net: C.Net)
    ensures Taken(a + b, net) == Taken(a, net) + Taken(b, net)
  {
    hide Taken;
    if a == [] {
      NothingOwed(net);
      assert a + b == b && [] + Taken(b, net) == Taken(b, net);
    } else {
      TakenCons(a[0], a[1..], net);
      TakenCons(a[0], a[1..] + b, net);
      assert a == [a[0]] + a[1..] && a + b == [a[0]] + (a[1..] + b);
      TakenAppend(a[1..], b, net);
    }
  }

  /** With a transport that takes everything, that is all of it. */
  lemma {:induction false} AllTaken(ps: seq<C.Packet>, net: C.Net)
    requires forall p :: net(p) == Success
    ensures Taken(ps, net) == ps
  {
    if ps != [] {
      AllTaken(ps[1..], net);
    }
  }

  /** The messages of the window, as a reconnect leaves them, and those beyond */
  lemma {:induction false} OwedIsRepeated(msgs: seq<C.Msg>, maximum: nat, net: C.Net)
    requires AllProper(msgs) && maximum < 0x1_0000
    ensures C.Packets(C.AllRepeats(C.Reset(msgs, maximum), net)) ==
      Taken(AllOwed(msgs[..Min(maximum, |msgs|)]), net)
    decreases |msgs|
  {
    hide C.Repeats, C.AllRepeats, C.Due, Owed, Taken, C.Packets;
    if msgs == [] {
      assert C.Reset(msgs, maximum) == [] && msgs[..0] == [];
      NothingOwed(net);
    } else {
      var rest, first := msgs[1..], C.ResetMsg(msgs[0], 0 < maximum);
      assert AllProper(rest) by {
        assert forall k :: 0 <= k < |rest| ==> rest[k] == msgs[k + 1];
      }
      if maximum > 0 {
        assert C.Reset(msgs, maximum)[1..] == C.Reset(rest, maximum - 1);
        OwedIsRepeated(rest, maximum - 1, net);
        var owed := msgs[..Min(maximum, |msgs|)];
        assert owed[0] == msgs[0] && owed[1..] == rest[..Min(maximum - 1, |rest|)];
        OneOwed(msgs[0], net);
        TakenAppend(Owed(msgs[0]), AllOwed(owed[1..]), net);
      } else {
        assert C.Reset(msgs, maximum)[1..] == C.Reset(rest, 0);
        OwedIsRepeated(rest, 0, net);
        OutsideWindow(msgs[0], net);
        assert msgs[..0] == rest[..0] == [];
      }
      RepeatsCons(C.Reset(msgs, maximum), net);
    }
  }

  lemma NothingOwed(net: C.Net)
    ensures C.Packets(C.AllRepeats([], net)) == Taken(AllOwed([]), net) == Taken([], net) == []
  {
  }

  lemma RepeatsCons(msgs: seq<C.Msg>, net: C.Net)
    requires msgs != []
    ensures C.Packets(C.AllRepeats(msgs, net)) == C.Packets(C.Repeats(msgs[0], net)) + C.Packets(C.AllRepeats(msgs[1..], net))
  {
    hide C.Repeats;
    C.PacketsAppend(C.Repeats(msgs[0], net), C.AllRepeats(msgs[1..], net), []);
  }

  lemma OneOwed(m: C.Msg, net: C.Net)
    requires Proper(m)
    ensures C.Packets(C.Repeats(C.ResetMsg(m, true), net)) == Taken(Owed(m), net)
  {
    if Owed(m) != [] {
      assert Owed(m)[1..] == [];
    }
  }

  lemma OutsideWindow(m: C.Msg, net: C.Net)
    ensures C.Packets(C.Repeats(C.ResetMsg(m, false), net)) == []
  {
  }

  /** A reconnect and the CONNACK that accepts it: what is owed for each of the first inflight_maximum messages is sent once,
      in list order, and nothing else. */
  lemma ReconnectSendsOwed(o: C.Out, receiveMaximum: Option<Word>, net: C.Net)
    requires AllProper(o.msgs)
    ensures C.OnConnack(C.OnReconnect(o), receiveMaximum, true, net).wire ==
      o.wire + Taken(AllOwed(o.msgs[..Min(o.maximum, |o.msgs|)]), net)
  {
    hide C.Retry, C.AllRepeats, C.Marked, Taken, AllOwed;
    C.ConnackSets(C.OnReconnect(o), receiveMaximum, true, net);
    OwedIsRepeated(o.msgs, o.maximum, net);
  }

  lemma ReleaseKeepsProper(o: C.Out, i: nat, net: C.Net)
    requires AllProper(o.msgs)
    ensures AllProper(C.Release(o, i, net).out.msgs)
    decreases |o.msgs| - i
  {
    if i < |o.msgs| && o.quota > 0 {
      var p := C.PublishOf(o.msgs[i]);
      var marked := o.(msgs := o.msgs[i := C.InFlight(o.msgs[i])]);
      if o.msgs[i].state != Invalid {
        ReleaseKeepsProper(o, i + 1, net);
      } else if net(p) == Success {
        ReleaseKeepsProper(marked.(quota := Decremented(o.quota), wire := o.wire + [p]), i + 1, net);
      }
    }
  }

  lemma ReplyKeepsProper(o: C.Out, connacked: bool, m: B.ToClient, net: C.Net)
    requires AllProper(o.msgs)
    ensures AllProper(OnReply(o, connacked, m, net).msgs)
  {
    hide C.Retry, C.Release, C.Due;
    if m.Connack? {
      C.RetryMarks(o.(quota := o.maximum), 0, net);
    } else if connacked && (m.Puback? || m.Pubcomp? || m.PubrecError?) {
      var kept := C.Removed(o.msgs, m.mid, if m.Puback? then 1 else 2);
      ReleaseKeepsProper(o.(quota := Incremented(o.quota, o.maximum), msgs := kept), 0, net);
    }
  }

  lemma StepKeepsProper(s: Sys, e: Event)
    requires AllProper(s.client.msgs)
    ensures AllProper(Step(s, e).client.msgs)
  {
    hide OnPacket, OnReply, C.Release;
    match e
    case PublishCall(mid, qos, net) =>
      var m := C.Msg(mid, qos, |s.calls|, Invalid, false);
      ReleaseKeepsProper(s.client.(msgs := s.client.msgs + [m]), 0, if s.linkUp then net else Unconnected());
    case ToBroker(o) =>
    case ToClient(net) =>
      if s.broker.c.wire != [] {
        ReplyKeepsProper(s.client, s.connacked, s.broker.c.wire[0], net);
      }
    case BrokerWrites(_, _) =>
    case Disconnect =>
    case Reconnect =>
  }

  lemma {:induction false} RunKeepsProper(s: Sys, es: seq<Event>)
    requires AllProper(s.client.msgs)
    ensures AllProper(Run(s, es).client.msgs)
    decreases |es|
  {
    hide Step, AllProper;
    if es != [] {
      StepKeepsProper(s, es[0]);
      RunKeepsProper(Step(s, es[0]), es[1..]);
    }
  }

  /** Whatever run came before, with QoS 1 and QoS 2 calls, any identifiers and any number of messages outstanding: the
      next connection begins with CONNECT and, once CONNACK has come, what is owed for each of the first inflight_maximum
      messages, in the order of the publish calls (section 4.4 of MQTT 5.0). */
  lemma OwedAfterAnyRun(maximum: Word, brokerMaximum: Word, v5: bool, lim: B.Limits, es: seq<Event>, net: C.Net)
    requires !Run(Start(maximum, brokerMaximum, v5, lim), es).linkUp
    ensures var s := Run(Start(maximum, brokerMaximum, v5, lim), es);
      && C.OnConnack(Step(s, Reconnect).client, None, true, net).wire ==
           [C.Connect] + Taken(AllOwed(s.client.msgs[..Min(s.client.maximum, |s.client.msgs|)]), net)
      && InCallOrder(s.client.msgs, |s.calls|)
  {
    hide Run, C.Retry, C.AllRepeats, C.Marked, Taken, AllOwed;
    var s0 := Start(maximum, brokerMaximum, v5, lim);
    var s := Run(s0, es);
    RunKeepsProper(s0, es);
    RunKeepsOrder(s0, es);
    C.ConnackSets(C.OnReconnect(s.client).(wire := [C.Connect]), None, true, net);
    OwedIsRepeated(s.client.msgs, s.client.maximum, net);
  }

  /** The same on the mutable list */
  method Resume(q: C.OutQueue, receiveMaximum: Option<Word>, net: C.Net)
    requires q.Valid()
    modifies q
    ensures q.Valid() && q.View() == C.OnConnack(C.OnReconnect(old(q.View())), receiveMaximum, true, net)
    ensures old(AllProper(q.inflight)) ==>
      q.wire == old(q.wire) + Taken(AllOwed(old(q.inflight)[..Min(old(q.maximum), |old(q.inflight)|)]), net)
    ensures q.maximum == q.quota == if receiveMaximum.Some? then receiveMaximum.value else old(q.maximum)
  {
    hide C.OnConnack, C.OnReconnect, C.AllRepeats, C.Marked, Taken, AllOwed;
    if AllProper(q.inflight) {
      ReconnectSendsOwed(q.View(), receiveMaximum, net);
    }
    q.ReconnectReset();
    q.HandleConnack(receiveMaximum, true, net);
  }
}
