/** Order over whole runs of the broker: as long as only QoS > 0 messages are put into the queues, a message is marked as
    queued exactly when it is queued, and the line of each client's messages, in flight before queued, changes only by
    messages leaving it and by new ones joining at the end of one of its two parts. */
module BrokerOrder {
  import opened MosqTypes
  import opened BrokerDb
  import opened BrokerFifo
  import opened BrokerWorld
  import BrokerCounters

  // ---------------------------------------------------------------------------------------------
  // Lines
  // ---------------------------------------------------------------------------------------------

  /** What of a list element stays the same while it is listed. */
  function Bare(m: ClientMsg): ClientMsg {
    m.(state := Invalid, dup := false)
  }

  function BareAll(msgs: seq<ClientMsg>): (r: seq<ClientMsg>)
    ensures |r| == |msgs| && forall i :: 0 <= i < |r| ==> r[i] == Bare(msgs[i])
  {
    seq(|msgs|, i requires 0 <= i < |msgs| => Bare(msgs[i]))
  }

  /** The messages of one direction, in flight before queued. */
  function Line(d: MsgData): seq<ClientMsg> {
    BareAll(d.inflight) + BareAll(d.queued)
  }

  /** b is a with some elements left out. */
  predicate Sub<T(==)>(b: seq<T>, a: seq<T>) {
    if b == [] then true
    else if a == [] then false
    else (b[0] == a[0] && Sub(b[1..], a[1..])) || Sub(b, a[1..])
  }

  lemma {:induction false} SubSelf<T>(a: seq<T>)
    ensures Sub(a, a)
  {
    if a != [] {
      SubSelf(a[1..]);
    }
  }

  lemma SubLater<T>(b: seq<T>, a: seq<T>)
    requires a != [] && Sub(b, a[1..])
    ensures Sub(b, a)
  {
  }

  lemma {:induction false} SubTrans<T>(c: seq<T>, b: seq<T>, a: seq<T>)
    requires Sub(c, b) && Sub(b, a)
    ensures Sub(c, a)
    decreases |a|, |b|
  {
    if c != [] && b != [] && a != [] {
      if b[0] == a[0] && Sub(b[1..], a[1..]) {
        if c[0] == b[0] && Sub(c[1..], b[1..]) {
          SubTrans(c[1..], b[1..], a[1..]);
        } else {
          SubTrans(c, b[1..], a[1..]);
        }
      } else {
        SubTrans(c, b, a[1..]);
      }
    }
  }

  lemma {:induction false} SubJoin<T>(b: seq<T>, a: seq<T>, d: seq<T>, c: seq<T>)
    requires Sub(b, a) && Sub(d, c)
    ensures Sub(b + d, a + c)
    decreases |a|
  {
    if a == [] {
      assert b + d == d && a + c == c;
    } else {
      assert (a + c)[1..] == a[1..] + c && (a + c)[0] == a[0];
      if b != [] && b[0] == a[0] && Sub(b[1..], a[1..]) {
        SubJoin(b[1..], a[1..], d, c);
        assert (b + d)[1..] == b[1..] + d && (b + d)[0] == b[0];
      } else {
        SubJoin(b, a[1..], d, c);
        SubLater(b + d, a + c);
      }
    }
  }

  lemma {:induction false} SubWithout<T>(a: seq<T>, i: nat)
    requires i < |a|
    ensures Sub(Without(a, i), a)
    decreases |a|
  {
    if i == 0 {
      SubSelf(a[1..]);
      assert Without(a, 0) == a[1..];
      SubLater(a[1..], a);
    } else {
      SubWithout(a[1..], i - 1);
      assert Without(a, i)[1..] == Without(a[1..], i - 1);
    }
  }

  lemma SubNothing<T>(a: seq<T>)
    ensures Sub([], a)
  {
  }

  // ---------------------------------------------------------------------------------------------
  // What an operation may do to one direction
  // ---------------------------------------------------------------------------------------------

  /** Messages have left the line and nothing else has happened to it; marks and places still agree. */
  ghost predicate Thins(d: MsgData, e: MsgData) {
    && Sub(Line(e), Line(d))
    && (QueuedIff(d) ==> QueuedIff(e))
    && (forall m :: m in e.queued ==> m in d.queued)
  }

  lemma ThinsTrans(d: MsgData, e: MsgData, f: MsgData)
    requires Thins(d, e) && Thins(e, f)
    ensures Thins(d, f)
  {
    hide Sub, Line, QueuedIff;
    SubTrans(Line(f), Line(e), Line(d));
  }

  /** The lists are as they were. */
  lemma SameThins(d: MsgData, e: MsgData)
    requires e.inflight == d.inflight && e.queued == d.queued
    ensures Thins(d, e)
  {
    SubSelf(Line(d));
  }

  lemma DropThins(d: MsgData, i: nat)
    requires i < |d.inflight|
    ensures Thins(d, Drop(d, i))
  {
    hide Sub;
    var e := Drop(d, i);
    SubWithout(BareAll(d.inflight), i);
    assert BareAll(e.inflight) == Without(BareAll(d.inflight), i);
    SubSelf(BareAll(d.queued));
    SubJoin(BareAll(e.inflight), BareAll(d.inflight), BareAll(d.queued), BareAll(d.queued));
  }

  /** A message in flight gets another state that is not that of a queued one, or its duplicate flag. */
  lemma SetThins(d: MsgData, e: MsgData, i: nat, m: ClientMsg)
    requires i < |d.inflight| && Bare(m) == Bare(d.inflight[i]) && m.state != Queued
    requires e.inflight == d.inflight[i := m] && e.queued == d.queued
    ensures Thins(d, e)
  {
    assert Line(e) == Line(d);
    SubSelf(Line(d));
  }

  lemma PromotedThins(d: MsgData, e: MsgData, n: nat, state: NewState)
    requires Promoted(d, e, n, state) && forall m :: state(m) != Queued
    ensures Thins(d, e)
  {
    hide Sub, QueuedIff;
    PromotedLine(d, e, n, state);
    SubSelf(Line(d));
    if QueuedIff(d) {
      PromotedIsFifo(d, e, n, state);
    }
  }

  lemma PromotedLine(d: MsgData, e: MsgData, n: nat, state: NewState)
    requires Promoted(d, e, n, state)
    ensures Line(e) == Line(d)
    ensures forall m :: m in e.queued ==> m in d.queued
  {
    var k := |d.inflight|;
    forall i | 0 <= i < |Line(d)|
      ensures Line(e)[i] == Line(d)[i]
    {
      if k <= i < k + n {
        assert e.inflight[k + (i - k)] == d.queued[i - k].(state := state(d.queued[i - k]));
      }
    }
    hide Line;
  }

  // ---------------------------------------------------------------------------------------------
  // The operations
  // ---------------------------------------------------------------------------------------------

  lemma {:induction false} DeleteMatchingThins(p: Pair, i: nat, mid: Word, wanted: MsgState, qos: AnyQos)
    ensures var r := DeleteMatching(p, i, mid, wanted, qos).p.c;
      Thins(p.c.msgsOut, r.msgsOut) && r.msgsIn == p.c.msgsIn
    decreases |p.c.msgsOut.inflight| - i
  {
    hide Thins;
    SameThins(p.c.msgsOut, p.c.msgsOut);
    if i < |p.c.msgsOut.inflight| {
      var m := p.c.msgsOut.inflight[i];
      if m.mid != mid {
        DeleteMatchingThins(p, i + 1, mid, wanted, qos);
      } else if !(m.qos != qos || (qos == 2 && m.state != wanted)) {
        var q := Remove(p, Out, i);
        DropThins(p.c.msgsOut, i);
        DeleteMatchingThins(q, i, mid, wanted, qos);
        ThinsTrans(p.c.msgsOut, q.c.msgsOut, DeleteMatching(q, i, mid, wanted, qos).p.c.msgsOut);
      }
    }
  }

  lemma DeleteOutgoingThins(p: Pair, mid: Word, wanted: MsgState, qos: AnyQos)
    ensures var r := DeleteOutgoing(p, mid, wanted, qos).p.c;
      Thins(p.c.msgsOut, r.msgsOut) && r.msgsIn == p.c.msgsIn
  {
    hide Thins, Promoted;
    DeleteMatchingThins(p, 0, mid, wanted, qos);
    var d := DeleteMatching(p, 0, mid, wanted, qos).p.c.msgsOut;
    var e := PromoteUpTo(d, 0, |d.inflight|);
    PromoteUpToFifo(d, |d.inflight|);
    PromotedThins(d, e, Room(d.maximum, |d.inflight|, |d.queued|), ByQos());
    ThinsTrans(p.c.msgsOut, d, e);
  }

  lemma UpdateOutgoingThins(p: Pair, mid: Word, state: MsgState, qos: AnyQos)
    requires state != Queued
    ensures var r := UpdateOutgoing(p, mid, state, qos).p.c;
      Thins(p.c.msgsOut, r.msgsOut) && r.msgsIn == p.c.msgsIn
  {
    hide Thins;
    var d := p.c.msgsOut;
    var k := Find(d.inflight, mid);
    SameThins(d, d);
    if k < |d.inflight| {
      SetThins(d, SetInflightState(d, k, state), k, d.inflight[k].(state := state));
    }
  }

  lemma {:induction false} WriteInThins(p: Pair, i: nat, expired: Expiry, net: Net)
    ensures var r := WriteIn(p, i, expired, net).p.c;
      Thins(p.c.msgsIn, r.msgsIn) && r.msgsOut == p.c.msgsOut
    decreases |p.c.msgsIn.inflight| - i
  {
    hide Thins;
    var d := p.c.msgsIn;
    SameThins(d, d);
    if i < |d.inflight| {
      var m := d.inflight[i];
      if expired(m.store) {
        var q := Remove(p, In, i);
        DropThins(d, i);
        WriteInThins(q, i, expired, net);
        ThinsTrans(d, q.c.msgsIn, WriteIn(q, i, expired, net).p.c.msgsIn);
      } else if m.state == SendPubrec || m.state == ResendPubcomp {
        var c := if m.state == SendPubrec then SentTo(p.c, Pubrec(m.mid), net) else PubcompSent(p.c, m.mid, net);
        SameThins(d, c.msgsIn);
        var q := p.(c := c.(msgsIn := SetInflightState(c.msgsIn, i, WaitForPubrel)));
        SetThins(d, q.c.msgsIn, i, m.(state := WaitForPubrel));
        WriteInThins(q, i + 1, expired, net);
        ThinsTrans(d, q.c.msgsIn, WriteIn(q, i + 1, expired, net).p.c.msgsIn);
      } else {
        WriteInThins(p, i + 1, expired, net);
      }
    }
  }

  lemma {:induction false} WriteOutThins(p: Pair, i: nat, expired: Expiry, net: Net)
    requires QueuedIff(p.c.msgsOut)
    ensures var r := WriteOut(p, i, expired, net).p.c;
      Thins(p.c.msgsOut, r.msgsOut) && r.msgsIn == p.c.msgsIn
    decreases |p.c.msgsOut.inflight| - i
  {
    var d := p.c.msgsOut;
    SameThins(d, d);
    if i < |d.inflight| {
      hide Thins;
      var m := d.inflight[i];
      var due := DueOut(m);
      if expired(m.store) {
        WriteOutRemoves(p, i, expired, net);
      } else if due.None? {
        WriteOutThins(p, i + 1, expired, net);
      } else {
        var q := p.(c := SentTo(p.c, due.value, net));
        if net(due.value) == Success && m.state != PublishQos0 {
          var q' := q.(c := q.c.(msgsOut := d.(inflight := d.inflight[i := AfterSend(m)])));
          SetThins(d, q'.c.msgsOut, i, AfterSend(m));
          WriteOutThins(q', i + 1, expired, net);
          ThinsTrans(d, q'.c.msgsOut, WriteOut(q', i + 1, expired, net).p.c.msgsOut);
        } else {
          WriteOutRemoves(q, i, expired, net);
        }
      }
    }
  }

  lemma {:induction false} WriteOutRemoves(p: Pair, i: nat, expired: Expiry, net: Net)
    requires QueuedIff(p.c.msgsOut) && i < |p.c.msgsOut.inflight|
    ensures var r := WriteOut(Remove(p, Out, i), i, expired, net).p.c;
      Thins(p.c.msgsOut, r.msgsOut) && r.msgsIn == p.c.msgsIn
    decreases |p.c.msgsOut.inflight| - i, 0
  {
    var q := Remove(p, Out, i);
    DropThins(p.c.msgsOut, i);
    WriteOutThins(q, i, expired, net);
    ThinsTrans(p.c.msgsOut, q.c.msgsOut, WriteOut(q, i, expired, net).p.c.msgsOut);
  }

  /** Marks and places agree, only QoS 2 messages are queued on their way in and only QoS > 0 messages on their way
      out. */
  predicate InOrder(c: Ctx) {
    && QueuedIff(c.msgsIn) && QueuedIff(c.msgsOut) && AllQos2(c.msgsIn.queued)
    && forall m :: m in c.msgsOut.queued ==> m.qos > 0
  }

  ghost predicate CtxThins(c: Ctx, r: Ctx) {
    Thins(c.msgsIn, r.msgsIn) && Thins(c.msgsOut, r.msgsOut)
  }

  lemma CtxThinsTrans(c: Ctx, q: Ctx, r: Ctx)
    requires CtxThins(c, q) && CtxThins(q, r)
    ensures CtxThins(c, r)
  {
    hide Thins;
    ThinsTrans(c.msgsIn, q.msgsIn, r.msgsIn);
    ThinsTrans(c.msgsOut, q.msgsOut, r.msgsOut);
  }

  lemma ThinnedInOrder(c: Ctx, r: Ctx)
    requires InOrder(c) && CtxThins(c, r)
    ensures InOrder(r)
  {
    hide QueuedIff, Sub, Line;
    forall i | 0 <= i < |r.msgsIn.queued|
      ensures r.msgsIn.queued[i].qos == 2
    {
      assert r.msgsIn.queued[i] in c.msgsIn.queued;
    }
  }

  lemma OutOrder(c: Ctx)
    requires InOrder(c)
    ensures forall m :: m in c.msgsOut.queued ==> m.qos > 0
    ensures forall m :: m in c.msgsIn.queued ==> m.qos > 0
  {
  }

  lemma SameListsThin(c: Ctx, r: Ctx)
    requires r.msgsIn.inflight == c.msgsIn.inflight && r.msgsIn.queued == c.msgsIn.queued
    requires r.msgsOut.inflight == c.msgsOut.inflight && r.msgsOut.queued == c.msgsOut.queued
    ensures CtxThins(c, r)
  {
    hide Thins;
    SameThins(c.msgsIn, r.msgsIn);
    SameThins(c.msgsOut, r.msgsOut);
  }

  lemma WriteInQueuedThins(c: Ctx, net: Net)
    requires AllQos2(c.msgsIn.queued)
    ensures var r := WriteInQueued(c, 0, net).0; Thins(c.msgsIn, r.msgsIn)
  {
    hide Thins, Promoted, WriteInQueued;
    WriteInQueuedFifo(c, net);
    var k := Acknowledgeable(c.msgsIn.queued, net);
    PromotedThins(c.msgsIn, WriteInQueued(c, 0, net).0.msgsIn, Min(Waiting(c), k + 1), AfterPubrec(net));
  }

  lemma WriteOutQueuedThins(d: MsgData)
    ensures Thins(d, WriteOutQueued(d, 0))
  {
    hide Thins, Promoted, WriteOutQueued, QueuedIff, Line;
    WriteOutQueuedFifo(d);
    PromotedThins(d, WriteOutQueued(d, 0), Allowed(d, d.maximum), ByQos());
  }

  lemma WriteThins(p: Pair, expired: Expiry, net: Net)
    requires InOrder(p.c)
    ensures CtxThins(p.c, Write(p, expired, net).p.c)
  {
    hide Thins, InOrder, WriteIn, WriteOut, WriteInQueued, WriteOutQueued;
    var a := WriteIn(p, 0, expired, net);
    WriteInThins(p, 0, expired, net);
    SameThins(p.c.msgsOut, p.c.msgsOut);
    if a.rc == Success {
      ThinnedInOrder(p.c, a.p.c);
      WriteOutToEndThins(a.p, expired, net);
      CtxThinsTrans(p.c, a.p.c, Write(p, expired, net).p.c);
    }
  }

  /** The last three loops of db__message_write */
  function WriteOutToEnd(p: Pair, expired: Expiry, net: Net): Ctx {
    var r := WriteOut(p, 0, expired, net);
    if r.rc != Success then r.p.c
    else
      var (c, rc) := WriteInQueued(r.p.c, 0, net);
      if rc != Success then c else c.(msgsOut := WriteOutQueued(c.msgsOut, 0))
  }

  lemma WriteOutToEndThins(p: Pair, expired: Expiry, net: Net)
    requires InOrder(p.c)
    ensures CtxThins(p.c, WriteOutToEnd(p, expired, net))
  {
    hide Thins, WriteOut, WriteInQueued, WriteOutQueued;
    var b := WriteOut(p, 0, expired, net);
    WriteOutThins(p, 0, expired, net);
    SameThins(p.c.msgsIn, p.c.msgsIn);
    if b.rc == Success {
      WriteInQueuedThins(b.p.c, net);
      BrokerCounters.WriteInQueuedOk(b.p.c, 0, net);
      var o := b.p.c.msgsOut;
      WriteOutQueuedThins(o);
      ThinsTrans(p.c.msgsOut, o, WriteOutQueued(o, 0));
    }
  }

  lemma {:induction false} ReleaseMatchingThins(r: ReleaseRun, i: nat, mid: Word, routes: bool)
    ensures var q := ReleaseMatching(r, i, mid, routes).p.c;
      Thins(r.p.c.msgsIn, q.msgsIn) && q.msgsOut == r.p.c.msgsOut
    decreases |r.p.c.msgsIn.inflight| - i
  {
    hide Thins;
    var d := r.p.c.msgsIn;
    SameThins(d, d);
    if i < |d.inflight| {
      var m := d.inflight[i];
      var r1 := r.(index := r.index + 1);
      if m.mid != mid {
        ReleaseMatchingThins(r1, i + 1, mid, routes);
      } else if m.store.qos == 2 && routes {
        var r2 := r1.(p := Remove(r1.p, In, i), deleted := true, routed := r1.routed + [m.store]);
        DropThins(d, i);
        ReleaseMatchingThins(r2, i, mid, routes);
        ThinsTrans(d, r2.p.c.msgsIn, ReleaseMatching(r2, i, mid, routes).p.c.msgsIn);
      }
    }
  }

  lemma ReleaseIncomingThins(p: Pair, mid: Word, routes: bool, net: Net)
    requires InOrder(p.c)
    ensures CtxThins(p.c, ReleaseIncoming(p, mid, routes, net).p.c)
  {
    hide Thins, Promoted, ReleaseMatching, ReleaseQueued, InOrder;
    var r0 := ReleaseRun(p, Success, false, 0, []);
    var r := ReleaseMatching(r0, 0, mid, routes);
    ReleaseMatchingThins(r0, 0, mid, routes);
    SameThins(p.c.msgsOut, p.c.msgsOut);
    if r.rc == Success {
      ThinnedInOrder(p.c, r.p.c);
      ReleaseQueuedThins(r.p.c, r.index, net);
      CtxThinsTrans(p.c, r.p.c, ReleaseQueued(r.p.c, 0, r.index, net));
    }
  }

  lemma ReleaseQueuedThins(c: Ctx, index: nat, net: Net)
    requires InOrder(c)
    ensures CtxThins(c, ReleaseQueued(c, 0, index, net))
  {
    hide Thins, Promoted, ReleaseQueued;
    ReleaseQueuedFifo(c, index, net);
    var d := c.msgsIn;
    PromotedThins(d, ReleaseQueued(c, 0, index, net).msgsIn, Room(d.maximum, index, |d.queued|), ToPubrel());
    BrokerCounters.ReleaseQueuedOk(c, 0, index, net);
    SameThins(c.msgsOut, c.msgsOut);
  }

  lemma {:induction false} ResetOutInflightThins(c: Ctx, i: nat)
    ensures CtxThins(c, ResetOutInflight(c, i))
    decreases |c.msgsOut.inflight| - i
  {
    hide Thins;
    if i < |c.msgsOut.inflight| {
      var m := c.msgsOut.inflight[i];
      var d := SetInflightState(Counted(c.msgsOut, m), i, OutResetState(m));
      var quotaIn := if m.qos > 0 then Decremented(c.msgsIn.quota) else c.msgsIn.quota;
      var c' := c.(msgsOut := d, msgsIn := c.msgsIn.(quota := quotaIn));
      SetThins(c.msgsOut, d, i, m.(state := OutResetState(m)));
      SameThins(c.msgsIn, c'.msgsIn);
      ResetOutInflightThins(c', i + 1);
      CtxThinsTrans(c, c', ResetOutInflight(c', i + 1));
    } else {
      SameListsThin(c, c);
    }
  }

  lemma ResetQueueThins(d: MsgData, lim: Limits)
    requires forall m :: m in d.queued ==> m.qos > 0
    ensures Thins(d, ResetQueue(d, lim, 0))
  {
    hide Thins, Promoted;
    var n := ResetQueueFifo(d, lim);
    PromotedThins(d, ResetQueue(d, lim, 0), n, ByQos());
  }

  lemma ResetOutgoingThins(c: Ctx, lim: Limits)
    requires InOrder(c)
    ensures CtxThins(c, ResetOutgoing(c, lim))
  {
    hide Thins, ResetQueue, ResetOutInflight, InOrder;
    var a := c.(msgsOut := Refilled(c.msgsOut));
    SameListsThin(c, a);
    var b := ResetOutInflight(a, 0);
    ResetOutInflightThins(a, 0);
    CtxThinsTrans(c, a, b);
    ThinnedInOrder(c, b);
    OutOrder(b);
    ResetQueueThins(b.msgsOut, lim);
    SameThins(b.msgsIn, b.msgsIn);
    CtxThinsTrans(c, b, ResetOutgoing(c, lim));
  }

  lemma {:induction false} ResetInInflightThins(p: Pair, i: nat)
    ensures CtxThins(p.c, ResetInInflight(p, i).c)
    decreases |p.c.msgsIn.inflight| - i
  {
    hide Thins;
    if i < |p.c.msgsIn.inflight| {
      var m := p.c.msgsIn.inflight[i];
      var counted := Counted(p.c.msgsIn, m);
      var d := if m.qos > 0 then counted.(quota := Decremented(counted.quota)) else counted;
      var q := p.(c := p.c.(msgsIn := d));
      SameListsThin(p.c, q.c);
      if m.qos != 2 {
        RemoveInThins(q, i);
        ResetInInflightThins(Remove(q, In, i), i);
        CtxThinsTrans(p.c, q.c, Remove(q, In, i).c);
        CtxThinsTrans(p.c, Remove(q, In, i).c, ResetInInflight(p, i).c);
      } else {
        ResetInInflightThins(q, i + 1);
        CtxThinsTrans(p.c, q.c, ResetInInflight(p, i).c);
      }
    } else {
      SameListsThin(p.c, p.c);
    }
  }

  lemma RemoveInThins(p: Pair, i: nat)
    requires i < |p.c.msgsIn.inflight|
    ensures CtxThins(p.c, Remove(p, In, i).c)
  {
    hide Thins;
    DropThins(p.c.msgsIn, i);
    SameThins(p.c.msgsOut, p.c.msgsOut);
  }

  lemma ResetIncomingThins(p: Pair, lim: Limits)
    requires InOrder(p.c)
    ensures CtxThins(p.c, ResetIncoming(p, lim).c)
  {
    hide Thins, ResetQueue, ResetInInflight, InOrder;
    var a := p.(c := p.c.(msgsIn := Refilled(p.c.msgsIn)));
    SameListsThin(p.c, a.c);
    var b := ResetInInflight(a, 0);
    ResetInInflightThins(a, 0);
    CtxThinsTrans(p.c, a.c, b.c);
    ThinnedInOrder(p.c, b.c);
    OutOrder(b.c);
    ResetQueueThins(b.c.msgsIn, lim);
    SameThins(b.c.msgsOut, b.c.msgsOut);
    CtxThinsTrans(p.c, b.c, ResetIncoming(p, lim).c);
  }

  lemma ReconnectResetThins(p: Pair, lim: Limits)
    requires InOrder(p.c)
    ensures CtxThins(p.c, ReconnectReset(p, lim).c)
  {
    hide CtxThins, ResetOutgoing, ResetIncoming, InOrder;
    var q := p.(c := ResetOutgoing(p.c, lim));
    ResetOutgoingThins(p.c, lim);
    ThinnedInOrder(p.c, q.c);
    ResetIncomingThins(q, lim);
    CtxThinsTrans(p.c, q.c, ReconnectReset(p, lim).c);
  }

  lemma {:induction false} PurgeListThins(u: Purge, i: nat, denied: Expiry)
    ensures var v := PurgeList(u, i, denied);
      (forall m :: m in v.msgs ==> m in u.msgs) && Sub(BareAll(v.msgs), BareAll(u.msgs))
    decreases |u.msgs| - i
  {
    hide Sub;
    SubSelf(BareAll(u.msgs));
    if i < |u.msgs| {
      if denied(u.msgs[i].store) {
        var v := Purge(RefDec(u.st, u.msgs[i].store), Without(u.msgs, i));
        PurgeListThins(v, i, denied);
        SubWithout(BareAll(u.msgs), i);
        assert BareAll(v.msgs) == Without(BareAll(u.msgs), i);
        SubTrans(BareAll(PurgeList(v, i, denied).msgs), BareAll(v.msgs), BareAll(u.msgs));
      } else {
        PurgeListThins(u, i + 1, denied);
      }
    }
  }

  lemma FewerMarks(d: MsgData, e: MsgData)
    requires forall m :: m in e.inflight ==> m in d.inflight
    requires forall m :: m in e.queued ==> m in d.queued
    ensures QueuedIff(d) ==> QueuedIff(e)
  {
    assert forall i :: 0 <= i < |e.inflight| ==> e.inflight[i] in d.inflight;
    assert forall i :: 0 <= i < |e.queued| ==> e.queued[i] in d.queued;
  }

  lemma AclPurgeThins(p: Pair, denied: Expiry)
    ensures CtxThins(p.c, AclPurge(p, denied).c)
  {
    hide Sub, PurgeList;
    var o := p.c.msgsOut;
    var a := PurgeList(Purge(p.st, o.inflight), 0, denied);
    var b := PurgeList(Purge(a.st, o.queued), 0, denied);
    PurgeListThins(Purge(p.st, o.inflight), 0, denied);
    PurgeListThins(Purge(a.st, o.queued), 0, denied);
    SubJoin(BareAll(a.msgs), BareAll(o.inflight), BareAll(b.msgs), BareAll(o.queued));
    SameThins(p.c.msgsIn, p.c.msgsIn);
    FewerMarks(o, o.(inflight := a.msgs, queued := b.msgs));
  }

  lemma DeleteAllThins(p: Pair)
    ensures CtxThins(p.c, DeleteAll(p).c)
  {
    hide RefDecAll;
    SubNothing(Line(p.c.msgsIn));
    SubNothing(Line(p.c.msgsOut));
    assert Line(Emptied(p.c.msgsIn)) == [] && Line(Emptied(p.c.msgsOut)) == [];
  }

  // ---------------------------------------------------------------------------------------------
  // New messages
  // ---------------------------------------------------------------------------------------------

  /** At most one message has joined, at the end of those in flight or of those queued. */
  ghost predicate Joins(d: MsgData, e: MsgData) {
    && d.inflight <= e.inflight && d.queued <= e.queued
    && |e.inflight| + |e.queued| <= |d.inflight| + |d.queued| + 1
  }

  /** A message that is put into a queue keeps a QoS above 0 there; on its way in, only QoS 2 messages come. */
  predicate QueuedAboveZero(p: Pair, lim: Limits, dir: Direction, qos: AnyQos, retain: bool, s: Message) {
    var v, granted := InsertVerdict(p, lim, dir, qos, retain, s), Min(qos, p.c.maximumQos);
    v.Listed? && v.state == Queued ==> if dir == In then granted == 2 else granted > 0
  }

  lemma InsertJoins(p: Pair, lim: Limits, mid: Word, dir: Direction, qos: AnyQos, retain: bool, s: Message)
    requires InOrder(p.c) && QueuedAboveZero(p, lim, dir, qos, retain, s)
    ensures var r := Insert(p, lim, mid, dir, qos, retain, s).0.c;
      InOrder(r) && Joins(p.c.msgsIn, r.msgsIn) && Joins(p.c.msgsOut, r.msgsOut)
  {
    hide InsertVerdict, RefInc, AddDestId;
  }

  // ---------------------------------------------------------------------------------------------
  // Runs
  // ---------------------------------------------------------------------------------------------

  lemma OnClientThins(p: Pair, lim: Limits, op: Op)
    requires InOrder(p.c) && !op.InsertFor?
    ensures CtxThins(p.c, OnClient(p, lim, op).c)
  {
    hide Thins, InOrder, DeleteOutgoing, UpdateOutgoing, ReleaseIncoming, Write, ReconnectReset, DeleteAll, AclPurge, Insert;
    SameThins(p.c.msgsIn, p.c.msgsIn);
    match op
    case Acked(_, mid, qos) =>
      var d := p.c.msgsOut;
      var grown := p.(c := p.c.(msgsOut := QuotaGiven(d)));
      SameThins(d, QuotaGiven(d));
      DeleteOutgoingThins(grown, mid, WaitForPubcomp, qos);
      ThinsTrans(d, QuotaGiven(d), OnAck(p, mid, qos).p.c.msgsOut);
    case RecOk(_, mid, net) =>
      UpdateOutgoingThins(p, mid, WaitForPubcomp, 2);
    case RecError(_, mid) =>
      DeleteOutgoingThins(p, mid, WaitForPubrec, 2);
    case Rel(_, mid, routes, net) =>
      ReleaseIncomingThins(p, mid, routes, net);
    case WriteTo(_, expired, net) =>
      WriteThins(p, expired, net);
    case Reset(_) =>
      ReconnectResetThins(p, lim);
    case DeleteFor(_) =>
      DeleteAllThins(p);
    case CheckAcl(_, denied) =>
      AclPurgeThins(p, denied);
    case _ =>
      SameListsThin(p.c, OnClient(p, lim, op).c);
  }

  lemma TakeoverThins(st: Store, found: Ctx, c: Ctx, lim: Limits)
    requires InOrder(found) && !HasMessages(c)
    ensures var (_, f, r) := Takeover(st, found, c, lim); CtxThins(found, f) && CtxThins(found, r)
  {
    hide Thins, ReconnectReset, InOrder;
    if HasMessages(found) {
      var p := Pair(st, c.(msgsIn := found.msgsIn, msgsOut := found.msgsOut));
      SameListsInOrder(found, p.c);
      ReconnectResetThins(p, lim);
      NothingThins(found.msgsIn);
      NothingThins(found.msgsOut);
    } else {
      SameListsThin(found, found);
      SameListsThin(found, c);
    }
  }

  lemma NothingThins(d: MsgData)
    ensures Thins(d, NoMessages(0))
  {
    SubNothing(Line(d));
    assert Line(NoMessages(0)) == [];
  }

  lemma SameListsInOrder(c: Ctx, r: Ctx)
    requires InOrder(c) && r.msgsIn == c.msgsIn && r.msgsOut == c.msgsOut
    ensures InOrder(r)
  {
  }

  ghost predicate AllInOrder(w: World) {
    forall k :: 0 <= k < |w.ctxs| ==> InOrder(w.ctxs[k])
  }

  predicate OrderSafe(w: World, op: Op) {
    op.InsertFor? && op.k < |w.ctxs| ==>
      QueuedAboveZero(Pair(w.st, w.ctxs[op.k]), w.lim, op.dir, op.qos, op.retain, op.s)
  }

  /** What one operation does to client k's lines; at a takeover the new context goes on with those of the one found. */
  ghost predicate LinesFollow(w: World, op: Op, r: World, k: nat)
    requires k < |w.ctxs| && k < |r.ctxs|
  {
    if op.InsertFor? && op.k == k then
      Joins(w.ctxs[k].msgsIn, r.ctxs[k].msgsIn) && Joins(w.ctxs[k].msgsOut, r.ctxs[k].msgsOut)
    else if op.TakeOver? && Enabled(w, op) && op.k == k then CtxThins(w.ctxs[op.found], r.ctxs[k])
    else CtxThins(w.ctxs[k], r.ctxs[k])
  }

  lemma ApplyOrder(w: World, op: Op, k: nat)
    requires AllInOrder(w) && OrderSafe(w, op) && k < |w.ctxs|
    ensures var r := Apply(w, op);
      k < |r.ctxs| && InOrder(r.ctxs[k]) && LinesFollow(w, op, r, k)
  {
    hide InOrder, CtxThins, Joins, OnClient, Takeover, QueuedAboveZero;
    var c := w.ctxs[k];
    SameListsThin(c, c);
    if Enabled(w, op) {
      if op.TakeOver? {
        TakeoverThins(w.st, w.ctxs[op.found], w.ctxs[op.k], w.lim);
        if k == op.found || k == op.k {
          ThinnedInOrder(w.ctxs[op.found], Apply(w, op).ctxs[k]);
        }
      } else if op.InsertFor? && op.k == k {
        InsertForJoins(w, op);
      } else if !op.Arrive? && !op.StoreMessage? && !op.Compact? && !op.Hold? && !op.LetGo? && op.k == k {
        OnClientThins(Pair(w.st, c), w.lim, op);
        ThinnedInOrder(c, OnClient(Pair(w.st, c), w.lim, op).c);
      }
    } else if op.InsertFor? && op.k == k {
      SameJoins(c.msgsIn);
      SameJoins(c.msgsOut);
    }
  }

  lemma SameJoins(d: MsgData)
    ensures Joins(d, d)
  {
  }

  lemma InsertForJoins(w: World, op: Op)
    requires op.InsertFor? && op.k < |w.ctxs| && InOrder(w.ctxs[op.k]) && OrderSafe(w, op)
    ensures var c, r := w.ctxs[op.k], OnClient(Pair(w.st, w.ctxs[op.k]), w.lim, op).c;
      InOrder(r) && Joins(c.msgsIn, r.msgsIn) && Joins(c.msgsOut, r.msgsOut)
  {
    hide Insert, InOrder, Joins, QueuedAboveZero;
    InsertJoins(Pair(w.st, w.ctxs[op.k]), w.lim, op.mid, op.dir, op.qos, op.retain, op.s);
  }

  lemma ApplyKeepsOrder(w: World, op: Op)
    requires AllInOrder(w) && OrderSafe(w, op)
    ensures AllInOrder(Apply(w, op))
  {
    hide InOrder, LinesFollow, OrderSafe;
    var r := Apply(w, op);
    forall k | 0 <= k < |r.ctxs|
      ensures InOrder(r.ctxs[k])
    {
      if k < |w.ctxs| {
        ApplyOrder(w, op, k);
      } else {
        NewCtxInOrder(op);
      }
    }
  }

  lemma NewCtxInOrder(op: Op)
    requires op.Arrive?
    ensures InOrder(NewCtx(op.id, op.v5, op.maximumQos, op.lazyBridge, op.maximumIn, op.maximumOut))
  {
  }

  predicate OrderSafeRun(w: World, ops: seq<Op>)
    decreases |ops|
  {
    ops == [] || (OrderSafe(w, ops[0]) && OrderSafeRun(Apply(w, ops[0]), ops[1..]))
  }

  lemma {:induction false} RunKeepsOrder(w: World, ops: seq<Op>)
    requires AllInOrder(w) && OrderSafeRun(w, ops)
    ensures AllInOrder(Run(w, ops))
    decreases |ops|
  {
    hide AllInOrder, OrderSafe, Apply;
    if ops != [] {
      ApplyKeepsOrder(w, ops[0]);
      RunKeepsOrder(Apply(w, ops[0]), ops[1..]);
    }
  }

  /** In every state the broker can reach while only QoS > 0 messages are queued, every client's messages are marked as
      queued exactly when they are. */
  lemma QueuedExactlyWhenMarked(lim: Limits, ops: seq<Op>)
    requires OrderSafeRun(Start(lim), ops)
    ensures var w := Run(Start(lim), ops);
      forall k :: 0 <= k < |w.ctxs| ==> QueuedIff(w.ctxs[k].msgsIn) && QueuedIff(w.ctxs[k].msgsOut)
  {
    RunKeepsOrder(Start(lim), ops);
  }

  /** Nothing is put into client k's lists. */
  predicate NothingFor(ops: seq<Op>, k: nat) {
    forall i :: 0 <= i < |ops| ==> !(ops[i].InsertFor? && ops[i].k == k) && !(ops[i].TakeOver? && ops[i].k == k)
  }

  /** Between inserts, over any run, client k's messages leave their line without changing places. */
  lemma {:induction false} LinesOnlyThin(w: World, ops: seq<Op>, k: nat)
    requires AllInOrder(w) && OrderSafeRun(w, ops) && k < |w.ctxs| && NothingFor(ops, k)
    ensures var r := Run(w, ops);
      && k < |r.ctxs|
      && Sub(Line(r.ctxs[k].msgsIn), Line(w.ctxs[k].msgsIn)) && Sub(Line(r.ctxs[k].msgsOut), Line(w.ctxs[k].msgsOut))
      && CtxThins(w.ctxs[k], r.ctxs[k])
    decreases |ops|
  {
    hide AllInOrder, OrderSafe, Apply, Line, QueuedIff, Sub, InOrder, Joins;
    if ops == [] {
      SameListsThin(w.ctxs[k], w.ctxs[k]);
    } else {
      var a := Apply(w, ops[0]);
      ApplyOrder(w, ops[0], k);
      ApplyKeepsOrder(w, ops[0]);
      LinesOnlyThin(a, ops[1..], k);
      CtxThinsTrans(w.ctxs[k], a.ctxs[k], Run(w, ops).ctxs[k]);
    }
  }
}
