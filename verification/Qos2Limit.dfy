/** Why RoutedAtMostOnce bounds the outstanding messages, and that its bound is exact: with one message more than
    inflight_maximum outstanding, CONNACK's refilled quota lets that message into flight, and the next reconnect takes it
    out of its handshake after it has been routed. No packet is refused by any transport; all it takes is one connection
    that breaks before the last PUBCOMPs have arrived. */
module Qos2Limit {
  import opened MosqTypes
  import C = ClientQueue
  import B = BrokerDb
  import opened Qos2
  import opened Qos2Proof

  function Answers(): B.Net {
    (p: B.ToClient) => Success
  }

  function Reliable(): C.Net {
    (p: C.Packet) => Success
  }

  function Unlimited(): B.Limits {
    B.Limits(0, 0, 0, true, true)
  }

  function Takes(): Event {
    ToBroker(Oracle(true, false, true, 0, Answers()))
  }

  function Hears(): Event {
    Event.ToClient(Reliable())
  }

  /** The messages of the publish calls from number first on; the n-th call has tag n - 1 and identifier n. */
  predicate Line(ms: seq<C.Msg>, first: nat) {
    forall k :: 0 <= k < |ms| ==> ms[k].mid == first + k && ms[k].tag + 1 == first + k && ms[k].qos == 2
  }

  predicate AllIn(ms: seq<C.Msg>, states: set<MsgState>) {
    forall k :: 0 <= k < |ms| ==> ms[k].state in states
  }

  /** Their PUBLISH packets, and their PUBRELs */
  predicate Pubs(ps: seq<C.Packet>, first: nat) {
    forall k :: 0 <= k < |ps| ==>
      ps[k].Publish? && ps[k].mid == first + k && ps[k].tag + 1 == first + k && ps[k].qos == 2
  }

  predicate Rels(ps: seq<C.Packet>, first: nat) {
    forall k :: 0 <= k < |ps| ==> ps[k].Pubrel? && ps[k].mid == first + k
  }

  /** The broker holds these n messages. */
  ghost predicate Holds(c: B.Ctx, first: nat, n: nat) {
    && c.id.Some? && c.v5 && c.maximumQos == 2 && c.msgsIn.maximum == 0
    && c.msgsIn.queued == [] && c.msgsOut.inflight == [] && c.msgsOut.queued == [] && |c.msgsIn.inflight| == n
    && forall k :: 0 <= k < n ==>
         var h := c.msgsIn.inflight[k];
         h.mid == h.store.sourceMid == first + k && h.store.content + 1 == first + k && h.store.qos == 2
  }

  /** The client's list, the packets under way, what the broker holds, and what has been routed. */
  ghost predicate At(s: Sys, m: Word, ms: seq<C.Msg>, up: seq<C.Packet>, down: seq<B.ToClient>, link: bool,
                     first: nat, n: nat, routed: seq<nat>) {
    && s.client.msgs == ms && s.client.maximum == m && s.client.wire == up && s.lim == Unlimited() && s.routed == routed
    && s.linkUp == s.connacked == s.broker.c.connected == link
    && s.broker.c.wire == down && Holds(s.broker.c, first, n)
  }

  // ---------------------------------------------------------------------------------------------
  // Runs, and the bound with one message more
  // ---------------------------------------------------------------------------------------------

  /** Identifiers are apart, and one message more than the maximum may be outstanding. */
  predicate OneOver(s: Sys, e: Event) {
    IdsApart(s, e) && (e.PublishCall? ==> |s.client.msgs| < s.client.maximum + 1)
  }

  predicate OneOverRun(s: Sys, es: seq<Event>)
    decreases |es|
  {
    es == [] || (OneOver(s, es[0]) && OneOverRun(Step(s, es[0]), es[1..]))
  }

  lemma {:induction false} Append(s: Sys, a: seq<Event>, b: seq<Event>)
    requires OneOverRun(s, a)
    ensures Run(s, a + b) == Run(Run(s, a), b)
    ensures OneOverRun(Run(s, a), b) ==> OneOverRun(s, a + b)
    decreases |a|
  {
    hide Step, OneOver;
    if a == [] {
      assert a + b == b;
    } else {
      assert (a + b)[1..] == a[1..] + b;
      Append(Step(s, a[0]), a[1..], b);
    }
  }

  lemma One(s: Sys, e: Event)
    requires OneOver(s, e)
    ensures Run(s, [e]) == Step(s, e) && OneOverRun(s, [e])
  {
    hide Step;
    assert [e][1..] == [];
  }

  lemma Two(s: Sys, a: Event, b: Event)
    requires !a.PublishCall? && !b.PublishCall?
    ensures Run(s, [a, b]) == Step(Step(s, a), b) && OneOverRun(s, [a, b])
  {
    hide Step, Run, OneOverRun;
    One(s, a);
    One(Step(s, a), b);
    Append(s, [a], [b]);
    assert [a] + [b] == [a, b];
  }

  lemma Three(s: Sys, a: Event, b: Event, c: Event)
    requires !a.PublishCall? && !b.PublishCall? && !c.PublishCall?
    ensures Run(s, [a, b, c]) == Step(Step(Step(s, a), b), c) && OneOverRun(s, [a, b, c])
  {
    hide Step, Run, OneOverRun;
    Two(s, a, b);
    One(Step(Step(s, a), b), c);
    Append(s, [a, b], [c]);
    assert [a, b] + [c] == [a, b, c];
  }

  // ---------------------------------------------------------------------------------------------
  // The stages
  // ---------------------------------------------------------------------------------------------

  /** n calls without a connection */
  function OfflineCalls(n: Word): seq<Event> {
    if n == 0 then [] else OfflineCalls(n - 1) + [PublishCall(n, 2, Reliable())]
  }

  lemma {:induction false} Offline(m: Word, n: Word) returns (ms: seq<C.Msg>)
    requires n <= m && 0 < m
    ensures var s0 := Start(m, 0, true, Unlimited());
      && OneOverRun(s0, OfflineCalls(n)) && At(Run(s0, OfflineCalls(n)), m, ms, [], [], false, 1, 0, [])
      && Run(s0, OfflineCalls(n)).client.quota == m && |Run(s0, OfflineCalls(n)).calls| == n
    ensures |ms| == n && Line(ms, 1) && AllIn(ms, {WaitForPubrec})
  {
    ms := [];
    var s0 := Start(m, 0, true, Unlimited());
    if n > 0 {
      ms := Offline(m, n - 1);
      var s, e := Run(s0, OfflineCalls(n - 1)), PublishCall(n, 2, Reliable());
      OfflineCall(s, m, ms, n);
      One(s, e);
      Append(s0, OfflineCalls(n - 1), [e]);
      ms := ms + [C.InFlight(C.Msg(n, 2, n - 1, Invalid, false))];
    }
  }

  lemma OfflineCall(s: Sys, m: Word, ms: seq<C.Msg>, n: Word)
    requires 0 < n <= m && At(s, m, ms, [], [], false, 1, 0, []) && s.client.quota == m && |s.calls| == n - 1
    requires |ms| == n - 1 && Line(ms, 1) && AllIn(ms, {WaitForPubrec})
    ensures var e := PublishCall(n, 2, Reliable());
      && OneOver(s, e) && |Step(s, e).calls| == n && Step(s, e).client.quota == m
      && At(Step(s, e), m, ms + [C.InFlight(C.Msg(n, 2, n - 1, Invalid, false))], [], [], false, 1, 0, [])
  {
    ReleaseLast(s.client, C.Msg(n, 2, n - 1, Invalid, false), 0, Unconnected());
  }

  /** A connection is made, and the client repeats what is due. */
  function Connecting(): seq<Event> {
    [Reconnect, Takes(), Hears()]
  }

  function Retried(ms: seq<C.Msg>, m: Word): C.Out {
    C.Retry(C.Out(C.Reset(ms, m), m, m, []), 0, Reliable())
  }

  /** The retry pass leaves everything but the duplicate flags as it is. */
  lemma RetryMarks(o: C.Out, i: nat, net: C.Net)
    ensures var r := C.Retry(o, i, net);
      && r.quota == o.quota && r.maximum == o.maximum && |r.msgs| == |o.msgs|
      && forall k :: 0 <= k < |r.msgs| ==> r.msgs[k].(dup := true) == o.msgs[k].(dup := true)
  {
    hide C.Due;
    C.RetryMarks(o, i, net);
  }

  lemma Connected(s: Sys, m: Word, ms: seq<C.Msg>, first: nat, routed: seq<nat>)
    requires At(s, m, ms, [], [], false, first, 0, routed)
    ensures var r, s' := Retried(ms, m), Run(s, Connecting());
      && OneOverRun(s, Connecting()) && At(s', m, r.msgs, r.wire, [], true, first, 0, routed)
      && s'.client.quota == m && s'.calls == s.calls
  {
    Three(s, Reconnect, Takes(), Hears());
    RetryMarks(C.Out(C.Reset(ms, m), m, m, []), 0, Reliable());
    var s1 := Step(s, Reconnect);
    assert s1.client == C.Out(C.Reset(ms, m), Max(0, m - |ms|), m, [C.Connect]);
    var s2 := Step(s1, Takes());
    assert [C.Connect][1..] == [];
    assert s2.client.wire == [] && s2.broker.c.wire == [B.Connack];
    assert [B.Connack][1..] == [];
    assert routed + [] == routed;
  }

  lemma {:induction false} PublishesRepeated(ms: seq<C.Msg>, first: nat)
    requires Line(ms, first) && AllIn(ms, {PublishQos2})
    ensures var ps := C.Packets(C.AllRepeats(ms, Reliable())); |ps| == |ms| && Pubs(ps, first)
  {
    if ms != [] {
      var rest := ms[1..];
      assert forall k :: 0 <= k < |rest| ==> rest[k] == ms[k + 1];
      PublishesRepeated(rest, first + 1);
      assert C.Packets(C.AllRepeats(ms, Reliable())) ==
        [C.PublishOf(ms[0].(dup := true))] + C.Packets(C.AllRepeats(rest, Reliable()));
    }
  }

  /** On the first connection everything is published again. */
  lemma RetriedPublishes(ms: seq<C.Msg>, m: Word)
    requires |ms| <= m && Line(ms, 1) && AllIn(ms, {WaitForPubrec})
    ensures var r := Retried(ms, m);
      |r.wire| == |r.msgs| == |ms| && Pubs(r.wire, 1) && Line(r.msgs, 1) && AllIn(r.msgs, {PublishQos2})
  {
    var o, r := C.Out(C.Reset(ms, m), m, m, []), Retried(ms, m);
    RetryMarks(o, 0, Reliable());
    C.RetryFrom(o, 0, Reliable());
    assert o.msgs[0..] == o.msgs;
    PublishesRepeated(o.msgs, 1);
    assert [] + C.Packets(C.AllRepeats(o.msgs, Reliable())) == C.Packets(C.AllRepeats(o.msgs, Reliable()));
    SameButDup(o.msgs, r.msgs, 1, {PublishQos2});
  }

  lemma SameButDup(a: seq<C.Msg>, b: seq<C.Msg>, first: nat, states: set<MsgState>)
    requires |a| == |b| && forall k :: 0 <= k < |b| ==> b[k].(dup := true) == a[k].(dup := true)
    requires Line(a, first) && AllIn(a, states)
    ensures Line(b, first) && AllIn(b, states)
  {
    forall k | 0 <= k < |b|
      ensures b[k].mid == a[k].mid && b[k].tag == a[k].tag && b[k].qos == a[k].qos && b[k].state == a[k].state
    {
      assert b[k].(dup := true) == a[k].(dup := true);
    }
  }

  /** A connected client publishes, and its message goes out at once. */
  lemma Launches(s: Sys, m: Word, ms: seq<C.Msg>, up: seq<C.Packet>)
    requires At(s, m, ms, up, [], true, 1, 0, []) && s.client.quota == m && |s.calls| == m
    requires 0 < |ms| == m < 65535 && Line(ms, 1) && AllIn(ms, {PublishQos2})
    ensures var e, x := PublishCall(m + 1, 2, Reliable()), C.Msg(m + 1, 2, m, Invalid, false);
      && OneOverRun(s, [e])
      && At(Run(s, [e]), m, ms + [C.InFlight(x)], up + [C.PublishOf(x)], [], true, 1, 0, [])
  {
    One(s, PublishCall(m + 1, 2, Reliable()));
    ReleaseLast(s.client, C.Msg(m + 1, 2, m, Invalid, false), 0, Reliable());
  }

  // One message after the other is taken in by the broker and committed by the client -----------

  function Rounds(n: nat): seq<Event> {
    if n == 0 then [] else [Takes(), Hears()] + Rounds(n - 1)
  }

  lemma {:induction false} NoSource(msgs: seq<B.ClientMsg>, i: nat, mid: Word)
    requires forall k :: i <= k < |msgs| ==> msgs[k].store.sourceMid != mid
    ensures B.FirstFrom(msgs, i, mid) == None
    decreases |msgs| - i
  {
    if i < |msgs| {
      NoSource(msgs, i + 1, mid);
    }
  }

  lemma TakesPublish(s: Sys, m: Word, ms: seq<C.Msg>, p: C.Packet, up: seq<C.Packet>, n: nat, routed: seq<nat>)
    requires p.Publish? && p.qos == 2 && p.mid == n + 1 && p.tag == n
    requires At(s, m, ms, [p] + up, [], true, 1, n, routed)
    ensures At(Step(s, Takes()), m, ms, up, [B.Pubrec(p.mid)], true, 1, n + 1, routed)
  {
    hide OnPublish, Holds;
    assert ([p] + up)[0] == p && ([p] + up)[1..] == up && routed + [] == routed;
    BrokerTakes(s.broker, p, n);
  }

  lemma BrokerTakes(b: B.Pair, p: C.Packet, n: nat)
    requires p.Publish? && p.qos == 2 && p.mid == n + 1 && p.tag == n
    requires Holds(b.c, 1, n) && b.c.connected && b.c.wire == []
    ensures var (r, routed) := OnPublish(b, Unlimited(), p, Takes().o);
      routed == [] && Holds(r.c, 1, n + 1) && r.c.connected && r.c.wire == [B.Pubrec(p.mid)]
  {
    NoSource(b.c.msgsIn.inflight, 0, p.mid);
    assert [] + [B.Pubrec(p.mid)] == [B.Pubrec(p.mid)];
  }

  lemma HearsPubrec(s: Sys, m: Word, ms: seq<C.Msg>, j: nat, up: seq<C.Packet>, n: nat, routed: seq<nat>)
    requires Line(ms, 1) && j < |ms| && At(s, m, ms, up, [B.Pubrec(ms[j].mid)], true, 1, n, routed)
    ensures At(Step(s, Hears()), m, ms[j := ms[j].(state := WaitForPubcomp)], up + [C.Pubrel(ms[j].mid)], [], true, 1, n, routed)
  {
    assert C.Find(ms, ms[j].mid) == j;
    assert [B.Pubrec(ms[j].mid)][1..] == [];
  }

  lemma {:induction false} Gathers(s: Sys, m: Word, ms: seq<C.Msg>, ps: seq<C.Packet>, rels: seq<C.Packet>, routed: seq<nat>)
      returns (ms': seq<C.Msg>, rels': seq<C.Packet>)
    requires Line(ms, 1) && |ps| + |rels| == |ms| && Pubs(ps, |rels| + 1) && Rels(rels, 1)
    requires At(s, m, ms, ps + rels, [], true, 1, |rels|, routed)
    requires AllIn(ms[..|rels|], {WaitForPubcomp})
    ensures |ms'| == |rels'| == |ms| && Line(ms', 1) && Rels(rels', 1) && AllIn(ms', {WaitForPubcomp})
    ensures OneOverRun(s, Rounds(|ps|)) && At(Run(s, Rounds(|ps|)), m, ms', rels', [], true, 1, |ms|, routed)
    decreases |ps|
  {
    hide Step, Run, OneOverRun, At;
    if ps == [] {
      ms', rels' := ms, rels;
      assert ps + rels == rels && ms[..|rels|] == ms;
      NoEvents(s);
    } else {
      var j, p := |rels|, ps[0];
      assert ps + rels == [p] + (ps[1..] + rels);
      TakesPublish(s, m, ms, p, ps[1..] + rels, j, routed);
      var s1 := Step(s, Takes());
      assert p.mid == ms[j].mid;
      HearsPubrec(s1, m, ms, j, ps[1..] + rels, j + 1, routed);
      var ms1, rels1 := ms[j := ms[j].(state := WaitForPubcomp)], rels + [C.Pubrel(ms[j].mid)];
      assert ps[1..] + rels + [C.Pubrel(ms[j].mid)] == ps[1..] + rels1;
      assert forall k :: 0 <= k < |ps[1..]| ==> ps[1..][k] == ps[k + 1];
      assert ms1[..j + 1] == ms[..j] + [ms1[j]];
      Two(s, Takes(), Hears());
      ms', rels' := Gathers(Step(s1, Hears()), m, ms1, ps[1..], rels1, routed);
      Append(s, [Takes(), Hears()], Rounds(|ps| - 1));
    }
  }

  lemma NoEvents(s: Sys)
    ensures Run(s, []) == s && OneOverRun(s, [])
  {
  }

  // One after the other is released and routed ----------------------------------------------------

  function TakesAll(n: nat): seq<Event> {
    if n == 0 then [] else [Takes()] + TakesAll(n - 1)
  }

  /** The tags of the publish calls from number first on */
  function Tags(first: nat, n: nat): (r: seq<nat>)
    requires 0 < first
    ensures |r| == n
    decreases n
  {
    if n == 0 then [] else [first - 1] + Tags(first + 1, n - 1)
  }

  lemma {:induction false} NoMatch(r: B.ReleaseRun, i: nat, mid: Word, routes: bool)
    requires forall k :: i <= k < |r.p.c.msgsIn.inflight| ==> r.p.c.msgsIn.inflight[k].mid != mid
    ensures var q := B.ReleaseMatching(r, i, mid, routes);
      q.p == r.p && q.rc == r.rc && q.routed == r.routed && q.deleted == r.deleted
    decreases |r.p.c.msgsIn.inflight| - i
  {
    if i < |r.p.c.msgsIn.inflight| {
      NoMatch(r.(index := r.index + 1), i + 1, mid, routes);
    }
  }

  /** The pass over the list when only the first message has the identifier */
  lemma ReleasesFirst(p: B.Pair, mid: Word)
    requires p.c.msgsIn.inflight != []
    requires p.c.msgsIn.inflight[0].mid == mid && p.c.msgsIn.inflight[0].store.qos == 2
    requires forall k :: 1 <= k < |p.c.msgsIn.inflight| ==> p.c.msgsIn.inflight[k].mid != mid
    ensures var r := B.ReleaseMatching(B.ReleaseRun(p, Success, false, 0, []), 0, mid, true);
      r.p == B.Remove(p, B.In, 0) && r.rc == Success && r.deleted && r.routed == [p.c.msgsIn.inflight[0].store]
  {
    var r0 := B.ReleaseRun(p, Success, false, 0, []);
    var m := p.c.msgsIn.inflight[0];
    var r1 := B.ReleaseRun(B.Remove(p, B.In, 0), Success, true, 1, [m.store]);
    assert [] + [m.store] == [m.store];
    assert B.ReleaseMatching(r0, 0, mid, true) == B.ReleaseMatching(r1, 0, mid, true);
    NoMatch(r1, 0, mid, true);
  }

  lemma TakesPubrel(s: Sys, m: Word, ms: seq<C.Msg>, up: seq<C.Packet>, down: seq<B.ToClient>, mid: Word, n: nat,
                    routed: seq<nat>)
    requires 0 < mid && At(s, m, ms, [C.Pubrel(mid)] + up, down, true, mid, n + 1, routed)
    ensures At(Step(s, Takes()), m, ms, up, down + [B.Pubcomp(mid)], true, mid + 1, n, routed + [mid - 1])
  {
    hide B.ReleaseMatching;
    ReleasesFirst(s.broker, mid);
    assert ([C.Pubrel(mid)] + up)[1..] == up;
    assert Contents([s.broker.c.msgsIn.inflight[0].store]) == [mid - 1];
  }

  lemma {:induction false} RoutesAll(s: Sys, m: Word, ms: seq<C.Msg>, rels: seq<C.Packet>, down: seq<B.ToClient>,
                                     first: nat, routed: seq<nat>) returns (down': seq<B.ToClient>)
    requires 0 < first && Rels(rels, first) && At(s, m, ms, rels, down, true, first, |rels|, routed)
    ensures OneOverRun(s, TakesAll(|rels|))
    ensures At(Run(s, TakesAll(|rels|)), m, ms, [], down', true, first + |rels|, 0, routed + Tags(first, |rels|))
    decreases |rels|
  {
    hide Step, Run, OneOverRun, At;
    if rels == [] {
      down' := down;
      assert routed + [] == routed;
      NoEvents(s);
    } else {
      var rest := rels[1..];
      assert rels[0].mid == first;
      assert rels == [rels[0]] + rest;
      assert forall k :: 0 <= k < |rest| ==> rest[k] == rels[k + 1];
      TakesPubrel(s, m, ms, rest, down, first, |rest|, routed);
      var s1 := Step(s, Takes());
      down' := RoutesAll(s1, m, ms, rest, down + [B.Pubcomp(first)], first + 1, routed + [first - 1]);
      assert routed + [first - 1] + Tags(first + 1, |rest|) == routed + Tags(first, |rels|);
      One(s, Takes());
      Append(s, [Takes()], TakesAll(|rest|));
    }
  }

  // The second connection -------------------------------------------------------------------------

  lemma Disconnected(s: Sys, m: Word, ms: seq<C.Msg>, down: seq<B.ToClient>, first: nat, routed: seq<nat>)
    requires At(s, m, ms, [], down, true, first, 0, routed)
    ensures OneOverRun(s, [Disconnect]) && At(Run(s, [Disconnect]), m, ms, [], [], false, first, 0, routed)
  {
    One(s, Disconnect);
  }

  lemma OnePubrel(m: C.Msg, behind: seq<C.Msg>)
    requires m.state == ResendPubrel
    ensures var ps := C.Packets(C.AllRepeats([m] + behind, Reliable()));
      ps == [C.Pubrel(m.mid)] + C.Packets(C.AllRepeats(behind, Reliable()))
  {
    assert ([m] + behind)[1..] == behind;
    var one := [C.Repeat(m.tag, C.Pubrel(m.mid))];
    assert C.Repeats(m, Reliable()) == one;
    C.PacketsAppend(one, C.AllRepeats(behind, Reliable()), []);
  }

  lemma NoPubrel(x: C.Msg)
    requires x.state == Invalid
    ensures C.Packets(C.AllRepeats([x], Reliable())) == []
  {
    assert [x][1..] == [];
  }

  lemma {:induction false} PubrelsRepeated(ms: seq<C.Msg>, x: C.Msg, first: nat)
    requires Line(ms, first) && AllIn(ms, {ResendPubrel}) && x.state == Invalid
    ensures var ps := C.Packets(C.AllRepeats(ms + [x], Reliable())); |ps| == |ms| && Rels(ps, first)
  {
    hide C.Packets, C.AllRepeats;
    if ms == [] {
      assert ms + [x] == [x];
      NoPubrel(x);
    } else {
      var rest := ms[1..];
      assert forall k :: 0 <= k < |rest| ==> rest[k] == ms[k + 1];
      assert ms + [x] == [ms[0]] + (rest + [x]);
      PubrelsRepeated(rest, x, first + 1);
      OnePubrel(ms[0], rest + [x]);
    }
  }

  /** All but the last message are still committed; the last one is to be published as if it were new. */
  lemma RetriedPubrels(ms: seq<C.Msg>, m: Word)
    requires |ms| == m + 1 && Line(ms, 1) && AllIn(ms, {WaitForPubcomp})
    ensures var r := Retried(ms, m);
      && |r.msgs| == m + 1 && |r.wire| == m && Rels(r.wire, 1) && Line(r.msgs, 1)
      && AllIn(r.msgs[..m], {ResendPubrel}) && r.msgs[m].state == Invalid
  {
    hide Rels, C.Retry, C.AllRepeats, C.Packets;
    var o, r := C.Out(C.Reset(ms, m), m, m, []), Retried(ms, m);
    var ps := C.Packets(C.AllRepeats(o.msgs, Reliable()));
    RetryMarks(o, 0, Reliable());
    C.RetryFrom(o, 0, Reliable());
    assert o.msgs[0..] == o.msgs && [] + ps == ps;
    assert o.msgs == o.msgs[..m] + [o.msgs[m]];
    PubrelsRepeated(o.msgs[..m], o.msgs[m], 1);
    hide C.Reset;
    LastApart(o.msgs, r.msgs, m);
  }

  /** The same for two lists that differ in duplicate flags only */
  lemma LastApart(a: seq<C.Msg>, b: seq<C.Msg>, m: nat)
    requires |a| == |b| == m + 1 && Line(a, 1) && AllIn(a[..m], {ResendPubrel}) && a[m].state == Invalid
    requires forall k :: 0 <= k <= m ==> b[k].(dup := true) == a[k].(dup := true)
    ensures Line(b, 1) && AllIn(b[..m], {ResendPubrel}) && b[m].state == Invalid
  {
    SameButDup(a, b, 1, {ResendPubrel, Invalid});
    forall k | 0 <= k <= m
      ensures b[k].state == a[k].state
    {
      assert b[k].(dup := true) == a[k].(dup := true);
    }
  }

  lemma TakesStalePubrel(s: Sys, m: Word, ms: seq<C.Msg>, up: seq<C.Packet>, mid: Word, first: nat, routed: seq<nat>)
    requires 0 < mid && At(s, m, ms, [C.Pubrel(mid)] + up, [], true, first, 0, routed)
    ensures At(Step(s, Takes()), m, ms, up, [B.Pubcomp(mid)], true, first, 0, routed)
    ensures Step(s, Takes()).client.quota == s.client.quota
  {
    NoMatch(B.ReleaseRun(s.broker, Success, false, 0, []), 0, mid, true);
    assert ([C.Pubrel(mid)] + up)[1..] == up;
    assert Contents([]) == [];
    assert routed + [] == routed;
    assert [] + [B.Pubcomp(mid)] == [B.Pubcomp(mid)];
  }

  /** The first PUBCOMP lets the last message out again. */
  lemma HearsFirstPubcomp(s: Sys, m: Word, ms: seq<C.Msg>, x: C.Msg, up: seq<C.Packet>, first: nat, routed: seq<nat>)
    requires 0 < m && Line(ms, 1) && ms != [] && AllIn(ms, {ResendPubrel}) && x.state == Invalid && x.qos == 2
    requires At(s, m, ms + [x], up, [B.Pubcomp(1)], true, first, 0, routed) && 0 < s.client.quota
    ensures At(Step(s, Hears()), m, ms[1..] + [C.InFlight(x)], up + [C.PublishOf(x)], [], true, first, 0, routed)
  {
    hide C.Release;
    assert C.Find(ms + [x], 1) == 0 && Without(ms + [x], 0) == ms[1..] + [x];
    var o := s.client.(msgs := ms[1..], quota := Incremented(s.client.quota, m));
    ReleaseLast(o, x, 0, Reliable());
    assert [B.Pubcomp(1)][1..] == [];
  }

  lemma HearsPubcomp(s: Sys, m: Word, ms: seq<C.Msg>, up: seq<C.Packet>, mid: Word, first: nat, routed: seq<nat>)
    requires ms != [] && Line(ms, mid) && 0 < mid && AllIn(ms, {ResendPubrel, WaitForPubrec})
    requires At(s, m, ms, up, [B.Pubcomp(mid)], true, first, 0, routed)
    ensures At(Step(s, Hears()), m, ms[1..], up, [], true, first, 0, routed)
  {
    hide C.Release;
    assert C.Find(ms, mid) == 0 && Without(ms, 0) == ms[1..];
    NothingToRelease(s.client.(msgs := ms[1..], quota := Incremented(s.client.quota, m)), 0, Reliable());
    assert [B.Pubcomp(mid)][1..] == [];
  }

  /** The other PUBRELs are answered, too, until only the last message is left. */
  lemma {:induction false} Finishes(s: Sys, m: Word, ms: seq<C.Msg>, x: C.Msg, rels: seq<C.Packet>, p: C.Packet, mid: nat,
                                    first: nat, routed: seq<nat>)
    requires 0 < mid && |rels| == |ms| && Rels(rels, mid) && Line(ms + [x], mid) && AllIn(ms, {ResendPubrel})
    requires x.state == WaitForPubrec && At(s, m, ms + [x], rels + [p], [], true, first, 0, routed)
    ensures OneOverRun(s, Rounds(|rels|)) && At(Run(s, Rounds(|rels|)), m, [x], [p], [], true, first, 0, routed)
    decreases |rels|
  {
    hide Step, Run, OneOverRun, At;
    if rels == [] {
      assert ms + [x] == [x] && rels + [p] == [p];
      NoEvents(s);
    } else {
      var all := ms + [x];
      assert rels[0].mid == all[0].mid == mid;
      assert rels + [p] == [rels[0]] + (rels[1..] + [p]);
      TakesStalePubrel(s, m, all, rels[1..] + [p], mid, first, routed);
      var s1 := Step(s, Takes());
      HearsPubcomp(s1, m, all, rels[1..] + [p], mid, first, routed);
      assert all[1..] == ms[1..] + [x];
      assert forall k :: 0 <= k < |all[1..]| ==> all[1..][k] == all[k + 1];
      assert forall k :: 0 <= k < |rels[1..]| ==> rels[1..][k] == rels[k + 1];
      Two(s, Takes(), Hears());
      Finishes(Step(s1, Hears()), m, ms[1..], x, rels[1..], p, mid + 1, first, routed);
      Append(s, [Takes(), Hears()], Rounds(|rels| - 1));
    }
  }

  /** The last message is taken in, committed and released once more. */
  function Again(): seq<Event> {
    [Takes(), Hears(), Takes()]
  }

  lemma RoutesAgain(s: Sys, m: Word, x: C.Msg, dup: bool, routed: seq<nat>)
    requires x.qos == 2 && x.mid == x.tag + 1 && x.mid != 0
    requires At(s, m, [x], [C.Publish(x.mid, 2, x.tag, dup)], [], true, x.mid, 0, routed)
    ensures OneOverRun(s, Again()) && Run(s, Again()).routed == routed + [x.tag]
  {
    hide B.ReleaseMatching, Step;
    Three(s, Takes(), Hears(), Takes());
    TakesNew(s, m, x, dup, routed);
    var s1 := Step(s, Takes());
    HearsLast(s1, m, x, routed);
    var s2 := Step(s1, Hears());
    assert [C.Pubrel(x.mid)] + [] == [C.Pubrel(x.mid)];
    var x' := x.(state := WaitForPubcomp);
    TakesPubrel(s2, m, [x'], [], [], x.mid, 0, routed);
  }

  lemma TakesNew(s: Sys, m: Word, x: C.Msg, dup: bool, routed: seq<nat>)
    requires x.qos == 2 && x.mid == x.tag + 1
    requires At(s, m, [x], [C.Publish(x.mid, 2, x.tag, dup)], [], true, x.mid, 0, routed)
    ensures At(Step(s, Takes()), m, [x], [], [B.Pubrec(x.mid)], true, x.mid, 1, routed)
  {
    assert [C.Publish(x.mid, 2, x.tag, dup)][1..] == [];
    assert routed + [] == routed;
    assert [] + [B.Pubrec(x.mid)] == [B.Pubrec(x.mid)];
  }

  lemma HearsLast(s: Sys, m: Word, x: C.Msg, routed: seq<nat>)
    requires x.qos == 2 && x.mid != 0 && At(s, m, [x], [], [B.Pubrec(x.mid)], true, x.mid, 1, routed)
    ensures At(Step(s, Hears()), m, [x.(state := WaitForPubcomp)], [C.Pubrel(x.mid)], [], true, x.mid, 1, routed)
  {
    assert C.Find([x], x.mid) == 0;
    assert [B.Pubrec(x.mid)][1..] == [];
    assert [] + [C.Pubrel(x.mid)] == [C.Pubrel(x.mid)];
  }

  // ---------------------------------------------------------------------------------------------
  // The whole run
  // ---------------------------------------------------------------------------------------------

  /** m calls without a connection, one more with it; all messages are delivered, and then the connection breaks. */
  function FirstPart(m: Word): seq<Event>
    requires m < 65535
  {
    OfflineCalls(m) + Connecting() + [PublishCall(m + 1, 2, Reliable())] + Rounds(m + 1) + TakesAll(m + 1)
  }

  function SecondPart(m: Word): seq<Event>
    requires 0 < m
  {
    [Disconnect] + Connecting() + [Takes(), Hears()] + Rounds(m - 1) + Again()
  }

  lemma FirstPartRuns(m: Word) returns (ms: seq<C.Msg>, down: seq<B.ToClient>)
    requires 0 < m < 65535
    ensures var s0 := Start(m, 0, true, Unlimited());
      && OneOverRun(s0, FirstPart(m))
      && At(Run(s0, FirstPart(m)), m, ms, [], down, true, m + 2, 0, Tags(1, m + 1))
    ensures |ms| == m + 1 && Line(ms, 1) && AllIn(ms, {WaitForPubcomp})
  {
    hide Run, OneOverRun, Step, At;
    var s0 := Start(m, 0, true, Unlimited());
    var a, b, c, d, e := OfflineCalls(m), Connecting(), [PublishCall(m + 1, 2, Reliable())], Rounds(m + 1), TakesAll(m + 1);
    var ms0 := Offline(m, m);
    var s1 := Run(s0, a);
    RetriedPublishes(ms0, m);
    Connected(s1, m, ms0, 1, []);
    var r, s2 := Retried(ms0, m), Run(s1, b);
    Launches(s2, m, r.msgs, r.wire);
    var x, s3 := C.Msg(m + 1, 2, m, Invalid, false), Run(s2, c);
    var none: seq<C.Packet> := [];
    var all, ps := r.msgs + [C.InFlight(x)], r.wire + [C.PublishOf(x)];
    assert ps + none == ps && all[..0] == [];
    var rels;
    ms, rels := Gathers(s3, m, all, ps, none, []);
    var s4 := Run(s3, d);
    down := RoutesAll(s4, m, ms, rels, [], 1, []);
    assert [] + Tags(1, m + 1) == Tags(1, m + 1);
    Append(s0, a, b);
    Append(s0, a + b, c);
    Append(s0, a + b + c, d);
    Append(s0, a + b + c + d, e);
  }

  lemma SecondPartRuns(s: Sys, m: Word, ms: seq<C.Msg>, down: seq<B.ToClient>, routed: seq<nat>)
    requires 0 < m < 65535 && At(s, m, ms, [], down, true, m + 2, 0, routed)
    requires |ms| == m + 1 && Line(ms, 1) && AllIn(ms, {WaitForPubcomp})
    ensures OneOverRun(s, SecondPart(m)) && Run(s, SecondPart(m)).routed == routed + [m]
  {
    hide Run, OneOverRun, Step, At;
    var a, b, c, d := [Disconnect], Connecting(), [Takes(), Hears()], Rounds(m - 1);
    Disconnected(s, m, ms, down, m + 2, routed);
    var s1 := Run(s, a);
    RetriedPubrels(ms, m);
    Connected(s1, m, ms, m + 2, routed);
    var r, s2 := Retried(ms, m), Run(s1, b);
    var front, x, rels := r.msgs[..m], r.msgs[m], r.wire;
    assert r.msgs == front + [x] && rels == [C.Pubrel(1)] + rels[1..];
    TakesStalePubrel(s2, m, r.msgs, rels[1..], 1, m + 2, routed);
    Two(s2, Takes(), Hears());
    HearsFirstPubcomp(Step(s2, Takes()), m, front, x, rels[1..], m + 2, routed);
    var s3, y := Run(s2, c), C.InFlight(x);
    assert forall k :: 0 <= k < |(front[1..] + [y])| ==> k < m - 1 ==> (front[1..] + [y])[k] == r.msgs[k + 1];
    assert forall k :: 0 <= k < |rels[1..]| ==> rels[1..][k] == rels[k + 1];
    Finishes(s3, m, front[1..], y, rels[1..], C.PublishOf(x), 2, m + 2, routed);
    var s4 := Run(s3, d);
    NothingHeld(s4, m, [y], [C.PublishOf(x)], [], true, m + 2, m + 1, routed);
    RoutesAgain(s4, m, y, x.dup, routed);
    Append(s, a, b);
    Append(s, a + b, c);
    Append(s, a + b + c, d);
    Append(s, a + b + c + d, Again());
  }

  /** Where nothing is held, it does not matter which is the next. */
  lemma NothingHeld(s: Sys, m: Word, ms: seq<C.Msg>, up: seq<C.Packet>, down: seq<B.ToClient>, link: bool,
                    first: nat, other: nat, routed: seq<nat>)
    requires At(s, m, ms, up, down, link, first, 0, routed)
    ensures At(s, m, ms, up, down, link, other, 0, routed)
  {
  }

  /** The bound is exact for every inflight_maximum that identifiers allow to be exceeded: with one message more
      outstanding, and identifiers as distinct as ever, there is a run that routes every publish call, and the last one
      twice. */
  lemma OverrunRoutesTwice(m: Word)
    requires 0 < m < 65535
    ensures var s0, es := Start(m, 0, true, Unlimited()), FirstPart(m) + SecondPart(m);
      OneOverRun(s0, es) && Run(s0, es).routed == Tags(1, m + 1) + [m]
    ensures Tags(1, m + 1)[m] == m
  {
    hide Run, OneOverRun, Step, At;
    var s0 := Start(m, 0, true, Unlimited());
    var ms, down := FirstPartRuns(m);
    SecondPartRuns(Run(s0, FirstPart(m)), m, ms, down, Tags(1, m + 1));
    Append(s0, FirstPart(m), SecondPart(m));
    LastTag(1, m + 1);
  }

  lemma {:induction false} LastTag(first: nat, n: nat)
    requires 0 < first && 0 < n
    ensures Tags(first, n)[n - 1] == first + n - 2
    decreases n
  {
    if n > 1 {
      LastTag(first + 1, n - 1);
    } else {
      assert Tags(first + 1, 0) == [];
    }
  }
}
