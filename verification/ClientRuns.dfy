/** What holds over every run of a connection for the client library's list of outgoing messages: the send window, and
    that PUBLISH packets go out in call order (sections 4.6 and 4.9 of MQTT 5.0). */
module ClientRuns {
  import opened MosqTypes
  import opened ClientQueue

  // ---------------------------------------------------------------------------------------------
  // Runs of one connection
  // ---------------------------------------------------------------------------------------------

  /** What can happen to the list while a connection is up. */
  datatype Event =
    | Call(mid: Word, qos: Qos, tag: nat)        // mosquitto_publish with QoS > 0
    | Ack(mid: Word, qos: Qos)                   // PUBACK (QoS 1) or PUBCOMP (QoS 2)
    | Rec(mid: Word, failed: bool)               // PUBREC

  function Step(o: Out, e: Event, net: Net): Out {
    match e
    case Call(mid, qos, tag) => Enqueue(o, Msg(mid, qos, tag, Invalid, false), net).out
    case Ack(mid, qos) => OnAck(o, mid, qos, net).out
    case Rec(mid, failed) => OnPubrec(o, mid, failed, net).out
  }

  function Run(o: Out, es: seq<Event>, net: Net): Out
    decreases |es|
  {
    if es == [] then o else Run(Step(o, es[0], net), es[1..], net)
  }

  /** The peer acknowledges only what is outstanding: a released message with this identifier and QoS. */
  predicate Outstanding(msgs: seq<Msg>, mid: Word, qos: Qos) {
    mid != 0 && Lookup(msgs, mid, qos) == Success && msgs[Find(msgs, mid)].state != Invalid
  }

  predicate Legal(o: Out, e: Event) {
    match e
    case Call(_, _, _) => true
    case Ack(mid, qos) => Outstanding(o.msgs, mid, qos)
    case Rec(mid, _) => Outstanding(o.msgs, mid, 2)
  }

  predicate LegalRun(o: Out, es: seq<Event>, net: Net)
    decreases |es|
  {
    es == [] || (Legal(o, es[0]) && LegalRun(Step(o, es[0], net), es[1..], net))
  }

  ghost predicate Reliable(net: Net) {
    forall p :: net(p) == Success
  }

  /** The first k messages have been released and the others have not. */
  predicate ReleasedUpTo(msgs: seq<Msg>, k: nat) {
    && k <= |msgs|
    && (forall i :: 0 <= i < k ==> msgs[i].state != Invalid)
    && (forall i :: k <= i < |msgs| ==> msgs[i].state == Invalid)
  }

  /** The quota is what the k released messages leave over, and nothing waits while there is quota. */
  predicate Windowed(o: Out, k: nat) {
    && ReleasedUpTo(o.msgs, k)
    && 0 <= o.quota
    && o.quota + k == o.maximum
    && (k < |o.msgs| ==> o.quota == 0)
  }

  /** Published content, in order: of the PUBLISH packets sent, of the list from index k on, of the calls. */
  function SentTags(ps: seq<Packet>): seq<nat> {
    if ps == [] then []
    else
      var last := ps[|ps| - 1];
      SentTags(ps[..|ps| - 1]) + (if last.Publish? then [last.tag] else [])
  }

  function WaitingTags(msgs: seq<Msg>, k: nat): seq<nat>
    decreases |msgs| - k
  {
    if k >= |msgs| then [] else [msgs[k].tag] + WaitingTags(msgs, k + 1)
  }

  function CallTags(es: seq<Event>): seq<nat> {
    if es == [] then []
    else (if es[0].Call? then [es[0].tag] else []) + CallTags(es[1..])
  }

  /** What was sent, followed by what waits behind the first k messages. */
  function Pipeline(o: Out, k: nat): seq<nat> {
    SentTags(o.wire) + WaitingTags(o.msgs, k)
  }

  lemma CallTagsCons(es: seq<Event>)
    requires es != []
    ensures CallTags(es) == CallTags([es[0]]) + CallTags(es[1..])
  {
    var one := [es[0]];
    assert one[1..] == [];
  }

  lemma Assoc<T>(a: seq<T>, b: seq<T>, c: seq<T>)
    ensures (a + b) + c == a + (b + c)
  {
  }

  lemma SentTagsSnoc(ps: seq<Packet>, p: Packet)
    ensures SentTags(ps + [p]) == SentTags(ps) + if p.Publish? then [p.tag] else []
  {
    assert (ps + [p])[..|ps|] == ps;
  }

  lemma {:induction false} WaitingTagsSame(a: seq<Msg>, b: seq<Msg>, i: nat, shift: nat)
    requires i <= |a| && |b| == |a| + shift
    requires forall n :: i <= n < |a| ==> a[n].tag == b[n + shift].tag
    ensures WaitingTags(a, i) == WaitingTags(b, i + shift)
    decreases |a| - i
  {
    if i < |a| {
      WaitingTagsSame(a, b, i + 1, shift);
    }
  }

  lemma {:induction false} WaitingTagsSnoc(msgs: seq<Msg>, m: Msg, k: nat)
    requires k <= |msgs|
    ensures WaitingTags(msgs + [m], k) == WaitingTags(msgs, k) + [m.tag]
    decreases |msgs| - k
  {
    if k < |msgs| {
      WaitingTagsSnoc(msgs, m, k + 1);
    } else {
      assert WaitingTags(msgs + [m], k + 1) == [];
    }
  }

  /** With a reliable transport the release pass lets out exactly the next messages that the quota allows, in
      order: what was sent followed by what waits stays the same. */
  lemma {:induction false} ReleaseLetsOutNext(o: Out, i: nat, k: nat, net: Net) returns (k': nat)
    requires Reliable(net) && 0 <= o.quota && i <= k && ReleasedUpTo(o.msgs, k)
    ensures var r := Release(o, i, net);
      && r.rc == Success && r.out.maximum == o.maximum
      && k' == k + Min(o.quota, |o.msgs| - k)
      && |r.out.msgs| == |o.msgs| && ReleasedUpTo(r.out.msgs, k')
      && r.out.quota == o.quota - (k' - k)
      && Pipeline(r.out, k') == Pipeline(o, k)
    decreases |o.msgs| - i
  {
    hide SentTags, WaitingTags;
    if i >= |o.msgs| || o.quota <= 0 {
      k' := k;
    } else if i < k {
      k' := ReleaseLetsOutNext(o, i + 1, k, net);
    } else {
      OneLetOut(o, k, net);
      k' := ReleaseLetsOutNext(LetOut(o, k), i + 1, k + 1, net);
    }
  }

  /** The first waiting message goes out. */
  function LetOut(o: Out, k: nat): Out
    requires k < |o.msgs|
  {
    o.(msgs := o.msgs[k := InFlight(o.msgs[k])], quota := o.quota - 1, wire := o.wire + [PublishOf(o.msgs[k])])
  }

  lemma OneLetOut(o: Out, k: nat, net: Net)
    requires Reliable(net) && 0 < o.quota && k < |o.msgs| && ReleasedUpTo(o.msgs, k)
    ensures Release(o, k, net) == Release(LetOut(o, k), k + 1, net)
    ensures ReleasedUpTo(LetOut(o, k).msgs, k + 1) && Pipeline(LetOut(o, k), k + 1) == Pipeline(o, k)
  {
    hide SentTags;
    SentTagsSnoc(o.wire, PublishOf(o.msgs[k]));
    WaitingTagsSame(o.msgs, LetOut(o, k).msgs, k + 1, 0);
  }

  lemma DropReleased(msgs: seq<Msg>, f: nat, k: nat)
    requires f < k && ReleasedUpTo(msgs, k)
    ensures ReleasedUpTo(Without(msgs, f), k - 1)
    ensures WaitingTags(Without(msgs, f), k - 1) == WaitingTags(msgs, k)
  {
    WaitingTagsSame(Without(msgs, f), msgs, k - 1, 1);
  }

  lemma RemoveOutstanding(msgs: seq<Msg>, mid: Word, qos: Qos, k: nat)
    requires ReleasedUpTo(msgs, k) && Outstanding(msgs, mid, qos)
    ensures 0 < k && ReleasedUpTo(Removed(msgs, mid, qos), k - 1)
    ensures |Removed(msgs, mid, qos)| == |msgs| - 1
    ensures WaitingTags(Removed(msgs, mid, qos), k - 1) == WaitingTags(msgs, k)
  {
    DropReleased(msgs, Find(msgs, mid), k);
  }

  /** The first k' messages of o' are released, and o' continues o: what was sent, followed by what waits, has
      grown by the tags called. */
  predicate Continues(o: Out, k: nat, o': Out, k': nat, called: seq<nat>) {
    && Windowed(o', k') && o'.maximum == o.maximum
    && Pipeline(o', k') == Pipeline(o, k) + called
  }

  lemma CallKeepsWindow(o: Out, m: Msg, net: Net, k: nat) returns (k': nat)
    requires Reliable(net) && Windowed(o, k) && m.state == Invalid
    ensures Continues(o, k, Enqueue(o, m, net).out, k', [m.tag])
  {
    WaitingTagsSnoc(o.msgs, m, k);
    k' := ReleaseLetsOutNext(o.(msgs := o.msgs + [m]), 0, k, net);
  }

  lemma RemoveKeepsWindow(o: Out, mid: Word, qos: Qos, net: Net, k: nat) returns (k': nat)
    requires Reliable(net) && Windowed(o, k) && Outstanding(o.msgs, mid, qos)
    ensures var freed := o.(msgs := Removed(o.msgs, mid, qos), quota := Incremented(o.quota, o.maximum));
      Continues(o, k, Release(freed, 0, net).out, k', [])
  {
    RemoveOutstanding(o.msgs, mid, qos, k);
    k' := ReleaseLetsOutNext(o.(msgs := Removed(o.msgs, mid, qos), quota := o.quota + 1), 0, k - 1, net);
  }

  lemma PubrecKeepsWindow(o: Out, mid: Word, net: Net, k: nat)
    requires Reliable(net) && Windowed(o, k) && Outstanding(o.msgs, mid, 2)
    ensures Continues(o, k, OnPubrec(o, mid, false, net).out, k, [])
  {
    hide SentTags, WaitingTags;
    SentTagsSnoc(o.wire, Pubrel(mid));
    assert SentTags(o.wire) + [] == SentTags(o.wire);
    UpdateReleased(o.msgs, Find(o.msgs, mid), WaitForPubcomp, k);
  }

  lemma UpdateReleased(msgs: seq<Msg>, f: nat, state: MsgState, k: nat)
    requires ReleasedUpTo(msgs, k) && f < k && state != Invalid
    ensures ReleasedUpTo(msgs[f := msgs[f].(state := state)], k)
    ensures WaitingTags(msgs[f := msgs[f].(state := state)], k) == WaitingTags(msgs, k)
  {
    WaitingTagsSame(msgs, msgs[f := msgs[f].(state := state)], k, 0);
  }

  lemma StepKeepsWindow(o: Out, e: Event, net: Net, k: nat) returns (k': nat)
    requires Reliable(net) && Windowed(o, k) && Legal(o, e)
    ensures Continues(o, k, Step(o, e, net), k', CallTags([e]))
  {
    match e
    case Call(mid, qos, tag) =>
      k' := CallKeepsWindow(o, Msg(mid, qos, tag, Invalid, false), net, k);
    case Ack(mid, qos) =>
      k' := RemoveKeepsWindow(o, mid, qos, net, k);
    case Rec(mid, failed) =>
      if failed {
        k' := RemoveKeepsWindow(o, mid, 2, net, k);
      } else {
        k' := k;
        PubrecKeepsWindow(o, mid, net, k);
      }
  }

  /** Over every run of a connection in which the transport takes every packet and the peer acknowledges only
      what is outstanding, the list is a released prefix followed by waiting messages, quota plus prefix is the
      maximum, and the PUBLISH packets sent, followed by what still waits, are the calls in call order. */
  lemma {:induction false} SendOrder(o: Out, es: seq<Event>, net: Net, k: nat) returns (k': nat)
    requires Reliable(net) && Windowed(o, k) && LegalRun(o, es, net)
    ensures Continues(o, k, Run(o, es, net), k', CallTags(es))
    decreases |es|
  {
    if es == [] {
      k' := k;
    } else {
      var k1 := StepKeepsWindow(o, es[0], net, k);
      k' := SendOrder(Step(o, es[0], net), es[1..], net, k1);
      CallTagsCons(es);
      Assoc(Pipeline(o, k), CallTags([es[0]]), CallTags(es[1..]));
    }
  }

  /** The same for a whole connection that starts with an empty list. */
  lemma SendOrderFromEmpty(maximum: Word, es: seq<Event>, net: Net) returns (k: nat)
    requires Reliable(net) && LegalRun(Out([], maximum, maximum, []), es, net)
    ensures var o := Run(Out([], maximum, maximum, []), es, net);
      && Windowed(o, k)
      && Pipeline(o, k) == CallTags(es)
  {
    k := SendOrder(Out([], maximum, maximum, []), es, net, 0);
  }

  // ---------------------------------------------------------------------------------------------
  // The Receive Maximum of the server (section 4.9 of MQTT 5.0)
  // ---------------------------------------------------------------------------------------------

  /** How many messages have been let out and not been acknowledged to the end. */
  function Unacknowledged(msgs: seq<Msg>): (n: nat)
    ensures n <= |msgs|
  {
    if msgs == [] then 0 else (if msgs[0].state != Invalid then 1 else 0) + Unacknowledged(msgs[1..])
  }

  lemma {:induction false} ReleasedAreUnacknowledged(msgs: seq<Msg>, k: nat)
    requires ReleasedUpTo(msgs, k)
    ensures Unacknowledged(msgs) == k
    decreases |msgs|
  {
    if msgs != [] {
      assert forall i :: 0 <= i < |msgs[1..]| ==> msgs[1..][i] == msgs[i + 1];
      ReleasedAreUnacknowledged(msgs[1..], if k > 0 then k - 1 else 0);
    }
  }

  function ReceiveMaximumOf(o: Out, receiveMaximum: Option<Word>): Word {
    if receiveMaximum.Some? then receiveMaximum.value else o.maximum
  }

  /** Over every run of a connection whose CONNACK finds an empty list, no more messages are let out and unacknowledged at
      any time than the CONNACK allows, and messages go out in call order. */
  lemma ReceiveMaximumKept(o: Out, c: Out, receiveMaximum: Option<Word>, es: seq<Event>, net: Net) returns (k: nat)
    requires Reliable(net) && o.msgs == [] && ConnackTaken(o, c, receiveMaximum, true, net) && LegalRun(c, es, net)
    ensures var r := Run(c, es, net);
      && r.maximum == ReceiveMaximumOf(o, receiveMaximum)
      && Unacknowledged(r.msgs) == k <= ReceiveMaximumOf(o, receiveMaximum)
      && ReleasedUpTo(r.msgs, k) && (k < |r.msgs| ==> k == ReceiveMaximumOf(o, receiveMaximum))
      && SentTags(r.wire) + WaitingTags(r.msgs, k) == SentTags(o.wire) + CallTags(es)
  {
    hide Run, LegalRun, SentTags, CallTags;
    assert c.msgs == [] && Packets([]) == [] && o.wire + [] == o.wire;
    assert WaitingTags([], 0) == [] && SentTags(o.wire) + [] == SentTags(o.wire);
    k := SendOrder(c, es, net, 0);
    ReleasedAreUnacknowledged(Run(c, es, net).msgs, k);
  }

  /** n publish calls */
  function Calls(n: nat): seq<Event> {
    if n == 0 then [] else Calls(n - 1) + [Call(1, 1, 0)]
  }

  lemma {:induction false} RunAppend(o: Out, a: seq<Event>, b: seq<Event>, net: Net)
    ensures Run(o, a + b, net) == Run(Run(o, a, net), b, net)
    decreases |a|
  {
    if a == [] {
      assert a + b == b;
    } else {
      assert (a + b)[1..] == a[1..] + b;
      RunAppend(Step(o, a[0], net), a[1..], b, net);
    }
  }

  lemma {:induction false} CallsUseQuota(o: Out, n: nat, net: Net)
    requires Reliable(net) && ReleasedUpTo(o.msgs, |o.msgs|) && n <= o.quota
    ensures var r := Run(o, Calls(n), net);
      |r.msgs| == |o.msgs| + n && ReleasedUpTo(r.msgs, |r.msgs|) && r.quota == o.quota - n && r.maximum == o.maximum
  {
    hide Step;
    if n > 0 {
      CallsUseQuota(o, n - 1, net);
      var s := Run(o, Calls(n - 1), net);
      RunAppend(o, Calls(n - 1), [Call(1, 1, 0)], net);
      assert [Call(1, 1, 0)][1..] == [];
      CallLetsOut(s, Call(1, 1, 0), net);
    }
  }

  lemma CallLetsOut(s: Out, e: Event, net: Net)
    requires Reliable(net) && ReleasedUpTo(s.msgs, |s.msgs|) && 0 < s.quota && e.Call?
    ensures var r := Step(s, e, net);
      |r.msgs| == |s.msgs| + 1 && ReleasedUpTo(r.msgs, |r.msgs|) && r.quota == s.quota - 1 && r.maximum == s.maximum
  {
    var k := ReleaseLetsOutNext(s.(msgs := s.msgs + [Msg(e.mid, e.qos, e.tag, Invalid, false)]), 0, |s.msgs|, net);
  }

  /** A CONNACK that finds messages let out gives them the whole quota on top: the bound holds over all runs from here if and
      only if there are none. */
  lemma ReceiveMaximumIff(o: Out, c: Out, receiveMaximum: Option<Word>, net: Net)
    requires Reliable(net) && ConnackTaken(o, c, receiveMaximum, true, net) && ReleasedUpTo(o.msgs, |o.msgs|)
    ensures (forall es :: LegalRun(c, es, net) ==> Unacknowledged(Run(c, es, net).msgs) <= ReceiveMaximumOf(o, receiveMaximum))
       <==> o.msgs == []
  {
    hide LegalRun, Run, Unacknowledged;
    var m := ReceiveMaximumOf(o, receiveMaximum);
    if o.msgs == [] {
      forall es | LegalRun(c, es, net)
        ensures Unacknowledged(Run(c, es, net).msgs) <= m
      {
        var k := ReceiveMaximumKept(o, c, receiveMaximum, es, net);
      }
    } else {
      MarkedReleased(o.msgs, c.msgs);
      CallsUseQuota(c, m, net);
      var r := Run(c, Calls(m), net);
      ReleasedAreUnacknowledged(r.msgs, |r.msgs|);
      CallsLegal(c, m, net);
    }
  }

  lemma MarkedReleased(a: seq<Msg>, b: seq<Msg>)
    requires Marked(a, b) && ReleasedUpTo(a, |a|)
    ensures ReleasedUpTo(b, |b|)
  {
  }

  lemma {:induction false} OnlyCallsLegal(o: Out, es: seq<Event>, net: Net)
    requires forall i :: 0 <= i < |es| ==> es[i].Call?
    ensures LegalRun(o, es, net)
    decreases |es|
  {
    hide Step;
    if es != [] {
      OnlyCallsLegal(Step(o, es[0], net), es[1..], net);
    }
  }

  lemma {:induction false} CallsAreCalls(n: nat)
    ensures forall i :: 0 <= i < |Calls(n)| ==> Calls(n)[i].Call?
  {
    if n > 0 {
      CallsAreCalls(n - 1);
    }
  }

  lemma CallsLegal(o: Out, n: nat, net: Net)
    ensures LegalRun(o, Calls(n), net)
  {
    CallsAreCalls(n);
    OnlyCallsLegal(o, Calls(n), net);
  }

  // ---------------------------------------------------------------------------------------------
  // On the mutable list
  // ---------------------------------------------------------------------------------------------

  /** From a list with k released messages the run leads to one that continues it. */
  ghost predicate InOrder(o: Out, es: seq<Event>, net: Net, r: Out) {
    forall k: nat :: Reliable(net) && Windowed(o, k) && LegalRun(o, es, net) ==>
      exists k': nat :: Continues(o, k, r, k', CallTags(es))
  }

  lemma RunInOrder(o: Out, es: seq<Event>, net: Net)
    ensures InOrder(o, es, net, Run(o, es, net))
  {
    forall k: nat | Reliable(net) && Windowed(o, k) && LegalRun(o, es, net)
      ensures exists k': nat :: Continues(o, k, Run(o, es, net), k', CallTags(es))
    {
      var k' := SendOrder(o, es, net, k);
    }
  }

  /** One call or packet */
  method Serve(q: OutQueue, e: Event, net: Net)
    requires q.Valid()
    modifies q
    ensures q.Valid() && q.View() == Step(old(q.View()), e, net)
    ensures InOrder(old(q.View()), [e], net, q.View())
  {
    hide InOrder;
    RunInOrder(q.View(), [e], net);
    assert [e][1..] == [] && Run(q.View(), [e], net) == Run(Step(q.View(), e, net), [], net);
    match e
    case Call(mid, qos, tag) =>
      var _ := q.Queue(Msg(mid, qos, tag, Invalid, false), net);
    case Ack(mid, qos) =>
      var _ := q.HandlePubackcomp(mid, qos, net);
    case Rec(mid, failed) =>
      var _ := q.HandlePubrec(mid, failed, net);
  }

  /** Any number of calls and packets of a connection: the list stays a released prefix and a waiting suffix, and
      messages go out in call order. */
  method ServeAll(q: OutQueue, es: seq<Event>, net: Net)
    requires q.Valid()
    modifies q
    ensures q.Valid() && q.View() == Run(old(q.View()), es, net)
    ensures InOrder(old(q.View()), es, net, q.View())
  {
    hide InOrder;
    RunInOrder(q.View(), es, net);
    var left := es;
    while left != []
      invariant q.Valid() && Run(q.View(), left, net) == Run(old(q.View()), es, net)
      decreases |left|
    {
      Serve(q, left[0], net);
      left := left[1..];
    }
  }

  /** What a connection from this CONNACK on has come to, if the peer has acknowledged only what was outstanding */
  ghost predicate WithinReceiveMaximum(o: Out, r: Out, receiveMaximum: Option<Word>, es: seq<Event>, net: Net) {
    forall c :: ConnackTaken(o, c, receiveMaximum, true, net) && LegalRun(c, es, net) ==>
      && Unacknowledged(r.msgs) <= ReceiveMaximumOf(o, receiveMaximum)
      && r.maximum == ReceiveMaximumOf(o, receiveMaximum)
  }

  /** A whole connection, from its CONNACK on */
  method ServeConnection(q: OutQueue, receiveMaximum: Option<Word>, es: seq<Event>, net: Net)
    requires q.Valid()
    modifies q
    ensures q.Valid()
    ensures old(q.inflight) == [] && Reliable(net) ==> WithinReceiveMaximum(old(q.View()), q.View(), receiveMaximum, es, net)
  {
    hide ConnackTaken, Run, LegalRun, InOrder, Unacknowledged, ReleasedUpTo, SentTags, WaitingTags, CallTags;
    ghost var o := q.View();
    q.HandleConnack(receiveMaximum, true, net);
    ghost var c0 := q.View();
    ServeAll(q, es, net);
    if o.msgs == [] && Reliable(net) {
      EmptyConnack(o, c0, receiveMaximum, net);
      if LegalRun(c0, es, net) {
        var k := ReceiveMaximumKept(o, c0, receiveMaximum, es, net);
      }
    }
  }

  /** An empty list leaves only one possibility. */
  lemma EmptyConnack(o: Out, c: Out, receiveMaximum: Option<Word>, net: Net)
    requires o.msgs == [] && ConnackTaken(o, c, receiveMaximum, true, net)
    ensures forall d :: ConnackTaken(o, d, receiveMaximum, true, net) ==> d == c
  {
  }

  /** A reconnect takes a released message out of its handshake exactly when the message lies beyond the first
      maximum places; then it will be published again as if it were new. */
  lemma ResetKeepsHandshakes(msgs: seq<Msg>, maximum: Word)
    ensures (forall i :: 0 <= i < |msgs| && msgs[i].state != Invalid ==> Reset(msgs, maximum)[i].state != Invalid)
       <==> (forall i :: maximum <= i < |msgs| ==> msgs[i].state == Invalid)
  {
    var r := Reset(msgs, maximum);
    forall i | 0 <= i < |msgs|
      ensures r[i].state == Invalid <==> maximum <= i || (msgs[i].qos == 2 && msgs[i].state == Invalid)
    {
      assert r[i] == ResetMsg(msgs[i], i < maximum);
    }
  }
}
