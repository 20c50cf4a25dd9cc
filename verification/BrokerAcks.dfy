/** What the acknowledgements of a client do to its lists, by identifier, QoS and state: PUBACK, PUBCOMP, PUBREC for messages
    on their way out, PUBREL for messages on their way in. */
module BrokerAcks {
  import opened MosqTypes
  import opened BrokerDb
  import opened BrokerFifo
  import BrokerAnswers

  /** The messages with other identifiers */
  function Others(msgs: seq<ClientMsg>, mid: Word): (r: seq<ClientMsg>)
    ensures |r| <= |msgs|
  {
    if msgs == [] then [] else (if msgs[0].mid == mid then [] else [msgs[0]]) + Others(msgs[1..], mid)
  }

  lemma {:induction false} OthersHold(msgs: seq<ClientMsg>, mid: Word, m: ClientMsg)
    ensures m in Others(msgs, mid) <==> m in msgs && m.mid != mid
  {
    if msgs != [] {
      assert msgs == [msgs[0]] + msgs[1..];
      OthersHold(msgs[1..], mid, m);
    }
  }

  // ---------------------------------------------------------------------------------------------
  // Messages on their way out
  // ---------------------------------------------------------------------------------------------

  /** The acknowledgement does not fit: another QoS, or at QoS 2 another state. */
  predicate Misfit(m: ClientMsg, mid: Word, wanted: MsgState, qos: AnyQos) {
    m.mid == mid && (m.qos != qos || (qos == 2 && m.state != wanted))
  }

  function FirstMisfit(msgs: seq<ClientMsg>, mid: Word, wanted: MsgState, qos: AnyQos): (n: nat)
    ensures n <= |msgs|
    ensures forall i :: 0 <= i < n ==> !Misfit(msgs[i], mid, wanted, qos)
    ensures n < |msgs| ==> Misfit(msgs[n], mid, wanted, qos)
  {
    if msgs == [] || Misfit(msgs[0], mid, wanted, qos) then 0 else 1 + FirstMisfit(msgs[1..], mid, wanted, qos)
  }

  /** The messages with the identifier are gone from those in flight, or those before the first misfit; if there is none, the
      queue has moved up, as far as inflight_maximum leaves room. */
  ghost predicate Deleted(c: Ctx, r: Ctx, rc: Rc, mid: Word, wanted: MsgState, qos: AnyQos) {
    var d, e := c.msgsOut, r.msgsOut;
    var n := FirstMisfit(d.inflight, mid, wanted, qos);
    && r == c.(msgsOut := e)
    && if n < |d.inflight| then
         && rc == Protocol && e.inflight == Others(d.inflight[..n], mid) + d.inflight[n..]
         && e.queued == d.queued && e.quota == d.quota && e.maximum == d.maximum
       else
         var left := Others(d.inflight, mid);
         rc == Success && Promoted(d.(inflight := left), e, Room(d.maximum, |left|, |d.queued|), ByQos())
  }

  /** What the first loop leaves of the messages in flight, and its return code */
  function Spared(msgs: seq<ClientMsg>, mid: Word, wanted: MsgState, qos: AnyQos): seq<ClientMsg> {
    var n := FirstMisfit(msgs, mid, wanted, qos);
    Others(msgs[..n], mid) + msgs[n..]
  }

  function MatchRc(msgs: seq<ClientMsg>, mid: Word, wanted: MsgState, qos: AnyQos): Rc {
    if FirstMisfit(msgs, mid, wanted, qos) < |msgs| then Protocol else Success
  }

  lemma SparedNext(msgs: seq<ClientMsg>, mid: Word, wanted: MsgState, qos: AnyQos)
    requires msgs != [] && !Misfit(msgs[0], mid, wanted, qos)
    ensures Spared(msgs, mid, wanted, qos) ==
      (if msgs[0].mid == mid then [] else [msgs[0]]) + Spared(msgs[1..], mid, wanted, qos)
    ensures MatchRc(msgs, mid, wanted, qos) == MatchRc(msgs[1..], mid, wanted, qos)
  {
    hide Misfit;
    var rest := msgs[1..];
    var k := FirstMisfit(rest, mid, wanted, qos);
    assert msgs[..k + 1][0] == msgs[0] && msgs[..k + 1][1..] == rest[..k] && msgs[k + 1..] == rest[k..];
    var head := if msgs[0].mid == mid then [] else [msgs[0]];
    assert head + Others(rest[..k], mid) + rest[k..] == head + (Others(rest[..k], mid) + rest[k..]);
  }

  /** The first loop, from index i on */
  ghost predicate Matched(c: Ctx, r: Ctx, rc: Rc, i: nat, mid: Word, wanted: MsgState, qos: AnyQos) {
    && i <= |c.msgsOut.inflight|
    && var d, e, msgs := c.msgsOut, r.msgsOut, c.msgsOut.inflight[i..];
    && r == c.(msgsOut := e)
    && e.inflight == d.inflight[..i] + Spared(msgs, mid, wanted, qos)
    && rc == MatchRc(msgs, mid, wanted, qos)
    && e.queued == d.queued && e.quota == d.quota && e.maximum == d.maximum
  }

  lemma MatchedNext(c: Ctx, q: Ctx, r: Ctx, rc: Rc, i: nat, mid: Word, wanted: MsgState, qos: AnyQos)
    requires i < |c.msgsOut.inflight| && !Misfit(c.msgsOut.inflight[i], mid, wanted, qos)
    requires var d, e, m := c.msgsOut, q.msgsOut, c.msgsOut.inflight[i];
      && q == c.(msgsOut := e) && e.queued == d.queued && e.quota == d.quota && e.maximum == d.maximum
      && e.inflight == (if m.mid == mid then Without(d.inflight, i) else d.inflight)
      && Matched(q, r, rc, if m.mid == mid then i else i + 1, mid, wanted, qos)
    ensures Matched(c, r, rc, i, mid, wanted, qos)
  {
    hide Misfit, Spared, MatchRc;
    var msgs, m := c.msgsOut.inflight[i..], c.msgsOut.inflight[i];
    var rest, front := c.msgsOut.inflight[i + 1..], c.msgsOut.inflight[..i];
    SparedNext(msgs, mid, wanted, qos);
    assert msgs[1..] == rest;
    var tail := Spared(rest, mid, wanted, qos);
    if m.mid == mid {
      assert q.msgsOut.inflight[i..] == rest && q.msgsOut.inflight[..i] == front;
      assert [] + tail == tail;
    } else {
      assert c.msgsOut.inflight[..i + 1] == front + [m];
      assert front + [m] + tail == front + ([m] + tail);
    }
  }

  lemma {:induction false} MatchingGoes(p: Pair, i: nat, mid: Word, wanted: MsgState, qos: AnyQos)
    requires i <= |p.c.msgsOut.inflight|
    ensures var r := DeleteMatching(p, i, mid, wanted, qos); Matched(p.c, r.p.c, r.rc, i, mid, wanted, qos)
    decreases |p.c.msgsOut.inflight| - i
  {
    hide Matched;
    var c := p.c;
    var r := DeleteMatching(p, i, mid, wanted, qos);
    if i == |c.msgsOut.inflight| {
      MatchedEnd(c, i, mid, wanted, qos);
    } else {
      var m := c.msgsOut.inflight[i];
      if Misfit(m, mid, wanted, qos) {
        MatchedEnd(c, i, mid, wanted, qos);
      } else if m.mid != mid {
        MatchingGoes(p, i + 1, mid, wanted, qos);
        MatchedNext(c, c, r.p.c, r.rc, i, mid, wanted, qos);
      } else {
        MatchingGoes(Remove(p, Out, i), i, mid, wanted, qos);
        MatchedNext(c, Remove(p, Out, i).c, r.p.c, r.rc, i, mid, wanted, qos);
      }
    }
  }

  lemma MatchedEnd(c: Ctx, i: nat, mid: Word, wanted: MsgState, qos: AnyQos)
    requires i <= |c.msgsOut.inflight|
    requires i < |c.msgsOut.inflight| ==> Misfit(c.msgsOut.inflight[i], mid, wanted, qos)
    ensures Matched(c, c, if i < |c.msgsOut.inflight| then Protocol else Success, i, mid, wanted, qos)
  {
    var msgs := c.msgsOut.inflight[i..];
    assert FirstMisfit(msgs, mid, wanted, qos) == 0 && msgs[..0] == [];
    assert c.msgsOut.inflight[..i] + ([] + msgs) == c.msgsOut.inflight;
  }

  /** db__message_delete_outgoing */
  lemma DeleteOutgoingDeletes(p: Pair, mid: Word, wanted: MsgState, qos: AnyQos)
    ensures var r := DeleteOutgoing(p, mid, wanted, qos); Deleted(p.c, r.p.c, r.rc, mid, wanted, qos)
  {
    hide Others, FirstMisfit, PromoteUpTo, DeleteMatching, Promoted;
    var d, q := p.c.msgsOut, DeleteMatching(p, 0, mid, wanted, qos);
    MatchingGoes(p, 0, mid, wanted, qos);
    assert d.inflight[0..] == d.inflight && d.inflight[..0] == [];
    var n := FirstMisfit(d.inflight, mid, wanted, qos);
    assert q.p.c.msgsOut.inflight == Others(d.inflight[..n], mid) + d.inflight[n..];
    if n == |d.inflight| {
      assert d.inflight[..n] == d.inflight && d.inflight[n..] == [];
      assert Others(d.inflight, mid) + [] == Others(d.inflight, mid);
      var left := q.p.c.msgsOut;
      PromoteUpToFifo(left, |left.inflight|);
      SamePromoted(left, d.(inflight := left.inflight), PromoteUpTo(left, 0, |left.inflight|),
                   Room(d.maximum, |left.inflight|, |d.queued|), ByQos());
    }
  }

  /** One more quota, unless it is at the maximum */
  function Grown(c: Ctx): Ctx {
    var d := c.msgsOut;
    if d.quota < d.maximum then c.(msgsOut := d.(quota := d.quota + 1)) else c
  }

  /** PUBACK and PUBCOMP */
  lemma AckDeletes(p: Pair, mid: Word, qos: AnyQos)
    ensures var r := OnAck(p, mid, qos); Deleted(Grown(p.c), r.p.c, r.rc, mid, WaitForPubcomp, qos)
  {
    hide Deleted, DeleteOutgoing;
    DeleteOutgoingDeletes(p.(c := Grown(p.c)), mid, WaitForPubcomp, qos);
  }

  /** PUBREC with an error: no quota comes back. */
  lemma PubrecErrorDeletes(p: Pair, mid: Word)
    ensures var r := OnPubrecError(p, mid); Deleted(p.c, r.p.c, r.rc, mid, WaitForPubrec, 2)
  {
    hide Deleted, DeleteOutgoing;
    DeleteOutgoingDeletes(p, mid, WaitForPubrec, 2);
  }

  /** PUBREC: the first message in flight with the identifier waits for PUBCOMP if it is of QoS 2, and PUBREL is the answer
      unless it is not. */
  ghost predicate PubrecTaken(c: Ctx, r: Ctx, mid: Word, net: Net) {
    var d, e, k := c.msgsOut, r.msgsOut, Find(c.msgsOut.inflight, mid);
    if k < |d.inflight| && d.inflight[k].qos != 2 then r == c
    else
      && r == c.(wire := r.wire, msgsOut := e)
      && r.wire == (if net(Pubrel(mid)) == Success then c.wire + [Pubrel(mid)] else c.wire)
      && e == d.(inflight := e.inflight) && |e.inflight| == |d.inflight|
      && (forall i :: 0 <= i < |d.inflight| ==>
            e.inflight[i] == if i == k then d.inflight[i].(state := WaitForPubcomp) else d.inflight[i])
  }

  function PubrecRc(c: Ctx, mid: Word, net: Net): Rc {
    var k := Find(c.msgsOut.inflight, mid);
    if k < |c.msgsOut.inflight| && c.msgsOut.inflight[k].qos != 2 then Protocol else net(Pubrel(mid))
  }

  lemma PubrecEffect(p: Pair, mid: Word, net: Net)
    ensures PubrecTaken(p.c, OnPubrec(p, mid, net).c, mid, net) && OnPubrec(p, mid, net).st == p.st
  {
  }

  // ---------------------------------------------------------------------------------------------
  // Messages on their way in
  // ---------------------------------------------------------------------------------------------

  predicate NoneFrom(msgs: seq<ClientMsg>, mid: Word, n: nat) {
    forall i :: 0 <= i < n && i < |msgs| ==> msgs[i].store.sourceMid != mid
  }

  /** The message that the sender's identifier finds: the first in flight, or if there is none there the first queued */
  ghost predicate FoundFirst(c: Ctx, mid: Word, found: Option<Message>) {
    var a, b := c.msgsIn.inflight, c.msgsIn.queued;
    if !NoneFrom(a, mid, |a|) then
      exists i :: 0 <= i < |a| && NoneFrom(a, mid, i) && a[i].store.sourceMid == mid && found == Some(a[i].store)
    else if !NoneFrom(b, mid, |b|) then
      exists i :: 0 <= i < |b| && NoneFrom(b, mid, i) && b[i].store.sourceMid == mid && found == Some(b[i].store)
    else found == None
  }

  lemma {:induction false} FirstFromFinds(msgs: seq<ClientMsg>, n: nat, mid: Word) returns (i: nat)
    requires n <= |msgs| && NoneFrom(msgs, mid, n)
    ensures n <= i <= |msgs| && NoneFrom(msgs, mid, i)
    ensures i < |msgs| ==> msgs[i].store.sourceMid == mid && FirstFrom(msgs, n, mid) == Some(msgs[i].store)
    ensures i == |msgs| ==> FirstFrom(msgs, n, mid) == None
    decreases |msgs| - n
  {
    if n < |msgs| && msgs[n].store.sourceMid != mid {
      i := FirstFromFinds(msgs, n + 1, mid);
    } else {
      i := n;
    }
  }

  lemma SourceFindsFirst(c: Ctx, mid: Word)
    ensures FoundFirst(c, mid, SourceFind(c, mid))
  {
    hide FirstFrom;
    var i := FirstFromFinds(c.msgsIn.inflight, 0, mid);
    var j := FirstFromFinds(c.msgsIn.queued, 0, mid);
  }

  /** The release ends here: the message is not of QoS 2, or the subscription tree does not take it. */
  predicate Blocks(m: ClientMsg, mid: Word, routes: bool) {
    m.mid == mid && (m.store.qos != 2 || !routes)
  }

  function FirstBlock(msgs: seq<ClientMsg>, mid: Word, routes: bool): (n: nat)
    ensures n <= |msgs|
    ensures forall i :: 0 <= i < n ==> !Blocks(msgs[i], mid, routes)
    ensures n < |msgs| ==> Blocks(msgs[n], mid, routes)
  {
    if msgs == [] || Blocks(msgs[0], mid, routes) then 0 else 1 + FirstBlock(msgs[1..], mid, routes)
  }

  /** The stored messages with the identifier */
  function StoresOf(msgs: seq<ClientMsg>, mid: Word): (r: seq<Message>)
    ensures |r| <= |msgs|
  {
    if msgs == [] then [] else (if msgs[0].mid == mid then [msgs[0].store] else []) + StoresOf(msgs[1..], mid)
  }

  /** The messages with the identifier are routed and gone, or those before the first that blocks; if none does, the queue
      has moved up as far as there was room before, with a PUBREC for each message. */
  ghost predicate Released(c: Ctx, r: Ctx, rc: Rc, routed: seq<Message>, mid: Word, routes: bool, net: Net) {
    var d, e := c.msgsIn, r.msgsIn;
    var n := FirstBlock(d.inflight, mid, routes);
    && routed == StoresOf(d.inflight[..n], mid)
    && r == c.(wire := r.wire, msgsIn := e)
    && if n < |d.inflight| then
         && rc == (if d.inflight[n].store.qos != 2 then Protocol else Failed)
         && e.inflight == Others(d.inflight[..n], mid) + d.inflight[n..]
         && e.queued == d.queued && e.quota == d.quota && e.maximum == d.maximum && r.wire == c.wire
       else
         && rc == (if routed == [] then Failed else Success)
         && (BrokerFifo.AllQos2(d.queued) ==>
               var room := Room(d.maximum, |d.inflight|, |d.queued|);
               && Promoted(d.(inflight := Others(d.inflight, mid)), e, room, ToPubrel())
               && r.wire == c.wire + BrokerAnswers.Taken(BrokerAnswers.Pubrecs(d.queued[..room]), net))
  }

  /** What the first loop leaves of the messages in flight, what it routes, and its return code */
  function Unreleased(msgs: seq<ClientMsg>, mid: Word, routes: bool): seq<ClientMsg> {
    var n := FirstBlock(msgs, mid, routes);
    Others(msgs[..n], mid) + msgs[n..]
  }

  function RoutedOf(msgs: seq<ClientMsg>, mid: Word, routes: bool): seq<Message> {
    StoresOf(msgs[..FirstBlock(msgs, mid, routes)], mid)
  }

  function BlockRc(msgs: seq<ClientMsg>, mid: Word, routes: bool): Rc {
    var n := FirstBlock(msgs, mid, routes);
    if n == |msgs| then Success else if msgs[n].store.qos != 2 then Protocol else Failed
  }

  /** The first loop, from index i on */
  ghost predicate RoutedFrom(s: ReleaseRun, r: ReleaseRun, i: nat, mid: Word, routes: bool) {
    && i <= |s.p.c.msgsIn.inflight|
    && var d, e, msgs := s.p.c.msgsIn, r.p.c.msgsIn, s.p.c.msgsIn.inflight[i..];
    && r.p.c == s.p.c.(msgsIn := e)
    && e.inflight == d.inflight[..i] + Unreleased(msgs, mid, routes)
    && r.routed == s.routed + RoutedOf(msgs, mid, routes)
    && r.rc == BlockRc(msgs, mid, routes)
    && (r.rc == Success ==> r.index == s.index + |msgs| && (r.deleted <==> s.deleted || StoresOf(msgs, mid) != []))
    && e.queued == d.queued && e.quota == d.quota && e.maximum == d.maximum
  }

  lemma UnreleasedNext(msgs: seq<ClientMsg>, mid: Word, routes: bool)
    requires msgs != [] && !Blocks(msgs[0], mid, routes)
    ensures Unreleased(msgs, mid, routes) ==
      (if msgs[0].mid == mid then [] else [msgs[0]]) + Unreleased(msgs[1..], mid, routes)
    ensures RoutedOf(msgs, mid, routes) ==
      (if msgs[0].mid == mid then [msgs[0].store] else []) + RoutedOf(msgs[1..], mid, routes)
    ensures BlockRc(msgs, mid, routes) == BlockRc(msgs[1..], mid, routes)
  {
    hide Blocks;
    var rest := msgs[1..];
    var k := FirstBlock(rest, mid, routes);
    assert msgs[..k + 1][0] == msgs[0] && msgs[..k + 1][1..] == rest[..k] && msgs[k + 1..] == rest[k..];
    var head := if msgs[0].mid == mid then [] else [msgs[0]];
    assert head + Others(rest[..k], mid) + rest[k..] == head + (Others(rest[..k], mid) + rest[k..]);
  }

  lemma RoutedNext(s: ReleaseRun, q: ReleaseRun, r: ReleaseRun, i: nat, mid: Word, routes: bool)
    requires i < |s.p.c.msgsIn.inflight| && !Blocks(s.p.c.msgsIn.inflight[i], mid, routes)
    requires var d, e, m := s.p.c.msgsIn, q.p.c.msgsIn, s.p.c.msgsIn.inflight[i];
      && q.p.c == s.p.c.(msgsIn := e) && e.queued == d.queued && e.quota == d.quota && e.maximum == d.maximum
      && e.inflight == (if m.mid == mid then Without(d.inflight, i) else d.inflight)
      && q.routed == (if m.mid == mid then s.routed + [m.store] else s.routed)
      && q.deleted == (s.deleted || m.mid == mid) && q.index == s.index + 1
      && RoutedFrom(q, r, if m.mid == mid then i else i + 1, mid, routes)
    ensures RoutedFrom(s, r, i, mid, routes)
  {
    hide Blocks, Unreleased, RoutedOf, BlockRc, StoresOf;
    var all := s.p.c.msgsIn.inflight;
    var msgs, m, rest, front := all[i..], all[i], all[i + 1..], all[..i];
    UnreleasedNext(msgs, mid, routes);
    assert msgs[1..] == rest && |msgs| == |rest| + 1;
    StoresWhole(msgs, mid);
    var tail, stores := Unreleased(rest, mid, routes), RoutedOf(rest, mid, routes);
    if m.mid == mid {
      assert q.p.c.msgsIn.inflight[i..] == rest && q.p.c.msgsIn.inflight[..i] == front;
      assert [] + tail == tail && s.routed + [m.store] + stores == s.routed + ([m.store] + stores);
    } else {
      assert all[..i + 1] == front + [m];
      assert front + [m] + tail == front + ([m] + tail);
      assert [] + stores == stores;
    }
  }

  lemma StoresWhole(msgs: seq<ClientMsg>, mid: Word)
    requires msgs != []
    ensures StoresOf(msgs, mid) != [] <==> msgs[0].mid == mid || StoresOf(msgs[1..], mid) != []
  {
  }

  lemma RoutedEnd(s: ReleaseRun, i: nat, mid: Word, routes: bool)
    requires i <= |s.p.c.msgsIn.inflight|
    requires i < |s.p.c.msgsIn.inflight| ==> Blocks(s.p.c.msgsIn.inflight[i], mid, routes)
    requires s.rc == Success
    ensures var all := s.p.c.msgsIn.inflight;
      RoutedFrom(s, if i == |all| then s
                    else s.(rc := if all[i].store.qos != 2 then Protocol else Failed, index := s.index + 1), i, mid, routes)
  {
    var all := s.p.c.msgsIn.inflight;
    var msgs := all[i..];
    assert FirstBlock(msgs, mid, routes) == 0 && msgs[..0] == [];
    assert all[..i] + ([] + msgs) == all && s.routed + [] == s.routed;
  }

  lemma {:induction false} MatchingRouted(s: ReleaseRun, i: nat, mid: Word, routes: bool)
    requires i <= |s.p.c.msgsIn.inflight| && s.rc == Success
    ensures RoutedFrom(s, ReleaseMatching(s, i, mid, routes), i, mid, routes)
    decreases |s.p.c.msgsIn.inflight| - i
  {
    hide RoutedFrom;
    var all, r := s.p.c.msgsIn.inflight, ReleaseMatching(s, i, mid, routes);
    if i == |all| {
      RoutedEnd(s, i, mid, routes);
    } else {
      var m, t := all[i], s.(index := s.index + 1);
      if Blocks(m, mid, routes) {
        RoutedEnd(s, i, mid, routes);
      } else if m.mid != mid {
        MatchingRouted(t, i + 1, mid, routes);
        RoutedNext(s, t, r, i, mid, routes);
      } else {
        var q := t.(p := Remove(s.p, In, i), deleted := true, routed := s.routed + [m.store]);
        MatchingRouted(q, i, mid, routes);
        RoutedNext(s, q, r, i, mid, routes);
      }
    }
  }

  /** db__message_release_incoming */
  lemma ReleaseIncomingReleases(p: Pair, mid: Word, routes: bool, net: Net)
    ensures var r := ReleaseIncoming(p, mid, routes, net); Released(p.c, r.p.c, r.rc, r.routed, mid, routes, net)
  {
    hide Others, FirstBlock, StoresOf, ReleaseMatching, ReleaseQueued, BrokerAnswers.Taken, BrokerAnswers.Pubrecs, BrokerAnswers.OnlyPubrecs, Promoted;
    var d := p.c.msgsIn;
    var s := ReleaseRun(p, Success, false, 0, []);
    var q := ReleaseMatching(s, 0, mid, routes);
    MatchingRouted(s, 0, mid, routes);
    assert d.inflight[0..] == d.inflight && d.inflight[..0] == [];
    var n := FirstBlock(d.inflight, mid, routes);
    var left, stores := Others(d.inflight[..n], mid), StoresOf(d.inflight[..n], mid);
    assert q.p.c.msgsIn.inflight == left + d.inflight[n..] && q.routed == stores;
    if n == |d.inflight| {
      assert d.inflight[..n] == d.inflight && left + [] == left && d.inflight[n..] == [];
      BrokerAnswers.ReleaseQueuedOnly(q.p.c, 0, q.index, net);
      if BrokerFifo.AllQos2(d.queued) {
        ReleaseQueuedFifo(q.p.c, q.index, net);
        SamePromoted(q.p.c.msgsIn, d.(inflight := left), ReleaseQueued(q.p.c, 0, q.index, net).msgsIn,
                     Room(d.maximum, |d.inflight|, |d.queued|), ToPubrel());
        BrokerAnswers.ReleaseQueuedSends(q.p.c, q.index, net);
      }
    }
  }
}
