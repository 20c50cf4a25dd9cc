/** What the broker answers for incoming QoS 2 messages and what it keeps of them, message by message: the first loop of
    db__message_write, the messages that move up from the queue, and the release by PUBREL. */
module BrokerAnswers {
  import opened MosqTypes
  import opened BrokerDb
  import opened BrokerFifo

  // ---------------------------------------------------------------------------------------------
  // Incoming messages in flight, at a write
  // ---------------------------------------------------------------------------------------------

  /** The answer that is due for a message, if any */
  function Answer(m: ClientMsg): seq<ToClient> {
    if m.state == SendPubrec then [Pubrec(m.mid)] else if m.state == ResendPubcomp then [Pubcomp(m.mid)] else []
  }

  predicate Unanswered(m: ClientMsg, expired: Expiry, net: Net) {
    !expired(m.store) && Answer(m) != [] && net(Answer(m)[0]) != Success
  }

  function FirstUnanswered(msgs: seq<ClientMsg>, expired: Expiry, net: Net): (n: nat)
    ensures n <= |msgs|
    ensures forall i :: 0 <= i < n ==> !Unanswered(msgs[i], expired, net)
    ensures n < |msgs| ==> Unanswered(msgs[n], expired, net)
  {
    if msgs == [] || Unanswered(msgs[0], expired, net) then 0 else 1 + FirstUnanswered(msgs[1..], expired, net)
  }

  /** The answers, and what is left of the messages, when all are taken */
  function Answers(msgs: seq<ClientMsg>, expired: Expiry): seq<ToClient> {
    if msgs == [] then [] else (if expired(msgs[0].store) then [] else Answer(msgs[0])) + Answers(msgs[1..], expired)
  }

  function Kept(m: ClientMsg, expired: Expiry): seq<ClientMsg> {
    if expired(m.store) then [] else if Answer(m) == [] then [m] else [m.(state := WaitForPubrel)]
  }

  function AllKept(msgs: seq<ClientMsg>, expired: Expiry): seq<ClientMsg> {
    if msgs == [] then [] else Kept(msgs[0], expired) + AllKept(msgs[1..], expired)
  }

  function AnswersOut(msgs: seq<ClientMsg>, expired: Expiry, net: Net): seq<ToClient> {
    Answers(msgs[..FirstUnanswered(msgs, expired, net)], expired)
  }

  function KeptIn(msgs: seq<ClientMsg>, expired: Expiry, net: Net): seq<ClientMsg> {
    var n := FirstUnanswered(msgs, expired, net);
    AllKept(msgs[..n], expired) + msgs[n..]
  }

  function AnswerRc(msgs: seq<ClientMsg>, expired: Expiry, net: Net): Rc {
    var n := FirstUnanswered(msgs, expired, net);
    if n == |msgs| then Success else net(Answer(msgs[n])[0])
  }

  /** Each PUBCOMP gives one receive quota back, also one that is not taken. */
  function QuotaAfter(msgs: seq<ClientMsg>, quota: int, maximum: Word, expired: Expiry, net: Net): int {
    if msgs == [] then quota
    else
      var m := msgs[0];
      var given := if !expired(m.store) && m.state == ResendPubcomp && quota < maximum then quota + 1 else quota;
      if Unanswered(m, expired, net) then given else QuotaAfter(msgs[1..], given, maximum, expired, net)
  }

  /** Up to the first answer that is not taken, answers go out in list order; from there on the list is as it was. */
  ghost predicate Answered(c: Ctx, r: Ctx, rc: Rc, expired: Expiry, net: Net) {
    AnsweredFrom(c, r, rc, 0, expired, net)
  }

  ghost predicate AnsweredFrom(c: Ctx, r: Ctx, rc: Rc, i: nat, expired: Expiry, net: Net) {
    && i <= |c.msgsIn.inflight|
    && var msgs := c.msgsIn.inflight[i..];
    && r.wire == c.wire + AnswersOut(msgs, expired, net)
    && r.msgsIn.inflight == c.msgsIn.inflight[..i] + KeptIn(msgs, expired, net)
    && rc == AnswerRc(msgs, expired, net)
    && r.msgsIn.quota == QuotaAfter(msgs, c.msgsIn.quota, c.msgsIn.maximum, expired, net)
    && OnlyIncoming(c, r)
  }

  /** Only the incoming messages in flight, their counters and quota, and the wire have changed. */
  ghost predicate OnlyIncoming(c: Ctx, r: Ctx) {
    r == c.(wire := r.wire, msgsIn := r.msgsIn) && r.msgsIn.queued == c.msgsIn.queued && r.msgsIn.maximum == c.msgsIn.maximum
  }

  lemma HeadAnswered(msgs: seq<ClientMsg>, expired: Expiry, net: Net)
    requires msgs != [] && !Unanswered(msgs[0], expired, net)
    ensures AnswersOut(msgs, expired, net) ==
      (if expired(msgs[0].store) then [] else Answer(msgs[0])) + AnswersOut(msgs[1..], expired, net)
    ensures KeptIn(msgs, expired, net) == Kept(msgs[0], expired) + KeptIn(msgs[1..], expired, net)
    ensures AnswerRc(msgs, expired, net) == AnswerRc(msgs[1..], expired, net)
  {
    hide Unanswered, Kept, Answer;
    var rest := msgs[1..];
    var k := FirstUnanswered(rest, expired, net);
    assert msgs[..k + 1][0] == msgs[0] && msgs[..k + 1][1..] == rest[..k] && msgs[k + 1..] == rest[k..];
    assert Kept(msgs[0], expired) + AllKept(rest[..k], expired) + rest[k..] ==
      Kept(msgs[0], expired) + (AllKept(rest[..k], expired) + rest[k..]);
  }

  /** One message has been dealt with, and the loop goes on behind what is left of it. */
  lemma AnsweredNext(c: Ctx, q: Ctx, r: Ctx, rc: Rc, i: nat, expired: Expiry, net: Net)
    requires i < |c.msgsIn.inflight| && !Unanswered(c.msgsIn.inflight[i], expired, net) && OnlyIncoming(c, q)
    requires var m := c.msgsIn.inflight[i];
      && q.wire == c.wire + (if expired(m.store) then [] else Answer(m))
      && q.msgsIn.inflight == c.msgsIn.inflight[..i] + Kept(m, expired) + c.msgsIn.inflight[i + 1..]
      && QuotaAfter(c.msgsIn.inflight[i..], c.msgsIn.quota, c.msgsIn.maximum, expired, net) ==
           QuotaAfter(c.msgsIn.inflight[i + 1..], q.msgsIn.quota, c.msgsIn.maximum, expired, net)
      && AnsweredFrom(q, r, rc, i + |Kept(m, expired)|, expired, net)
    ensures AnsweredFrom(c, r, rc, i, expired, net)
  {
    hide Unanswered, Kept, Answer, AnswersOut, KeptIn, AnswerRc, QuotaAfter;
    var m, msgs := c.msgsIn.inflight[i], c.msgsIn.inflight[i..];
    var kept, rest := Kept(m, expired), c.msgsIn.inflight[i + 1..];
    assert msgs[1..] == rest;
    assert q.msgsIn.inflight[i + |kept|..] == rest && q.msgsIn.inflight[..i + |kept|] == c.msgsIn.inflight[..i] + kept;
    HeadAnswered(msgs, expired, net);
    var sent, out := if expired(m.store) then [] else Answer(m), AnswersOut(rest, expired, net);
    assert c.wire + sent + out == c.wire + (sent + out);
    var front, tail := c.msgsIn.inflight[..i], KeptIn(rest, expired, net);
    assert front + kept + tail == front + (kept + tail);
  }

  lemma ExpiredAway(p: Pair, i: nat, expired: Expiry, net: Net)
    requires i < |p.c.msgsIn.inflight| && expired(p.c.msgsIn.inflight[i].store)
    ensures WriteIn(p, i, expired, net) == WriteIn(Remove(p, In, i), i, expired, net)
    ensures var c, q, m := p.c, Remove(p, In, i).c, p.c.msgsIn.inflight[i];
      && !Unanswered(m, expired, net) && OnlyIncoming(c, q) && Kept(m, expired) == []
      && q.wire == c.wire + (if expired(m.store) then [] else Answer(m))
      && q.msgsIn.inflight == c.msgsIn.inflight[..i] + Kept(m, expired) + c.msgsIn.inflight[i + 1..]
      && QuotaAfter(c.msgsIn.inflight[i..], c.msgsIn.quota, c.msgsIn.maximum, expired, net) ==
           QuotaAfter(c.msgsIn.inflight[i + 1..], q.msgsIn.quota, c.msgsIn.maximum, expired, net)
  {
    assert p.c.wire + [] == p.c.wire;
    assert p.c.msgsIn.inflight[i..][1..] == p.c.msgsIn.inflight[i + 1..];
  }

  /** The context after a message that has not expired */
  function AfterAnswer(c: Ctx, i: nat, net: Net): Ctx
    requires i < |c.msgsIn.inflight|
  {
    var m, d := c.msgsIn.inflight[i], c.msgsIn;
    if Answer(m) == [] then c
    else
      var quota := if m.state == ResendPubcomp && d.quota < d.maximum then d.quota + 1 else d.quota;
      if net(Answer(m)[0]) != Success then c.(msgsIn := d.(quota := quota))
      else
        c.(wire := c.wire + Answer(m),
           msgsIn := d.(quota := quota, inflight := d.inflight[..i] + [m.(state := WaitForPubrel)] + d.inflight[i + 1..]))
  }

  lemma AnswerGiven(p: Pair, i: nat, expired: Expiry, net: Net)
    requires i < |p.c.msgsIn.inflight| && !expired(p.c.msgsIn.inflight[i].store)
    ensures var m, q := p.c.msgsIn.inflight[i], p.(c := AfterAnswer(p.c, i, net));
      WriteIn(p, i, expired, net) ==
        if Unanswered(m, expired, net) then Result(q, net(Answer(m)[0])) else WriteIn(q, i + 1, expired, net)
  {
    var d := p.c.msgsIn;
    var m := d.inflight[i];
    assert d.inflight[i := m.(state := WaitForPubrel)] ==
      d.inflight[..i] + [m.(state := WaitForPubrel)] + d.inflight[i + 1..];
    assert p.c.(msgsIn := d.(quota := d.quota)) == p.c;
  }

  lemma AnswerStep(c: Ctx, i: nat, expired: Expiry, net: Net)
    requires i < |c.msgsIn.inflight| && !expired(c.msgsIn.inflight[i].store)
    requires !Unanswered(c.msgsIn.inflight[i], expired, net)
    ensures var q, m := AfterAnswer(c, i, net), c.msgsIn.inflight[i];
      && OnlyIncoming(c, q) && |Kept(m, expired)| == 1
      && q.wire == c.wire + (if expired(m.store) then [] else Answer(m))
      && q.msgsIn.inflight == c.msgsIn.inflight[..i] + Kept(m, expired) + c.msgsIn.inflight[i + 1..]
      && QuotaAfter(c.msgsIn.inflight[i..], c.msgsIn.quota, c.msgsIn.maximum, expired, net) ==
           QuotaAfter(c.msgsIn.inflight[i + 1..], q.msgsIn.quota, c.msgsIn.maximum, expired, net)
  {
    var msgs := c.msgsIn.inflight;
    assert c.wire + [] == c.wire && msgs[..i] + [msgs[i]] + msgs[i + 1..] == msgs;
    assert msgs[i..][1..] == msgs[i + 1..];
  }

  lemma HeadRefused(msgs: seq<ClientMsg>, quota: int, maximum: Word, expired: Expiry, net: Net)
    requires msgs != [] && Unanswered(msgs[0], expired, net)
    ensures AnswersOut(msgs, expired, net) == [] && KeptIn(msgs, expired, net) == msgs
    ensures AnswerRc(msgs, expired, net) == net(Answer(msgs[0])[0])
    ensures QuotaAfter(msgs, quota, maximum, expired, net) ==
      if msgs[0].state == ResendPubcomp && quota < maximum then quota + 1 else quota
  {
    assert msgs[..0] == [] && [] + msgs[0..] == msgs;
  }

  lemma AnswerRefused(c: Ctx, i: nat, expired: Expiry, net: Net)
    requires i < |c.msgsIn.inflight| && Unanswered(c.msgsIn.inflight[i], expired, net)
    ensures AnsweredFrom(c, AfterAnswer(c, i, net), net(Answer(c.msgsIn.inflight[i])[0]), i, expired, net)
  {
    hide AnswersOut, KeptIn, AnswerRc, QuotaAfter, Answer;
    var all := c.msgsIn.inflight;
    HeadRefused(all[i..], c.msgsIn.quota, c.msgsIn.maximum, expired, net);
    assert all[..i] + all[i..] == all && c.wire + [] == c.wire;
  }

  lemma NoneToAnswer(c: Ctx, expired: Expiry, net: Net)
    ensures AnsweredFrom(c, c, Success, |c.msgsIn.inflight|, expired, net)
  {
    assert c.msgsIn.inflight + ([] + []) == c.msgsIn.inflight && c.wire + [] == c.wire;
  }

  lemma {:induction false} WriteInFrom(p: Pair, i: nat, expired: Expiry, net: Net)
    requires i <= |p.c.msgsIn.inflight|
    ensures var r := WriteIn(p, i, expired, net); AnsweredFrom(p.c, r.p.c, r.rc, i, expired, net)
    decreases |p.c.msgsIn.inflight| - i
  {
    hide AnsweredFrom, Answer, Unanswered, Kept, OnlyIncoming, QuotaAfter, AfterAnswer, Remove, WriteIn;
    var c := p.c;
    var r := WriteIn(p, i, expired, net);
    if i == |c.msgsIn.inflight| {
      NoneLeft(p, i, expired, net);
      NoneToAnswer(c, expired, net);
    } else if expired(c.msgsIn.inflight[i].store) {
      ExpiredAway(p, i, expired, net);
      WriteInFrom(Remove(p, In, i), i, expired, net);
      AnsweredNext(c, Remove(p, In, i).c, r.p.c, r.rc, i, expired, net);
    } else {
      AnswerGiven(p, i, expired, net);
      if Unanswered(c.msgsIn.inflight[i], expired, net) {
        AnswerRefused(c, i, expired, net);
      } else {
        var q := AfterAnswer(c, i, net);
        AnswerStep(c, i, expired, net);
        WriteInFrom(p.(c := q), i + 1, expired, net);
        AnsweredNext(c, q, r.p.c, r.rc, i, expired, net);
      }
    }
  }

  lemma NoneLeft(p: Pair, i: nat, expired: Expiry, net: Net)
    requires i == |p.c.msgsIn.inflight|
    ensures WriteIn(p, i, expired, net) == Result(p, Success)
  {
  }

  lemma WriteInAnswers(p: Pair, expired: Expiry, net: Net)
    ensures var r := WriteIn(p, 0, expired, net); Answered(p.c, r.p.c, r.rc, expired, net)
  {
    WriteInFrom(p, 0, expired, net);
  }

  // ---------------------------------------------------------------------------------------------
  // Messages that move up from the queue
  // ---------------------------------------------------------------------------------------------

  function Pubrecs(msgs: seq<ClientMsg>): (r: seq<ToClient>)
    ensures |r| == |msgs|
  {
    seq(|msgs|, i requires 0 <= i < |msgs| => Pubrec(msgs[i].mid))
  }

  /** The packets of this list that are taken */
  function Taken(xs: seq<ToClient>, net: Net): seq<ToClient> {
    if xs == [] then [] else (if net(xs[0]) == Success then [xs[0]] else []) + Taken(xs[1..], net)
  }

  /** The third loop of db__message_write sends a PUBREC for each message that moves up, until one is not taken. */
  lemma {:induction false} WriteInQueuedSends(c: Ctx, net: Net)
    requires BrokerFifo.AllQos2(c.msgsIn.queued)
    ensures var r := WriteInQueued(c, 0, net).0;
      && r.wire == c.wire + Pubrecs(c.msgsIn.queued[..Min(Waiting(c), Acknowledgeable(c.msgsIn.queued, net))])
      && r == c.(wire := r.wire, msgsIn := r.msgsIn) && r.msgsIn.maximum == c.msgsIn.maximum
    decreases |c.msgsIn.queued|
  {
    hide WriteInQueued, PubrecRound, Waiting, BrokerFifo.AllQos2;
    if Waiting(c) > 0 {
      PubrecRoundLeaves(c, net);
      WriteInQueuedRound(c, net);
      RoundSends(c, net);
      var d, c' := c.msgsIn, PubrecRound(c, net);
      if net(Pubrec(d.queued[0].mid)) == Success {
        WriteInQueuedSends(c', net);
        var n := Min(Waiting(c'), Acknowledgeable(d.queued[1..], net));
        var out := Pubrecs(d.queued[1..][..n]);
        assert Pubrecs(d.queued[..n + 1]) == [Pubrec(d.queued[0].mid)] + out;
        assert c.wire + [Pubrec(d.queued[0].mid)] + out == c.wire + ([Pubrec(d.queued[0].mid)] + out);
      } else {
        assert c.wire + Pubrecs(d.queued[..0]) == c.wire;
      }
    } else {
      NothingAllowed(c, net);
      assert c.wire + Pubrecs(c.msgsIn.queued[..0]) == c.wire;
    }
  }

  /** The PUBRECs of that loop, for a queue of QoS 2 messages */
  ghost predicate UpAnswered(c: Ctx, wire: seq<ToClient>, net: Net) {
    BrokerFifo.AllQos2(c.msgsIn.queued) ==>
      wire == c.wire + Pubrecs(c.msgsIn.queued[..Min(Waiting(c), Acknowledgeable(c.msgsIn.queued, net))])
  }

  lemma WriteInQueuedAnswers(c: Ctx, net: Net)
    ensures UpAnswered(c, WriteInQueued(c, 0, net).0.wire, net)
  {
    hide WriteInQueued, BrokerFifo.AllQos2, Pubrecs, Waiting;
    if BrokerFifo.AllQos2(c.msgsIn.queued) {
      WriteInQueuedSends(c, net);
    }
  }

  lemma RoundSends(c: Ctx, net: Net)
    requires c.msgsIn.queued != []
    ensures var r, x := PubrecRound(c, net), Pubrec(c.msgsIn.queued[0].mid);
      && r.wire == c.wire + (if net(x) == Success then [x] else [])
      && r == c.(wire := r.wire, msgsIn := r.msgsIn) && r.msgsIn.maximum == c.msgsIn.maximum
  {
    assert c.wire + [] == c.wire;
  }

  /** The second loop of db__message_release_incoming sends one for each message that moves up. */
  lemma {:induction false} ReleaseQueuedSends(c: Ctx, index: nat, net: Net)
    requires BrokerFifo.AllQos2(c.msgsIn.queued)
    ensures var d, r := c.msgsIn, ReleaseQueued(c, 0, index, net);
      && r.wire == c.wire + Taken(Pubrecs(d.queued[..Room(d.maximum, index, |d.queued|)]), net)
      && r == c.(wire := r.wire, msgsIn := r.msgsIn) && r.msgsIn.maximum == d.maximum
    decreases |c.msgsIn.queued|
  {
    hide Pubrecs, Taken, BrokerFifo.AllQos2, Promote;
    var d := c.msgsIn;
    if d.queued != [] && !(d.maximum != 0 && index >= d.maximum) {
      HeadMovesUp(d);
      var c' := SentTo(c, Pubrec(d.queued[0].mid), net).(msgsIn := Promote(d, 0, WaitForPubrel));
      ReleaseQueuedSends(c', index + 1, net);
      TakenHead(d.queued, Room(d.maximum, index + 1, |d.queued| - 1), c.wire, net);
    } else {
      assert d.queued[..0] == [];
      TakenNone(c.wire, net);
    }
  }

  lemma TakenNone(wire: seq<ToClient>, net: Net)
    ensures wire + Taken(Pubrecs([]), net) == wire
  {
  }

  lemma TakenHead(queued: seq<ClientMsg>, n: nat, wire: seq<ToClient>, net: Net)
    requires n < |queued|
    ensures var x := Pubrec(queued[0].mid);
      wire + Taken(Pubrecs(queued[..n + 1]), net) ==
        (if net(x) == Success then wire + [x] else wire) + Taken(Pubrecs(queued[1..][..n]), net)
  {
    var x, out := Pubrec(queued[0].mid), Pubrecs(queued[1..][..n]);
    assert Pubrecs(queued[..n + 1])[0] == x && Pubrecs(queued[..n + 1])[1..] == out;
    assert wire + [x] + Taken(out, net) == wire + ([x] + Taken(out, net));
    assert wire + ([] + Taken(out, net)) == wire + Taken(out, net);
  }

  /** b is a with PUBRECs behind it. */
  predicate OnlyPubrecs(a: seq<ToClient>, b: seq<ToClient>) {
    a <= b && forall i :: |a| <= i < |b| ==> b[i].Pubrec?
  }

  lemma PubrecSent(c: Ctx, mid: Word, net: Net, b: seq<ToClient>)
    requires OnlyPubrecs(SentTo(c, Pubrec(mid), net).wire, b)
    ensures OnlyPubrecs(c.wire, b)
  {
  }

  /** Whatever is queued, both loops change the incoming direction alone and send PUBRECs alone. */
  lemma {:induction false} ReleaseQueuedOnly(c: Ctx, cursor: nat, index: nat, net: Net)
    ensures var r := ReleaseQueued(c, cursor, index, net);
      r == c.(wire := r.wire, msgsIn := r.msgsIn) && OnlyPubrecs(c.wire, r.wire)
    decreases |c.msgsIn.queued| - cursor
  {
    hide OnlyPubrecs;
    if cursor < |c.msgsIn.queued| && !(c.msgsIn.maximum != 0 && index >= c.msgsIn.maximum) {
      var m := c.msgsIn.queued[cursor];
      if m.qos != 2 {
        ReleaseQueuedOnly(c, cursor + 1, index + 1, net);
      } else {
        var q := SentTo(c, Pubrec(m.mid), net);
        ReleaseQueuedOnly(q.(msgsIn := Promote(q.msgsIn, cursor, WaitForPubrel)), cursor, index + 1, net);
        PubrecSent(c, m.mid, net, ReleaseQueued(c, cursor, index, net).wire);
      }
    } else {
      NoPubrecs(c.wire);
    }
  }

  lemma NoPubrecs(a: seq<ToClient>)
    ensures OnlyPubrecs(a, a)
  {
  }

  lemma {:induction false} WriteInQueuedOnly(c: Ctx, cursor: nat, net: Net)
    ensures var r := WriteInQueued(c, cursor, net).0;
      r == c.(wire := r.wire, msgsIn := r.msgsIn) && OnlyPubrecs(c.wire, r.wire)
    decreases |c.msgsIn.queued| - cursor
  {
    hide OnlyPubrecs;
    NoPubrecs(SentTo(c, Pubrec(if cursor < |c.msgsIn.queued| then c.msgsIn.queued[cursor].mid else 0), net).wire);
    NoPubrecs(c.wire);
    if cursor < |c.msgsIn.queued| && !(c.msgsOut.maximum != 0 && c.msgsIn.quota == 0) {
      var m := c.msgsIn.queued[cursor];
      if m.qos != 2 {
        WriteInQueuedOnly(c, cursor + 1, net);
      } else {
        var q := SentTo(c.(msgsIn := Promote(c.msgsIn, cursor, SendPubrec)), Pubrec(m.mid), net);
        var d := q.msgsIn;
        if net(Pubrec(m.mid)) == Success {
          var e := if cursor == 0 then SetInflightState(d, |d.inflight| - 1, WaitForPubrel)
                   else SetQueuedState(d, cursor - 1, WaitForPubrel);
          WriteInQueuedOnly(q.(msgsIn := e), cursor, net);
        }
        PubrecSent(c, m.mid, net, WriteInQueued(c, cursor, net).0.wire);
      }
    }
  }
}
