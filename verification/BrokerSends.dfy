/** What db__message_write puts on the wire and what it leaves in the lists, message by message: by state, QoS and
    identifier, for every outcome of every send. */
module BrokerSends {
  import opened MosqTypes
  import opened BrokerDb
  import opened BrokerFifo

  // ---------------------------------------------------------------------------------------------
  // Outgoing messages in flight
  // ---------------------------------------------------------------------------------------------

  predicate ToPublish(m: ClientMsg) {
    m.state == PublishQos0 || m.state == PublishQos1 || m.state == PublishQos2
  }

  /** The packet that is due for a message, if any */
  function Owed(m: ClientMsg): seq<ToClient> {
    if ToPublish(m) then [Publish(m.mid, m.qos, m.store, m.dup)]
    else if m.state == ResendPubrel then [Pubrel(m.mid)]
    else []
  }

  /** What is left of a message whose packet has gone out: nothing of QoS 0, otherwise it waits for the answer, and from
      then on a PUBLISH is a duplicate. */
  function Once(m: ClientMsg): seq<ClientMsg> {
    if m.state == PublishQos0 then []
    else if m.state == PublishQos1 then [m.(state := WaitForPuback, dup := true)]
    else if m.state == PublishQos2 then [m.(state := WaitForPubrec, dup := true)]
    else [m.(state := WaitForPubcomp)]
  }

  predicate Goes(m: ClientMsg, expired: Expiry, net: Net) {
    !expired(m.store) && Owed(m) != [] && net(Owed(m)[0]) == Success
  }

  /** The loop ends here: a packet is due and not taken, other than a PUBLISH that is too large for the client. */
  predicate Stuck(m: ClientMsg, expired: Expiry, net: Net) {
    && !expired(m.store) && Owed(m) != [] && net(Owed(m)[0]) != Success
    && !(ToPublish(m) && net(Owed(m)[0]) == OversizePacket)
  }

  function FirstStuck(msgs: seq<ClientMsg>, expired: Expiry, net: Net): (n: nat)
    ensures n <= |msgs|
    ensures forall i :: 0 <= i < n ==> !Stuck(msgs[i], expired, net)
    ensures n < |msgs| ==> Stuck(msgs[n], expired, net)
  {
    if msgs == [] || Stuck(msgs[0], expired, net) then 0 else 1 + FirstStuck(msgs[1..], expired, net)
  }

  /** The packets that go out for messages none of which is stuck */
  function Packets(msgs: seq<ClientMsg>, expired: Expiry, net: Net): seq<ToClient> {
    if msgs == [] then []
    else (if Goes(msgs[0], expired, net) then Owed(msgs[0]) else []) + Packets(msgs[1..], expired, net)
  }

  /** What is left of one of them: nothing if it has expired or is too large. */
  function Left(m: ClientMsg, expired: Expiry, net: Net): seq<ClientMsg> {
    if expired(m.store) then []
    else if Owed(m) == [] then [m]
    else if net(Owed(m)[0]) == Success then Once(m)
    else []
  }

  function AllLeft(msgs: seq<ClientMsg>, expired: Expiry, net: Net): seq<ClientMsg> {
    if msgs == [] then [] else Left(msgs[0], expired, net) + AllLeft(msgs[1..], expired, net)
  }

  /** What goes out, what remains and the return code: up to the first message that is stuck, what is due goes out in list
      order; from there on the list is as it was. */
  function GoingOut(msgs: seq<ClientMsg>, expired: Expiry, net: Net): seq<ToClient> {
    Packets(msgs[..FirstStuck(msgs, expired, net)], expired, net)
  }

  function Remaining(msgs: seq<ClientMsg>, expired: Expiry, net: Net): seq<ClientMsg> {
    var n := FirstStuck(msgs, expired, net);
    AllLeft(msgs[..n], expired, net) + msgs[n..]
  }

  function EndRc(msgs: seq<ClientMsg>, expired: Expiry, net: Net): Rc {
    var n := FirstStuck(msgs, expired, net);
    if n == |msgs| then Success else net(Owed(msgs[n])[0])
  }

  ghost predicate SentOut(c: Ctx, r: Ctx, rc: Rc, expired: Expiry, net: Net) {
    var msgs := c.msgsOut.inflight;
    && r.wire == c.wire + GoingOut(msgs, expired, net)
    && r.msgsOut.inflight == Remaining(msgs, expired, net)
    && rc == EndRc(msgs, expired, net)
    && OnlyInFlight(c, r)
  }

  /** Only the outgoing messages in flight, their counters and the wire have changed. */
  ghost predicate OnlyInFlight(c: Ctx, r: Ctx) {
    && r == c.(wire := r.wire, msgsOut := r.msgsOut) && r.msgsOut.queued == c.msgsOut.queued
    && r.msgsOut.quota == c.msgsOut.quota && r.msgsOut.maximum == c.msgsOut.maximum
  }

  /** The same for the messages from index i on */
  ghost predicate SentFrom(c: Ctx, r: Ctx, rc: Rc, i: nat, expired: Expiry, net: Net)
    requires i <= |c.msgsOut.inflight|
  {
    var msgs := c.msgsOut.inflight[i..];
    && r.wire == c.wire + GoingOut(msgs, expired, net)
    && r.msgsOut.inflight == c.msgsOut.inflight[..i] + Remaining(msgs, expired, net)
    && rc == EndRc(msgs, expired, net)
    && OnlyInFlight(c, r)
  }

  lemma NotStuck(msgs: seq<ClientMsg>, expired: Expiry, net: Net)
    requires msgs != [] && !Stuck(msgs[0], expired, net)
    ensures GoingOut(msgs, expired, net) ==
      (if Goes(msgs[0], expired, net) then Owed(msgs[0]) else []) + GoingOut(msgs[1..], expired, net)
    ensures Remaining(msgs, expired, net) == Left(msgs[0], expired, net) + Remaining(msgs[1..], expired, net)
    ensures EndRc(msgs, expired, net) == EndRc(msgs[1..], expired, net)
  {
    hide Stuck, Goes, Left, Owed;
    var rest := msgs[1..];
    var k := FirstStuck(rest, expired, net);
    assert msgs[..k + 1][0] == msgs[0] && msgs[..k + 1][1..] == rest[..k] && msgs[k + 1..] == rest[k..];
    assert Left(msgs[0], expired, net) + AllLeft(rest[..k], expired, net) + rest[k..] ==
      Left(msgs[0], expired, net) + (AllLeft(rest[..k], expired, net) + rest[k..]);
  }

  /** One message that is not stuck has been dealt with, and the loop goes on behind what is left of it. */
  lemma SentNext(c: Ctx, q: Ctx, r: Ctx, rc: Rc, i: nat, expired: Expiry, net: Net)
    requires i < |c.msgsOut.inflight| && !Stuck(c.msgsOut.inflight[i], expired, net) && OnlyInFlight(c, q)
    requires var m := c.msgsOut.inflight[i];
      && q.wire == c.wire + (if Goes(m, expired, net) then Owed(m) else [])
      && q.msgsOut.inflight == c.msgsOut.inflight[..i] + Left(m, expired, net) + c.msgsOut.inflight[i + 1..]
      && SentFrom(q, r, rc, i + |Left(m, expired, net)|, expired, net)
    ensures SentFrom(c, r, rc, i, expired, net)
  {
    hide Goes, Left, Owed, Stuck, GoingOut, Remaining, EndRc;
    var m, msgs := c.msgsOut.inflight[i], c.msgsOut.inflight[i..];
    var left, rest := Left(m, expired, net), c.msgsOut.inflight[i + 1..];
    assert msgs[1..] == rest;
    assert q.msgsOut.inflight[i + |left|..] == rest && q.msgsOut.inflight[..i + |left|] == c.msgsOut.inflight[..i] + left;
    NotStuck(msgs, expired, net);
    var sent, out := if Goes(m, expired, net) then Owed(m) else [], GoingOut(rest, expired, net);
    assert c.wire + sent + out == c.wire + (sent + out);
    var front, tail := c.msgsOut.inflight[..i], Remaining(rest, expired, net);
    assert front + left + tail == front + (left + tail);
  }

  lemma SentNothing(c: Ctx, i: nat, expired: Expiry, net: Net)
    requires i <= |c.msgsOut.inflight| && (i < |c.msgsOut.inflight| ==> Stuck(c.msgsOut.inflight[i], expired, net))
    ensures SentFrom(c, c, if i == |c.msgsOut.inflight| then Success else net(Owed(c.msgsOut.inflight[i])[0]), i, expired, net)
  {
    hide Stuck, Owed;
    var msgs := c.msgsOut.inflight[i..];
    assert FirstStuck(msgs, expired, net) == 0;
    assert msgs[..0] == [] && c.msgsOut.inflight[..i] + ([] + msgs[0..]) == c.msgsOut.inflight;
  }

  lemma RemovedAt(c: Ctx, p: Pair, i: nat)
    requires i < |c.msgsOut.inflight| && p.c.msgsOut == c.msgsOut
    ensures var q := Remove(p, Out, i).c;
      && q.msgsOut.inflight == c.msgsOut.inflight[..i] + [] + c.msgsOut.inflight[i + 1..]
      && q.wire == p.c.wire && OnlyInFlight(p.c, q)
  {
  }

  lemma {:induction false} WriteOutFrom(p: Pair, i: nat, expired: Expiry, net: Net)
    requires i <= |p.c.msgsOut.inflight|
    ensures var r := WriteOut(p, i, expired, net); SentFrom(p.c, r.p.c, r.rc, i, expired, net)
    decreases |p.c.msgsOut.inflight| - i
  {
    hide SentFrom, Owed, Stuck, Goes, Left, OnlyInFlight, Dealt, Remove, WriteOut;
    var c, msgs := p.c, p.c.msgsOut.inflight;
    var r := WriteOut(p, i, expired, net);
    if i == |msgs| {
      NoMore(p, i, expired, net);
      SentNothing(c, i, expired, net);
    } else {
      var m := msgs[i];
      if expired(m.store) {
        ExpiredGoes(p, i, expired, net);
        WriteOutFrom(Remove(p, Out, i), i, expired, net);
        SentNext(c, Remove(p, Out, i).c, r.p.c, r.rc, i, expired, net);
      } else if Owed(m) == [] {
        NothingDue(p, i, expired, net);
        WriteOutFrom(p, i + 1, expired, net);
        SentNext(c, c, r.p.c, r.rc, i, expired, net);
      } else {
        WriteOutDue(p, i, expired, net);
        if Stuck(m, expired, net) {
          SentNothing(c, i, expired, net);
        } else {
          DealtWith(p, i, expired, net);
          WriteOutFrom(Dealt(p, i, net), i + |Left(m, expired, net)|, expired, net);
          SentNext(c, Dealt(p, i, net).c, r.p.c, r.rc, i, expired, net);
        }
      }
    }
  }

  lemma NothingDue(p: Pair, i: nat, expired: Expiry, net: Net)
    requires i < |p.c.msgsOut.inflight| && Owed(p.c.msgsOut.inflight[i]) == [] && !expired(p.c.msgsOut.inflight[i].store)
    ensures WriteOut(p, i, expired, net) == WriteOut(p, i + 1, expired, net)
    ensures !Stuck(p.c.msgsOut.inflight[i], expired, net)
    ensures var c, m := p.c, p.c.msgsOut.inflight[i];
      && c.wire == c.wire + (if Goes(m, expired, net) then Owed(m) else [])
      && c.msgsOut.inflight == c.msgsOut.inflight[..i] + Left(m, expired, net) + c.msgsOut.inflight[i + 1..]
      && OnlyInFlight(c, c) && |Left(m, expired, net)| == 1
  {
    var msgs := p.c.msgsOut.inflight;
    assert p.c.wire + [] == p.c.wire && msgs[..i] + [msgs[i]] + msgs[i + 1..] == msgs;
  }

  lemma ExpiredGoes(p: Pair, i: nat, expired: Expiry, net: Net)
    requires i < |p.c.msgsOut.inflight| && expired(p.c.msgsOut.inflight[i].store)
    ensures WriteOut(p, i, expired, net) == WriteOut(Remove(p, Out, i), i, expired, net)
    ensures var c, q, m := p.c, Remove(p, Out, i).c, p.c.msgsOut.inflight[i];
      && !Stuck(m, expired, net) && Left(m, expired, net) == []
      && q.wire == c.wire + (if Goes(m, expired, net) then Owed(m) else [])
      && q.msgsOut.inflight == c.msgsOut.inflight[..i] + Left(m, expired, net) + c.msgsOut.inflight[i + 1..]
      && OnlyInFlight(c, q)
  {
    RemovedAt(p.c, p, i);
    assert p.c.wire + [] == p.c.wire;
  }

  lemma NoMore(p: Pair, i: nat, expired: Expiry, net: Net)
    requires i == |p.c.msgsOut.inflight|
    ensures WriteOut(p, i, expired, net) == Result(p, Success)
  {
  }

  /** A due message that is not stuck has been sent, or is too large, and has been removed or waits for its answer. */
  function Dealt(p: Pair, i: nat, net: Net): Pair
    requires i < |p.c.msgsOut.inflight| && Owed(p.c.msgsOut.inflight[i]) != []
  {
    var m := p.c.msgsOut.inflight[i];
    var q := p.(c := SentTo(p.c, Owed(m)[0], net));
    if net(Owed(m)[0]) == Success && m.state != PublishQos0 then
      var d := q.c.msgsOut;
      q.(c := q.c.(msgsOut := d.(inflight := d.inflight[..i] + Once(m) + d.inflight[i + 1..])))
    else Remove(q, Out, i)
  }

  lemma WriteOutDue(p: Pair, i: nat, expired: Expiry, net: Net)
    requires i < |p.c.msgsOut.inflight| && Owed(p.c.msgsOut.inflight[i]) != [] && !expired(p.c.msgsOut.inflight[i].store)
    ensures var m := p.c.msgsOut.inflight[i];
      WriteOut(p, i, expired, net) ==
        if Stuck(m, expired, net) then Result(p, net(Owed(m)[0]))
        else WriteOut(Dealt(p, i, net), i + |Left(m, expired, net)|, expired, net)
  {
    hide Remove;
    var m, d := p.c.msgsOut.inflight[i], p.c.msgsOut;
    if net(Owed(m)[0]) == Success && m.state != PublishQos0 {
      assert d.inflight[i := Once(m)[0]] == d.inflight[..i] + Once(m) + d.inflight[i + 1..];
    }
  }

  lemma DealtWith(p: Pair, i: nat, expired: Expiry, net: Net)
    requires i < |p.c.msgsOut.inflight| && Owed(p.c.msgsOut.inflight[i]) != [] && !expired(p.c.msgsOut.inflight[i].store)
    requires !Stuck(p.c.msgsOut.inflight[i], expired, net)
    ensures var c, q, m := p.c, Dealt(p, i, net).c, p.c.msgsOut.inflight[i];
      && q.wire == c.wire + (if Goes(m, expired, net) then Owed(m) else [])
      && q.msgsOut.inflight == c.msgsOut.inflight[..i] + Left(m, expired, net) + c.msgsOut.inflight[i + 1..]
      && OnlyInFlight(c, q)
  {
    var c, m := p.c, p.c.msgsOut.inflight[i];
    RemovedAt(c, p.(c := SentTo(c, Owed(m)[0], net)), i);
    assert c.wire + [] == c.wire && Owed(m) == [Owed(m)[0]];
  }

  /** The second loop of db__message_write */
  lemma WriteOutSends(p: Pair, expired: Expiry, net: Net)
    ensures var r := WriteOut(p, 0, expired, net); SentOut(p.c, r.p.c, r.rc, expired, net)
  {
    hide GoingOut, Remaining, EndRc;
    WriteOutFrom(p, 0, expired, net);
    assert p.c.msgsOut.inflight[0..] == p.c.msgsOut.inflight;
  }

  ghost predicate Reliable(net: Net) {
    forall x :: net(x) == Success
  }

  ghost predicate NoneExpires(expired: Expiry) {
    forall s :: !expired(s)
  }

  function AllOwed(msgs: seq<ClientMsg>): seq<ToClient> {
    if msgs == [] then [] else Owed(msgs[0]) + AllOwed(msgs[1..])
  }

  /** A message after a pass in which every packet has been taken */
  function Handled(m: ClientMsg): seq<ClientMsg> {
    if Owed(m) == [] then [m] else Once(m)
  }

  function AllHandled(msgs: seq<ClientMsg>): seq<ClientMsg> {
    if msgs == [] then [] else Handled(msgs[0]) + AllHandled(msgs[1..])
  }

  /** Where nothing expires and every packet is taken, exactly one packet goes out for each message that has one due. */
  lemma {:induction false} AllGoOut(msgs: seq<ClientMsg>, expired: Expiry, net: Net)
    requires Reliable(net) && NoneExpires(expired)
    ensures FirstStuck(msgs, expired, net) == |msgs|
    ensures Packets(msgs, expired, net) == AllOwed(msgs) && AllLeft(msgs, expired, net) == AllHandled(msgs)
  {
    if msgs != [] {
      AllGoOut(msgs[1..], expired, net);
      assert net(Publish(msgs[0].mid, msgs[0].qos, msgs[0].store, msgs[0].dup)) == Success;
      assert net(Pubrel(msgs[0].mid)) == Success;
    }
  }

  lemma AllSentOut(c: Ctx, r: Ctx, rc: Rc, expired: Expiry, net: Net)
    requires SentOut(c, r, rc, expired, net) && Reliable(net) && NoneExpires(expired)
    ensures rc == Success && r.wire == c.wire + AllOwed(c.msgsOut.inflight)
    ensures r.msgsOut.inflight == AllHandled(c.msgsOut.inflight)
  {
    hide FirstStuck, Packets, AllLeft, AllOwed, AllHandled, Reliable, NoneExpires;
    var msgs := c.msgsOut.inflight;
    AllGoOut(msgs, expired, net);
    assert msgs[..|msgs|] == msgs && msgs[|msgs|..] == [];
  }

  lemma SentOutOnly(c: Ctx, r: Ctx, rc: Rc, expired: Expiry, net: Net)
    requires SentOut(c, r, rc, expired, net)
    ensures OnlyInFlight(c, r)
  {
  }

  lemma {:induction false} OwedGoesOut(msgs: seq<ClientMsg>, k: nat)
    requires k < |msgs|
    ensures forall x :: x in Owed(msgs[k]) ==> x in AllOwed(msgs)
  {
    hide Owed;
    if k > 0 {
      OwedGoesOut(msgs[1..], k - 1);
    }
  }
}
