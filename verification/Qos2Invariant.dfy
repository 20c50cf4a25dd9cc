/** The invariant behind at-most-once routing, over the four places where a message can be: the client's list, the
    packets under way to the broker, the messages the broker holds, and what it has routed. */
module Qos2Invariant {
  import opened MosqTypes
  import C = ClientQueue
  import B = BrokerDb
  import opened Qos2
  import opened Qos2Slots

  type Up = seq<C.Packet>

  ghost predicate StateFits(m: C.Msg) {
    if m.qos == 1 then m.state == WaitForPuback || m.state == PublishQos1
    else m.state == WaitForPubrec || m.state == PublishQos2 || Committed(m)
  }

  ghost predicate ClientOk(msgs: seq<C.Msg>, calls: seq<Origin>) {
    && (forall k :: 0 <= k < |msgs| ==>
          msgs[k].tag < |calls| && calls[msgs[k].tag] == Origin(msgs[k].mid, msgs[k].qos) && StateFits(msgs[k]))
    && (forall i, k :: 0 <= i < k < |msgs| ==> msgs[i].mid != msgs[k].mid && msgs[i].tag != msgs[k].tag)
  }

  ghost predicate UpOk(up: Up, calls: seq<Origin>) {
    && (forall j :: 0 <= j < |up| && up[j].Publish? ==>
          up[j].tag < |calls| && calls[up[j].tag] == Origin(up[j].mid, up[j].qos))
    && (forall i, j :: 0 <= i < j < |up| && up[i].Publish? && up[j].Publish? ==> up[i].tag != up[j].tag)
  }

  ghost predicate SlotsOk(held: multiset<Slot>, calls: seq<Origin>) {
    && (forall x :: x in held ==>
          && held[x] == 1 && x.store.sourceMid == x.mid && x.store.qos == 2
          && x.store.content < |calls| && calls[x.store.content] == Origin(x.mid, 2))
    && (forall x, y :: x in held && y in held && x.store.content == y.store.content ==> x == y)
  }

  /** A PUBLISH behind a PUBREL of its identifier is of a message the broker does not hold yet. */
  ghost predicate ReleaseBeforeNew(up: Up, held: multiset<Slot>) {
    forall i, j, x ::
      (0 <= i < j < |up| && up[i].Pubrel? && up[j].Publish? && up[j].qos == 2 && up[i].mid == up[j].mid && x in held)
      ==> x.store.content != up[j].tag
  }

  /** A PUBREL behind a PUBLISH of its identifier was sent for it. */
  ghost predicate ReleaseAfterPublish(msgs: seq<C.Msg>, up: Up) {
    forall j, i, k ::
      (0 <= j < i < |up| && up[j].Publish? && up[j].qos == 2 && up[i].Pubrel? && up[i].mid == up[j].mid
       && 0 <= k < |msgs| && msgs[k].tag == up[j].tag)
      ==> Committed(msgs[k])
  }

  /** A PUBREL under way for a held message was sent for it. */
  ghost predicate ReleaseOfHeld(msgs: seq<C.Msg>, up: Up, held: multiset<Slot>) {
    forall x, i, k ::
      (x in held && 0 <= i < |up| && up[i].Pubrel? && up[i].mid == x.mid
       && 0 <= k < |msgs| && msgs[k].tag == x.store.content)
      ==> Committed(msgs[k])
  }

  /** What has been routed is gone everywhere, but for the client's memory that it committed the message. */
  ghost predicate RoutedGone(msgs: seq<C.Msg>, up: Up, held: multiset<Slot>, routed: seq<nat>, calls: seq<Origin>) {
    && (forall n :: 0 <= n < |routed| ==> routed[n] < |calls| && calls[routed[n]].qos == 2)
    && (forall n, j :: 0 <= n < |routed| && 0 <= j < |up| && up[j].Publish? ==> up[j].tag != routed[n])
    && (forall n, x :: 0 <= n < |routed| && x in held ==> x.store.content != routed[n])
    && (forall n, k :: 0 <= n < |routed| && 0 <= k < |msgs| && msgs[k].tag == routed[n] ==> Committed(msgs[k]))
  }

  ghost predicate NoRepeats(s: seq<nat>) {
    forall i, j :: 0 <= i < j < |s| ==> s[i] != s[j]
  }

  /** The identifier of a QoS 1 message, outstanding or under way, is not one the broker would take for that of a QoS 2
      message. */
  ghost predicate Qos1Apart(msgs: seq<C.Msg>, up: Up, held: multiset<Slot>) {
    && (forall j, x :: 0 <= j < |up| && up[j].Publish? && up[j].qos == 1 && x in held ==> x.mid != up[j].mid)
    && (forall i, j :: 0 <= i < j < |up| && up[i].Publish? && up[i].qos == 2 && up[j].Publish? && up[j].qos == 1
          ==> up[i].mid != up[j].mid)
    && (forall k, x :: 0 <= k < |msgs| && msgs[k].qos == 1 && x in held ==> x.mid != msgs[k].mid)
    && (forall k, j :: 0 <= k < |msgs| && msgs[k].qos == 1 && 0 <= j < |up| && up[j].Publish? && up[j].qos == 2
          ==> up[j].mid != msgs[k].mid)
  }

  ghost predicate Inv(msgs: seq<C.Msg>, up: Up, held: multiset<Slot>, routed: seq<nat>, calls: seq<Origin>) {
    && ClientOk(msgs, calls)
    && UpOk(up, calls)
    && SlotsOk(held, calls)
    && ReleaseBeforeNew(up, held)
    && ReleaseAfterPublish(msgs, up)
    && ReleaseOfHeld(msgs, up, held)
    && RoutedGone(msgs, up, held, routed, calls)
    && NoRepeats(routed)
    && Qos1Apart(msgs, up, held)
  }

  // ---------------------------------------------------------------------------------------------
  // The client's moves
  // ---------------------------------------------------------------------------------------------

  /** A new outstanding message */
  lemma AddMessage(msgs: seq<C.Msg>, up: Up, held: multiset<Slot>, routed: seq<nat>, calls: seq<Origin>, m: C.Msg)
    requires Inv(msgs, up, held, routed, calls)
    requires m.tag == |calls| && StateFits(m) && FreeAtClient(msgs, m.mid)
    requires m.qos == 1 ==> forall x :: x in held ==> x.mid != m.mid
    requires m.qos == 1 ==> forall j :: 0 <= j < |up| && up[j].Publish? ==> up[j].mid != m.mid
    ensures Inv(msgs + [m], up, held, routed, calls + [Origin(m.mid, m.qos)])
  {
    hide ReleaseBeforeNew, ReleaseAfterPublish, ReleaseOfHeld, NoRepeats;
    AddMessageReleases(msgs, up, held, calls, m);
  }

  lemma AddMessageReleases(msgs: seq<C.Msg>, up: Up, held: multiset<Slot>, calls: seq<Origin>, m: C.Msg)
    requires UpOk(up, calls) && SlotsOk(held, calls) && m.tag == |calls|
    requires ReleaseAfterPublish(msgs, up) && ReleaseOfHeld(msgs, up, held)
    ensures ReleaseAfterPublish(msgs + [m], up) && ReleaseOfHeld(msgs + [m], up, held)
  {
  }

  /** Any change to the outstanding messages that keeps identity and commitment, one for one */
  lemma Relabel(msgs: seq<C.Msg>, msgs': seq<C.Msg>, up: Up, held: multiset<Slot>, routed: seq<nat>, calls: seq<Origin>)
    requires Inv(msgs, up, held, routed, calls) && |msgs| == |msgs'|
    requires forall k :: 0 <= k < |msgs| ==>
      && msgs'[k].mid == msgs[k].mid && msgs'[k].qos == msgs[k].qos && msgs'[k].tag == msgs[k].tag
      && StateFits(msgs'[k]) && (Committed(msgs[k]) ==> Committed(msgs'[k]))
    ensures Inv(msgs', up, held, routed, calls)
  {
  }

  lemma Forget(msgs: seq<C.Msg>, f: nat, up: Up, held: multiset<Slot>, routed: seq<nat>, calls: seq<Origin>)
    requires Inv(msgs, up, held, routed, calls) && f < |msgs|
    ensures Inv(Without(msgs, f), up, held, routed, calls)
  {
    hide ReleaseBeforeNew, ReleaseAfterPublish, ReleaseOfHeld, NoRepeats, UpOk, SlotsOk;
    ForgetReleases(msgs, f, up, held);
  }

  lemma ForgetReleases(msgs: seq<C.Msg>, f: nat, up: Up, held: multiset<Slot>)
    requires ReleaseAfterPublish(msgs, up) && ReleaseOfHeld(msgs, up, held) && f < |msgs|
    ensures ReleaseAfterPublish(Without(msgs, f), up) && ReleaseOfHeld(Without(msgs, f), up, held)
  {
  }

  /** PUBREL, once nothing outstanding with the identifier may be published again */
  lemma SendPubrel(msgs: seq<C.Msg>, up: Up, held: multiset<Slot>, routed: seq<nat>, calls: seq<Origin>, mid: Word)
    requires Inv(msgs, up, held, routed, calls)
    requires forall k :: 0 <= k < |msgs| && msgs[k].mid == mid && msgs[k].qos == 2 ==> Committed(msgs[k])
    ensures Inv(msgs, up + [C.Pubrel(mid)], held, routed, calls)
  {
    hide ClientOk, SlotsOk, ReleaseBeforeNew, ReleaseAfterPublish, ReleaseOfHeld, NoRepeats;
    PubrelAfterPublish(msgs, up, calls, mid);
    PubrelOfHeld(msgs, up, held, calls, mid);
    PubrelBeforeNew(up, held, mid);
  }

  lemma PubrelBeforeNew(up: Up, held: multiset<Slot>, mid: Word)
    requires ReleaseBeforeNew(up, held)
    ensures ReleaseBeforeNew(up + [C.Pubrel(mid)], held)
  {
  }

  lemma PubrelAfterPublish(msgs: seq<C.Msg>, up: Up, calls: seq<Origin>, mid: Word)
    requires ClientOk(msgs, calls) && UpOk(up, calls) && ReleaseAfterPublish(msgs, up)
    requires forall k :: 0 <= k < |msgs| && msgs[k].mid == mid && msgs[k].qos == 2 ==> Committed(msgs[k])
    ensures ReleaseAfterPublish(msgs, up + [C.Pubrel(mid)])
  {
  }

  lemma PubrelOfHeld(msgs: seq<C.Msg>, up: Up, held: multiset<Slot>, calls: seq<Origin>, mid: Word)
    requires ClientOk(msgs, calls) && SlotsOk(held, calls) && ReleaseOfHeld(msgs, up, held)
    requires forall k :: 0 <= k < |msgs| && msgs[k].mid == mid && msgs[k].qos == 2 ==> Committed(msgs[k])
    ensures ReleaseOfHeld(msgs, up + [C.Pubrel(mid)], held)
  {
  }

  /** PUBLISH of an uncommitted message, at most once per connection, and not behind a PUBREL unless it is new */
  lemma SendPublish(msgs: seq<C.Msg>, up: Up, held: multiset<Slot>, routed: seq<nat>, calls: seq<Origin>, k: nat, dup: bool)
    requires Inv(msgs, up, held, routed, calls)
    requires k < |msgs| && !Committed(msgs[k])
    requires forall j :: 0 <= j < |up| && up[j].Publish? ==> up[j].tag != msgs[k].tag
    requires (forall j :: 0 <= j < |up| && up[j].Pubrel? ==> up[j].mid != msgs[k].mid)
          || (forall x :: x in held ==> x.store.content != msgs[k].tag)
    ensures Inv(msgs, up + [C.Publish(msgs[k].mid, msgs[k].qos, msgs[k].tag, dup)], held, routed, calls)
  {
    hide SlotsOk, ReleaseBeforeNew, ReleaseAfterPublish, ReleaseOfHeld, NoRepeats, Qos1Apart;
    var p := C.Publish(msgs[k].mid, msgs[k].qos, msgs[k].tag, dup);
    PublishReleases(msgs, up, held, p);
    PublishApart(msgs, up, held, calls, k, p);
  }

  lemma PublishReleases(msgs: seq<C.Msg>, up: Up, held: multiset<Slot>, p: C.Packet)
    requires p.Publish?
    requires ReleaseBeforeNew(up, held) && ReleaseAfterPublish(msgs, up) && ReleaseOfHeld(msgs, up, held)
    requires (forall j :: 0 <= j < |up| && up[j].Pubrel? ==> up[j].mid != p.mid)
          || (forall x :: x in held ==> x.store.content != p.tag)
    ensures ReleaseBeforeNew(up + [p], held)
    ensures ReleaseAfterPublish(msgs, up + [p]) && ReleaseOfHeld(msgs, up + [p], held)
  {
  }

  lemma PublishApart(msgs: seq<C.Msg>, up: Up, held: multiset<Slot>, calls: seq<Origin>, k: nat, p: C.Packet)
    requires ClientOk(msgs, calls) && Qos1Apart(msgs, up, held) && k < |msgs|
    requires p.Publish? && p.mid == msgs[k].mid && p.qos == msgs[k].qos
    ensures Qos1Apart(msgs, up + [p], held)
  {
  }

  lemma SendConnect(msgs: seq<C.Msg>, held: multiset<Slot>, routed: seq<nat>, calls: seq<Origin>)
    requires Inv(msgs, [], held, routed, calls)
    ensures Inv(msgs, [C.Connect], held, routed, calls)
  {
  }

  // ---------------------------------------------------------------------------------------------
  // The broker's moves
  // ---------------------------------------------------------------------------------------------

  /** A connection ends and takes the packets with it. */
  lemma LosePackets(msgs: seq<C.Msg>, up: Up, held: multiset<Slot>, routed: seq<nat>, calls: seq<Origin>)
    requires Inv(msgs, up, held, routed, calls)
    ensures Inv(msgs, [], held, routed, calls)
  {
  }

  /** Held messages may go at any time. */
  lemma Shrink(msgs: seq<C.Msg>, up: Up, held: multiset<Slot>, held': multiset<Slot>, routed: seq<nat>, calls: seq<Origin>)
    requires Inv(msgs, up, held, routed, calls) && held' <= held
    ensures Inv(msgs, up, held', routed, calls)
  {
    assert forall x :: x in held' ==> x in held && held'[x] <= held[x];
  }

  lemma TakePacket(msgs: seq<C.Msg>, up: Up, held: multiset<Slot>, routed: seq<nat>, calls: seq<Origin>)
    requires Inv(msgs, up, held, routed, calls) && up != []
    ensures Inv(msgs, up[1..], held, routed, calls)
  {
    assert forall i :: 0 <= i < |up[1..]| ==> up[1..][i] == up[i + 1];
  }

  /** A PUBLISH arrives and the broker, holding nothing of that identifier, comes to hold the message. */
  lemma TakeIn(msgs: seq<C.Msg>, up: Up, held: multiset<Slot>, routed: seq<nat>, calls: seq<Origin>, x: Slot)
    requires Inv(msgs, up, held, routed, calls)
    requires up != [] && up[0].Publish? && up[0].qos == 2
    requires x.mid == x.store.sourceMid == up[0].mid && x.store.content == up[0].tag && x.store.qos == 2
    requires forall y :: y in held ==> y.store.sourceMid != up[0].mid
    ensures Inv(msgs, up[1..], held + multiset{x}, routed, calls)
  {
    var held', rest := held + multiset{x}, up[1..];
    assert forall i :: 0 <= i < |rest| ==> rest[i] == up[i + 1];
    assert forall y :: y in held' <==> y in held || y == x;
    assert forall y :: y in held ==> y.mid != x.mid && y.store.content != x.store.content;
    TakePacket(msgs, up, held, routed, calls);
    assert SlotsOk(held', calls);
    assert ReleaseOfHeld(msgs, rest, held');
    assert Qos1Apart(msgs, rest, held');
  }

  /** With a PUBREL at the front, one held message of its identifier is routed. */
  lemma RouteOne(msgs: seq<C.Msg>, up: Up, held: multiset<Slot>, x: Slot, routed: seq<nat>, calls: seq<Origin>)
    requires Inv(msgs, up, held + multiset{x}, routed, calls)
    requires up != [] && up[0].Pubrel? && up[0].mid == x.mid
    ensures Inv(msgs, up, held, routed + [x.store.content], calls)
  {
    var all, t := held + multiset{x}, x.store.content;
    assert x in all;
    assert forall y :: y in held ==> y in all && y.store.content != t by {
      forall y | y in held
        ensures y in all && y.store.content != t
      {
        assert all[y] == held[y] + (if y == x then 1 else 0);
      }
    }
    Shrink(msgs, up, all, held, routed, calls);
    assert NoRepeats(routed + [t]);
    assert RoutedGone(msgs, up, held, routed + [t], calls);
  }

  lemma {:induction false} RouteAll(msgs: seq<C.Msg>, up: Up, held: multiset<Slot>, ms: seq<B.Message>,
                                    routed: seq<nat>, calls: seq<Origin>)
    requires up != [] && up[0].Pubrel?
    requires Inv(msgs, up, held + Routed(up[0].mid, ms), routed, calls)
    ensures Inv(msgs, up, held, routed + Contents(ms), calls)
    decreases |ms|, 0
  {
    hide Inv;
    if ms == [] {
      assert held + Routed(up[0].mid, ms) == held;
      assert routed + Contents(ms) == routed;
    } else {
      var init, last := ms[..|ms| - 1], ms[|ms| - 1];
      var x := Slot(up[0].mid, last);
      assert held + Routed(up[0].mid, ms) == held + Routed(up[0].mid, init) + multiset{x};
      RouteOneOf(msgs, up, held, init, x, routed, calls);
      assert routed + Contents(ms) == routed + Contents(init) + [last.content];
    }
  }

  lemma {:induction false} RouteOneOf(msgs: seq<C.Msg>, up: Up, held: multiset<Slot>, init: seq<B.Message>, x: Slot,
                                      routed: seq<nat>, calls: seq<Origin>)
    requires up != [] && up[0].Pubrel? && up[0].mid == x.mid
    requires Inv(msgs, up, held + Routed(up[0].mid, init) + multiset{x}, routed, calls)
    ensures Inv(msgs, up, held, routed + Contents(init) + [x.store.content], calls)
    decreases |init|, 1
  {
    hide Inv;
    assert held + Routed(up[0].mid, init) + multiset{x} == (held + multiset{x}) + Routed(up[0].mid, init);
    RouteAll(msgs, up, held + multiset{x}, init, routed, calls);
    RouteOne(msgs, up, held, x, routed + Contents(init), calls);
  }
}
