/** The two-party system with identifiers from the client's source: what RoutedAtMostOnce asks of identifiers holds as long
    as fewer than 65535 of them are issued while one is in use. */
module Qos2Ids {
  import opened MosqTypes
  import C = ClientQueue
  import opened Qos2
  import opened Qos2Slots
  import opened Qos2Invariant
  import opened Qos2Proof
  import B = BrokerDb
  import PacketIds

  /** issued is how many identifiers the source has given out, numbers[t] the one that publish call t got. */
  datatype State = State(s: Sys, numbers: seq<nat>, issued: nat)

  /** SUBSCRIBE, UNSUBSCRIBE and QoS 0 messages take identifiers too. */
  datatype Op = TakeId | Do(e: Event)

  /** The identifier that a publish call comes with is the next one of the source. */
  function Apply(x: State, op: Op, seed: Word): State {
    if op.TakeId? then x.(issued := x.issued + 1)
    else if op.e.PublishCall? then
      var n := x.issued + 1;
      State(Step(x.s, op.e.(mid := PacketIds.Nth(seed, n))), x.numbers + [n], n)
    else x.(s := Step(x.s, op.e))
  }

  function Run(x: State, ops: seq<Op>, seed: Word): State
    decreases |ops|
  {
    if ops == [] then x else Run(Apply(x, ops[0], seed), ops[1..], seed)
  }

  /** Fewer than 65535 identifiers, the next one included, have been issued since publish call t. */
  predicate Recent(x: State, t: nat) {
    t < |x.numbers| ==> x.issued + 1 < x.numbers[t] + 65535
  }

  /** A publish call comes while fewer than inflight_maximum messages are outstanding and all of them are recent; one of
      QoS 1, while also the messages that the broker holds or that are on their way are. */
  ghost predicate Timely(x: State, op: Op) {
    op.Do? && op.e.PublishCall? ==>
      && |x.s.client.msgs| < x.s.client.maximum
      && (forall k :: 0 <= k < |x.s.client.msgs| ==> Recent(x, x.s.client.msgs[k].tag))
      && (op.e.qos == 1 ==>
            && (forall h :: h in Held(x.s.broker.c) ==> Recent(x, h.store.content))
            && (forall j :: 0 <= j < |x.s.client.wire| && x.s.client.wire[j].Publish? ==>
                  Recent(x, x.s.client.wire[j].tag)))
  }

  ghost predicate TimelyRun(x: State, ops: seq<Op>, seed: Word)
    decreases |ops|
  {
    ops == [] || (Timely(x, ops[0]) && TimelyRun(Apply(x, ops[0], seed), ops[1..], seed))
  }

  /** Every publish call carries the identifier of its number. */
  ghost predicate Numbered(calls: seq<Origin>, numbers: seq<nat>, issued: nat, seed: Word) {
    && |numbers| == |calls|
    && (forall t :: 0 <= t < |calls| ==>
          0 < numbers[t] <= issued && calls[t].mid == PacketIds.Nth(seed, numbers[t]))
  }

  ghost predicate IdInv(x: State, seed: Word) {
    SysInv(x.s) && Numbered(x.s.calls, x.numbers, x.issued, seed)
  }

  /** The next identifier is not that of a recent call. */
  lemma NextIsNew(x: State, seed: Word, t: nat)
    requires Numbered(x.s.calls, x.numbers, x.issued, seed) && t < |x.s.calls| && Recent(x, t)
    ensures x.s.calls[t].mid != PacketIds.Nth(seed, x.issued + 1)
  {
    PacketIds.IdsRepeatAfter65535(seed, x.numbers[t], x.issued + 1);
  }

  /** So a timely call keeps identifiers apart. */
  lemma TimelyIsLegal(x: State, op: Op, seed: Word)
    requires IdInv(x, seed) && Timely(x, op) && op.Do? && op.e.PublishCall?
    ensures Legal(x.s, op.e.(mid := PacketIds.Nth(seed, x.issued + 1)))
  {
    hide Numbered, ReleaseBeforeNew, ReleaseAfterPublish, ReleaseOfHeld, RoutedGone, NoRepeats, Qos1Apart, Held, Recent;
    var mid := PacketIds.Nth(seed, x.issued + 1);
    var s := x.s;
    PacketIds.IdsRepeatAfter65535(seed, x.issued + 1, x.issued + 1);
    forall k | 0 <= k < |s.client.msgs|
      ensures s.client.msgs[k].mid != mid
    {
      NextIsNew(x, seed, s.client.msgs[k].tag);
    }
    if op.e.qos == 1 {
      forall h | h in Held(s.broker.c)
        ensures h.mid != mid
      {
        NextIsNew(x, seed, h.store.content);
      }
      forall j | 0 <= j < |s.client.wire| && s.client.wire[j].Publish?
        ensures s.client.wire[j].mid != mid
      {
        NextIsNew(x, seed, s.client.wire[j].tag);
      }
      HeldCovers(s.broker.c);
    }
  }

  lemma HeldCovers(c: B.Ctx)
    ensures forall i :: 0 <= i < |c.msgsIn.inflight| ==>
      Slot(c.msgsIn.inflight[i].mid, c.msgsIn.inflight[i].store) in Held(c)
    ensures forall i :: 0 <= i < |c.msgsIn.queued| ==>
      Slot(c.msgsIn.queued[i].mid, c.msgsIn.queued[i].store) in Held(c)
  {
    forall i | 0 <= i < |c.msgsIn.inflight|
      ensures Slot(c.msgsIn.inflight[i].mid, c.msgsIn.inflight[i].store) in Held(c)
    {
      SlotsMember(c.msgsIn.inflight, Slot(c.msgsIn.inflight[i].mid, c.msgsIn.inflight[i].store));
    }
    forall i | 0 <= i < |c.msgsIn.queued|
      ensures Slot(c.msgsIn.queued[i].mid, c.msgsIn.queued[i].store) in Held(c)
    {
      SlotsMember(c.msgsIn.queued, Slot(c.msgsIn.queued[i].mid, c.msgsIn.queued[i].store));
    }
  }

  /** Only publish calls are recorded. */
  lemma StepCalls(s: Sys, e: Event)
    ensures Step(s, e).calls == s.calls + if e.PublishCall? then [Origin(e.mid, e.qos)] else []
  {
    hide OnPacket, OnReply;
  }

  lemma ApplyKeeps(x: State, op: Op, seed: Word)
    requires IdInv(x, seed) && Timely(x, op)
    ensures IdInv(Apply(x, op, seed), seed)
  {
    hide SysInv, Step, Legal, Timely;
    if op.Do? {
      if op.e.PublishCall? {
        var e := op.e.(mid := PacketIds.Nth(seed, x.issued + 1));
        TimelyIsLegal(x, op, seed);
        StepKeeps(x.s, e);
        StepCalls(x.s, e);
      } else {
        NoCallIsLegal(x.s, op.e);
        StepKeeps(x.s, op.e);
        StepCalls(x.s, op.e);
      }
    }
  }

  lemma NoCallIsLegal(s: Sys, e: Event)
    requires !e.PublishCall?
    ensures Legal(s, e)
  {
  }

  lemma {:induction false} RunKeepsIds(x: State, ops: seq<Op>, seed: Word)
    requires IdInv(x, seed) && TimelyRun(x, ops, seed)
    ensures IdInv(Run(x, ops, seed), seed)
    decreases |ops|
  {
    hide IdInv, Apply, Timely;
    if ops != [] {
      ApplyKeeps(x, ops[0], seed);
      RunKeepsIds(Apply(x, ops[0], seed), ops[1..], seed);
    }
  }

  /** At-most-once routing with the identifiers of the client's own source: no hypothesis about identifiers is left, only
      that a call is made before 65535 more have been issued than the oldest one in use. */
  lemma RoutedAtMostOnceWithIds(maximum: Word, brokerMaximum: Word, v5: bool, lim: B.Limits, ops: seq<Op>, seed: Word)
    requires TimelyRun(State(Start(maximum, brokerMaximum, v5, lim), [], 0), ops, seed)
    ensures var s := Run(State(Start(maximum, brokerMaximum, v5, lim), [], 0), ops, seed).s;
      && NoRepeats(s.routed)
      && (forall n :: 0 <= n < |s.routed| ==> s.routed[n] < |s.calls| && s.calls[s.routed[n]].qos == 2)
      && (forall n, k :: 0 <= n < |s.routed| && 0 <= k < |s.client.msgs| && s.client.msgs[k].tag == s.routed[n]
            ==> s.client.msgs[k].state == WaitForPubcomp || s.client.msgs[k].state == ResendPubrel)
  {
    hide Run, TimelyRun;
    StartHolds(maximum, brokerMaximum, v5, lim);
    RunKeepsIds(State(Start(maximum, brokerMaximum, v5, lim), [], 0), ops, seed);
  }
}
