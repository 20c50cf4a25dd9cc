/** Which messages db__message_insert takes for a client, where it puts them and what it answers: by the lists of the client,
    its connection and the limits. */
module BrokerInserts {
  import opened MosqTypes
  import opened BrokerDb
  import opened BrokerCounters
  import opened BrokerFifo

  // ---------------------------------------------------------------------------------------------
  // Room
  // ---------------------------------------------------------------------------------------------

  /** Number of messages of one direction and their payload, in flight and queued; of QoS > 0 only if asked for */
  function Held(d: MsgData, qos: AnyQos): (int, int) {
    var t := Plus(Weigh(d.inflight), Weigh(d.queued));
    if qos == 0 then (t.n, t.bytes) else (t.n12, t.bytes12)
  }

  /** Room in flight, by the quota and by the payload of all QoS > 0 messages of the direction, so far as there are limits */
  predicate FlightRoom(d: MsgData, lim: Limits, qos: AnyQos) {
    || qos == 0
    || ((d.maximum == 0 || d.quota > 0) && (lim.maxInflightBytes == 0 || Held(d, 1).1 < lim.maxInflightBytes))
  }

  /** Room in the queue: messages and bytes in excess of what a connected client may have in flight, so far as there are
      limits. The bytes are counted in unsigned arithmetic, so that a client with less than it may have in flight has no
      room. */
  predicate QueueRoom(d: MsgData, connected: bool, lim: Limits, qos: AnyQos) {
    var (count, bytes) := Held(d, qos);
    var excess := bytes - if connected then lim.maxInflightBytes else 0;
    && (lim.maxQueued == 0 || count - (if connected then d.maximum else 0) < lim.maxQueued)
    && (lim.maxQueuedBytes == 0 || excess % 0x1_0000_0000_0000_0000 < lim.maxQueuedBytes)
  }

  /** With the counters right, these are the questions that the code asks. */
  lemma RoomIsReady(d: MsgData, connected: bool, lim: Limits, qos: AnyQos)
    requires CountersOk(d)
    ensures ReadyForFlight(d, lim, qos) <==> FlightRoom(d, lim, qos)
    ensures ReadyForQueue(d, connected, lim, qos) <==> QueueRoom(d, connected, lim, qos)
  {
    hide Weigh;
  }

  /** A connected client below max_inflight_bytes finds no room in a queue with a byte limit, as long as that limit and the
      payload are no more than a 64-bit machine can address: 2^64 less what is missing is left to compare. */
  lemma NoQueueBelowInflightBytes(d: MsgData, lim: Limits, qos: AnyQos)
    requires 0 < lim.maxQueuedBytes && lim.maxQueuedBytes + lim.maxInflightBytes <= 0x1_0000_0000_0000_0000
    requires 0 <= Held(d, qos).1 < lim.maxInflightBytes
    ensures !QueueRoom(d, true, lim, qos)
  {
    hide Weigh;
    var excess := Held(d, qos).1 - lim.maxInflightBytes;
    assert excess % 0x1_0000_0000_0000_0000 == excess + 0x1_0000_0000_0000_0000;
  }

  // ---------------------------------------------------------------------------------------------
  // The insert
  // ---------------------------------------------------------------------------------------------

  /** The client has got this message before, through another subscription. */
  predicate Overlaps(p: Pair, lim: Limits, dir: Direction, retain: bool, s: Message) {
    && dir == Out && !retain && !lim.allowDuplicates && !p.c.v5
    && p.c.id.Some? && p.c.id.value in DestIds(p.st, s)
  }

  /** QoS 0 is not kept for a client that is away. */
  predicate Unwanted(c: Ctx, lim: Limits, qos: AnyQos) {
    !c.connected && qos == 0 && !lim.queueQos0 && !c.lazyBridge
  }

  predicate ToFlight(c: Ctx, lim: Limits, dir: Direction, qos: AnyQos) {
    c.connected && FlightRoom(Data(c, dir), lim, qos)
  }

  /** What becomes of a message */
  predicate Taken(p: Pair, lim: Limits, dir: Direction, qos: AnyQos, retain: bool, s: Message) {
    && p.c.id.Some? && !Overlaps(p, lim, dir, retain, s) && !Unwanted(p.c, lim, qos)
    && if ToFlight(p.c, lim, dir, qos) then dir == Out || qos == 2
       else QueueRoom(Data(p.c, dir), p.c.connected, lim, qos)
  }

  /** A client is given no QoS above the maximum that it has asked for. */
  function Granted(qos: AnyQos, maximumQos: AnyQos): AnyQos {
    if maximumQos < qos then maximumQos else qos
  }

  /** The new list element */
  predicate IsNew(m: ClientMsg, c: Ctx, mid: Word, qos: AnyQos, retain: bool, s: Message) {
    m.store == s && m.mid == mid && m.qos == Granted(qos, c.maximumQos) && !m.dup && m.retain == retain
  }

  /** Its state in flight: to be published, by the QoS asked for, or waiting for PUBREL */
  function FlightState(dir: Direction, qos: AnyQos): MsgState {
    if dir == In then WaitForPubrel
    else if qos == 0 then PublishQos0
    else if qos == 1 then PublishQos1
    else PublishQos2
  }

  /** One element joins the messages in flight or the queue, at the end; of the context nothing else changes but its counters
      and, for QoS > 0 on the way out, one quota. */
  ghost predicate Joined(c: Ctx, r: Ctx, lim: Limits, mid: Word, dir: Direction, qos: AnyQos, retain: bool, s: Message) {
    var d, e := Data(c, dir), Data(r, dir);
    && r == (if dir == In then c.(msgsIn := e) else c.(msgsOut := e))
    && e.maximum == d.maximum
    && e.quota == Spent(d.quota, if dir == Out && qos > 0 && c.maximumQos > 0 then 1 else 0)
    && if ToFlight(c, lim, dir, qos) then
         && |e.inflight| == |d.inflight| + 1 && e.inflight[..|d.inflight|] == d.inflight && e.queued == d.queued
         && IsNew(e.inflight[|d.inflight|], c, mid, qos, retain, s)
         && e.inflight[|d.inflight|].state == FlightState(dir, qos)
       else
         && |e.queued| == |d.queued| + 1 && e.queued[..|d.queued|] == d.queued && e.inflight == d.inflight
         && IsNew(e.queued[|d.queued|], c, mid, qos, retain, s)
         && e.queued[|d.queued|].state == Queued
  }

  /** The return code: 2 for what is dropped or, at a connected client, queued; 1 for an incoming message below QoS 2 that
      there is room for. */
  function InsertRc(p: Pair, lim: Limits, dir: Direction, qos: AnyQos, retain: bool, s: Message): nat {
    if p.c.id.None? || Overlaps(p, lim, dir, retain, s) then 0
    else if Unwanted(p.c, lim, qos) then 2
    else if ToFlight(p.c, lim, dir, qos) then (if dir == Out || qos == 2 then 0 else 1)
    else if QueueRoom(Data(p.c, dir), p.c.connected, lim, qos) && !p.c.connected then 0
    else 2
  }

  /** The client is recorded as one that has got the message, if that is asked about later, and nothing else is recorded. */
  predicate Recorded(p: Pair, r: Pair, lim: Limits, dir: Direction, retain: bool, s: Message) {
    && r.st.order == p.st.order && r.st.entries.Keys == p.st.entries.Keys
    && forall x :: x in p.st.entries ==>
         DestIds(r.st, x) == DestIds(p.st, x)
           + if x == s && dir == Out && !retain && !lim.allowDuplicates && p.c.id.Some? then [p.c.id.value] else []
  }

  /** Exactly the messages taken join. */
  ghost predicate InsertedAs(p: Pair, r: Pair, rc: nat, lim: Limits, mid: Word, dir: Direction, qos: AnyQos, retain: bool,
                             s: Message) {
    && rc == InsertRc(p, lim, dir, qos, retain, s)
    && if Taken(p, lim, dir, qos, retain, s) then
         Joined(p.c, r.c, lim, mid, dir, qos, retain, s) && Recorded(p, r, lim, dir, retain, s)
       else r == p
  }

  lemma TakenIsListed(p: Pair, lim: Limits, dir: Direction, qos: AnyQos, retain: bool, s: Message)
    requires CountersOk(Data(p.c, dir))
    ensures Taken(p, lim, dir, qos, retain, s) <==> InsertVerdict(p, lim, dir, qos, retain, s).Listed?
  {
    hide CountersOk, ReadyForFlight, ReadyForQueue, FlightRoom, QueueRoom;
    RoomIsReady(Data(p.c, dir), p.c.connected, lim, qos);
  }

  lemma ListedJoins(p: Pair, lim: Limits, mid: Word, dir: Direction, qos: AnyQos, retain: bool, s: Message)
    requires InsertVerdict(p, lim, dir, qos, retain, s).Listed? && CountersOk(Data(p.c, dir))
    ensures Joined(p.c, Insert(p, lim, mid, dir, qos, retain, s).0.c, lim, mid, dir, qos, retain, s)
  {
    hide CountersOk, ReadyForFlight, ReadyForQueue, FlightRoom, QueueRoom, CountedByAskedQos;
    RoomIsReady(Data(p.c, dir), p.c.connected, lim, qos);
    var m := NewClientMsg(p.c, mid, qos, InsertVerdict(p, lim, dir, qos, retain, s).state, retain, s);
    OnlyCounted(Appended(Data(p.c, dir), m), m, qos);
  }

  lemma OnlyCounted(d: MsgData, m: ClientMsg, qos: AnyQos)
    ensures var e := CountedByAskedQos(d, m, qos);
      e.inflight == d.inflight && e.queued == d.queued && e.quota == d.quota && e.maximum == d.maximum
  {
  }

  lemma VerdictRc(p: Pair, lim: Limits, dir: Direction, qos: AnyQos, retain: bool, s: Message)
    requires CountersOk(Data(p.c, dir))
    ensures InsertVerdict(p, lim, dir, qos, retain, s).rc == InsertRc(p, lim, dir, qos, retain, s)
  {
    hide CountersOk, ReadyForFlight, ReadyForQueue, FlightRoom, QueueRoom;
    RoomIsReady(Data(p.c, dir), p.c.connected, lim, qos);
  }

  /** db__message_insert */
  lemma InsertTakes(p: Pair, lim: Limits, mid: Word, dir: Direction, qos: AnyQos, retain: bool, s: Message)
    requires CountersOk(Data(p.c, dir))
    ensures var (r, rc) := Insert(p, lim, mid, dir, qos, retain, s); InsertedAs(p, r, rc, lim, mid, dir, qos, retain, s)
  {
    hide CountersOk, InsertVerdict, Taken, Joined, Recorded, InsertRc, Inserted;
    TakenIsListed(p, lim, dir, qos, retain, s);
    VerdictRc(p, lim, dir, qos, retain, s);
    if InsertVerdict(p, lim, dir, qos, retain, s).Listed? {
      ListedJoins(p, lim, mid, dir, qos, retain, s);
      InsertRecords(p, lim, mid, dir, qos, retain, s);
    }
  }

  lemma InsertRecords(p: Pair, lim: Limits, mid: Word, dir: Direction, qos: AnyQos, retain: bool, s: Message)
    requires InsertVerdict(p, lim, dir, qos, retain, s).Listed?
    ensures Recorded(p, Insert(p, lim, mid, dir, qos, retain, s).0, lim, dir, retain, s)
  {
    hide ReadyForFlight, ReadyForQueue, Inserted;
  }

  // ---------------------------------------------------------------------------------------------
  // Messages for a client that is away
  // ---------------------------------------------------------------------------------------------

  /** Fewer QoS > 0 messages and bytes than may be queued */
  predicate BelowLimits(d: MsgData, lim: Limits) {
    && (lim.maxQueued == 0 || Held(d, 1).0 < lim.maxQueued)
    && (lim.maxQueuedBytes == 0 || 0 <= Held(d, 1).1 < lim.maxQueuedBytes <= 0x1_0000_0000_0000_0000)
  }

  /** A message of QoS > 0 for a client that is away, with fewer messages and bytes than may be queued, is at the end of the
      queue afterwards, and the answer is 0. */
  lemma KeptWhileAway(p: Pair, lim: Limits, mid: Word, qos: AnyQos, retain: bool, s: Message)
    requires !p.c.connected && p.c.id.Some? && qos > 0 && CountersOk(p.c.msgsOut) && !Overlaps(p, lim, Out, retain, s)
    requires BelowLimits(p.c.msgsOut, lim)
    ensures var (r, rc) := Insert(p, lim, mid, Out, qos, retain, s);
      var d, e := p.c.msgsOut, r.c.msgsOut;
      && rc == 0 && r.c == p.c.(msgsOut := e) && e.maximum == d.maximum
      && e.inflight == d.inflight && |e.queued| == |d.queued| + 1 && e.queued[..|d.queued|] == d.queued
      && IsNew(e.queued[|d.queued|], p.c, mid, qos, retain, s)
  {
    hide Weigh, Insert, IsNew;
    InsertTakes(p, lim, mid, Out, qos, retain, s);
  }

  /** A client that has just connected has room in flight, whatever its maximum and the limits. */
  lemma NewClientHasRoom(id: string, v5: bool, maximumQos: AnyQos, lazyBridge: bool, maximumIn: Word, maximumOut: Word,
                         st: Store, lim: Limits, mid: Word, qos: AnyQos, retain: bool, s: Message)
    requires var c := NewCtx(Some(id), v5, maximumQos, lazyBridge, maximumIn, maximumOut);
      !Overlaps(Pair(st, c), lim, Out, retain, s)
    ensures var c := NewCtx(Some(id), v5, maximumQos, lazyBridge, maximumIn, maximumOut);
      var (r, rc) := Insert(Pair(st, c), lim, mid, Out, qos, retain, s);
      && rc == 0 && |r.c.msgsOut.inflight| == 1 && r.c.msgsOut.queued == []
      && IsNew(r.c.msgsOut.inflight[0], c, mid, qos, retain, s)
  {
    hide IsNew, RefInc, AddDestId, ReadyForQueue;
    var c := NewCtx(Some(id), v5, maximumQos, lazyBridge, maximumIn, maximumOut);
    var m := NewClientMsg(c, mid, qos, PublishState(qos), retain, s);
    assert [] + [m] == [m];
    NewIsNew(c, mid, qos, PublishState(qos), retain, s);
  }

  lemma NewIsNew(c: Ctx, mid: Word, qos: AnyQos, state: MsgState, retain: bool, s: Message)
    ensures IsNew(NewClientMsg(c, mid, qos, state, retain, s), c, mid, qos, retain, s)
  {
  }
}
