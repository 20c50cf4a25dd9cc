/** The broker's message store and the per-client message lists of src/database.c: specification functions on
    values. BrokerDbMethods.dfy holds the code that updates the structures in place. */
module BrokerDb {
  import opened MosqTypes

  type AnyQos = q: int | 0 <= q <= 2

  datatype Direction = In | Out

  /** The fields of struct mosquitto_msg_store that never change once it is stored; content stands for topic,
      payload and properties. */
  datatype Message = Message(dbId: nat, payloadLen: nat, qos: AnyQos, sourceMid: Word, content: nat)

  /** The fields that do change. */
  datatype Entry = Entry(refCount: int, destIds: seq<string>)

  /** db->msg_store, newest first, with its counters. */
  datatype Store = Store(order: seq<Message>, entries: map<Message, Entry>, count: int, bytes: int, lastId: nat)

  /** struct mosquitto_client_msg */
  datatype ClientMsg = ClientMsg(store: Message, mid: Word, qos: AnyQos, state: MsgState, dup: bool, retain: bool)

  /** struct mosquitto_msg_data */
  datatype MsgData = MsgData(
    inflight: seq<ClientMsg>, queued: seq<ClientMsg>,
    msgCount: int, msgBytes: int, msgCount12: int, msgBytes12: int,
    quota: int, maximum: Word)

  /** A packet the broker sends to a client. */
  datatype ToClient =
    | Publish(mid: Word, qos: AnyQos, store: Message, dup: bool)
    | Puback(mid: Word)
    | Pubrec(mid: Word)
    | PubrecError(mid: Word)       // reason code 0x80 or above
    | Pubrel(mid: Word)
    | Pubcomp(mid: Word)
    | Connack

  type Net = ToClient -> Rc

  /** struct mosquitto, as far as the message lists are concerned. */
  datatype Ctx = Ctx(
    id: Option<string>, connected: bool, v5: bool, maximumQos: AnyQos, lazyBridge: bool,
    msgsIn: MsgData, msgsOut: MsgData, wire: seq<ToClient>)

  datatype Limits = Limits(
    maxInflightBytes: nat, maxQueued: nat, maxQueuedBytes: nat,
    allowDuplicates: bool, queueQos0: bool)

  /** The store together with the context an operation works on. */
  datatype Pair = Pair(st: Store, c: Ctx)

  datatype Result = Result(p: Pair, rc: Rc)

  // ---------------------------------------------------------------------------------------------
  // The store
  // ---------------------------------------------------------------------------------------------

  function Unlinked(order: seq<Message>, s: Message): seq<Message> {
    if order == [] then [] else if order[0] == s then order[1..] else [order[0]] + Unlinked(order[1..], s)
  }

  /** db__msg_store_remove */
  function StoreRemove(st: Store, s: Message): Store {
    Store(Unlinked(st.order, s), st.entries - {s}, st.count - 1, st.bytes - s.payloadLen, st.lastId)
  }

  /** db__msg_store_ref_inc */
  function RefInc(st: Store, s: Message): Store {
    if s !in st.entries then st
    else st.(entries := st.entries[s := st.entries[s].(refCount := st.entries[s].refCount + 1)])
  }

  /** db__msg_store_ref_dec: the last reference removes the message. */
  function RefDec(st: Store, s: Message): Store {
    if s !in st.entries then st
    else if st.entries[s].refCount - 1 == 0 then StoreRemove(st, s)
    else st.(entries := st.entries[s := st.entries[s].(refCount := st.entries[s].refCount - 1)])
  }

  /** The message db__message_store creates next. */
  function NewMessage(st: Store, payloadLen: nat, qos: AnyQos, sourceMid: Word, content: nat): Message {
    Message(st.lastId + 1, payloadLen, qos, sourceMid, content)
  }

  /** db__message_store: stored without any reference yet. */
  function StoreAdd(st: Store, s: Message): Store {
    Store([s] + st.order, st.entries[s := Entry(0, [])], st.count + 1, st.bytes + s.payloadLen, s.dbId)
  }

  /** db__msg_store_compact: the messages of the list left that no one refers to go. */
  function Compacted(st: Store, left: seq<Message>): Store
    decreases |left|
  {
    if left == [] then st
    else if left[0] in st.entries && st.entries[left[0]].refCount < 1 then
      Compacted(StoreRemove(st, left[0]), left[1..])
    else Compacted(st, left[1..])
  }

  function DestIds(st: Store, s: Message): seq<string> {
    if s in st.entries then st.entries[s].destIds else []
  }

  function AddDestId(st: Store, s: Message, id: string): Store {
    if s !in st.entries then st
    else st.(entries := st.entries[s := st.entries[s].(destIds := st.entries[s].destIds + [id])])
  }

  // ---------------------------------------------------------------------------------------------
  // One direction of one client
  // ---------------------------------------------------------------------------------------------

  /** The counters of the reconnect loops. */
  function Counted(d: MsgData, m: ClientMsg): MsgData {
    var d := d.(msgCount := d.msgCount + 1, msgBytes := d.msgBytes + m.store.payloadLen);
    if m.qos > 0 then d.(msgCount12 := d.msgCount12 + 1, msgBytes12 := d.msgBytes12 + m.store.payloadLen) else d
  }

  /** The counters of db__message_remove. */
  function Uncounted(d: MsgData, m: ClientMsg): MsgData {
    var d := d.(msgCount := d.msgCount - 1, msgBytes := d.msgBytes - m.store.payloadLen);
    if m.qos > 0 then d.(msgCount12 := d.msgCount12 - 1, msgBytes12 := d.msgBytes12 - m.store.payloadLen) else d
  }

  function ZeroCounters(d: MsgData): MsgData {
    d.(msgCount := 0, msgBytes := 0, msgCount12 := 0, msgBytes12 := 0)
  }

  /** The list part of db__message_remove. */
  function Drop(d: MsgData, i: nat): MsgData
    requires i < |d.inflight|
  {
    Uncounted(d, d.inflight[i]).(inflight := Without(d.inflight, i))
  }

  /** db__message_dequeue_first */
  function DequeueFirst(d: MsgData): MsgData
    requires d.queued != []
  {
    d.(queued := d.queued[1..], inflight := d.inflight + [d.queued[0]], quota := Decremented(d.quota))
  }

  /** The state a message gets when it is due to be published. */
  function PublishState(qos: AnyQos): MsgState {
    if qos == 0 then PublishQos0 else if qos == 1 then PublishQos1 else PublishQos2
  }

  function SetQueuedState(d: MsgData, k: nat, state: MsgState): MsgData
    requires k < |d.queued|
  {
    d.(queued := d.queued[k := d.queued[k].(state := state)])
  }

  function SetInflightState(d: MsgData, k: nat, state: MsgState): MsgData
    requires k < |d.inflight|
  {
    d.(inflight := d.inflight[k := d.inflight[k].(state := state)])
  }

  /** What one round of a promotion loop does: the cursor's message gets the state, the first queued message
      moves. */
  function Promote(d: MsgData, cursor: nat, state: MsgState): (r: MsgData)
    requires cursor < |d.queued|
    ensures |r.queued| == |d.queued| - 1
  {
    DequeueFirst(SetQueuedState(d, cursor, state))
  }

  /** db__ready_for_flight */
  predicate ReadyForFlight(d: MsgData, lim: Limits, qos: AnyQos) {
    var validBytes := d.msgBytes12 < lim.maxInflightBytes;
    var validCount := d.quota > 0;
    if qos == 0 || (d.maximum == 0 && lim.maxInflightBytes == 0) then true
    else if d.maximum == 0 then validBytes
    else if lim.maxInflightBytes == 0 then validCount
    else validBytes && validCount
  }

  /** db__ready_for_queue; the byte difference is taken in unsigned long arithmetic. */
  predicate ReadyForQueue(d: MsgData, connected: bool, lim: Limits, qos: AnyQos) {
    var sourceBytes := if qos == 0 then d.msgBytes else d.msgBytes12;
    var sourceCount := if qos == 0 then d.msgCount else d.msgCount12;
    var adjustBytes := if connected then lim.maxInflightBytes else 0;
    var adjustCount := if connected then d.maximum else 0;
    var validBytes := (sourceBytes - adjustBytes) % 0x1_0000_0000_0000_0000 < lim.maxQueuedBytes;
    var validCount := sourceCount - adjustCount < lim.maxQueued;
    if lim.maxQueued == 0 && lim.maxQueuedBytes == 0 then true
    else if lim.maxQueuedBytes == 0 then validCount
    else if lim.maxQueued == 0 then validBytes
    else validBytes && validCount
  }

  // ---------------------------------------------------------------------------------------------
  // Contexts
  // ---------------------------------------------------------------------------------------------

  function Data(c: Ctx, dir: Direction): MsgData {
    if dir == In then c.msgsIn else c.msgsOut
  }

  function WithData(c: Ctx, dir: Direction, d: MsgData): Ctx {
    if dir == In then c.(msgsIn := d) else c.(msgsOut := d)
  }

  function SentTo(c: Ctx, m: ToClient, net: Net): Ctx {
    if net(m) == Success then c.(wire := c.wire + [m]) else c
  }

  /** db__message_remove */
  function Remove(p: Pair, dir: Direction, i: nat): (r: Pair)
    requires i < |Data(p.c, dir).inflight|
    ensures |Data(r.c, dir).inflight| == |Data(p.c, dir).inflight| - 1
  {
    var d := Data(p.c, dir);
    Pair(RefDec(p.st, d.inflight[i].store), WithData(p.c, dir, Drop(d, i)))
  }

  // db__message_delete_outgoing ----------------------------------------------------------------

  /** First loop: every in-flight message with this identifier goes, unless QoS or state does not fit. */
  function DeleteMatching(p: Pair, i: nat, mid: Word, wanted: MsgState, qos: AnyQos): Result
    decreases |p.c.msgsOut.inflight| - i
  {
    if i >= |p.c.msgsOut.inflight| then Result(p, Success)
    else
      var m := p.c.msgsOut.inflight[i];
      if m.mid != mid then DeleteMatching(p, i + 1, mid, wanted, qos)
      else if m.qos != qos || (qos == 2 && m.state != wanted) then Result(p, Protocol)
      else DeleteMatching(Remove(p, Out, i), i, mid, wanted, qos)
  }

  /** Second loop: promotion until index messages are in flight. */
  function PromoteUpTo(d: MsgData, cursor: nat, index: nat): MsgData
    decreases |d.queued| - cursor
  {
    if cursor >= |d.queued| || (d.maximum != 0 && index >= d.maximum) then d
    else PromoteUpTo(Promote(d, cursor, PublishState(d.queued[cursor].qos)), cursor, index + 1)
  }

  function DeleteOutgoing(p: Pair, mid: Word, wanted: MsgState, qos: AnyQos): Result {
    var r := DeleteMatching(p, 0, mid, wanted, qos);
    if r.rc != Success then r
    else
      var d := r.p.c.msgsOut;
      r.(p := r.p.(c := r.p.c.(msgsOut := PromoteUpTo(d, 0, |d.inflight|))))
  }

  // db__message_insert ---------------------------------------------------------------------------

  /** The state a message is listed with, or the return code with which it is dropped. */
  datatype Verdict = Listed(state: MsgState, rc: nat) | Dropped(rc: nat)

  function InsertVerdict(p: Pair, lim: Limits, dir: Direction, qos: AnyQos, retain: bool, s: Message): Verdict {
    var c, d := p.c, Data(p.c, dir);
    if c.id.None? then Dropped(0)
    else if !c.v5 && !lim.allowDuplicates && dir == Out && !retain && c.id.value in DestIds(p.st, s) then Dropped(0)
    else if !c.connected && qos == 0 && !lim.queueQos0 && !c.lazyBridge then Dropped(2)
    else if c.connected && ReadyForFlight(d, lim, qos) then
      if dir == Out then Listed(PublishState(qos), 0)
      else if qos == 2 then Listed(WaitForPubrel, 0)
      else Dropped(1)
    else if ReadyForQueue(d, c.connected, lim, qos) then Listed(Queued, if c.connected then 2 else 0)
    else Dropped(2)
  }

  function NewClientMsg(c: Ctx, mid: Word, qos: AnyQos, state: MsgState, retain: bool, s: Message): ClientMsg {
    ClientMsg(s, mid, if qos > c.maximumQos then c.maximumQos else qos, state, false, retain)
  }

  /** The counters of db__message_insert go by the QoS asked for, not by the QoS granted. */
  function CountedByAskedQos(d: MsgData, m: ClientMsg, qos: AnyQos): MsgData {
    var d := d.(msgCount := d.msgCount + 1, msgBytes := d.msgBytes + m.store.payloadLen);
    if qos > 0 then d.(msgCount12 := d.msgCount12 + 1, msgBytes12 := d.msgBytes12 + m.store.payloadLen) else d
  }

  function Appended(d: MsgData, m: ClientMsg): MsgData {
    if m.state == Queued then d.(queued := d.queued + [m]) else d.(inflight := d.inflight + [m])
  }

  function Inserted(d: MsgData, dir: Direction, m: ClientMsg, qos: AnyQos): MsgData {
    var d := CountedByAskedQos(Appended(d, m), m, qos);
    if dir == Out && m.qos > 0 then d.(quota := Decremented(d.quota)) else d
  }

  function Insert(p: Pair, lim: Limits, mid: Word, dir: Direction, qos: AnyQos, retain: bool, s: Message): (Pair, nat) {
    match InsertVerdict(p, lim, dir, qos, retain, s)
    case Dropped(rc) => (p, rc)
    case Listed(state, rc) =>
      var m := NewClientMsg(p.c, mid, qos, state, retain, s);
      var c := WithData(p.c, dir, Inserted(Data(p.c, dir), dir, m, qos));
      var st := RefInc(p.st, s);
      (Pair(if !lim.allowDuplicates && dir == Out && !retain then AddDestId(st, s, c.id.value) else st, c), rc)
  }

  // db__message_store_find ------------------------------------------------------------------------

  /** The first message from index i on that the client sent with this identifier */
  function FirstFrom(msgs: seq<ClientMsg>, i: nat, mid: Word): Option<Message>
    decreases |msgs| - i
  {
    if i >= |msgs| then None
    else if msgs[i].store.sourceMid == mid then Some(msgs[i].store)
    else FirstFrom(msgs, i + 1, mid)
  }

  function SourceFind(c: Ctx, mid: Word): Option<Message> {
    var inflight := FirstFrom(c.msgsIn.inflight, 0, mid);
    if inflight.Some? then inflight else FirstFrom(c.msgsIn.queued, 0, mid)
  }

  // db__message_update_outgoing ------------------------------------------------------------------

  function Find(msgs: seq<ClientMsg>, mid: Word): (k: nat)
    ensures k <= |msgs|
    ensures k < |msgs| ==> msgs[k].mid == mid
    ensures forall i :: 0 <= i < k ==> msgs[i].mid != mid
  {
    if msgs == [] || msgs[0].mid == mid then 0 else 1 + Find(msgs[1..], mid)
  }

  function UpdateOutgoing(p: Pair, mid: Word, state: MsgState, qos: AnyQos): Result {
    var d := p.c.msgsOut;
    var k := Find(d.inflight, mid);
    if k == |d.inflight| then Result(p, NotFound)
    else if d.inflight[k].qos != qos then Result(p, Protocol)
    else Result(p.(c := p.c.(msgsOut := SetInflightState(d, k, state))), Success)
  }

  // db__message_reconnect_reset ------------------------------------------------------------------

  function OutResetState(m: ClientMsg): MsgState {
    if m.qos == 2 && m.state == WaitForPubcomp then ResendPubrel else PublishState(m.qos)
  }

  /** Outgoing, in-flight loop. The quota that shrinks here is the receive quota, i.e. that of msgs_in. */
  function ResetOutInflight(c: Ctx, i: nat): Ctx
    decreases |c.msgsOut.inflight| - i
  {
    if i >= |c.msgsOut.inflight| then c
    else
      var m := c.msgsOut.inflight[i];
      var d := SetInflightState(Counted(c.msgsOut, m), i, OutResetState(m));
      var quotaIn := if m.qos > 0 then Decremented(c.msgsIn.quota) else c.msgsIn.quota;
      ResetOutInflight(c.(msgsOut := d, msgsIn := c.msgsIn.(quota := quotaIn)), i + 1)
  }

  /** The queue loop of both directions: whatever is ready for flight is promoted, cursor and head apart. */
  function ResetQueue(d: MsgData, lim: Limits, cursor: nat): MsgData
    decreases |d.queued| - cursor
  {
    if cursor >= |d.queued| then d
    else
      var m := d.queued[cursor];
      var d := Counted(d, m);
      if ReadyForFlight(d, lim, m.qos) then ResetQueue(Promote(d, cursor, PublishState(m.qos)), lim, cursor)
      else ResetQueue(d, lim, cursor + 1)
  }

  function Refilled(d: MsgData): MsgData {
    ZeroCounters(d).(quota := d.maximum)
  }

  function ResetOutgoing(c: Ctx, lim: Limits): Ctx {
    var c := ResetOutInflight(c.(msgsOut := Refilled(c.msgsOut)), 0);
    c.(msgsOut := ResetQueue(c.msgsOut, lim, 0))
  }

  /** Incoming, in-flight loop: only QoS 2 messages stay. */
  function ResetInInflight(p: Pair, i: nat): Pair
    decreases |p.c.msgsIn.inflight| - i
  {
    if i >= |p.c.msgsIn.inflight| then p
    else
      var m := p.c.msgsIn.inflight[i];
      var d := Counted(p.c.msgsIn, m);
      var d := if m.qos > 0 then d.(quota := Decremented(d.quota)) else d;
      var p := p.(c := p.c.(msgsIn := d));
      if m.qos != 2 then ResetInInflight(Remove(p, In, i), i) else ResetInInflight(p, i + 1)
  }

  function ResetIncoming(p: Pair, lim: Limits): Pair {
    var p := ResetInInflight(p.(c := p.c.(msgsIn := Refilled(p.c.msgsIn))), 0);
    p.(c := p.c.(msgsIn := ResetQueue(p.c.msgsIn, lim, 0)))
  }

  function ReconnectReset(p: Pair, lim: Limits): Pair {
    ResetIncoming(p.(c := ResetOutgoing(p.c, lim)), lim)
  }

  // db__message_release_incoming -----------------------------------------------------------------

  /** A run of the first loop, with what was handed to the subscribers; routes says whether
      sub__messages_queue succeeds. */
  datatype ReleaseRun = ReleaseRun(p: Pair, rc: Rc, deleted: bool, index: nat, routed: seq<Message>)

  function ReleaseMatching(r: ReleaseRun, i: nat, mid: Word, routes: bool): ReleaseRun
    decreases |r.p.c.msgsIn.inflight| - i
  {
    if i >= |r.p.c.msgsIn.inflight| then r
    else
      var m := r.p.c.msgsIn.inflight[i];
      var r := r.(index := r.index + 1);
      if m.mid != mid then ReleaseMatching(r, i + 1, mid, routes)
      else if m.store.qos != 2 then r.(rc := Protocol)
      else if !routes then r.(rc := Failed)
      else ReleaseMatching(r.(p := Remove(r.p, In, i), deleted := true, routed := r.routed + [m.store]), i, mid, routes)
  }

  /** Second loop: queued QoS 2 messages move up and are acknowledged. */
  function ReleaseQueued(c: Ctx, cursor: nat, index: nat, net: Net): Ctx
    decreases |c.msgsIn.queued| - cursor
  {
    if cursor >= |c.msgsIn.queued| || (c.msgsIn.maximum != 0 && index >= c.msgsIn.maximum) then c
    else
      var m := c.msgsIn.queued[cursor];
      if m.qos != 2 then ReleaseQueued(c, cursor + 1, index + 1, net)
      else
        var c := SentTo(c, Pubrec(m.mid), net);
        ReleaseQueued(c.(msgsIn := Promote(c.msgsIn, cursor, WaitForPubrel)), cursor, index + 1, net)
  }

  function ReleaseIncoming(p: Pair, mid: Word, routes: bool, net: Net): ReleaseRun {
    var r := ReleaseMatching(ReleaseRun(p, Success, false, 0, []), 0, mid, routes);
    if r.rc != Success then r
    else
      r.(p := r.p.(c := ReleaseQueued(r.p.c, 0, r.index, net)), rc := if r.deleted then Success else Failed)
  }

  // db__message_write ----------------------------------------------------------------------------

  type Expiry = Message -> bool

  /** send__pubcomp also gives receive quota back. */
  function PubcompSent(c: Ctx, mid: Word, net: Net): Ctx {
    var d := c.msgsIn;
    SentTo(c.(msgsIn := d.(quota := Incremented(d.quota, d.maximum))), Pubcomp(mid), net)
  }

  /** First loop: incoming in-flight messages. */
  function WriteIn(p: Pair, i: nat, expired: Expiry, net: Net): Result
    decreases |p.c.msgsIn.inflight| - i
  {
    if i >= |p.c.msgsIn.inflight| then Result(p, Success)
    else
      var m := p.c.msgsIn.inflight[i];
      if expired(m.store) then WriteIn(Remove(p, In, i), i, expired, net)
      else if m.state == SendPubrec || m.state == ResendPubcomp then
        var reply := if m.state == SendPubrec then Pubrec(m.mid) else Pubcomp(m.mid);
        var c := if m.state == SendPubrec then SentTo(p.c, reply, net) else PubcompSent(p.c, m.mid, net);
        if net(reply) != Success then Result(p.(c := c), net(reply))
        else WriteIn(p.(c := c.(msgsIn := SetInflightState(c.msgsIn, i, WaitForPubrel))), i + 1, expired, net)
      else WriteIn(p, i + 1, expired, net)
  }

  /** The state after a successful PUBLISH or PUBREL. */
  function AfterSend(m: ClientMsg): ClientMsg {
    match m.state
    case PublishQos1 => m.(state := WaitForPuback, dup := true)
    case PublishQos2 => m.(state := WaitForPubrec, dup := true)
    case ResendPubrel => m.(state := WaitForPubcomp)
    case _ => m
  }

  function DueOut(m: ClientMsg): Option<ToClient> {
    match m.state
    case PublishQos0 | PublishQos1 | PublishQos2 => Some(Publish(m.mid, m.qos, m.store, m.dup))
    case ResendPubrel => Some(Pubrel(m.mid))
    case _ => None
  }

  /** Second loop: outgoing in-flight messages. */
  function WriteOut(p: Pair, i: nat, expired: Expiry, net: Net): Result
    decreases |p.c.msgsOut.inflight| - i
  {
    if i >= |p.c.msgsOut.inflight| then Result(p, Success)
    else
      var m := p.c.msgsOut.inflight[i];
      var due := DueOut(m);
      if expired(m.store) then WriteOut(Remove(p, Out, i), i, expired, net)
      else if due.None? then WriteOut(p, i + 1, expired, net)
      else
        var rc := net(due.value);
        var p := p.(c := SentTo(p.c, due.value, net));
        if rc == Success && m.state != PublishQos0 then
          var d := p.c.msgsOut;
          WriteOut(p.(c := p.c.(msgsOut := d.(inflight := d.inflight[i := AfterSend(m)]))), i + 1, expired, net)
        else if rc == Success || (rc == OversizePacket && m.state != ResendPubrel) then
          WriteOut(Remove(p, Out, i), i, expired, net)
        else Result(p, rc)
  }

  /** Third loop: queued incoming messages. The state set last is that of the cursor's message, which by then is
      the last one in flight if it was the first one queued. */
  function WriteInQueued(c: Ctx, cursor: nat, net: Net): (Ctx, Rc)
    decreases |c.msgsIn.queued| - cursor
  {
    if cursor >= |c.msgsIn.queued| || (c.msgsOut.maximum != 0 && c.msgsIn.quota == 0) then (c, Success)
    else
      var m := c.msgsIn.queued[cursor];
      if m.qos != 2 then WriteInQueued(c, cursor + 1, net)
      else
        var c := SentTo(c.(msgsIn := Promote(c.msgsIn, cursor, SendPubrec)), Pubrec(m.mid), net);
        if net(Pubrec(m.mid)) != Success then (c, net(Pubrec(m.mid)))
        else
          var d := c.msgsIn;
          var d := if cursor == 0 then SetInflightState(d, |d.inflight| - 1, WaitForPubrel)
                   else SetQueuedState(d, cursor - 1, WaitForPubrel);
          WriteInQueued(c.(msgsIn := d), cursor, net)
  }

  /** Fourth loop: queued outgoing messages. */
  function WriteOutQueued(d: MsgData, cursor: nat): MsgData
    decreases |d.queued| - cursor
  {
    if cursor >= |d.queued| || (d.maximum != 0 && d.quota == 0) then d
    else WriteOutQueued(Promote(d, cursor, PublishState(d.queued[cursor].qos)), cursor)
  }

  /** db__message_write for a client that is fully connected */
  function Write(p: Pair, expired: Expiry, net: Net): Result {
    var r := WriteIn(p, 0, expired, net);
    if r.rc != Success then r
    else
      var r := WriteOut(r.p, 0, expired, net);
      if r.rc != Success then r
      else
        var (c, rc) := WriteInQueued(r.p.c, 0, net);
        if rc != Success then Result(r.p.(c := c), rc)
        else Result(r.p.(c := c.(msgsOut := WriteOutQueued(c.msgsOut, 0))), Success)
  }

  // The handlers of PUBACK, PUBREC and PUBCOMP -----------------------------------------------------

  function QuotaGiven(d: MsgData): MsgData {
    d.(quota := Incremented(d.quota, d.maximum))
  }

  function QuotaTaken(d: MsgData): MsgData {
    d.(quota := Decremented(d.quota))
  }

  /** handle__pubackcomp in the broker: the send quota grows, then the message goes. */
  function OnAck(p: Pair, mid: Word, qos: AnyQos): Result {
    var d := p.c.msgsOut;
    var grown := p.(c := p.c.(msgsOut := QuotaGiven(d)));
    DeleteOutgoing(grown, mid, WaitForPubcomp, qos)
  }

  /** PUBREC with a reason code of 0x80 or above: the message goes and no quota comes back. */
  function OnPubrecError(p: Pair, mid: Word): Result {
    DeleteOutgoing(p, mid, WaitForPubrec, 2)
  }

  /** handle__pubrec of the broker, with a reason code below 0x80 */
  function OnPubrec(p: Pair, mid: Word, net: Net): Pair {
    var r := UpdateOutgoing(p, mid, WaitForPubcomp, 2);
    if r.rc == Protocol then r.p else r.p.(c := SentTo(r.p.c, Pubrel(mid), net))
  }

  // db__messages_delete and connection_check_acl ------------------------------------------------

  /** The references a whole list gives back. */
  function RefDecAll(st: Store, msgs: seq<ClientMsg>): Store
    decreases |msgs|
  {
    if msgs == [] then st else RefDecAll(RefDec(st, msgs[0].store), msgs[1..])
  }

  function Emptied(d: MsgData): MsgData {
    ZeroCounters(d).(inflight := [], queued := [])
  }

  function DeleteAll(p: Pair): Pair {
    var i, o := p.c.msgsIn, p.c.msgsOut;
    var st := RefDecAll(RefDecAll(RefDecAll(RefDecAll(p.st, i.inflight), i.queued), o.inflight), o.queued);
    Pair(st, p.c.(msgsIn := Emptied(i), msgsOut := Emptied(o)))
  }

  /** One list of connection_check_acl: denied messages go, the counters stay. */
  datatype Purge = Purge(st: Store, msgs: seq<ClientMsg>)

  function PurgeList(u: Purge, i: nat, denied: Expiry): Purge
    decreases |u.msgs| - i
  {
    if i >= |u.msgs| then u
    else if denied(u.msgs[i].store) then
      PurgeList(Purge(RefDec(u.st, u.msgs[i].store), Without(u.msgs, i)), i, denied)
    else PurgeList(u, i + 1, denied)
  }

  /** Only outgoing messages are checked. */
  function AclPurge(p: Pair, denied: Expiry): Pair {
    var a := PurgeList(Purge(p.st, p.c.msgsOut.inflight), 0, denied);
    var b := PurgeList(Purge(a.st, p.c.msgsOut.queued), 0, denied);
    Pair(b.st, p.c.(msgsOut := p.c.msgsOut.(inflight := a.msgs, queued := b.msgs)))
  }

  // Session takeover in connect__on_authorised ----------------------------------------------------

  function NoMessages(maximum: Word): MsgData {
    MsgData([], [], 0, 0, 0, 0, maximum, maximum)
  }

  /** A new connection. The incoming maximum is the configured one; CONNECT may set the outgoing one. */
  function NewCtx(id: Option<string>, v5: bool, maximumQos: AnyQos, lazyBridge: bool,
                  maximumIn: Word, maximumOut: Word): Ctx {
    Ctx(id, true, v5, maximumQos, lazyBridge, NoMessages(maximumIn), NoMessages(maximumOut), [])
  }

  predicate HasMessages(c: Ctx) {
    c.msgsIn.inflight != [] || c.msgsIn.queued != [] || c.msgsOut.inflight != [] || c.msgsOut.queued != []
  }

  /** The new context takes the lists of the one it replaces, if there are any messages. */
  function Takeover(st: Store, found: Ctx, c: Ctx, lim: Limits): (Store, Ctx, Ctx) {
    if !HasMessages(found) then (st, found, c)
    else
      var p := ReconnectReset(Pair(st, c.(msgsIn := found.msgsIn, msgsOut := found.msgsOut)), lim);
      (p.st, found.(msgsIn := NoMessages(0), msgsOut := NoMessages(0)), p.c)
  }
}
