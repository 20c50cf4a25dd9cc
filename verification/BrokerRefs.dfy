/** Conservation of references: every operation of src/database.c keeps the reference count of every stored
    message equal to the number of its holders, and the store's own counters right. */
module BrokerRefs {
  import opened MosqTypes
  import opened BrokerDb

  /** The messages a client list refers to. */
  function Ids(msgs: seq<ClientMsg>): multiset<Message> {
    if msgs == [] then multiset{} else multiset{msgs[0].store} + Ids(msgs[1..])
  }

  function DataIds(d: MsgData): multiset<Message> {
    Ids(d.inflight) + Ids(d.queued)
  }

  /** The references held by one client's four lists. */
  function Refs(c: Ctx): multiset<Message> {
    DataIds(c.msgsIn) + DataIds(c.msgsOut)
  }

  function TotalLen(order: seq<Message>): nat {
    if order == [] then 0 else order[0].payloadLen + TotalLen(order[1..])
  }

  ghost predicate Distinct<T>(s: seq<T>) {
    forall i, j :: 0 <= i < j < |s| ==> s[i] != s[j]
  }

  /** The list is well formed: no message twice, exactly the stored ones, and the counters are its length and its
      payload sum. */
  ghost predicate ListOk(st: Store) {
    && Distinct(st.order)
    && (forall s :: s in st.order <==> s in st.entries)
    && st.count == |st.order|
    && st.bytes == TotalLen(st.order)
    && (forall s :: s in st.entries ==> s.dbId <= st.lastId)
  }

  /** Every reference count is the number of holders, and whatever is held is stored. */
  ghost predicate Balanced(st: Store, refs: multiset<Message>) {
    && (forall s :: s in refs ==> s in st.entries)
    && (forall s :: s in st.entries ==> st.entries[s].refCount == refs[s])
  }

  ghost predicate Good(st: Store, refs: multiset<Message>) {
    ListOk(st) && Balanced(st, refs)
  }

  // ---------------------------------------------------------------------------------------------
  // Lists
  // ---------------------------------------------------------------------------------------------

  lemma {:induction false} IdsAppend(a: seq<ClientMsg>, b: seq<ClientMsg>)
    ensures Ids(a + b) == Ids(a) + Ids(b)
  {
    if a == [] {
      assert a + b == b;
    } else {
      assert (a + b)[1..] == a[1..] + b;
      IdsAppend(a[1..], b);
    }
  }

  lemma IdsSplit(a: seq<ClientMsg>, i: nat)
    requires i < |a|
    ensures Ids(a) == Ids(a[..i]) + multiset{a[i].store} + Ids(a[i + 1..])
  {
    assert a == a[..i] + a[i..];
    IdsAppend(a[..i], a[i..]);
    assert a[i..][1..] == a[i + 1..];
  }

  lemma IdsWithout(a: seq<ClientMsg>, i: nat)
    requires i < |a|
    ensures Ids(a) == Ids(Without(a, i)) + multiset{a[i].store}
  {
    IdsSplit(a, i);
    IdsAppend(a[..i], a[i + 1..]);
  }

  lemma IdsUpdate(a: seq<ClientMsg>, i: nat, m: ClientMsg)
    requires i < |a| && m.store == a[i].store
    ensures Ids(a[i := m]) == Ids(a)
  {
    IdsSplit(a, i);
    var b := a[i := m];
    IdsSplit(b, i);
    assert b[..i] == a[..i] && b[i + 1..] == a[i + 1..];
  }

  lemma IdsSnoc(a: seq<ClientMsg>, m: ClientMsg)
    ensures Ids(a + [m]) == Ids(a) + multiset{m.store}
  {
    IdsAppend(a, [m]);
    assert [m][1..] == [];
  }

  lemma PromoteKeepsIds(d: MsgData, cursor: nat, state: MsgState)
    requires cursor < |d.queued|
    ensures DataIds(Promote(d, cursor, state)) == DataIds(d)
  {
    var e := SetQueuedState(d, cursor, state);
    IdsUpdate(d.queued, cursor, e.queued[cursor]);
    IdsSnoc(e.inflight, e.queued[0]);
  }

  // ---------------------------------------------------------------------------------------------
  // The store
  // ---------------------------------------------------------------------------------------------

  lemma {:induction false} UnlinkedOk(order: seq<Message>, s: Message)
    requires Distinct(order) && s in order
    ensures Distinct(Unlinked(order, s))
    ensures forall x :: x in Unlinked(order, s) <==> x in order && x != s
    ensures |Unlinked(order, s)| == |order| - 1
    ensures TotalLen(Unlinked(order, s)) == TotalLen(order) - s.payloadLen
  {
    if order[0] == s {
      assert order == [s] + order[1..];
    } else {
      var rest := order[1..];
      assert order == [order[0]] + rest;
      UnlinkedOk(rest, s);
      var u := Unlinked(rest, s);
      assert order[0] !in u;
      assert Unlinked(order, s)[1..] == u;
    }
  }

  lemma RefIncGood(st: Store, s: Message, refs: multiset<Message>)
    requires Good(st, refs) && s in st.entries
    ensures Good(RefInc(st, s), refs + multiset{s})
  {
  }

  lemma RefDecGood(st: Store, s: Message, refs: multiset<Message>)
    requires Good(st, refs + multiset{s})
    ensures Good(RefDec(st, s), refs)
  {
    assert s in refs + multiset{s};
    if st.entries[s].refCount == 1 {
      UnlinkedOk(st.order, s);
      RefDecBalanced(st, s, refs);
    } else {
      RefDecBalanced(st, s, refs);
    }
  }

  lemma RefDecBalanced(st: Store, s: Message, refs: multiset<Message>)
    requires Balanced(st, refs + multiset{s}) && s in st.entries
    ensures Balanced(RefDec(st, s), refs)
  {
    assert forall x :: (refs + multiset{s})[x] == refs[x] + if x == s then 1 else 0;
  }

  lemma AddDestIdGood(st: Store, s: Message, id: string, refs: multiset<Message>)
    requires Good(st, refs)
    ensures Good(AddDestId(st, s, id), refs)
  {
  }

  lemma StoreAddGood(st: Store, payloadLen: nat, qos: AnyQos, sourceMid: Word, content: nat, refs: multiset<Message>)
    requires Good(st, refs)
    ensures var s := NewMessage(st, payloadLen, qos, sourceMid, content);
      s !in st.entries && Good(StoreAdd(st, s), refs)
  {
    var s := NewMessage(st, payloadLen, qos, sourceMid, content);
    assert s !in st.order;
    assert ([s] + st.order)[1..] == st.order;
  }

  // ---------------------------------------------------------------------------------------------
  // The operations on one client; rest is what everyone else holds
  // ---------------------------------------------------------------------------------------------

  ghost predicate KeepsRefs(p: Pair, r: Pair) {
    forall rest :: Good(p.st, rest + Refs(p.c)) ==> Good(r.st, rest + Refs(r.c))
  }

  /** Nothing is stored anew and no list of destinations changes. */
  ghost predicate Shrinks(a: Store, b: Store) {
    && a.lastId == b.lastId
    && (forall s :: s in b.entries ==> s in a.entries && b.entries[s].destIds == a.entries[s].destIds)
  }

  ghost predicate Keeps(p: Pair, r: Pair) {
    KeepsRefs(p, r) && Shrinks(p.st, r.st)
  }

  lemma KeepsTrans(p: Pair, q: Pair, r: Pair)
    requires Keeps(p, q) && Keeps(q, r)
    ensures Keeps(p, r)
  {
  }

  /** An operation that leaves the store and the set of references alone. */
  lemma SameRefs(p: Pair, r: Pair)
    requires p.st == r.st && Refs(p.c) == Refs(r.c)
    ensures Keeps(p, r)
  {
  }

  lemma RemoveKeeps(p: Pair, dir: Direction, i: nat)
    requires i < |Data(p.c, dir).inflight|
    ensures Keeps(p, Remove(p, dir, i))
  {
    hide Good, Ids;
    var d, r := Data(p.c, dir), Remove(p, dir, i);
    var s := d.inflight[i].store;
    assert Shrinks(p.st, RefDec(p.st, s));
    IdsWithout(d.inflight, i);
    assert Refs(p.c) == Refs(r.c) + multiset{s};
    forall rest | Good(p.st, rest + Refs(p.c))
      ensures Good(r.st, rest + Refs(r.c))
    {
      assert rest + Refs(p.c) == rest + Refs(r.c) + multiset{s};
      RefDecGood(p.st, s, rest + Refs(r.c));
    }
  }

  lemma {:induction false} DeleteMatchingKeeps(p: Pair, i: nat, mid: Word, wanted: MsgState, qos: AnyQos)
    ensures Keeps(p, DeleteMatching(p, i, mid, wanted, qos).p)
    decreases |p.c.msgsOut.inflight| - i
  {
    if i < |p.c.msgsOut.inflight| {
      var m := p.c.msgsOut.inflight[i];
      if m.mid != mid {
        DeleteMatchingKeeps(p, i + 1, mid, wanted, qos);
      } else if !(m.qos != qos || (qos == 2 && m.state != wanted)) {
        RemoveKeeps(p, Out, i);
        DeleteMatchingKeeps(Remove(p, Out, i), i, mid, wanted, qos);
      }
    }
  }

  lemma {:induction false} PromoteUpToKeepsIds(d: MsgData, cursor: nat, index: nat)
    ensures DataIds(PromoteUpTo(d, cursor, index)) == DataIds(d)
    decreases |d.queued| - cursor
  {
    if cursor < |d.queued| && !(d.maximum != 0 && index >= d.maximum) {
      var state := PublishState(d.queued[cursor].qos);
      PromoteKeepsIds(d, cursor, state);
      PromoteUpToKeepsIds(Promote(d, cursor, state), cursor, index + 1);
    }
  }

  lemma DeleteOutgoingKeeps(p: Pair, mid: Word, wanted: MsgState, qos: AnyQos)
    ensures Keeps(p, DeleteOutgoing(p, mid, wanted, qos).p)
  {
    DeleteMatchingKeeps(p, 0, mid, wanted, qos);
    var q := DeleteMatching(p, 0, mid, wanted, qos).p;
    PromoteUpToKeepsIds(q.c.msgsOut, 0, |q.c.msgsOut.inflight|);
  }

  lemma UpdateOutgoingKeeps(p: Pair, mid: Word, state: MsgState, qos: AnyQos)
    ensures Keeps(p, UpdateOutgoing(p, mid, state, qos).p)
  {
    hide Ids, Good;
    var d := p.c.msgsOut;
    var k := Find(d.inflight, mid);
    if k < |d.inflight| {
      IdsUpdate(d.inflight, k, d.inflight[k].(state := state));
    }
  }

  lemma {:induction false} ResetOutInflightKeepsRefs(c: Ctx, i: nat)
    ensures Refs(ResetOutInflight(c, i)) == Refs(c)
    decreases |c.msgsOut.inflight| - i
  {
    if i < |c.msgsOut.inflight| {
      var m := c.msgsOut.inflight[i];
      IdsUpdate(c.msgsOut.inflight, i, m.(state := OutResetState(m)));
      var d := SetInflightState(Counted(c.msgsOut, m), i, OutResetState(m));
      var quotaIn := if m.qos > 0 then Decremented(c.msgsIn.quota) else c.msgsIn.quota;
      var c' := c.(msgsOut := d, msgsIn := c.msgsIn.(quota := quotaIn));
      assert Refs(c') == Refs(c);
      ResetOutInflightKeepsRefs(c', i + 1);
    }
  }

  lemma {:induction false} ResetQueueKeepsIds(d: MsgData, lim: Limits, cursor: nat)
    ensures DataIds(ResetQueue(d, lim, cursor)) == DataIds(d)
    decreases |d.queued| - cursor
  {
    if cursor < |d.queued| {
      var m := d.queued[cursor];
      var e := Counted(d, m);
      if ReadyForFlight(e, lim, m.qos) {
        PromoteKeepsIds(e, cursor, PublishState(m.qos));
        ResetQueueKeepsIds(Promote(e, cursor, PublishState(m.qos)), lim, cursor);
      } else {
        ResetQueueKeepsIds(e, lim, cursor + 1);
      }
    }
  }

  /** The counting of one incoming message */
  function CountedIn(p: Pair, i: nat): Pair
    requires i < |p.c.msgsIn.inflight|
  {
    var m := p.c.msgsIn.inflight[i];
    var d := Counted(p.c.msgsIn, m);
    p.(c := p.c.(msgsIn := if m.qos > 0 then d.(quota := Decremented(d.quota)) else d))
  }

  lemma CountedInKeeps(p: Pair, i: nat)
    requires i < |p.c.msgsIn.inflight|
    ensures Keeps(p, CountedIn(p, i)) && CountedIn(p, i).c.msgsIn.inflight == p.c.msgsIn.inflight
  {
    hide Good;
    assert Refs(CountedIn(p, i).c) == Refs(p.c);
  }

  lemma {:induction false} ResetInInflightKeeps(p: Pair, i: nat)
    ensures Keeps(p, ResetInInflight(p, i))
    decreases |p.c.msgsIn.inflight| - i
  {
    hide Keeps;
    if i < |p.c.msgsIn.inflight| {
      var q := CountedIn(p, i);
      CountedInKeeps(p, i);
      if p.c.msgsIn.inflight[i].qos != 2 {
        RemoveKeeps(q, In, i);
        ResetInInflightKeeps(Remove(q, In, i), i);
        KeepsTrans(p, q, Remove(q, In, i));
        KeepsTrans(p, Remove(q, In, i), ResetInInflight(p, i));
      } else {
        ResetInInflightKeeps(q, i + 1);
        KeepsTrans(p, q, ResetInInflight(p, i));
      }
    } else {
      KeepsSelf(p);
    }
  }

  lemma KeepsSelf(p: Pair)
    ensures Keeps(p, p)
  {
  }

  lemma ReconnectResetKeeps(p: Pair, lim: Limits)
    ensures Keeps(p, ReconnectReset(p, lim))
  {
    var a := p.c.(msgsOut := Refilled(p.c.msgsOut));
    assert Refs(a) == Refs(p.c);
    ResetOutInflightKeepsRefs(a, 0);
    ResetQueueKeepsIds(ResetOutInflight(a, 0).msgsOut, lim, 0);
    var q := p.(c := ResetOutgoing(p.c, lim));
    assert Refs(q.c) == Refs(p.c);
    var b := q.(c := q.c.(msgsIn := Refilled(q.c.msgsIn)));
    assert Refs(b.c) == Refs(q.c);
    ResetInInflightKeeps(b, 0);
    ResetQueueKeepsIds(ResetInInflight(b, 0).c.msgsIn, lim, 0);
    assert Keeps(ResetInInflight(b, 0), ReconnectReset(p, lim));
  }

  lemma {:induction false} ReleaseMatchingKeeps(r: ReleaseRun, i: nat, mid: Word, routes: bool)
    ensures Keeps(r.p, ReleaseMatching(r, i, mid, routes).p)
    decreases |r.p.c.msgsIn.inflight| - i
  {
    hide Keeps;
    if i < |r.p.c.msgsIn.inflight| {
      var m := r.p.c.msgsIn.inflight[i];
      var r1 := r.(index := r.index + 1);
      if m.mid != mid {
        ReleaseMatchingKeeps(r1, i + 1, mid, routes);
      } else if m.store.qos == 2 && routes {
        var r2 := r1.(p := Remove(r1.p, In, i), deleted := true, routed := r1.routed + [m.store]);
        RemoveKeeps(r.p, In, i);
        ReleaseMatchingKeeps(r2, i, mid, routes);
        KeepsTrans(r.p, r2.p, ReleaseMatching(r2, i, mid, routes).p);
      } else {
        SameRefs(r.p, ReleaseMatching(r, i, mid, routes).p);
      }
    } else {
      SameRefs(r.p, r.p);
    }
  }

  lemma {:induction false} ReleaseQueuedKeepsRefs(c: Ctx, cursor: nat, index: nat, net: Net)
    ensures Refs(ReleaseQueued(c, cursor, index, net)) == Refs(c)
    decreases |c.msgsIn.queued| - cursor
  {
    hide Ids, DataIds;
    if cursor < |c.msgsIn.queued| && !(c.msgsIn.maximum != 0 && index >= c.msgsIn.maximum) {
      var m := c.msgsIn.queued[cursor];
      if m.qos != 2 {
        ReleaseQueuedKeepsRefs(c, cursor + 1, index + 1, net);
      } else {
        var c1 := SentTo(c, Pubrec(m.mid), net);
        PromoteKeepsIds(c1.msgsIn, cursor, WaitForPubrel);
        ReleaseQueuedKeepsRefs(c1.(msgsIn := Promote(c1.msgsIn, cursor, WaitForPubrel)), cursor, index + 1, net);
      }
    }
  }

  lemma ReleaseIncomingKeeps(p: Pair, mid: Word, routes: bool, net: Net)
    ensures Keeps(p, ReleaseIncoming(p, mid, routes, net).p)
  {
    var r0 := ReleaseRun(p, Success, false, 0, []);
    ReleaseMatchingKeeps(r0, 0, mid, routes);
    var r := ReleaseMatching(r0, 0, mid, routes);
    ReleaseQueuedKeepsRefs(r.p.c, 0, r.index, net);
  }

  /** A reply and a new state for one incoming message leave all references as they are. */
  lemma StateKeepsRefs(c: Ctx, r: Ctx, i: nat, state: MsgState)
    requires r.msgsIn.inflight == c.msgsIn.inflight && r.msgsIn.queued == c.msgsIn.queued && r.msgsOut == c.msgsOut
    requires i < |c.msgsIn.inflight|
    ensures Refs(r) == Refs(c)
    ensures Refs(r.(msgsIn := SetInflightState(r.msgsIn, i, state))) == Refs(c)
  {
    hide Ids;
    IdsUpdate(c.msgsIn.inflight, i, c.msgsIn.inflight[i].(state := state));
  }

  lemma {:induction false} WriteInKeeps(p: Pair, i: nat, expired: Expiry, net: Net)
    ensures Keeps(p, WriteIn(p, i, expired, net).p)
    decreases |p.c.msgsIn.inflight| - i
  {
    hide Refs, KeepsRefs, Shrinks;
    if i < |p.c.msgsIn.inflight| {
      var m := p.c.msgsIn.inflight[i];
      if expired(m.store) {
        RemoveKeeps(p, In, i);
        WriteInKeeps(Remove(p, In, i), i, expired, net);
        KeepsTrans(p, Remove(p, In, i), WriteIn(p, i, expired, net).p);
      } else if m.state == SendPubrec || m.state == ResendPubcomp {
        var c := if m.state == SendPubrec then SentTo(p.c, Pubrec(m.mid), net) else PubcompSent(p.c, m.mid, net);
        var q := p.(c := c.(msgsIn := SetInflightState(c.msgsIn, i, WaitForPubrel)));
        StateKeepsRefs(p.c, c, i, WaitForPubrel);
        SameRefs(p, q);
        SameRefs(p, p.(c := c));
        WriteInKeeps(q, i + 1, expired, net);
        KeepsTrans(p, q, WriteIn(q, i + 1, expired, net).p);
      } else {
        WriteInKeeps(p, i + 1, expired, net);
      }
    } else {
      SameRefs(p, p);
    }
  }

  lemma {:induction false} WriteOutKeeps(p: Pair, i: nat, expired: Expiry, net: Net)
    ensures Keeps(p, WriteOut(p, i, expired, net).p)
    decreases |p.c.msgsOut.inflight| - i
  {
    hide Ids, Good, KeepsRefs, Shrinks, DueOut, AfterSend, Remove;
    SameRefs(p, p);
    if i < |p.c.msgsOut.inflight| {
      var m := p.c.msgsOut.inflight[i];
      var due := DueOut(m);
      if expired(m.store) {
        RemoveKeeps(p, Out, i);
        WriteOutKeeps(Remove(p, Out, i), i, expired, net);
        KeepsTrans(p, Remove(p, Out, i), WriteOut(p, i, expired, net).p);
      } else if due.None? {
        WriteOutKeeps(p, i + 1, expired, net);
      } else {
        var q := p.(c := SentTo(p.c, due.value, net));
        SameRefs(p, q);
        var d := q.c.msgsOut;
        SameStore(m);
        IdsUpdate(d.inflight, i, AfterSend(m));
        var q' := q.(c := q.c.(msgsOut := d.(inflight := d.inflight[i := AfterSend(m)])));
        SameRefs(p, q');
        WriteOutKeeps(q', i + 1, expired, net);
        KeepsTrans(p, q', WriteOut(q', i + 1, expired, net).p);
        RemoveKeeps(q, Out, i);
        WriteOutKeeps(Remove(q, Out, i), i, expired, net);
        KeepsTrans(p, q, Remove(q, Out, i));
        KeepsTrans(p, Remove(q, Out, i), WriteOut(Remove(q, Out, i), i, expired, net).p);
      }
    }
  }

  lemma SameStore(m: ClientMsg)
    ensures AfterSend(m).store == m.store
  {
  }

  lemma {:induction false} WriteInQueuedKeepsRefs(c: Ctx, cursor: nat, net: Net)
    ensures Refs(WriteInQueued(c, cursor, net).0) == Refs(c)
    decreases |c.msgsIn.queued| - cursor
  {
    hide Ids, Good;
    if cursor < |c.msgsIn.queued| && !(c.msgsOut.maximum != 0 && c.msgsIn.quota == 0) {
      var m := c.msgsIn.queued[cursor];
      if m.qos != 2 {
        WriteInQueuedKeepsRefs(c, cursor + 1, net);
      } else {
        PromoteKeepsIds(c.msgsIn, cursor, SendPubrec);
        var c1 := SentTo(c.(msgsIn := Promote(c.msgsIn, cursor, SendPubrec)), Pubrec(m.mid), net);
        assert Refs(c1) == Refs(c);
        var d := c1.msgsIn;
        var last := |d.inflight| - 1;
        IdsUpdate(d.inflight, last, d.inflight[last].(state := WaitForPubrel));
        if cursor > 0 {
          IdsUpdate(d.queued, cursor - 1, d.queued[cursor - 1].(state := WaitForPubrel));
        }
        var d' := if cursor == 0 then SetInflightState(d, last, WaitForPubrel)
                  else SetQueuedState(d, cursor - 1, WaitForPubrel);
        assert DataIds(d') == DataIds(d);
        WriteInQueuedKeepsRefs(c1.(msgsIn := d'), cursor, net);
      }
    }
  }

  lemma {:induction false} WriteOutQueuedKeepsIds(d: MsgData, cursor: nat)
    ensures DataIds(WriteOutQueued(d, cursor)) == DataIds(d)
    decreases |d.queued| - cursor
  {
    if cursor < |d.queued| && !(d.maximum != 0 && d.quota == 0) {
      var state := PublishState(d.queued[cursor].qos);
      PromoteKeepsIds(d, cursor, state);
      WriteOutQueuedKeepsIds(Promote(d, cursor, state), cursor);
    }
  }

  lemma WriteKeeps(p: Pair, expired: Expiry, net: Net)
    ensures Keeps(p, Write(p, expired, net).p)
  {
    var a := WriteIn(p, 0, expired, net);
    WriteInKeeps(p, 0, expired, net);
    if a.rc == Success {
      var b := WriteOut(a.p, 0, expired, net);
      WriteOutKeeps(a.p, 0, expired, net);
      KeepsTrans(p, a.p, b.p);
      if b.rc == Success {
        var (c, rc) := WriteInQueued(b.p.c, 0, net);
        WriteInQueuedKeepsRefs(b.p.c, 0, net);
        WriteOutQueuedKeepsIds(c.msgsOut, 0);
      }
    }
  }

  lemma InsertedIds(d: MsgData, dir: Direction, m: ClientMsg, qos: AnyQos)
    ensures DataIds(Inserted(d, dir, m, qos)) == DataIds(d) + multiset{m.store}
  {
    hide Ids;
    if m.state == Queued {
      IdsSnoc(d.queued, m);
    } else {
      IdsSnoc(d.inflight, m);
    }
  }

  lemma InsertedRefs(c: Ctx, dir: Direction, m: ClientMsg, qos: AnyQos)
    ensures Refs(WithData(c, dir, Inserted(Data(c, dir), dir, m, qos))) == Refs(c) + multiset{m.store}
  {
    hide DataIds, Inserted;
    InsertedIds(Data(c, dir), dir, m, qos);
  }

  lemma InsertKeeps(p: Pair, lim: Limits, mid: Word, dir: Direction, qos: AnyQos, retain: bool, s: Message)
    requires s in p.st.entries
    ensures KeepsRefs(p, Insert(p, lim, mid, dir, qos, retain, s).0)
  {
    hide Ids, Good;
    var v, r := InsertVerdict(p, lim, dir, qos, retain, s), Insert(p, lim, mid, dir, qos, retain, s).0;
    if v.Listed? {
      InsertedRefs(p.c, dir, NewClientMsg(p.c, mid, qos, v.state, retain, s), qos);
      forall rest | Good(p.st, rest + Refs(p.c))
        ensures Good(r.st, rest + Refs(r.c))
      {
        RefIncGood(p.st, s, rest + Refs(p.c));
        assert rest + Refs(r.c) == rest + Refs(p.c) + multiset{s};
        AddDestIdGood(RefInc(p.st, s), s, p.c.id.value, rest + Refs(r.c));
      }
    }
  }

  lemma {:induction false} RefDecAllShrinks(st: Store, msgs: seq<ClientMsg>)
    ensures Shrinks(st, RefDecAll(st, msgs))
    decreases |msgs|
  {
    if msgs != [] {
      RefDecAllShrinks(RefDec(st, msgs[0].store), msgs[1..]);
    }
  }

  lemma {:induction false} PurgeListShrinks(u: Purge, i: nat, denied: Expiry)
    ensures Shrinks(u.st, PurgeList(u, i, denied).st)
    decreases |u.msgs| - i
  {
    if i < |u.msgs| {
      if denied(u.msgs[i].store) {
        PurgeListShrinks(Purge(RefDec(u.st, u.msgs[i].store), Without(u.msgs, i)), i, denied);
      } else {
        PurgeListShrinks(u, i + 1, denied);
      }
    }
  }

  lemma {:induction false} RefDecAllGood(st: Store, msgs: seq<ClientMsg>, rest: multiset<Message>)
    requires Good(st, rest + Ids(msgs))
    ensures Good(RefDecAll(st, msgs), rest)
    decreases |msgs|
  {
    if msgs == [] {
      assert rest + Ids(msgs) == rest;
    } else {
      assert rest + Ids(msgs) == rest + Ids(msgs[1..]) + multiset{msgs[0].store};
      RefDecGood(st, msgs[0].store, rest + Ids(msgs[1..]));
      RefDecAllGood(RefDec(st, msgs[0].store), msgs[1..], rest);
    }
  }

  lemma DeleteAllKeeps(p: Pair)
    ensures Keeps(p, DeleteAll(p))
  {
    var i, o, r := p.c.msgsIn, p.c.msgsOut, DeleteAll(p);
    RefDecAllShrinks(p.st, i.inflight);
    RefDecAllShrinks(RefDecAll(p.st, i.inflight), i.queued);
    RefDecAllShrinks(RefDecAll(RefDecAll(p.st, i.inflight), i.queued), o.inflight);
    RefDecAllShrinks(RefDecAll(RefDecAll(RefDecAll(p.st, i.inflight), i.queued), o.inflight), o.queued);
    forall rest | Good(p.st, rest + Refs(p.c))
      ensures Good(r.st, rest + Refs(r.c))
    {
      var r1 := rest + Ids(o.queued);
      var r2 := r1 + Ids(o.inflight);
      var r3 := r2 + Ids(i.queued);
      assert rest + Refs(p.c) == r3 + Ids(i.inflight);
      RefDecAllGood(p.st, i.inflight, r3);
      var a := RefDecAll(p.st, i.inflight);
      RefDecAllGood(a, i.queued, r2);
      var b := RefDecAll(a, i.queued);
      RefDecAllGood(b, o.inflight, r1);
      RefDecAllGood(RefDecAll(b, o.inflight), o.queued, rest);
      assert rest + Refs(r.c) == rest;
    }
  }

  lemma {:induction false} PurgeListGood(u: Purge, i: nat, denied: Expiry, rest: multiset<Message>)
    requires Good(u.st, rest + Ids(u.msgs))
    ensures var v := PurgeList(u, i, denied); Good(v.st, rest + Ids(v.msgs))
    decreases |u.msgs| - i
  {
    if i < |u.msgs| {
      if denied(u.msgs[i].store) {
        IdsWithout(u.msgs, i);
        var v := Purge(RefDec(u.st, u.msgs[i].store), Without(u.msgs, i));
        assert rest + Ids(u.msgs) == rest + Ids(v.msgs) + multiset{u.msgs[i].store};
        RefDecGood(u.st, u.msgs[i].store, rest + Ids(v.msgs));
        PurgeListGood(v, i, denied, rest);
      } else {
        PurgeListGood(u, i + 1, denied, rest);
      }
    }
  }

  lemma AclPurgeKeeps(p: Pair, denied: Expiry)
    ensures Keeps(p, AclPurge(p, denied))
  {
    var o, r := p.c.msgsOut, AclPurge(p, denied);
    PurgeListShrinks(Purge(p.st, o.inflight), 0, denied);
    PurgeListShrinks(Purge(PurgeList(Purge(p.st, o.inflight), 0, denied).st, o.queued), 0, denied);
    forall rest | Good(p.st, rest + Refs(p.c))
      ensures Good(r.st, rest + Refs(r.c))
    {
      var r1 := rest + DataIds(p.c.msgsIn);
      assert rest + Refs(p.c) == r1 + Ids(o.queued) + Ids(o.inflight);
      PurgeListGood(Purge(p.st, o.inflight), 0, denied, r1 + Ids(o.queued));
      var a := PurgeList(Purge(p.st, o.inflight), 0, denied);
      assert r1 + Ids(o.queued) + Ids(a.msgs) == r1 + Ids(a.msgs) + Ids(o.queued);
      PurgeListGood(Purge(a.st, o.queued), 0, denied, r1 + Ids(a.msgs));
      var b := PurgeList(Purge(a.st, o.queued), 0, denied);
      assert rest + Refs(r.c) == r1 + Ids(a.msgs) + Ids(b.msgs);
    }
  }

  lemma {:induction false} CompactedGood(st: Store, left: seq<Message>, refs: multiset<Message>)
    requires Good(st, refs)
    ensures Good(Compacted(st, left), refs) && Shrinks(st, Compacted(st, left))
    decreases |left|
  {
    if left != [] {
      var s := left[0];
      if s in st.entries && st.entries[s].refCount < 1 {
        assert s !in refs;
        UnlinkedOk(st.order, s);
        CompactedGood(StoreRemove(st, s), left[1..], refs);
      } else {
        CompactedGood(st, left[1..], refs);
      }
    }
  }

  lemma {:induction false} CompactedLeaves(st: Store, left: seq<Message>, refs: multiset<Message>, s: Message)
    requires Good(st, refs)
    ensures s in Compacted(st, left).entries <==> s in st.entries && (s in left ==> s in refs)
    decreases |left|
  {
    hide ListOk;
    if left != [] {
      var x := left[0];
      assert left == [x] + left[1..];
      if x in st.entries && st.entries[x].refCount < 1 {
        CompactedGood(st, [x], refs);
        assert Compacted(StoreRemove(st, x), [x][1..]) == StoreRemove(st, x);
        CompactedLeaves(StoreRemove(st, x), left[1..], refs, s);
      } else {
        CompactedLeaves(st, left[1..], refs, s);
      }
    }
  }

  /** Exactly the messages that someone refers to stay. */
  lemma CompactedExactly(st: Store, refs: multiset<Message>)
    requires Good(st, refs)
    ensures forall s :: s in Compacted(st, st.order).entries <==> s in refs
  {
    forall s: Message
      ensures s in Compacted(st, st.order).entries <==> s in refs
    {
      CompactedLeaves(st, st.order, refs, s);
    }
  }

  /** Session takeover: the two contexts together hold as many references as before. */
  lemma TakeoverKeeps(st: Store, found: Ctx, c: Ctx, lim: Limits, rest: multiset<Message>)
    requires !HasMessages(c)
    requires Good(st, rest + Refs(found) + Refs(c))
    ensures var (st', found', c') := Takeover(st, found, c, lim);
      Good(st', rest + Refs(found') + Refs(c')) && Shrinks(st, st')
  {
    hide Good;
    if HasMessages(found) {
      var p := Pair(st, c.(msgsIn := found.msgsIn, msgsOut := found.msgsOut));
      ReconnectResetKeeps(p, lim);
      assert rest + Refs(found) + Refs(c) == rest + Refs(p.c);
      var (st', found', c') := Takeover(st, found, c, lim);
      assert rest + Refs(found') + Refs(c') == rest + Refs(c');
    }
  }
}
