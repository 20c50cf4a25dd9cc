/** Whole runs of the broker: one message store, any number of clients, any sequence of the operations of
    src/database.c. */
module BrokerWorld {
  import opened MosqTypes
  import opened BrokerDb
  import opened BrokerRefs

  /** held collects the references of retained messages and of messages being routed. */
  datatype World = World(st: Store, ctxs: seq<Ctx>, held: multiset<Message>, lim: Limits)

  datatype Op =
    | Arrive(id: Option<string>, v5: bool, maximumQos: AnyQos, lazyBridge: bool, maximumIn: Word, maximumOut: Word)
    | Disconnect(k: nat)
    | TakeReceiveQuota(k: nat)
    | GiveReceiveQuota(k: nat)
    | Reply(k: nat, m: ToClient, net: Net)
    | StoreMessage(payloadLen: nat, qos: AnyQos, sourceMid: Word, content: nat)
    | Hold(s: Message)
    | LetGo(s: Message)
    | InsertFor(k: nat, mid: Word, dir: Direction, qos: AnyQos, retain: bool, s: Message)
    | Acked(k: nat, mid: Word, qos: AnyQos)
    | RecOk(k: nat, mid: Word, net: Net)
    | RecError(k: nat, mid: Word)
    | Rel(k: nat, mid: Word, routes: bool, net: Net)
    | WriteTo(k: nat, expired: Expiry, net: Net)
    | Reset(k: nat)
    | TakeOver(found: nat, k: nat)
    | DeleteFor(k: nat)
    | CheckAcl(k: nat, denied: Expiry)
    | Compact

  /** What the callers see to: the client exists, the message is stored, what is let go was held, and a context that
      takes over has no messages yet. */
  predicate Enabled(w: World, op: Op) {
    match op
    case Arrive(_, _, _, _, _, _) => true
    case StoreMessage(_, _, _, _) => true
    case Compact => true
    case Hold(s) => s in w.st.entries
    case LetGo(s) => s in w.held
    case InsertFor(k, _, _, _, _, s) => k < |w.ctxs| && s in w.st.entries
    case TakeOver(found, k) => found < |w.ctxs| && k < |w.ctxs| && found != k && !HasMessages(w.ctxs[k])
    case _ => op.k < |w.ctxs|
  }

  /** The operations that work on the store and one client. */
  function OnClient(p: Pair, lim: Limits, op: Op): Pair {
    match op
    case Disconnect(_) => p.(c := p.c.(connected := false))
    case TakeReceiveQuota(_) => p.(c := p.c.(msgsIn := QuotaTaken(p.c.msgsIn)))
    case GiveReceiveQuota(_) => p.(c := p.c.(msgsIn := QuotaGiven(p.c.msgsIn)))
    case Reply(_, m, net) => p.(c := SentTo(p.c, m, net))
    case InsertFor(_, mid, dir, qos, retain, s) => Insert(p, lim, mid, dir, qos, retain, s).0
    case Acked(_, mid, qos) => OnAck(p, mid, qos).p
    case RecOk(_, mid, net) => OnPubrec(p, mid, net)
    case RecError(_, mid) => OnPubrecError(p, mid).p
    case Rel(_, mid, routes, net) => ReleaseIncoming(p, mid, routes, net).p
    case WriteTo(_, expired, net) => Write(p, expired, net).p
    case Reset(_) => ReconnectReset(p, lim)
    case DeleteFor(_) => DeleteAll(p)
    case CheckAcl(_, denied) => AclPurge(p, denied)
    case _ => p
  }

  function Apply(w: World, op: Op): World {
    if !Enabled(w, op) then w
    else
      match op
      case Arrive(id, v5, maximumQos, lazyBridge, maximumIn, maximumOut) =>
        var c := NewCtx(id, v5, maximumQos, lazyBridge, maximumIn, maximumOut);
        w.(ctxs := w.ctxs + [c])
      case StoreMessage(payloadLen, qos, sourceMid, content) =>
        w.(st := StoreAdd(w.st, NewMessage(w.st, payloadLen, qos, sourceMid, content)))
      case Hold(s) => w.(st := RefInc(w.st, s), held := w.held + multiset{s})
      case LetGo(s) => w.(st := RefDec(w.st, s), held := w.held - multiset{s})
      case TakeOver(found, k) =>
        var (st, f, c) := Takeover(w.st, w.ctxs[found], w.ctxs[k], w.lim);
        w.(st := st, ctxs := w.ctxs[found := f][k := c])
      case Compact => w.(st := Compacted(w.st, w.st.order))
      case _ =>
        var p := OnClient(Pair(w.st, w.ctxs[op.k]), w.lim, op);
        w.(st := p.st, ctxs := w.ctxs[op.k := p.c])
  }

  function Run(w: World, ops: seq<Op>): World
    decreases |ops|
  {
    if ops == [] then w else Run(Apply(w, ops[0]), ops[1..])
  }

  function Start(lim: Limits): World {
    World(Store([], map[], 0, 0, 0), [], multiset{}, lim)
  }

  // ---------------------------------------------------------------------------------------------
  // References
  // ---------------------------------------------------------------------------------------------

  function AllRefs(ctxs: seq<Ctx>): multiset<Message> {
    if ctxs == [] then multiset{} else Refs(ctxs[0]) + AllRefs(ctxs[1..])
  }

  /** Every stored message's reference count is the number of client messages, over all clients and all four lists,
      that refer to it plus the outside holders; whatever is referred to is stored; the list is well formed and its
      counters are right. */
  ghost predicate RefsOk(w: World) {
    Good(w.st, w.held + AllRefs(w.ctxs))
  }

  lemma {:induction false} AllRefsAppend(a: seq<Ctx>, b: seq<Ctx>)
    ensures AllRefs(a + b) == AllRefs(a) + AllRefs(b)
  {
    if a == [] {
      assert a + b == b;
    } else {
      assert (a + b)[1..] == a[1..] + b;
      AllRefsAppend(a[1..], b);
    }
  }

  /** All references but those of client k. */
  function Others(ctxs: seq<Ctx>, k: nat): multiset<Message>
    requires k < |ctxs|
  {
    AllRefs(ctxs[..k]) + AllRefs(ctxs[k + 1..])
  }

  lemma SplitAt(ctxs: seq<Ctx>, k: nat)
    requires k < |ctxs|
    ensures AllRefs(ctxs) == Others(ctxs, k) + Refs(ctxs[k])
  {
    assert ctxs == ctxs[..k] + ctxs[k..];
    AllRefsAppend(ctxs[..k], ctxs[k..]);
    assert ctxs[k..][1..] == ctxs[k + 1..];
  }

  lemma Replace(ctxs: seq<Ctx>, k: nat, c: Ctx)
    requires k < |ctxs|
    ensures AllRefs(ctxs[k := c]) == Others(ctxs, k) + Refs(c)
  {
    var r := ctxs[k := c];
    SplitAt(r, k);
    assert r[..k] == ctxs[..k] && r[k + 1..] == ctxs[k + 1..];
  }

  lemma AckKeeps(p: Pair, mid: Word, qos: AnyQos)
    ensures Keeps(p, OnAck(p, mid, qos).p)
  {
    hide KeepsRefs, Shrinks, DeleteOutgoing;
    var d := p.c.msgsOut;
    var grown := p.(c := p.c.(msgsOut := d.(quota := Incremented(d.quota, d.maximum))));
    SameRefs(p, grown);
    DeleteOutgoingKeeps(grown, mid, WaitForPubcomp, qos);
    KeepsTrans(p, grown, OnAck(p, mid, qos).p);
  }

  lemma PubrecKeeps(p: Pair, mid: Word, net: Net)
    ensures Keeps(p, OnPubrec(p, mid, net))
  {
    hide KeepsRefs, Shrinks, UpdateOutgoing;
    var q := UpdateOutgoing(p, mid, WaitForPubcomp, 2).p;
    UpdateOutgoingKeeps(p, mid, WaitForPubcomp, 2);
    SameRefs(q, OnPubrec(p, mid, net));
    KeepsTrans(p, q, OnPubrec(p, mid, net));
  }

  lemma OnClientKeeps(p: Pair, lim: Limits, op: Op)
    requires op.InsertFor? ==> op.s in p.st.entries
    ensures KeepsRefs(p, OnClient(p, lim, op))
    ensures !op.InsertFor? ==> Shrinks(p.st, OnClient(p, lim, op).st)
  {
    hide KeepsRefs, Shrinks, DeleteOutgoing, OnPubrec, ReleaseIncoming, Write, ReconnectReset, DeleteAll, AclPurge,
         Insert;
    match op
    case InsertFor(_, mid, dir, qos, retain, s) =>
      InsertKeeps(p, lim, mid, dir, qos, retain, s);
    case Acked(_, mid, qos) =>
      AckKeeps(p, mid, qos);
    case RecOk(_, mid, net) =>
      PubrecKeeps(p, mid, net);
    case RecError(_, mid) =>
      DeleteOutgoingKeeps(p, mid, WaitForPubrec, 2);
    case Rel(_, mid, routes, net) =>
      ReleaseIncomingKeeps(p, mid, routes, net);
    case WriteTo(_, expired, net) =>
      WriteKeeps(p, expired, net);
    case Reset(_) =>
      ReconnectResetKeeps(p, lim);
    case DeleteFor(_) =>
      DeleteAllKeeps(p);
    case CheckAcl(_, denied) =>
      AclPurgeKeeps(p, denied);
    case _ =>
      SameRefs(p, OnClient(p, lim, op));
  }

  lemma Cancel<T>(a: multiset<T>, b: multiset<T>, c: multiset<T>)
    requires a + c == b + c
    ensures a == b
  {
    assert a == (a + c) - c;
    assert b == (b + c) - c;
  }

  /** The references of everyone but two clients. */
  lemma SplitTwo(ctxs: seq<Ctx>, i: nat, k: nat, f: Ctx, c: Ctx) returns (rest: multiset<Message>)
    requires i < |ctxs| && k < |ctxs| && i != k
    ensures AllRefs(ctxs) == rest + Refs(ctxs[i]) + Refs(ctxs[k])
    ensures AllRefs(ctxs[i := f][k := c]) == rest + Refs(f) + Refs(c)
  {
    hide Refs, AllRefs;
    var b := ctxs[i := f];
    SplitAt(ctxs, i);
    Replace(ctxs, i, f);
    SplitAt(b, k);
    Replace(b, k, c);
    rest := Others(ctxs, i) - Refs(ctxs[k]);
    assert Refs(ctxs[k]) <= Others(ctxs, i) by {
      OthersHolds(ctxs, i, k);
    }
    assert Others(ctxs, i) == rest + Refs(ctxs[k]);
    assert Others(b, k) + Refs(ctxs[k]) == (rest + Refs(f)) + Refs(ctxs[k]);
    Cancel(Others(b, k), rest + Refs(f), Refs(ctxs[k]));
  }

  lemma {:induction false} AllRefsHolds(ctxs: seq<Ctx>, k: nat)
    requires k < |ctxs|
    ensures Refs(ctxs[k]) <= AllRefs(ctxs)
  {
    SplitAt(ctxs, k);
  }

  lemma OthersHolds(ctxs: seq<Ctx>, i: nat, k: nat)
    requires i < |ctxs| && k < |ctxs| && i != k
    ensures Refs(ctxs[k]) <= Others(ctxs, i)
  {
    hide Refs, AllRefs;
    if k < i {
      AllRefsHolds(ctxs[..i], k);
    } else {
      AllRefsHolds(ctxs[i + 1..], k - i - 1);
    }
  }

  lemma TakeOverRefs(w: World, found: nat, k: nat)
    requires RefsOk(w) && Enabled(w, TakeOver(found, k))
    ensures RefsOk(Apply(w, TakeOver(found, k))) && Shrinks(w.st, Apply(w, TakeOver(found, k)).st)
  {
    hide Refs, AllRefs, Good, Takeover, Shrinks;
    var (st, f, c) := Takeover(w.st, w.ctxs[found], w.ctxs[k], w.lim);
    var rest := SplitTwo(w.ctxs, found, k, f, c);
    assert w.held + AllRefs(w.ctxs) == w.held + rest + Refs(w.ctxs[found]) + Refs(w.ctxs[k]);
    TakeoverKeeps(w.st, w.ctxs[found], w.ctxs[k], w.lim, w.held + rest);
    assert w.held + AllRefs(w.ctxs[found := f][k := c]) == w.held + rest + Refs(f) + Refs(c);
  }

  lemma OnClientRefs(w: World, k: nat, op: Op)
    requires RefsOk(w) && k < |w.ctxs| && (op.InsertFor? ==> op.s in w.st.entries)
    ensures var p := OnClient(Pair(w.st, w.ctxs[k]), w.lim, op);
      RefsOk(w.(st := p.st, ctxs := w.ctxs[k := p.c]))
  {
    hide Refs, AllRefs, Good, OnClient;
    var p := Pair(w.st, w.ctxs[k]);
    var r := OnClient(p, w.lim, op);
    OnClientKeeps(p, w.lim, op);
    SplitAt(w.ctxs, k);
    Replace(w.ctxs, k, r.c);
    var rest := w.held + Others(w.ctxs, k);
    assert w.held + AllRefs(w.ctxs) == rest + Refs(p.c);
    assert w.held + AllRefs(w.ctxs[k := r.c]) == rest + Refs(r.c);
  }

  lemma NewContextHoldsNothing(id: Option<string>, v5: bool, maximumQos: AnyQos, lazyBridge: bool,
                               maximumIn: Word, maximumOut: Word)
    ensures Refs(NewCtx(id, v5, maximumQos, lazyBridge, maximumIn, maximumOut)) == multiset{}
  {
  }

  lemma ApplyKeepsRefs(w: World, op: Op)
    requires RefsOk(w)
    ensures RefsOk(Apply(w, op))
  {
    hide Refs, Good, OnClient, Takeover, AllRefs;
    if Enabled(w, op) {
      match op
      case Arrive(id, v5, maximumQos, lazyBridge, maximumIn, maximumOut) =>
        var c := NewCtx(id, v5, maximumQos, lazyBridge, maximumIn, maximumOut);
        NewContextHoldsNothing(id, v5, maximumQos, lazyBridge, maximumIn, maximumOut);
        Replace(w.ctxs + [c], |w.ctxs|, c);
        SplitAt(w.ctxs + [c], |w.ctxs|);
        assert (w.ctxs + [c])[..|w.ctxs|] == w.ctxs && (w.ctxs + [c])[|w.ctxs| + 1..] == [];
        NoneHoldNothing();
        assert AllRefs(w.ctxs + [c]) == AllRefs(w.ctxs);
      case StoreMessage(payloadLen, qos, sourceMid, content) =>
        StoreAddGood(w.st, payloadLen, qos, sourceMid, content, w.held + AllRefs(w.ctxs));
      case Hold(s) =>
        RefIncGood(w.st, s, w.held + AllRefs(w.ctxs));
        assert w.held + multiset{s} + AllRefs(w.ctxs) == w.held + AllRefs(w.ctxs) + multiset{s};
      case LetGo(s) =>
        var held := w.held - multiset{s};
        assert w.held + AllRefs(w.ctxs) == held + AllRefs(w.ctxs) + multiset{s};
        RefDecGood(w.st, s, held + AllRefs(w.ctxs));
      case TakeOver(found, k) =>
        TakeOverRefs(w, found, k);
      case Compact =>
        CompactedGood(w.st, w.st.order, w.held + AllRefs(w.ctxs));
      case _ =>
        OnClientRefs(w, op.k, op);
    }
  }

  lemma NoneHoldNothing()
    ensures AllRefs([]) == multiset{}
  {
  }

  lemma {:induction false} RunKeepsRefs(w: World, ops: seq<Op>)
    requires RefsOk(w)
    ensures RefsOk(Run(w, ops))
    decreases |ops|
  {
    hide RefsOk, Apply;
    if ops != [] {
      ApplyKeepsRefs(w, ops[0]);
      RunKeepsRefs(Apply(w, ops[0]), ops[1..]);
    }
  }

  /** In every state the broker can reach, reference counts are conserved and nothing that is referred to has been
      removed. */
  lemma ReferencesConserved(lim: Limits, ops: seq<Op>)
    ensures RefsOk(Run(Start(lim), ops))
  {
    assert RefsOk(Start(lim));
    RunKeepsRefs(Start(lim), ops);
  }
}
