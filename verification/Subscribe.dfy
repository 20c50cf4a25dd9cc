/** The SUBSCRIBE and UNSUBSCRIBE packets (sections 3.8 and 3.10 of MQTT 5.0): what send__subscribe and
    send__unsubscribe of the library write, and what handle__subscribe of src/handle_subscribe.c reads. */
module Subscribe {
  import opened MosqTypes
  import opened Utf8
  import opened Wire
  import opened Framing
  import opened Packets
  import opened PacketIds
  import opened Properties
  import opened Connect
  import ConnectIO
  import PropertyIO
  import Topic

  predicate AllCount(topics: seq<Bytes>) {
    forall k :: 0 <= k < |topics| ==> Counts(topics[k])
  }

  /** The payload: a topic filter, and behind it the options if the packet has any */
  function TopicList(topics: seq<Bytes>, options: Option<Byte>): Bytes
    requires AllCount(topics)
  {
    if topics == [] then []
    else Counted(topics[0]) + ((if options.Some? then [options.value] else []) + TopicList(topics[1..], options))
  }

  function SubscribeBody(mid: Word, v: Version, ps: seq<Property>, topics: seq<Bytes>, options: Option<Byte>): Bytes
    requires AllTyped(ps) && AllCount(topics)
  {
    U16(mid) + (PropertyBytes(v, ps) + TopicList(topics, options))
  }

  lemma AllCountPart(topics: seq<Bytes>, i: nat, j: nat)
    requires AllCount(topics) && i <= j <= |topics|
    ensures AllCount(topics[i..j])
  {
  }

  lemma {:induction false} TopicListAppend(topics: seq<Bytes>, topic: Bytes, options: Option<Byte>)
    requires AllCount(topics) && Counts(topic)
    ensures AllCount(topics + [topic])
    ensures TopicList(topics + [topic], options) ==
      TopicList(topics, options) + (Counted(topic) + if options.Some? then [options.value] else [])
  {
    hide Counted;
    var option := if options.Some? then [options.value] else [];
    if topics == [] {
      assert topics + [topic] == [topic] && [topic][1..] == [];
      assert TopicList([topic], options) == Counted(topic) + (option + []);
    } else {
      assert (topics + [topic])[1..] == topics[1..] + [topic];
      TopicListAppend(topics[1..], topic, options);
      var rest := TopicList(topics[1..], options);
      var last := Counted(topic) + option;
      assert Counted(topics[0]) + (option + (rest + last)) == Counted(topics[0]) + (option + rest) + last;
    }
  }

  lemma TopicListTake(topics: seq<Bytes>, i: nat, options: Option<Byte>)
    requires AllCount(topics) && i < |topics|
    ensures TopicList(topics[..i + 1], options) ==
      TopicList(topics[..i], options) + (Counted(topics[i]) + if options.Some? then [options.value] else [])
  {
    assert topics[..i + 1] == topics[..i] + [topics[i]];
    TopicListAppend(topics[..i], topics[i], options);
  }

  lemma {:induction false} TopicListMonotone(topics: seq<Bytes>, i: nat, options: Option<Byte>)
    requires AllCount(topics) && i <= |topics|
    ensures |TopicList(topics[..i], options)| <= |TopicList(topics, options)|
    decreases |topics| - i
  {
    hide TopicList;
    if i == |topics| {
      assert topics[..i] == topics;
    } else {
      TopicListTake(topics, i, options);
      TopicListMonotone(topics, i + 1, options);
    }
  }

  lemma NoTopics(topics: seq<Bytes>, options: Option<Byte>)
    requires topics == []
    ensures TopicList(topics, options) == []
  {
  }

  // ---------------------------------------------------------------------------------------------
  // The client
  // ---------------------------------------------------------------------------------------------

  /** The first loop: the lengths of the topics */
  method TopicsLength(topics: seq<Bytes>, options: Option<Byte>) returns (length: nat)
    requires AllCount(topics)
    ensures length == |TopicList(topics, options)|
  {
    hide TopicList;
    length := 0;
    NoTopics(topics[..0], options);
    for i := 0 to |topics|
      invariant length == |TopicList(topics[..i], options)|
    {
      TopicListTake(topics, i, options);
      length := length + 2 + |topics[i]| + if options.Some? then 1 else 0;
    }
    assert topics[..|topics|] == topics;
  }

  /** The second loop: the topics themselves */
  method WriteTopics(packet: Packet, topics: seq<Bytes>, options: Option<Byte>)
    requires AllCount(topics) && packet.Writable() && |TopicList(topics, options)| <= packet.packetLength - packet.pos
    modifies packet`pos, packet.payload
    ensures packet.Writable() && packet.Written() == old(packet.Written()) + TopicList(topics, options)
  {
    hide TopicList, Packet.Written, Counted;
    ghost var start := packet.Written();
    NoTopics(topics[..0], options);
    assert start + [] == start;
    for i := 0 to |topics|
      invariant packet.Writable() && packet.Written() == start + TopicList(topics[..i], options)
    {
      TopicListTake(topics, i, options);
      TopicListMonotone(topics, i + 1, options);
      packet.WriteString(topics[i]);
      if options.Some? {
        packet.WriteByte(options.value);
      }
      assert packet.Written() == start + TopicList(topics[..i + 1], options);
    }
    assert topics[..|topics|] == topics;
  }

  /** send__subscribe (with options) and send__unsubscribe (without), up to packet__queue: the packet that is made is
      filled exactly, and its identifier is a new one. */
  method SendTopics(command: Byte, v: Version, ids: IdSource, topics: seq<Bytes>, options: Option<Byte>, ps: seq<Property>)
    returns (rc: Rc, packet: Packet?)
    requires AllCount(topics) && PropertiesFit(ps) && |TopicList(topics, options)| < 0x4000_0000
    modifies ids
    ensures var body := SubscribeBody(Next(old(ids.lastMid)), v, ps, topics, options);
      && rc == (if |body| >= VARINT_LIMIT then PayloadSize else Success)
      && (rc == Success <==> packet != null)
      && ids.lastMid == (if rc == Success then Next(old(ids.lastMid)) else old(ids.lastMid))
      && (packet != null ==> fresh(packet) && packet.Carries(command, body))
  {
    hide TopicList, AllTyped, EncodeList, EncodeProperties, Varint, U16, Packet.Written;
    packet := null;
    ghost var body := SubscribeBody(Next(ids.lastMid), v, ps, topics, options);
    var packetlen := 2;
    if v == Mqtt5 {
      var proplen := PropertyIO.GetLengthAll(ps);
      PropertiesSize(ps);
      packetlen := packetlen + proplen + VarintBytes(proplen);
    }
    var length := TopicsLength(topics, options);
    packetlen := packetlen + length;
    assert packetlen == |body|;
    var p := new Packet();
    p.command := command;
    p.remainingLength := packetlen;
    rc := p.Alloc();
    if rc != Success {
      return rc, null;
    }
    ghost var start := p.Written();
    var mid := ids.Generate();
    p.WriteUint16(mid);
    if v == Mqtt5 {
      rc := PropertyIO.WriteAll(p, ps, true);
    }
    assert p.Written() == start + U16(mid) + PropertyBytes(v, ps);
    WriteTopics(p, topics, options);
    ConnectIO.Associate4(start, U16(mid), PropertyBytes(v, ps), TopicList(topics, options));
    FrameIs(command, body);
    return Success, p;
  }

  lemma PropertiesSize(ps: seq<Property>)
    requires PropertiesFit(ps)
    ensures |EncodeProperties(ps)| == |EncodeList(ps)| + VarintBytes(|EncodeList(ps)|)
  {
    hide AllTyped, EncodeList, Varint;
    VarintSize(|EncodeList(ps)|);
  }

  // ---------------------------------------------------------------------------------------------
  // The broker
  // ---------------------------------------------------------------------------------------------

  /** One subscription that was asked for; the options are those of version 5 (section 3.8.3.1). */
  datatype Subscription = Subscription(filter: Bytes, qos: Byte, options: Byte)

  predicate FilterOk(s: Bytes) {
    |s| <= 65535 && Topic.ValidFilter(TopicText(s))
  }

  /** Clients before version 5 send a QoS only; a bridge gets fixed options. */
  function SubscriptionOf(filter: Bytes, byte: Byte, v: Version, isBridge: bool): Subscription {
    if v == Mqtt5 then Subscription(filter, byte % 4, byte - byte % 4)
    else Subscription(filter, byte, if isBridge then 0x0C else byte)
  }

  predicate OptionsOk(byte: Byte, v: Version) {
    v == Mqtt5 ==> byte / 16 % 4 != 3 && byte / 64 == 0
  }

  function QosAsked(byte: Byte, v: Version): nat {
    if v == Mqtt5 then byte % 4 else byte
  }

  /** A byte behind a filter */
  function ReadOptions(filter: Bytes, s: Bytes, v: Version, isBridge: bool): Parse<Option<Subscription>> {
    match ReadByte(s)
    case Bad(_, rest) => Bad(Failed, rest)
    case Ok(byte, rest) =>
      if !OptionsOk(byte, v) then Bad(Protocol, rest)
      else if QosAsked(byte, v) > 2 then Bad(Failed, rest)
      else Ok(Some(SubscriptionOf(filter, byte, v, isBridge)), rest)
  }

  /** One turn of the loop: an empty filter is passed over, and so is no option byte for it. */
  ghost function ReadSubscription(s: Bytes, v: Version, isBridge: bool): (r: Parse<Option<Subscription>>)
    ensures r.Ok? ==> |r.rest| < |s|
  {
    match ReadString(s)
    case Bad(_, rest) => Bad(Failed, rest)
    case Ok(filter, rest) =>
      if filter == [] then Ok(None, rest)
      else if !FilterOk(filter) then Bad(Failed, rest)
      else ReadOptions(filter, rest, v, isBridge)
  }

  function Listed(sub: Option<Subscription>): seq<Subscription> {
    if sub.Some? then [sub.value] else []
  }

  /** What mosquitto_acl_check answers for a filter and a QoS, and sub__add for a subscription; Success also stands for
      the answer that the subscription exists. */
  datatype Surroundings = Surroundings(acl: (Bytes, nat) -> Rc, add: Subscription -> Rc)

  /** Whether access is checked, and denied: clients of version 3.1 are not checked. */
  predicate Denied(sub: Subscription, v: Version, o: Surroundings) {
    v != Mqtt31 && o.acl(sub.filter, sub.qos) == AclDenied
  }

  /** The error with which a subscription ends the handler, or Success. A denial does not. */
  function Refusal(sub: Subscription, v: Version, o: Surroundings): Rc {
    if Denied(sub, v, o) then Success
    else if v != Mqtt31 && o.acl(sub.filter, sub.qos) != Success then o.acl(sub.filter, sub.qos)
    else o.add(sub)
  }

  function RefusalOf(sub: Option<Subscription>, v: Version, o: Surroundings): Rc {
    if sub.Some? then Refusal(sub.value, v, o) else Success
  }

  ghost function ReadSubscriptions(s: Bytes, v: Version, isBridge: bool, o: Surroundings): Parse<seq<Subscription>>
    decreases |s|
  {
    if s == [] then Ok([], [])
    else
      match ReadSubscription(s, v, isBridge)
      case Bad(rc, rest) => Bad(rc, rest)
      case Ok(sub, rest) =>
        if RefusalOf(sub, v, o) != Success then Bad(RefusalOf(sub, v, o), rest)
        else PrependSubs(Listed(sub), ReadSubscriptions(rest, v, isBridge, o))
  }

  /** An empty filter counts for nothing wherever it stands, and the byte behind it is read as part of what follows. */
  lemma EmptyFilterSkipped(s: Bytes, v: Version, isBridge: bool, o: Surroundings)
    ensures ReadSubscriptions(U16(0) + s, v, isBridge, o) == ReadSubscriptions(s, v, isBridge, o)
  {
    hide U16, WellFormed;
    U16ReadBack(0, s);
    assert ReadBytes(s, 0) == Ok(s[..0], s);
    assert forall l: seq<Subscription> :: [] + l == l;
  }

  function PrependSubs(subs: seq<Subscription>, r: Parse<seq<Subscription>>): Parse<seq<Subscription>> {
    match r
    case Ok(more, rest) => Ok(subs + more, rest)
    case Bad(rc, rest) => Bad(rc, rest)
  }

  /** The subscription identifier, 0 for none */
  function SubscriptionId(ps: seq<Property>): nat {
    if ps == [] then 0
    else if ps[0].identifier == SUBSCRIPTION_IDENTIFIER && ps[0].value.VarintValue? then ps[0].value.n
    else SubscriptionId(ps[1..])
  }

  predicate ZeroIdentifier(ps: seq<Property>) {
    exists k :: 0 <= k < |ps| && ps[k] == Property(SUBSCRIPTION_IDENTIFIER, VarintValue(0))
  }

  datatype SubscribeRequest = SubscribeRequest(mid: Word, identifier: nat, subscriptions: seq<Subscription>)

  ghost function ReadSubscribeProperties(s: Bytes, v: Version): Parse<seq<Property>> {
    if v == Mqtt5 then ReadAll(CMD_SUBSCRIBE, s) else Ok([], s)
  }

  /** handle__subscribe, as far as the packet */
  ghost function ParseSubscribe(s: Bytes, command: Byte, v: Version, isBridge: bool, o: Surroundings): Parse<SubscribeRequest> {
    if v != Mqtt31 && command % 16 != 2 then Bad(Protocol, s)
    else
      match ReadU16(s)
      case Bad(_, rest) => Bad(Failed, rest)
      case Ok(mid, rest) =>
        if mid == 0 then Bad(Protocol, rest)
        else
          match ReadSubscribeProperties(rest, v)
          case Bad(rc, rest) => Bad(rc, rest)
          case Ok(ps, rest) =>
            if ZeroIdentifier(ps) then Bad(Protocol, rest)
            else
              match ReadSubscriptions(rest, v, isBridge, o)
              case Bad(rc, rest) => Bad(rc, rest)
              case Ok(subs, rest) =>
                if v != Mqtt31 && subs == [] then Bad(Protocol, rest)
                else Ok(SubscribeRequest(mid, SubscriptionId(ps), subs), rest)
  }

  // ---------------------------------------------------------------------------------------------
  // The round trip
  // ---------------------------------------------------------------------------------------------

  /** A filter that the library lets through and the broker has to accept */
  ghost predicate ValidTopicFilter(s: Bytes) {
    s != [] && Text(s) && FilterOk(s)
  }

  ghost predicate AllValidFilters(topics: seq<Bytes>) {
    forall k :: 0 <= k < |topics| ==> ValidTopicFilter(topics[k])
  }

  /** No error of the broker's surroundings ends the handler. */
  ghost predicate NoneRefused(subs: seq<Subscription>, v: Version, o: Surroundings) {
    forall k :: 0 <= k < |subs| ==> Refusal(subs[k], v, o) == Success
  }

  function Asked(topics: seq<Bytes>, byte: Byte, v: Version, isBridge: bool): seq<Subscription> {
    seq(|topics|, k requires 0 <= k < |topics| => SubscriptionOf(topics[k], byte, v, isBridge))
  }

  lemma {:induction false} SubscriptionsReadBack(topics: seq<Bytes>, byte: Byte, v: Version, isBridge: bool, o: Surroundings)
    requires AllValidFilters(topics) && AllCount(topics) && OptionsOk(byte, v) && QosAsked(byte, v) <= 2
    requires NoneRefused(Asked(topics, byte, v, isBridge), v, o)
    ensures ReadSubscriptions(TopicList(topics, Some(byte)), v, isBridge, o) == Ok(Asked(topics, byte, v, isBridge), [])
    decreases |topics|
  {
    hide ReadString, ReadByte, Counted, WellFormed, FilterOk, OptionsOk, QosAsked, Refusal;
    if topics == [] {
      assert Asked(topics, byte, v, isBridge) == [];
    } else {
      assert ValidTopicFilter(topics[0]);
      var rest := TopicList(topics[1..], Some(byte));
      assert TopicList(topics, Some(byte)) == Counted(topics[0]) + ([byte] + rest);
      StringReadBack(topics[0], [byte] + rest);
      ByteReadBack(byte, rest);
      assert forall k :: 0 <= k < |topics[1..]| ==> topics[1..][k] == topics[k + 1];
      var asked := Asked(topics, byte, v, isBridge);
      assert Asked(topics[1..], byte, v, isBridge) == asked[1..];
      assert Refusal(asked[0], v, o) == Success;
      SubscriptionsReadBack(topics[1..], byte, v, isBridge, o);
      var first := Listed(Some(SubscriptionOf(topics[0], byte, v, isBridge)));
      assert first + Asked(topics[1..], byte, v, isBridge) == Asked(topics, byte, v, isBridge);
    }
  }

  /** The broker gets the whole list, in order, with the options that were asked for, and nothing is left over. */
  lemma SubscribeRoundTrip(mid: Word, v: Version, ps: seq<Property>, topics: seq<Bytes>, byte: Byte, isBridge: bool, o: Surroundings)
    requires mid != 0 && AllTyped(ps) && (v == Mqtt5 ==> Sendable(CMD_SUBSCRIBE, ps) && !ZeroIdentifier(ps))
    requires topics != [] && AllValidFilters(topics) && AllCount(topics) && OptionsOk(byte, v) && QosAsked(byte, v) <= 2
    requires NoneRefused(Asked(topics, byte, v, isBridge), v, o)
    ensures ParseSubscribe(SubscribeBody(mid, v, ps, topics, Some(byte)), CMD_SUBSCRIBE + 2, v, isBridge, o)
         == Ok(SubscribeRequest(mid, if v == Mqtt5 then SubscriptionId(ps) else 0, Asked(topics, byte, v, isBridge)), [])
  {
    hide ReadSubscriptions, ReadAll, ReadU16, U16, Sendable, AllTyped, AllValidFilters, AllCount, TopicList,
         EncodeProperties, OptionsOk, QosAsked;
    var list := TopicList(topics, Some(byte));
    U16ReadBack(mid, PropertyBytes(v, ps) + list);
    if v == Mqtt5 {
      AllReadBack(CMD_SUBSCRIBE, ps, list);
    } else {
      assert PropertyBytes(v, ps) + list == list;
    }
    SubscriptionsReadBack(topics, byte, v, isBridge, o);
    assert |Asked(topics, byte, v, isBridge)| == |topics|;
  }

  // ---------------------------------------------------------------------------------------------
  // Nothing else is accepted
  // ---------------------------------------------------------------------------------------------

  /** What the standard demands of a subscription (sections 3.8.3 and 4.7.1 of MQTT 5.0) */
  ghost predicate LawfulSubscription(sub: Subscription, v: Version) {
    && ValidTopicFilter(sub.filter) && sub.qos <= 2
    && (v == Mqtt5 ==> sub.options % 4 == 0 && sub.options / 16 != 3 && sub.options / 64 == 0)
  }

  /** The broker's surroundings have agreed to a subscription: the access check, to which clients of version 3.1 are not
      subject, allows or denies it, and unless it is denied it has been added. */
  predicate Agreed(sub: Subscription, v: Version, o: Surroundings) {
    if v == Mqtt31 then o.add(sub) == Success
    else
      var verdict := o.acl(sub.filter, sub.qos);
      verdict == AclDenied || (verdict == Success && o.add(sub) == Success)
  }

  /** Exactly then they do not end the handler. */
  lemma AgreedIffNotRefused(sub: Subscription, v: Version, o: Surroundings)
    ensures Refusal(sub, v, o) == Success <==> Agreed(sub, v, o)
    ensures Denied(sub, v, o) <==> v != Mqtt31 && o.acl(sub.filter, sub.qos) == AclDenied
  {
  }

  lemma SubscriptionIsLawful(s: Bytes, v: Version, isBridge: bool)
    requires ReadSubscription(s, v, isBridge).Ok? && ReadSubscription(s, v, isBridge).value.Some?
    ensures LawfulSubscription(ReadSubscription(s, v, isBridge).value.value, v)
  {
    hide ReadString, WellFormed, FilterOk, Counted;
    StringCanonical(s);
  }

  lemma {:induction false} SubscriptionsAreLawful(s: Bytes, v: Version, isBridge: bool, o: Surroundings)
    requires ReadSubscriptions(s, v, isBridge, o).Ok?
    ensures ReadSubscriptions(s, v, isBridge, o).rest == []
    ensures forall k :: 0 <= k < |ReadSubscriptions(s, v, isBridge, o).value| ==>
      var sub := ReadSubscriptions(s, v, isBridge, o).value[k];
      LawfulSubscription(sub, v) && Agreed(sub, v, o)
    decreases |s|
  {
    hide ReadSubscription, LawfulSubscription, Agreed, Refusal;
    if s != [] {
      var one := ReadSubscription(s, v, isBridge);
      if one.value.Some? {
        SubscriptionIsLawful(s, v, isBridge);
        AgreedIffNotRefused(one.value.value, v, o);
      }
      SubscriptionsAreLawful(one.rest, v, isBridge, o);
    }
  }

  /** The subscription identifier of a list: the first one, which is not 0, or 0 if there is none */
  ghost predicate IdentifierOf(ps: seq<Property>, id: nat) {
    if forall k :: 0 <= k < |ps| ==> !NamesIdentifier(ps[k]) then id == 0
    else
      exists k :: 0 <= k < |ps| && NamesIdentifier(ps[k]) && ps[k].value.n == id != 0
        && forall j :: 0 <= j < k ==> !NamesIdentifier(ps[j])
  }

  predicate NamesIdentifier(p: Property) {
    p.identifier == 0x0B && p.value.VarintValue?
  }

  lemma {:induction false} IdentifierFound(ps: seq<Property>)
    requires !ZeroIdentifier(ps)
    ensures IdentifierOf(ps, SubscriptionId(ps))
  {
    if ps != [] {
      var rest := ps[1..];
      assert forall k :: 0 <= k < |rest| ==> rest[k] == ps[k + 1];
      if NamesIdentifier(ps[0]) {
        assert ps[0] == Property(SUBSCRIPTION_IDENTIFIER, VarintValue(ps[0].value.n));
      } else {
        IdentifierFound(rest);
        if k :| 0 <= k < |rest| && NamesIdentifier(rest[k]) && rest[k].value.n == SubscriptionId(rest) != 0
                && forall j :: 0 <= j < k ==> !NamesIdentifier(rest[j]) {
          assert NamesIdentifier(ps[k + 1]);
          assert forall j :: 0 <= j < k + 1 ==> !NamesIdentifier(ps[j]) by {
            assert forall j :: 1 <= j < k + 1 ==> ps[j] == rest[j - 1];
          }
        }
      }
    }
  }

  /** Whatever SUBSCRIBE the broker accepts is one that the standard allows, read to its end. */
  lemma AcceptedSubscribe(s: Bytes, command: Byte, v: Version, isBridge: bool, o: Surroundings)
    requires ParseSubscribe(s, command, v, isBridge, o).Ok?
    ensures var r := ParseSubscribe(s, command, v, isBridge, o).value;
      && ParseSubscribe(s, command, v, isBridge, o).rest == []
      && r.mid != 0 && (v != Mqtt31 ==> command % 16 == 2 && r.subscriptions != [])
      && (forall k :: 0 <= k < |r.subscriptions| ==> LawfulSubscription(r.subscriptions[k], v) && Agreed(r.subscriptions[k], v, o))
      && var ps := ReadSubscribeProperties(ReadU16(s).rest, v).value;
         IdentifierOf(ps, r.identifier)
  {
    hide ReadSubscriptions, ReadAll, LawfulSubscription, Agreed;
    IdentifierFound(ReadSubscribeProperties(ReadU16(s).rest, v).value);
    var rest := ReadSubscribeProperties(ReadU16(s).rest, v).rest;
    SubscriptionsAreLawful(rest, v, isBridge, o);
  }

  // ---------------------------------------------------------------------------------------------
  // handle__subscribe
  // ---------------------------------------------------------------------------------------------

  lemma PrependTwice(a: seq<Subscription>, b: seq<Subscription>, r: Parse<seq<Subscription>>)
    ensures PrependSubs(a, PrependSubs(b, r)) == PrependSubs(a + b, r)
  {
    if r.Ok? {
      assert a + (b + r.value) == a + b + r.value;
    }
  }

  /** One turn of the loop */
  lemma OneSubscription(subs: seq<Subscription>, s: Bytes, v: Version, isBridge: bool, o: Surroundings)
    requires s != []
    ensures var one := ReadSubscription(s, v, isBridge);
      PrependSubs(subs, ReadSubscriptions(s, v, isBridge, o)) ==
        if one.Ok? && RefusalOf(one.value, v, o) != Success then Bad(RefusalOf(one.value, v, o), one.rest)
        else if one.Ok? then PrependSubs(subs + Listed(one.value), ReadSubscriptions(one.rest, v, isBridge, o)) else Bad(one.rc, one.rest)
  {
    hide ReadSubscription, Listed;
    var one := ReadSubscription(s, v, isBridge);
    if one.Ok? {
      PrependTwice(subs, Listed(one.value), ReadSubscriptions(one.rest, v, isBridge, o));
    }
  }

  lemma NoSubscription(subs: seq<Subscription>, v: Version, isBridge: bool, o: Surroundings)
    ensures PrependSubs(subs, ReadSubscriptions([], v, isBridge, o)) == Ok(subs, [])
    ensures forall r: Parse<seq<Subscription>> :: PrependSubs([], r) == r
  {
    assert subs + [] == subs;
    forall r: Parse<seq<Subscription>>
      ensures PrependSubs([], r) == r
    {
      if r.Ok? {
        assert [] + r.value == r.value;
      }
    }
  }

  method CheckFilter(ghost s: Bytes, filter: Bytes) returns (ok: bool)
    requires ReadString(s).Ok? && ReadString(s).value == filter
    ensures ok == FilterOk(filter)
  {
    hide ReadString, TopicText;
    StringCanonical(s);
    ConnectIO.TextHasNoNul(filter);
    ConnectIO.TextOf(filter);
    var rc := Topic.SubTopicCheck(TopicText(filter));
    ok := rc == Success;
  }

  /** One turn of the loop of handle__subscribe, up to the access check */
  method ReadSubscriptionFrom(packet: Packet, v: Version, isBridge: bool) returns (rc: Rc, sub: Option<Subscription>)
    requires packet.Readable()
    modifies packet`pos
    ensures packet.Readable() && Outcome(rc, sub, packet.Rest()) == ReadSubscription(old(packet.Rest()), v, isBridge)
    ensures sub.Some? && rc == Success ==> sub.value.qos <= 2
  {
    hide ReadString, WellFormed, Packet.Rest, Packet.Readable, TopicText, FilterOk;
    sub := None;
    ghost var start := packet.Rest();
    var filter, byte;
    rc, filter := packet.ReadString();
    if rc != Success {
      return Failed, None;
    }
    if filter != [] {
      var ok := CheckFilter(start, filter);
      if !ok {
        return Failed, None;
      }
      rc, byte := packet.ReadByte();
      if rc != Success {
        return Failed, None;
      }
      if v == Mqtt5 {
        if byte / 16 % 4 == 3 || byte / 64 != 0 {
          return Protocol, None;
        }
      }
      sub := Some(SubscriptionOf(filter, byte, v, isBridge));
      if sub.value.qos > 2 {
        return Failed, None;
      }
    }
    return Success, sub;
  }

  /** The loop of handle__subscribe: the subscriptions, and beside each its SUBACK code */
  method ReadSubscriptionsFrom(packet: Packet, v: Version, isBridge: bool, o: Surroundings)
    returns (rc: Rc, subs: seq<Subscription>, codes: Bytes)
    requires packet.Readable()
    modifies packet`pos
    ensures packet.Readable()
    ensures Outcome(rc, subs, packet.Rest()) == ReadSubscriptions(old(packet.Rest()), v, isBridge, o)
    ensures rc == Success ==> CodesFor(subs, codes, v, o)
  {
    hide ReadSubscriptions, ReadSubscription, Packet.Rest, Packet.Readable, PrependSubs;
    subs, codes := [], [];
    ghost var whole := ReadSubscriptions(packet.Rest(), v, isBridge, o);
    NoSubscription(subs, v, isBridge, o);
    while packet.pos < packet.remainingLength
      invariant packet.Readable() && whole == PrependSubs(subs, ReadSubscriptions(packet.Rest(), v, isBridge, o))
      invariant CodesFor(subs, codes, v, o)
      decreases |packet.Rest()|
    {
      OneSubscription(subs, packet.Rest(), v, isBridge, o);
      var sub;
      rc, sub := ReadSubscriptionFrom(packet, v, isBridge);
      if rc != Success {
        return rc, subs, codes;
      }
      assert subs + [] == subs;
      if sub.Some? {
        var qos: Byte := sub.value.qos;
        if v != Mqtt31 {
          var verdict := o.acl(sub.value.filter, qos);
          if verdict == AclDenied {
            qos := 0x80;
          } else if verdict != Success {
            return verdict, subs, codes;
          }
        }
        if qos != 0x80 {
          var added := o.add(sub.value);
          if added != Success {
            return added, subs, codes;
          }
        }
        subs := subs + [sub.value];
        codes := codes + [qos];
      }
    }
    assert packet.Rest() == [];
    NoSubscription(subs, v, isBridge, o);
    return Success, subs, codes;
  }

  /** The SUBACK codes: the QoS that was asked for, or a failure (section 3.9.3) */
  ghost predicate CodesFor(subs: seq<Subscription>, codes: Bytes, v: Version, o: Surroundings) {
    && |codes| == |subs|
    && forall k :: 0 <= k < |subs| ==>
         codes[k] == if v != Mqtt31 && o.acl(subs[k].filter, subs[k].qos) == AclDenied then 0x80 else subs[k].qos
  }

  /** handle__subscribe, up to the SUBACK; codes is its payload. */
  method HandleSubscribe(packet: Packet, connected: bool, v: Version, isBridge: bool, o: Surroundings)
    returns (rc: Rc, request: Option<SubscribeRequest>, codes: Bytes)
    requires packet.Readable()
    modifies packet`pos
    ensures packet.Readable() && (rc == Success <==> request.Some?)
    ensures !connected ==> rc == Protocol
    ensures connected ==>
      match ParseSubscribe(old(packet.Rest()), packet.command, v, isBridge, o)
      case Bad(error, _) => rc == error
      case Ok(asked, rest) => request == Some(asked) && packet.Rest() == rest
    ensures rc == Success ==> CodesFor(request.value.subscriptions, codes, v, o)
  {
    hide Packet.Rest, Packet.Readable, ReadSubscriptions, ReadAll;
    codes := [];
    if !connected {
      return Protocol, None, codes;
    }
    if v != Mqtt31 {
      if packet.command % 16 != 2 {
        return Protocol, None, codes;
      }
    }
    var mid, ps: seq<Property>, subs;
    rc, mid := packet.ReadUint16();
    if rc != Success {
      return Failed, None, codes;
    }
    if mid == 0 {
      return Protocol, None, codes;
    }
    ps := [];
    if v == Mqtt5 {
      rc, ps := PropertyIO.ReadAllFrom(CMD_SUBSCRIBE, packet);
      if rc != Success {
        return rc, None, codes;
      }
      if ZeroIdentifier(ps) {
        return Protocol, None, codes;
      }
    }
    rc, subs, codes := ReadSubscriptionsFrom(packet, v, isBridge, o);
    if rc != Success {
      return rc, None, codes;
    }
    if v != Mqtt31 {
      if |codes| == 0 {
        return Protocol, None, codes;
      }
    }
    return Success, Some(SubscribeRequest(mid, SubscriptionId(ps), subs)), codes;
  }
}
