/** The PUBLISH packet (section 3.3 of MQTT 5.0): what send__real_publish of lib/send_publish.c writes, what
    handle__publish of src/handle_publish.c makes of it, and that the broker gets what was published. */
module Publish {
  import opened MosqTypes
  import opened Utf8
  import opened Wire
  import opened Properties
  import opened Connect

  /** What is to be published; caller and stored are the two property lists, expiry is 0 for none. */
  datatype Message = Message(topic: Option<Bytes>, mid: Word, qos: nat, retain: bool, dup: bool,
                             caller: seq<Property>, stored: seq<Property>, expiry: Dword, payload: Bytes)

  /** The string and integer limits that callers keep */
  predicate Publishable(m: Message) {
    && m.qos <= 2 && OptionCounts(m.topic) && |m.payload| <= 268435455
    && PropertiesFit(m.caller) && PropertiesFit(m.stored)
  }

  function ExpiryProperty(expiry: Dword): seq<Property> {
    if expiry > 0 then [Property(MESSAGE_EXPIRY_INTERVAL, I32(expiry))] else []
  }

  /** All properties, in the order in which they are written */
  function AllProperties(m: Message): seq<Property> {
    m.caller + (m.stored + ExpiryProperty(m.expiry))
  }

  lemma AllPropertiesTyped(m: Message)
    requires AllTyped(m.caller) && AllTyped(m.stored)
    ensures AllTyped(ExpiryProperty(m.expiry)) && AllTyped(AllProperties(m))
    ensures EncodeList(AllProperties(m)) == EncodeList(m.caller) + (EncodeList(m.stored) + EncodeList(ExpiryProperty(m.expiry)))
    ensures |EncodeList(ExpiryProperty(m.expiry))| <= 5
  {
    var expiry := ExpiryProperty(m.expiry);
    if m.expiry > 0 {
      LengthIsSize(expiry[0]);
      assert EncodeList(expiry) == EncodeProperty(expiry[0]) + [];
    }
    hide Typed, EncodeProperty;
    EncodeListAppend(m.stored, expiry);
    EncodeListAppend(m.caller, m.stored + expiry);
  }

  /** CMD_PUBLISH | dup << 3 | qos << 1 | retain */
  function PublishCommand(m: Message): Byte
    requires m.qos <= 2
  {
    CMD_PUBLISH + Bit(m.dup) * 8 + m.qos * 2 + Bit(m.retain)
  }

  function MidBytes(m: Message): Bytes {
    if m.qos > 0 then U16(m.mid) else []
  }

  function PublishBody(m: Message, v: Version): Bytes
    requires Publishable(m) && AllTyped(AllProperties(m))
  {
    Counted(OrEmpty(m.topic)) + (MidBytes(m) + (PropertyBytes(v, AllProperties(m)) + m.payload))
  }

  /** The remaining length that send__real_publish computes: no properties at all if they are too long */
  function PublishLength(m: Message, v: Version): nat
    requires AllTyped(AllProperties(m))
  {
    var proplen := |EncodeList(AllProperties(m))|;
    2 + |OrEmpty(m.topic)| + |m.payload| + (if m.qos > 0 then 2 else 0)
      + if v != Mqtt5 || VarintBytes(proplen) > 4 then 0 else proplen + VarintBytes(proplen)
  }

  /** What it then writes: the length of the properties is written all the same. */
  function PublishWritten(m: Message, v: Version): Bytes
    requires Publishable(m) && AllTyped(AllProperties(m))
  {
    if v == Mqtt5 && |EncodeList(AllProperties(m))| >= VARINT_LIMIT then
      Counted(OrEmpty(m.topic)) + (MidBytes(m) + (Varint(|EncodeList(AllProperties(m))|) + m.payload))
    else PublishBody(m, v)
  }

  /** The packet is filled exactly if and only if the properties are shorter than 2^28 bytes. */
  lemma PublishFill(m: Message, v: Version)
    requires Publishable(m) && AllTyped(AllProperties(m))
    ensures PublishLength(m, v) == |PublishWritten(m, v)| <==> v != Mqtt5 || |EncodeList(AllProperties(m))| < VARINT_LIMIT
    ensures PublishLength(m, v) < 0x8000_0000
  {
    PropertiesBounded(m);
    hide AllTyped, EncodeList, Varint;
    VarintSize(|EncodeList(AllProperties(m))|);
  }

  lemma PropertiesBounded(m: Message)
    requires Publishable(m)
    ensures AllTyped(AllProperties(m)) && |EncodeList(AllProperties(m))| < 0x4000_0005
  {
    AllPropertiesTyped(m);
  }

  // ---------------------------------------------------------------------------------------------
  // The broker
  // ---------------------------------------------------------------------------------------------

  /** What handle__publish looks at in the context and the configuration */
  datatype Listener = Listener(version: Version, maximumQos: nat, retainAvailable: bool, maxTopicAlias: nat, sizeLimit: nat)

  /** A PUBLISH as received; dropped if it is too large, and then without its payload */
  datatype Received = Received(topic: Bytes, mid: Word, qos: nat, retain: bool, dup: bool,
                               properties: seq<Property>, expiry: Dword, payload: Bytes, dropped: bool)

  type Aliases = map<int, Bytes>

  /** The topic alias, or -1 */
  function AliasOf(ps: seq<Property>, otherwise: int): int {
    if ps == [] then otherwise
    else AliasOf(ps[1..], if ps[0].identifier == TOPIC_ALIAS && ps[0].value.I16? then ps[0].value.word else otherwise)
  }

  /** alias__add and alias__find: the topic that is meant, and the aliases from now on */
  function Resolve(topic: Bytes, alias: int, maximum: nat, aliases: Aliases): (r: Option<(Option<Bytes>, Aliases)>) {
    if alias == 0 || alias > maximum then None
    else if alias > 0 then
      if topic != [] then Some((Some(topic), aliases[alias := topic]))
      else if alias in aliases then Some((Some(aliases[alias]), aliases))
      else None
    else Some((Pointer(topic), aliases))
  }

  ghost function ReadMid(s: Bytes, qos: nat): Parse<Word> {
    if qos == 0 then Ok(0, s)
    else
      match ReadU16(s)
      case Bad(_, rest) => Bad(Failed, rest)
      case Ok(mid, rest) => if mid == 0 then Bad(Protocol, rest) else Ok(mid, rest)
  }

  ghost function ReadPublishProperties(s: Bytes, v: Version): Parse<seq<Property>> {
    if v == Mqtt5 then ReadAll(CMD_PUBLISH, s) else Ok([], s)
  }

  /** handle__publish, as far as the payload; the aliases are returned beside the message. */
  ghost function ParsePublish(s: Bytes, command: Byte, l: Listener, aliases: Aliases): Parse<(Received, Aliases)> {
    var dup, qos, retain := command / 8 % 2 == 1, command / 2 % 4, command % 2 == 1;
    if qos == 3 || qos > l.maximumQos || (retain && !l.retainAvailable) then Bad(Failed, s)
    else
      match ReadString(s)
      case Bad(_, rest) => Bad(Failed, rest)
      case Ok(topic, rest) =>
        if topic == [] && l.version != Mqtt5 then Bad(Failed, rest)
        else
          match ReadMid(rest, qos)
          case Bad(rc, rest) => Bad(rc, rest)
          case Ok(mid, rest) =>
            match ReadPublishProperties(rest, l.version)
            case Bad(rc, rest) => Bad(rc, rest)
            case Ok(ps, rest) => Judge(topic, mid, qos, retain, dup, ps, rest, l, aliases)
  }

  function AliasError(alias: int, maximum: nat): Rc {
    if alias == 0 || alias > maximum then Protocol else Inval
  }

  /** The topic that the properties lead to is checked; the payload is all that is left. */
  function Judge(topic: Bytes, mid: Word, qos: nat, retain: bool, dup: bool, ps: seq<Property>, rest: Bytes,
                 l: Listener, aliases: Aliases): Parse<(Received, Aliases)> {
    var alias := AliasOf(ps, -1);
    var resolved := Resolve(topic, alias, l.maxTopicAlias, aliases);
    if resolved.None? then Bad(AliasError(alias, l.maxTopicAlias), rest)
    else
      var (named, after) := resolved.value;
      if named.None? || !TopicAccepted(named.value) then Bad(Failed, rest)
      else if l.sizeLimit > 0 && |rest| > l.sizeLimit then
        Ok((Received(named.value, mid, qos, retain, dup, Filtered(ps), LastDword(ps, MESSAGE_EXPIRY_INTERVAL, 0), [], true), after), rest)
      else
        Ok((Received(named.value, mid, qos, retain, dup, Filtered(ps), LastDword(ps, MESSAGE_EXPIRY_INTERVAL, 0), rest, false), after), [])
  }

  /** mosquitto_pub_topic_check, after the alias has been resolved */
  predicate TopicAccepted(s: Bytes) {
    |s| <= 65535 && Topic.ValidTopic(TopicText(s))
  }

  // ---------------------------------------------------------------------------------------------
  // The round trip
  // ---------------------------------------------------------------------------------------------

  /** A message that the broker has to take over from this client */
  ghost predicate ValidFor(m: Message, l: Listener) {
    && Publishable(m) && m.qos <= l.maximumQos && (m.retain ==> l.retainAvailable)
    && m.topic.Some? && Text(m.topic.value) && TopicOk(m.topic.value)
    && (m.qos > 0 ==> m.mid != 0)
    && (l.version == Mqtt5 ==> Sendable(CMD_PUBLISH, AllProperties(m)) && AliasOf(AllProperties(m), -1) <= l.maxTopicAlias)
    && (l.sizeLimit > 0 ==> |m.payload| <= l.sizeLimit)
  }

  /** What the broker should get */
  function MeantMessage(m: Message, v: Version): Received
    requires m.topic.Some?
  {
    var ps := if v == Mqtt5 then AllProperties(m) else [];
    Received(m.topic.value, if m.qos > 0 then m.mid else 0, m.qos, m.retain, m.dup,
             Filtered(ps), LastDword(ps, MESSAGE_EXPIRY_INTERVAL, 0), m.payload, false)
  }

  function AliasesAfter(m: Message, v: Version, aliases: Aliases): Aliases
    requires m.topic.Some?
  {
    var alias := AliasOf(if v == Mqtt5 then AllProperties(m) else [], -1);
    if alias > 0 then aliases[alias := m.topic.value] else aliases
  }

  lemma CommandBits(m: Message)
    requires m.qos <= 2
    ensures var c := PublishCommand(m);
      c / 16 == 3 && c / 8 % 2 == Bit(m.dup) && c / 2 % 4 == m.qos && c % 2 == Bit(m.retain)
  {
    var c := PublishCommand(m);
    assert c / 2 == 24 + Bit(m.dup) * 4 + m.qos;
    assert c / 8 == 6 + Bit(m.dup);
  }

  lemma AcceptedAliasIsNotZero(ps: seq<Property>)
    requires Accepted(CMD_PUBLISH, ps)
    ensures AliasOf(ps, -1) != 0
  {
    AliasNotZero(ps, -1);
  }

  lemma {:induction false} AliasNotZero(ps: seq<Property>, otherwise: int)
    requires otherwise != 0 && forall k :: 0 <= k < |ps| ==> ValueOk(ps[k])
    ensures AliasOf(ps, otherwise) != 0
    decreases |ps|
  {
    if ps != [] {
      assert ValueOk(ps[0]);
      assert forall k :: 0 <= k < |ps[1..]| ==> ps[1..][k] == ps[k + 1];
      AliasNotZero(ps[1..], if ps[0].identifier == TOPIC_ALIAS && ps[0].value.I16? then ps[0].value.word else otherwise);
    }
  }

  lemma NoAlias()
    ensures AliasOf([], -1) == -1
  {
  }

  lemma MidReadBack(m: Message, rest: Bytes)
    requires m.qos > 0 ==> m.mid != 0
    ensures ReadMid(MidBytes(m) + rest, m.qos) == Ok(if m.qos > 0 then m.mid else 0, rest)
  {
    if m.qos > 0 {
      U16ReadBack(m.mid, rest);
    } else {
      assert [] + rest == rest;
    }
  }

  lemma JudgedAsMeant(m: Message, l: Listener, aliases: Aliases)
    requires ValidFor(m, l)
    ensures Judge(m.topic.value, if m.qos > 0 then m.mid else 0, m.qos, m.retain, m.dup,
                  if l.version == Mqtt5 then AllProperties(m) else [], m.payload, l, aliases)
      == Ok((MeantMessage(m, l.version), AliasesAfter(m, l.version, aliases)), [])
  {
    hide AllProperties, Filtered, LastDword, WellFormed, AllTyped, AllValidText, Accepted, AliasOf, TopicText,
         Publishable;
    if l.version == Mqtt5 {
      AcceptedAliasIsNotZero(AllProperties(m));
    } else {
      NoAlias();
    }
  }

  /** The broker gets what was published: topic, flags, identifier, the properties that go on and the expiry interval,
      and as payload exactly what is left. */
  lemma PublishRoundTrip(m: Message, l: Listener, aliases: Aliases)
    requires ValidFor(m, l) && AllTyped(AllProperties(m))
    ensures ParsePublish(PublishBody(m, l.version), PublishCommand(m), l, aliases)
         == Ok((MeantMessage(m, l.version), AliasesAfter(m, l.version, aliases)), [])
  {
    hide AllProperties, AllTyped, Judge, ReadString, ReadMid, ReadAll, Counted, WellFormed, EncodeProperties,
         PublishCommand,
         MidBytes, Sendable, MeantMessage, AliasesAfter, TopicOk, AliasOf;
    var topic, ps := m.topic.value, AllProperties(m);
    CommandBits(m);
    var tail := PropertyBytes(l.version, ps) + m.payload;
    StringReadBack(topic, MidBytes(m) + tail);
    TopicNotEmpty(topic);
    MidReadBack(m, tail);
    if l.version == Mqtt5 {
      AllReadBack(CMD_PUBLISH, ps, m.payload);
    } else {
      assert tail == m.payload;
    }
    JudgedAsMeant(m, l, aliases);
  }

  // ---------------------------------------------------------------------------------------------
  // Nothing else is accepted
  // ---------------------------------------------------------------------------------------------

  predicate IsSuffix(rest: Bytes, s: Bytes) {
    |rest| <= |s| && s[|s| - |rest|..] == rest
  }

  lemma BehindIsSuffix(front: Bytes, rest: Bytes)
    ensures IsSuffix(rest, front + rest)
  {
  }

  lemma SuffixOfSuffix(c: Bytes, b: Bytes, a: Bytes)
    requires IsSuffix(c, b) && IsSuffix(b, a)
    ensures IsSuffix(c, a)
  {
    assert a[|a| - |c|..] == a[|a| - |b|..][|b| - |c|..];
  }

  lemma AfterTopic(s: Bytes)
    requires ReadString(s).Ok?
    ensures IsSuffix(ReadString(s).rest, s) && WellFormed(ReadString(s).value)
  {
    hide ReadString, WellFormed, Counted;
    StringCanonical(s);
    BehindIsSuffix(Counted(ReadString(s).value), ReadString(s).rest);
  }

  lemma AfterMid(s: Bytes, qos: nat)
    requires ReadMid(s, qos).Ok?
    ensures IsSuffix(ReadMid(s, qos).rest, s) && (ReadMid(s, qos).value == 0 <==> qos == 0)
  {
    if qos > 0 {
      U16Canonical(s);
      BehindIsSuffix(U16(ReadU16(s).value), ReadU16(s).rest);
    }
  }

  lemma AfterProperties(s: Bytes, v: Version)
    requires ReadPublishProperties(s, v).Ok?
    ensures var ps := ReadPublishProperties(s, v).value;
      && IsSuffix(ReadPublishProperties(s, v).rest, s)
      && AllTyped(ps) && AllValidText(ps) && Accepted(CMD_PUBLISH, ps) && (v != Mqtt5 ==> ps == [])
  {
    hide ReadAll, Varint, EncodeList, Typed, ValidText, ValueOk, CheckCommand;
    if v == Mqtt5 {
      AllCanonical(CMD_PUBLISH, s);
      BehindIsSuffix(Varint(ReadVarint(s).value) + EncodeList(ReadAll(CMD_PUBLISH, s).value), ReadAll(CMD_PUBLISH, s).rest);
    }
  }

  /** A PUBLISH that is taken over satisfies the standard: the properties that go on are those of a list that may be
      sent with PUBLISH. */
  ghost predicate Lawful(r: Received, l: Listener, ps: seq<Property>) {
    && r.qos <= 2 && r.qos <= l.maximumQos && (r.mid == 0 <==> r.qos == 0)
    && (r.retain ==> l.retainAvailable)
    && TopicAccepted(r.topic)
    && AllTyped(ps) && AllValidText(ps) && Accepted(CMD_PUBLISH, ps) && (l.version != Mqtt5 ==> ps == [])
    && r.properties == Filtered(ps) && r.expiry == LastDword(ps, MESSAGE_EXPIRY_INTERVAL, 0)
  }

  /** Whatever PUBLISH the broker takes over is lawful, and its payload is exactly the end of the packet. */
  lemma AcceptedPublish(s: Bytes, command: Byte, l: Listener, aliases: Aliases) returns (ps: seq<Property>)
    requires ParsePublish(s, command, l, aliases).Ok?
    ensures var (r, after) := ParsePublish(s, command, l, aliases).value;
      && Lawful(r, l, ps)
      && (!r.dropped ==> IsSuffix(r.payload, s) && ParsePublish(s, command, l, aliases).rest == [])
      && (r.dropped ==> 0 < l.sizeLimit < |ParsePublish(s, command, l, aliases).rest|)
  {
    hide ReadString, ReadMid, ReadPublishProperties, AllTyped, AllValidText, Accepted, TopicAccepted, Filtered, LastDword,
         AliasOf, Resolve, IsSuffix, WellFormed;
    AfterTopic(s);
    var a, qos := ReadString(s).rest, command / 2 % 4;
    AfterMid(a, qos);
    var b := ReadMid(a, qos).rest;
    AfterProperties(b, l.version);
    var c := ReadPublishProperties(b, l.version).rest;
    SuffixOfSuffix(b, a, s);
    SuffixOfSuffix(c, b, s);
    ps := ReadPublishProperties(b, l.version).value;
  }
}
