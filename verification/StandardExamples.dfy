/** Concrete bytes, tables and rules of MQTT 5.0, as the encoders and the checks of the code have them. */
module StandardExamples {
  import opened MosqTypes
  import opened Utf8
  import opened Wire
  import opened Properties
  import opened Connect
  import opened Publish
  import Subscribe
  import Commands

  // ---------------------------------------------------------------------------------------------
  // Data representations (section 1.5)
  // ---------------------------------------------------------------------------------------------

  /** The number that bytes stand for, most significant first */
  function BigEndian(s: Bytes): int {
    if s == [] then 0 else BigEndian(s[..|s| - 1]) * 256 + s[|s| - 1]
  }

  lemma NetworkOrder(w: Word, d: Dword)
    ensures BigEndian(U16(w)) == w && BigEndian(U32(d)) == d
  {
    hide BigEndian;
    var a, b := U16(w), U32(d);
    OneMore([], a[0]);
    OneMore([a[0]], a[1]);
    assert a == [a[0]] + [a[1]];
    OneMore([], b[0]);
    OneMore([b[0]], b[1]);
    OneMore([b[0], b[1]], b[2]);
    OneMore([b[0], b[1], b[2]], b[3]);
    assert b == [b[0], b[1], b[2]] + [b[3]] && [b[0], b[1], b[2]] == [b[0], b[1]] + [b[2]];
    assert [b[0], b[1]] == [b[0]] + [b[1]] && [b[0]] == [] + [b[0]] && [a[0]] == [] + [a[0]];
  }

  lemma OneMore(s: Bytes, b: Byte)
    ensures BigEndian(s + [b]) == BigEndian(s) * 256 + b && BigEndian([]) == 0
  {
    assert (s + [b])[..|s|] == s;
  }

  /** The limits of each length of a variable byte integer (section 1.5.5) */
  lemma VarintTable()
    ensures Varint(0) == [0x00] && Varint(127) == [0x7F]
    ensures Varint(128) == [0x80, 0x01] && Varint(16383) == [0xFF, 0x7F]
    ensures Varint(16384) == [0x80, 0x80, 0x01] && Varint(2097151) == [0xFF, 0xFF, 0x7F]
    ensures Varint(2097152) == [0x80, 0x80, 0x80, 0x01] && Varint(268435455) == [0xFF, 0xFF, 0xFF, 0x7F]
  {
    assert Varint(1) == [1];
    assert Varint(128) == [128] + Varint(1);
    assert Varint(16384) == [128] + Varint(128);
    assert Varint(2097152) == [128] + Varint(16384);
    assert Varint(16383) == [255] + Varint(127);
    assert Varint(2097151) == [255] + Varint(16383);
    assert Varint(268435455) == [255] + Varint(2097151);
  }

  /** A LATIN CAPITAL LETTER A and U+2A6D4 (section 1.5.4) */
  lemma Utf8Example()
    ensures var s := Encode(0x41) + Encode(0x2A6D4);
      Counted(s) == [0x00, 0x05, 0x41, 0xF0, 0xAA, 0x9B, 0x94]
  {
    assert Encode(0x41) == [0x41] && Encode(0x2A6D4) == [0xF0, 0xAA, 0x9B, 0x94];
  }

  // ---------------------------------------------------------------------------------------------
  // Properties
  // ---------------------------------------------------------------------------------------------

  /** The identifiers of each type (section 2.2.2.2) */
  lemma PropertyTypes(id: nat)
    ensures KindOf(id) == ByteKind <==> id in {0x01, 0x17, 0x19, 0x24, 0x25, 0x28, 0x29, 0x2A}
    ensures KindOf(id) == WordKind <==> id in {0x13, 0x21, 0x22, 0x23}
    ensures KindOf(id) == DwordKind <==> id in {0x02, 0x11, 0x18, 0x27}
    ensures KindOf(id) == VarintKind <==> id == 0x0B
    ensures KindOf(id) == StringKind <==> id in {0x03, 0x08, 0x12, 0x15, 0x1A, 0x1C, 0x1F}
    ensures KindOf(id) == BinaryKind <==> id in {0x09, 0x16}
    ensures KindOf(id) == PairKind <==> id == 0x26
  {
  }

  /** The properties of each packet (section 2.2.2.2). The library lets a will have a reason string, which the standard does
      not. */
  lemma PropertiesByPacket(id: nat)
    ensures CheckCommand(0x30, id) == Success <==> id in {0x01, 0x02, 0x03, 0x08, 0x09, 0x0B, 0x23, 0x26}
    ensures CheckCommand(CMD_WILL, id) == Success <==> id in {0x01, 0x02, 0x03, 0x08, 0x09, 0x18, 0x1F, 0x26}
    ensures CheckCommand(0x10, id) == Success <==> id in {0x11, 0x15, 0x16, 0x17, 0x19, 0x21, 0x22, 0x26, 0x27}
    ensures CheckCommand(0x20, id) == Success <==>
      id in {0x11, 0x12, 0x13, 0x15, 0x16, 0x1A, 0x1C, 0x1F, 0x21, 0x22, 0x24, 0x25, 0x26, 0x27, 0x28, 0x29, 0x2A}
    ensures CheckCommand(0x80, id) == Success <==> id in {0x0B, 0x26}
    ensures CheckCommand(0xA0, id) == Success <==> id == 0x26
    ensures CheckCommand(0xE0, id) == Success <==> id in {0x11, 0x1C, 0x1F, 0x26}
    ensures CheckCommand(0xF0, id) == Success <==> id in {0x15, 0x16, 0x1F, 0x26}
    ensures forall command :: command in {0x40, 0x50, 0x60, 0x70, 0x90, 0xB0} ==>
      (CheckCommand(command, id) == Success <==> id in {0x1F, 0x26})
  {
  }

  /** The values that are refused: flags above 1 and limits of 0 (sections 3.1.2.11, 3.2.2.3 and 3.3.2.3) */
  lemma ValueRules(p: Property)
    requires Typed(p)
    ensures ValueOk(p) <==>
      && (p.identifier in {0x17, 0x19, 0x24, 0x25, 0x28, 0x29, 0x2A} ==> p.value.I8? && p.value.byte in {0, 1})
      && (p.identifier in {0x21, 0x23} ==> p.value.I16? && p.value.word > 0)
      && (p.identifier == 0x27 ==> p.value.I32? && p.value.dword > 0)
  {
  }

  /** What goes on with a message, from PUBLISH or a will: payload format, content type, response topic, correlation data and
      user properties, in their order */
  lemma {:induction false} ForwardedInOrder(a: seq<Property>, b: seq<Property>, p: Property)
    ensures Filtered([]) == []
    ensures Filtered([p]) == if p.identifier in {0x01, 0x03, 0x08, 0x09, 0x26} then [p] else []
    ensures Filtered(a + b) == Filtered(a) + Filtered(b)
  {
    assert [p][1..] == [] && Filtered([p][1..]) == [];
    if a == [] {
      assert a + b == b && Filtered(a) + Filtered(b) == Filtered(b);
    } else {
      assert (a + b)[1..] == a[1..] + b;
      ForwardedInOrder(a[1..], b, p);
    }
  }

  /** Of several four-byte properties the last counts, and so does the last topic alias. */
  lemma {:induction false} LastCounts(a: seq<Property>, p: Property, id: nat, otherwise: Dword, none: int)
    ensures LastDword([], id, otherwise) == otherwise && AliasOf([], none) == none
    ensures LastDword(a + [p], id, otherwise) ==
      if p.identifier == id && p.value.I32? then p.value.dword else LastDword(a, id, otherwise)
    ensures AliasOf(a + [p], none) == if p.identifier == 0x23 && p.value.I16? then p.value.word else AliasOf(a, none)
  {
    if a == [] {
      assert a + [p] == [p] && [p][1..] == [];
    } else {
      assert (a + [p])[1..] == a[1..] + [p];
      var first := a[0];
      var next := if first.identifier == id && first.value.I32? then first.value.dword else otherwise;
      var alias := if first.identifier == TOPIC_ALIAS && first.value.I16? then first.value.word else none;
      LastCounts(a[1..], p, id, next, alias);
    }
  }

  /** A topic alias of 0 or above the maximum is refused; with a topic it is assigned, without one it stands for the topic it
      was assigned to (section 3.3.2.3.4). */
  lemma AliasRules(topic: Bytes, alias: int, maximum: nat, aliases: Aliases)
    requires -1 <= alias
    ensures var r := Resolve(topic, alias, maximum, aliases);
      && (alias == 0 || alias > maximum ==> r.None?)
      && (0 < alias <= maximum && topic != [] ==> r == Some((Some(topic), aliases[alias := topic])))
      && (0 < alias <= maximum && topic == [] && alias in aliases ==> r == Some((Some(aliases[alias]), aliases)))
      && (0 < alias <= maximum && topic == [] && alias !in aliases ==> r.None?)
      && (alias == -1 ==> r.Some? && r.value.1 == aliases && r.value.0 == if topic == [] then None else Some(topic))
  {
  }

  /** The options of a subscription: two bits of QoS, and in version 5 the rest beside it (section 3.8.3.1) */
  lemma OptionBits(filter: Bytes, byte: Byte, isBridge: bool)
    ensures var s := Subscribe.SubscriptionOf(filter, byte, Mqtt5, isBridge);
      s.filter == filter && s.qos + s.options == byte && s.qos in {0, 1, 2, 3} && s.options % 4 == 0
    ensures Subscribe.SubscriptionOf(filter, byte, Mqtt311, false) == Subscribe.Subscription(filter, byte, byte)
    ensures Subscribe.SubscriptionOf(filter, byte, Mqtt311, true) == Subscribe.Subscription(filter, byte, 0x0C)
    ensures Subscribe.OptionsOk(byte, Mqtt5) <==> byte < 0x40 && !(0x30 <= byte % 0x40)
  {
  }

  // ---------------------------------------------------------------------------------------------
  // Packets
  // ---------------------------------------------------------------------------------------------

  lemma OneProperty(p: Property)
    requires Typed(p)
    ensures AllTyped([p]) && EncodeList([p]) == EncodeProperty(p)
  {
    assert [p][1..] == [];
    assert EncodeProperty(p) + [] == EncodeProperty(p);
  }

  /** The variable header of CONNECT (section 3.1.2): user name, password, will at QoS 1 and clean start, keepalive 10, session
      expiry interval 10 */
  lemma ConnectExample(r: Request)
    requires r.version == Mqtt5 && r.cleanSession && r.keepalive == 10 && r.username.Some? && r.password.Some?
    requires r.will.Some? && r.will.value.qos == 1 && !r.will.value.retain
    requires r.properties == [Property(SESSION_EXPIRY_INTERVAL, I32(10))] && Encodable(r)
    ensures Preamble(r) + PropertyBytes(r.version, r.properties) ==
      [0, 4, 0x4D, 0x51, 0x54, 0x54, 5, 0xCE, 0, 10, 5, 17, 0, 0, 0, 10]
  {
    hide Encodable, AllTyped, EncodeList, Typed;
    var p := r.properties[0];
    assert Typed(p) by { SessionExpiryTyped(); }
    assert U16(4) == [0, 4] && U16(10) == [0, 10] && U32(10) == [0, 0, 0, 10];
    assert Varint(17) == [17] && Varint(5) == [5];
    OneProperty(p);
    assert EncodeProperty(p) == [17, 0, 0, 0, 10];
    assert Flags(r.cleanSession, r.will, true, true) == 0xCE;
  }

  lemma SessionExpiryTyped()
    ensures Typed(Property(SESSION_EXPIRY_INTERVAL, I32(10)))
  {
  }

  lemma NoProperties()
    ensures AllTyped([]) && EncodeProperties([]) == [0]
  {
    assert Varint(0) == [0];
  }

  /** The variable header and payload of PUBLISH (section 3.3.2): topic a/b, identifier 10, no properties */
  lemma PublishExample(m: Message)
    requires m.topic == Some([0x61, 0x2F, 0x62]) && m.mid == 10 && m.qos > 0 && Publishable(m)
    requires m.caller == m.stored == [] && m.expiry == 0
    ensures AllTyped(AllProperties(m)) && PublishBody(m, Mqtt5) == [0, 3, 0x61, 0x2F, 0x62, 0, 10, 0] + m.payload
    ensures PublishBody(m, Mqtt311) == [0, 3, 0x61, 0x2F, 0x62, 0, 10] + m.payload
  {
    hide Typed, EncodeProperties, PropertiesFit;
    assert AllProperties(m) == [];
    NoProperties();
    assert U16(3) == [0, 3] && U16(10) == [0, 10];
    assert Counted([0x61, 0x2F, 0x62]) == [0, 3, 0x61, 0x2F, 0x62];
    hide U16, Counted;
    InFront([0, 3, 0x61, 0x2F, 0x62], [0, 10], [0], m.payload);
    InFront([0, 3, 0x61, 0x2F, 0x62], [0, 10], [], m.payload);
  }

  lemma InFront(a: Bytes, b: Bytes, c: Bytes, d: Bytes)
    ensures a + (b + (c + d)) == a + b + c + d
  {
  }

  /** Its first byte (section 3.3.1) */
  lemma PublishFirstByte(m: Message)
    requires m.qos <= 2
    ensures PublishCommand(m) / 16 == 3 && PublishCommand(m) % 2 == (if m.retain then 1 else 0)
    ensures PublishCommand(m) / 2 % 4 == m.qos && PublishCommand(m) / 8 % 2 == (if m.dup then 1 else 0)
  {
  }

  /** The variable header and payload of SUBSCRIBE (sections 3.8.2 and 3.8.3), with one option byte for both filters as the
      library sends it: filters a/b and c/d at QoS 1, identifier 10 */
  lemma SubscribeExample()
    ensures var topics: seq<Bytes> := [[0x61, 0x2F, 0x62], [0x63, 0x2F, 0x64]];
      && Subscribe.AllCount(topics)
      && Subscribe.SubscribeBody(10, Mqtt5, [], topics, Some(1)) ==
           [0, 10, 0, 0, 3, 0x61, 0x2F, 0x62, 1, 0, 3, 0x63, 0x2F, 0x64, 1]
  {
    var topics: seq<Bytes> := [[0x61, 0x2F, 0x62], [0x63, 0x2F, 0x64]];
    assert U16(3) == [0, 3] && U16(10) == [0, 10] && Varint(0) == [0];
    var second: seq<Bytes> := [topics[1]];
    assert topics[1..] == second && second[1..] == [];
    assert Subscribe.TopicList(second, Some(1)) == [0, 3, 0x63, 0x2F, 0x64, 1];
    assert Subscribe.TopicList(topics, Some(1)) == [0, 3, 0x61, 0x2F, 0x62, 1] + Subscribe.TopicList(second, Some(1));
  }

  /** The short packets (sections 3.4 to 3.7 and 3.14): identifier 0x1234 with and without a reason code */
  lemma AckExamples()
    ensures Commands.AckBody(0x1234, Mqtt311, 0x80, None) == [0x12, 0x34]
    ensures Commands.AckBody(0x1234, Mqtt5, 0, None) == [0x12, 0x34]
    ensures Commands.AckBody(0x1234, Mqtt5, 0x92, None) == [0x12, 0x34, 0x92]
    ensures Commands.CMD_PUBACK == 0x40 && Commands.CMD_PUBREC == 0x50 && CMD_PUBREL == 0x60 && Commands.CMD_PUBCOMP == 0x70
  {
    assert U16(0x1234) == [0x12, 0x34];
  }
}
