/** Sending and handling PUBLISH: lib/send_publish.c and src/handle_publish.c. */
module PublishIO {
  import opened MosqTypes
  import opened Utf8
  import opened Wire
  import opened Framing
  import opened Packets
  import opened Properties
  import opened Connect
  import opened Publish
  import ConnectIO
  import PropertySplit
  import PropertyIO
  import Topic

  /** packet__check_oversize; maximum is 0 if there is none. */
  function CheckOversize(remainingLength: nat, maximum: nat): Rc {
    if maximum > 0 && remainingLength + VarintBytes(remainingLength) > maximum then OversizePacket else Success
  }

  method WriteOptionalString(packet: Packet, s: Option<Bytes>)
    requires OptionCounts(s) && packet.Writable() && 2 + |OrEmpty(s)| <= packet.packetLength - packet.pos
    modifies packet`pos, packet.payload
    ensures packet.Writable() && packet.Written() == old(packet.Written()) + Counted(OrEmpty(s))
  {
    hide Packet.Written, U16;
    if s.Some? {
      packet.WriteString(s.value);
    } else {
      packet.WriteUint16(0);
      assert U16(0) + [] == U16(0);
    }
  }

  /** The properties of send__real_publish: the caller's, the stored message's, and the expiry interval */
  method WriteAllProperties(packet: Packet, m: Message)
    requires AllTyped(m.caller) && AllTyped(m.stored) && AllTyped(AllProperties(m))
    requires |EncodeList(AllProperties(m))| < VARINT_LIMIT
    requires packet.Writable() && |EncodeProperties(AllProperties(m))| <= packet.packetLength - packet.pos
    modifies packet`pos, packet.payload
    ensures packet.Writable() && packet.Written() == old(packet.Written()) + EncodeProperties(AllProperties(m))
  {
    hide AllTyped, AllProperties, EncodeList, Varint, Packet.Written;
    AllPropertiesTyped(m);
    ghost var before := packet.Written();
    var proplen := Proplen(m);
    var rc := packet.WriteVarint(proplen);
    rc := PropertyIO.WriteAll(packet, m.caller, false);
    rc := PropertyIO.WriteAll(packet, m.stored, false);
    if m.expiry > 0 {
      rc := PropertyIO.WriteAll(packet, ExpiryProperty(m.expiry), false);
    } else {
      NoExpiry();
    }
    Associate5(before, Varint(proplen), EncodeList(m.caller), EncodeList(m.stored), EncodeList(ExpiryProperty(m.expiry)));
  }

  lemma NoExpiry()
    ensures EncodeList(ExpiryProperty(0)) == []
  {
  }

  lemma Associate5(a: Bytes, b: Bytes, c: Bytes, d: Bytes, e: Bytes)
    ensures a + b + c + d + e == a + (b + (c + (d + e)))
  {
  }

  /** The length of all properties */
  method Proplen(m: Message) returns (proplen: nat)
    requires AllTyped(m.caller) && AllTyped(m.stored) && AllTyped(AllProperties(m))
    ensures proplen == |EncodeList(AllProperties(m))|
  {
    hide AllTyped, AllProperties, EncodeList;
    AllPropertiesTyped(m);
    proplen := PropertyIO.GetLengthAll(m.caller);
    var more := PropertyIO.GetLengthAll(m.stored);
    proplen := proplen + more;
    if m.expiry > 0 {
      more := PropertyIO.GetLengthAll(ExpiryProperty(m.expiry));
      proplen := proplen + more;
    } else {
      NoExpiry();
    }
  }

  /** Properties of version 5 that are too long for a length of four bytes */
  predicate TooManyProperties(m: Message, v: Version)
    requires AllTyped(AllProperties(m))
  {
    v == Mqtt5 && |EncodeList(AllProperties(m))| >= VARINT_LIMIT
  }

  /** send__real_publish, up to packet__queue. A packet that is made is the message, and is filled exactly. With
      properties of 2^28 bytes or more, none of which the packet has room for, their length is written all the same: then
      an assertion of packet__write_byte or packet__write_bytes ends the program, which overrun stands for. */
  method SendRealPublish(m: Message, v: Version, maximumPacketSize: nat) returns (rc: Rc, packet: Packet?, overrun: bool)
    requires Publishable(m) && AllTyped(AllProperties(m))
    ensures rc == if CheckOversize(PublishLength(m, v), maximumPacketSize) != Success then OversizePacket
                  else if PublishLength(m, v) >= VARINT_LIMIT then PayloadSize
                  else Success
    ensures overrun <==> rc == Success && TooManyProperties(m, v)
    ensures rc == Success && !overrun <==> packet != null
    ensures packet != null ==>
      fresh(packet) && packet.mid == m.mid && packet.Carries(PublishCommand(m), PublishBody(m, v))
  {
    hide AllTyped, AllProperties, EncodeList, EncodeProperties, Varint, Packet.Written, Counted, PublishCommand, PublishBody;
    packet, overrun := null, false;
    var packetlen := 2 + |m.payload| + if m.topic.Some? then |m.topic.value| else 0;
    if m.qos > 0 {
      packetlen := packetlen + 2;
    }
    if v == Mqtt5 {
      var proplen := Proplen(m);
      var varbytes := VarintBytes(proplen);
      if varbytes <= 4 {
        packetlen := packetlen + proplen + varbytes;
      }
    }
    BodySize(m, v);
    if CheckOversize(packetlen, maximumPacketSize) != Success {
      return OversizePacket, null, false;
    }
    var p := new Packet();
    p.mid := m.mid;
    p.command := PublishCommand(m);
    p.remainingLength := packetlen;
    rc := p.Alloc();
    if rc != Success {
      return rc, null, false;
    }
    overrun := WriteBody(p, m, v);
    if !overrun {
      FrameIs(p.command, PublishBody(m, v));
      packet := p;
    }
  }

  lemma BodySize(m: Message, v: Version)
    requires Publishable(m) && AllTyped(AllProperties(m))
    ensures PublishLength(m, v) < 0x8000_0000
    ensures !TooManyProperties(m, v) ==> |PublishBody(m, v)| == PublishLength(m, v)
    ensures v == Mqtt5 ==> (TooManyProperties(m, v) <==> VarintBytes(|EncodeList(AllProperties(m))|) > 4)
  {
    hide AllTyped, AllProperties, EncodeList, Varint;
    PublishFill(m, v);
  }

  /** The body, piece by piece, as far as there is room for it */
  method WriteBody(packet: Packet, m: Message, v: Version) returns (overrun: bool)
    requires Publishable(m) && AllTyped(AllProperties(m))
    requires packet.Writable() && PublishLength(m, v) == packet.packetLength - packet.pos
    modifies packet`pos, packet.payload
    ensures packet.Writable() && (overrun <==> TooManyProperties(m, v))
    ensures overrun ==> packet.pos + |Varint(|EncodeList(AllProperties(m))|) + m.payload| > packet.packetLength
    ensures !overrun ==>
      packet.pos == packet.packetLength && packet.Written() == old(packet.Written()) + PublishBody(m, v)
  {
    hide AllTyped, AllProperties, EncodeList, EncodeProperties, Varint, Packet.Written, Counted, U16;
    ghost var before := packet.Written();
    BodySize(m, v);
    PropertiesBounded(m);
    PropertiesSize(AllProperties(m));
    WriteOptionalString(packet, m.topic);
    if m.qos > 0 {
      packet.WriteUint16(m.mid);
    }
    assert packet.Written() == before + Counted(OrEmpty(m.topic)) + MidBytes(m);
    if v == Mqtt5 {
      var proplen := Proplen(m);
      if VarintBytes(proplen) > 4 {
        return true;
      }
      WriteAllProperties(packet, m);
    }
    assert packet.Written() == before + Counted(OrEmpty(m.topic)) + MidBytes(m) + PropertyBytes(v, AllProperties(m));
    if |m.payload| > 0 {
      packet.WriteBytes(m.payload);
    }
    Associate5(before, Counted(OrEmpty(m.topic)), MidBytes(m), PropertyBytes(v, AllProperties(m)), m.payload);
    return false;
  }

  lemma PropertiesSize(ps: seq<Property>)
    requires AllTyped(ps) && |EncodeList(ps)| < 0x8000_0000
    ensures |EncodeProperties(ps)| == |Varint(|EncodeList(ps)|)| + |EncodeList(ps)|
    ensures |Varint(|EncodeList(ps)|)| == VarintBytes(|EncodeList(ps)|)
  {
    hide Varint, EncodeList;
    VarintSize(|EncodeList(ps)|);
  }

  // ---------------------------------------------------------------------------------------------
  // The broker
  // ---------------------------------------------------------------------------------------------

  /** The loop over the properties, on the list of nodes that property__read_all makes of them */
  method SplitProperties(ps: seq<Property>) returns (forward: seq<Property>, alias: int, expiry: Dword)
    requires AllTyped(ps) && Accepted(CMD_PUBLISH, ps)
    ensures forward == Filtered(ps) && alias == AliasOf(ps, -1) && expiry == LastDword(ps, MESSAGE_EXPIRY_INTERVAL, 0)
  {
    hide *;
    var list, nodes := PropertySplit.FromValues(ps);
    ghost var chosen := PropertySplit.Chosen(nodes, true);
    var properties, msgProperties: PropertySplit.Node?;
    properties, msgProperties, alias, expiry := PropertySplit.Split(list, nodes);
    forward := PropertySplit.ToValues(msgProperties, chosen);
  }

  /** The context that a PUBLISH comes from */
  class Context {
    var aliases: Aliases

    /** The known topics are strings. */
    ghost predicate Valid()
      reads this
    {
      forall a <- aliases :: 0 !in aliases[a]
    }

    /** From the topic alias on, up to the payload */
    method Resolved(packet: Packet, topic: Bytes, mid: Word, qos: nat, retain: bool, dup: bool, ps: seq<Property>, l: Listener)
      returns (rc: Rc, received: Option<Received>)
      requires Valid() && packet.Readable() && AllTyped(ps) && Accepted(CMD_PUBLISH, ps) && 0 !in topic
      modifies this, packet`pos
      ensures Valid() && packet.Readable() && (rc == Success <==> received.Some?)
      ensures match Judge(topic, mid, qos, retain, dup, ps, old(packet.Rest()), l, old(aliases))
        case Bad(error, _) => rc == error
        case Ok((m, after), rest) => received == Some(m) && aliases == after && packet.Rest() == rest
    {
      hide Packet.Rest, Packet.Readable, AllTyped, Accepted, Filtered, LastDword, AliasOf, TopicText;
      var forward, alias, expiry := SplitProperties(ps);
      var named := Pointer(topic);
      if alias == 0 || alias > l.maxTopicAlias {
        return Protocol, None;
      } else if alias > 0 {
        if topic != [] {
          aliases := aliases[alias := topic];
        } else if alias in aliases {
          named := Some(aliases[alias]);
        } else {
          return Inval, None;
        }
      }
      if named.None? {
        return Failed, None;
      }
      ConnectIO.TextOf(named.value);
      rc := Topic.PubTopicCheck(TopicText(named.value));
      if rc != Success {
        return Failed, None;
      }
      var payloadlen := packet.remainingLength - packet.pos;
      var payload: Bytes := [];
      if payloadlen > 0 {
        if l.sizeLimit > 0 && payloadlen > l.sizeLimit {
          return Success, Some(Received(named.value, mid, qos, retain, dup, forward, expiry, [], true));
        }
        ghost var rest := packet.Rest();
        rc, payload := packet.ReadBytes(payloadlen);
        assert rest[..|rest|] == rest && rest[|rest|..] == [];
      }
      return Success, Some(Received(named.value, mid, qos, retain, dup, forward, expiry, payload, false));
    }

    /** handle__publish, up to the payload */
    method HandlePublish(packet: Packet, connected: bool, l: Listener) returns (rc: Rc, received: Option<Received>)
      requires Valid() && packet.Readable()
      modifies this, packet`pos
      ensures Valid() && packet.Readable() && (rc == Success <==> received.Some?)
      ensures !connected ==> rc == Protocol
      ensures connected ==>
        match ParsePublish(old(packet.Rest()), packet.command, l, old(aliases))
        case Bad(error, _) => rc == error
        case Ok((m, after), rest) => received == Some(m) && aliases == after && packet.Rest() == rest
    {
      hide Packet.Rest, Packet.Readable, ReadString, ReadAll, Judge, WellFormed, AllTyped, Accepted;
      if !connected {
        return Protocol, None;
      }
      var dup, qos, retain := packet.command / 8 % 2 == 1, packet.command / 2 % 4, packet.command % 2 == 1;
      if qos == 3 {
        return Failed, None;
      }
      if qos > l.maximumQos {
        return Failed, None;
      }
      if retain && !l.retainAvailable {
        return Failed, None;
      }
      ghost var behind := packet.Rest();
      var topic, mid: Word, ps: seq<Property> := [], 0, [];
      rc, topic := packet.ReadString();
      if rc != Success {
        return Failed, None;
      }
      StringCanonical(behind);
      ConnectIO.TextHasNoNul(topic);
      if |topic| == 0 && l.version != Mqtt5 {
        return Failed, None;
      }
      if qos > 0 {
        rc, mid := packet.ReadUint16();
        if rc != Success {
          return Failed, None;
        }
        if mid == 0 {
          return Protocol, None;
        }
      }
      behind := packet.Rest();
      if l.version == Mqtt5 {
        rc, ps := PropertyIO.ReadAllFrom(CMD_PUBLISH, packet);
        if rc != Success {
          return rc, None;
        }
        AllCanonical(CMD_PUBLISH, behind);
      } else {
        NoneTyped(ps);
      }
      rc, received := Resolved(packet, topic, mid, qos, retain, dup, ps, l);
    }
  }

  lemma NoneTyped(ps: seq<Property>)
    requires ps == []
    ensures AllTyped(ps) && Accepted(CMD_PUBLISH, ps)
  {
  }
}
