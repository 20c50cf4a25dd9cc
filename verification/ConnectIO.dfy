/** Sending and handling CONNECT: lib/send_connect.c and src/handle_connect.c. */
module ConnectIO {
  import opened MosqTypes
  import opened Utf8
  import opened Wire
  import opened Packets
  import opened Properties
  import opened Connect
  import Framing
  import PropertyIO
  import Topic

  // ---------------------------------------------------------------------------------------------
  // The client
  // ---------------------------------------------------------------------------------------------

  predicate HasReceiveMaximum(ps: seq<Property>) {
    exists k :: 0 <= k < |ps| && ps[k].identifier == RECEIVE_MAXIMUM
  }

  /** The property that is added when the caller gave none */
  function LocalProperties(ps: seq<Property>, maximum: Word): seq<Property> {
    if HasReceiveMaximum(ps) then [] else [Property(RECEIVE_MAXIMUM, I16(maximum))]
  }

  /** The list that the client makes up is fit for the broker exactly if the caller's is and the limit is not 0. */
  lemma LocalPropertiesSendable(ps: seq<Property>, maximum: Word)
    requires AllTyped(ps) && |EncodeList(ps)| + 3 < VARINT_LIMIT
    ensures Sendable(CMD_CONNECT, ps + LocalProperties(ps, maximum)) <==>
      Sendable(CMD_CONNECT, ps) && (HasReceiveMaximum(ps) || maximum != 0)
  {
    hide Typed, ValidText, EncodeProperty, CheckCommand;
    var local := LocalProperties(ps, maximum);
    var all := ps + local;
    if HasReceiveMaximum(ps) {
      assert all == ps;
    } else {
      var p := Property(RECEIVE_MAXIMUM, I16(maximum));
      LocalIsTyped(maximum);
      assert all[|ps|] == p;
      assert AllTyped([p]);
      EncodeListAppend(ps, [p]);
      assert EncodeList([p]) == EncodeProperty(p) + [];
      assert forall k :: 0 <= k < |ps| ==> all[k] == ps[k];
      if Sendable(CMD_CONNECT, all) {
        assert ValueOk(all[|ps|]);
      }
    }
  }

  lemma LocalIsTyped(maximum: Word)
    ensures var p := Property(RECEIVE_MAXIMUM, I16(maximum));
      && Typed(p) && ValidText(p) && (ValueOk(p) <==> maximum != 0) && CheckCommand(CMD_CONNECT, RECEIVE_MAXIMUM) == Success
      && |EncodeProperty(p)| == 3
  {
    LengthIsSize(Property(RECEIVE_MAXIMUM, I16(maximum)));
  }

  /** packet__write_string takes its length as a uint16_t: a string of more than 65535 bytes is written cut off. */
  function Clip(s: Option<Bytes>): Option<Bytes> {
    if s.Some? then Some(Truncated(s.value)) else None
  }

  function ClippedWill(will: Option<Will>): Option<Will> {
    if will.None? then None
    else Some(will.value.(topic := Truncated(will.value.topic), payload := Truncated(will.value.payload)))
  }

  /** The request that is written */
  function Clipped(r: Request): Request {
    r.(id := Clip(r.id), will := ClippedWill(r.will), username := Clip(r.username), password := Clip(r.password))
  }

  /** What the remaining length counts of a string and its bytes do not come for */
  function Lost(s: Bytes): nat {
    |s| - |Truncated(s)|
  }

  function WillExcess(will: Option<Will>): nat {
    if will.None? then 0 else Lost(will.value.topic) + Lost(will.value.payload)
  }

  function Excess(r: Request): nat {
    Lost(OrEmpty(r.id)) + WillExcess(r.will) + Lost(OrEmpty(r.username)) + Lost(OrEmpty(r.password))
  }

  /** Nothing is lost exactly when no string is longer than 65535 bytes, and then what is written is what was asked for. */
  lemma NothingLost(r: Request)
    ensures Excess(r) == 0 <==>
      && |OrEmpty(r.id)| <= 65535 && |OrEmpty(r.username)| <= 65535 && |OrEmpty(r.password)| <= 65535
      && (r.will.Some? ==> |r.will.value.topic| <= 65535 && |r.will.value.payload| <= 65535)
    ensures Excess(r) == 0 ==> Clipped(r) == r
  {
    ShortIsWhole(OrEmpty(r.id));
    ShortIsWhole(OrEmpty(r.username));
    ShortIsWhole(OrEmpty(r.password));
    if r.will.Some? {
      ShortIsWhole(r.will.value.topic);
      ShortIsWhole(r.will.value.payload);
    }
  }

  lemma ShortIsWhole(s: Bytes)
    ensures Lost(s) == 0 <==> |s| <= 65535
    ensures Lost(s) == 0 ==> Truncated(s) == s
  {
  }

  function StringLength(r: Request): nat {
    |OrEmpty(r.id)| + |OrEmpty(r.username)| + |OrEmpty(r.password)|
    + if r.will.Some? then |r.will.value.topic| + |r.will.value.payload| else 0
  }

  /** The lengths do not overflow an int. */
  predicate Sayable(r: Request) {
    && PropertiesFit(r.properties) && StringLength(r) < 0x3000_0000
    && (r.will.Some? ==> r.will.value.qos <= 2 && PropertiesFit(r.will.value.properties))
  }

  lemma ClippedFits(r: Request)
    requires Sayable(r)
    ensures Encodable(Clipped(r))
  {
    hide AllTyped, EncodeList;
  }

  /** The lengths that send__connect adds up */
  function HeaderLength(v: Version, ps: seq<Property>): nat
    requires AllTyped(ps)
  {
    match v
    case Mqtt31 => 12
    case Mqtt311 => 10
    case Mqtt5 => 10 + |EncodeList(ps)| + VarintBytes(|EncodeList(ps)|)
  }

  function WillLength(v: Version, will: Option<Will>): nat
    requires will.Some? ==> AllTyped(will.value.properties)
  {
    if will.None? then 0
    else
      var proplen := |EncodeList(will.value.properties)|;
      2 + |will.value.topic| + 2 + |will.value.payload| + if v == Mqtt5 then proplen + VarintBytes(proplen) else 0
  }

  function OptionLength(s: Option<Bytes>): nat {
    if s.Some? then 2 + |s.value| else 0
  }

  lemma HeaderSize(r: Request)
    requires Encodable(r)
    ensures |Preamble(r)| + |PropertyBytes(r.version, r.properties)| == HeaderLength(r.version, r.properties)
  {
    hide Varint, EncodeList, Flags, AllTyped;
    VarintSize(|EncodeList(r.properties)|);
  }

  lemma WillSize(v: Version, will: Option<Will>)
    requires will.Some? ==> PropertiesFit(will.value.properties)
    ensures |WillBytes(v, ClippedWill(will))| + WillExcess(will) == WillLength(v, will)
  {
    hide Varint, EncodeList, AllTyped;
    if will.Some? {
      VarintSize(|EncodeList(will.value.properties)|);
    }
  }

  /** The remaining length that is announced is that of the bytes that are written and of those that are lost. */
  lemma ConnectSize(r: Request)
    requires Sayable(r)
    ensures Encodable(Clipped(r))
    ensures |ConnectBody(Clipped(r))| + Excess(r) == HeaderLength(r.version, r.properties)
      + (2 + |OrEmpty(r.id)| + WillLength(r.version, r.will) + OptionLength(r.username) + OptionLength(r.password))
  {
    hide Preamble, PropertyBytes, WillBytes, WillLength, HeaderLength, WillExcess, AllTyped, EncodeList;
    ClippedFits(r);
    HeaderSize(Clipped(r));
    WillSize(r.version, r.will);
  }

  /** The first property with this identifier is this one. */
  predicate FirstIs(ps: seq<Property>, k: nat, p: Property)
    requires k < |ps|
  {
    ps[k] == p && forall j :: 0 <= j < k ==> ps[j].identifier != p.identifier
  }

  /** mosquitto_property_read_int16, on a list whose properties have the values their identifiers ask for */
  method ReadInt16(ps: seq<Property>, id: nat) returns (value: Option<Word>)
    requires KindOf(id) == WordKind && AllTyped(ps)
    ensures value.None? <==> forall k :: 0 <= k < |ps| ==> ps[k].identifier != id
    ensures value.Some? ==> exists k :: 0 <= k < |ps| && FirstIs(ps, k, Property(id, I16(value.value)))
  {
    for i := 0 to |ps|
      invariant forall k :: 0 <= k < i ==> ps[k].identifier != id
    {
      if ps[i].identifier == id {
        assert Typed(ps[i]);
        assert FirstIs(ps, i, ps[i]);
        return Some(ps[i].value.word);
      }
    }
    return None;
  }

  class Client {
    var version: Version
    var id: Option<Bytes>
    var username: Option<Bytes>
    var password: Option<Bytes>
    var will: Option<Will>
    var inflightMaximum: Word
    var inflightQuota: int
    var keepalive: Word

    /** What a call of send__connect asks for */
    function Asked(keepalive: Word, cleanSession: bool, properties: seq<Property>): Request
      reads this
    {
      Request(version, cleanSession, keepalive,
              if version == Mqtt5 then properties + LocalProperties(properties, inflightMaximum) else properties,
              id, will, username, password)
    }

    /** The connect flags are put together bit by bit. */
    method FlagByte(r: Request) returns (byte: Byte)
      requires r.will.Some? ==> r.will.value.qos <= 2
      ensures byte == Flags(r.cleanSession, r.will, r.username.Some?, r.password.Some?)
    {
      byte := Bit(r.cleanSession) * 2;
      if r.will.Some? {
        byte := byte + (Bit(r.will.value.retain) * 32 + r.will.value.qos * 8 + 4);
      }
      if r.username.Some? {
        byte := byte + 128;
      }
      if r.password.Some? {
        byte := byte + 64;
      }
    }

    /** Protocol name and version, the flag byte and the keepalive */
    method WritePreamble(packet: Packet, r: Request)
      requires Encodable(r) && packet.Writable() && |Preamble(r)| <= packet.packetLength - packet.pos
      modifies packet`pos, packet.payload
      ensures packet.Writable() && packet.Written() == old(packet.Written()) + Preamble(r)
    {
      hide Packet.Written, U16, PropertiesFit, Flags;
      ghost var before := packet.Written();
      packet.WriteString(if r.version == Mqtt31 then MQISDP else MQTT);
      packet.WriteByte(VersionByte(r.version));
      var byte := FlagByte(r);
      packet.WriteByte(byte);
      packet.WriteUint16(r.keepalive);
      Associate4(before, Counted(ProtocolName(r.version)), [VersionByte(r.version)], [byte] + U16(r.keepalive));
    }

    /** The variable header; local is the property that the library added, if any. */
    method WriteHeader(packet: Packet, r: Request, properties: seq<Property>, local: seq<Property>)
      requires Encodable(r) && packet.Writable() && (r.version == Mqtt5 ==> r.properties == properties + local)
      requires |Preamble(r)| + |PropertyBytes(r.version, r.properties)| <= packet.packetLength - packet.pos
      requires r.version == Mqtt5 ==> |EncodeList(r.properties)| < VARINT_LIMIT
      modifies packet`pos, packet.payload
      ensures packet.Writable()
      ensures packet.Written() == old(packet.Written()) + Preamble(r) + PropertyBytes(r.version, r.properties)
    {
      hide Packet.Written, Preamble, EncodeList, Typed;
      ghost var before := packet.Written();
      WritePreamble(packet, r);
      if r.version == Mqtt5 {
        var _ := WriteConnectProperties(packet, r.properties, properties, local);
      } else {
        assert before + Preamble(r) + [] == before + Preamble(r);
      }
    }

    method WriteConnectProperties(packet: Packet, ghost all: seq<Property>, properties: seq<Property>, local: seq<Property>)
      returns (rc: Rc)
      requires packet.Writable() && AllTyped(all) && all == properties + local && |EncodeList(all)| < VARINT_LIMIT
      requires |EncodeProperties(all)| <= packet.packetLength - packet.pos
      modifies packet`pos, packet.payload
      ensures packet.Writable() && packet.Written() == old(packet.Written()) + EncodeProperties(all)
    {
      hide Packet.Written, Varint, EncodeList, Typed;
      assert AllTyped(properties) && AllTyped(local) by {
        assert forall k :: 0 <= k < |properties| ==> all[k] == properties[k];
        assert forall k :: 0 <= k < |local| ==> all[|properties| + k] == local[k];
      }
      EncodeListAppend(properties, local);
      var length := PropertyIO.GetLengthAll(properties);
      var localLength := PropertyIO.GetLengthAll(local);
      rc := packet.WriteVarint(length + localLength);
      rc := PropertyIO.WriteAll(packet, properties, false);
      rc := PropertyIO.WriteAll(packet, local, false);
    }

    method WriteWill(packet: Packet, v: Version, w: Will)
      requires AllTyped(w.properties) && (v == Mqtt5 ==> |EncodeList(w.properties)| < VARINT_LIMIT)
      requires packet.Writable() && |WillBytes(v, ClippedWill(Some(w)))| <= packet.packetLength - packet.pos
      modifies packet`pos, packet.payload
      ensures packet.Writable() && packet.Written() == old(packet.Written()) + WillBytes(v, ClippedWill(Some(w)))
    {
      hide Packet.Written, Varint, EncodeList, Typed, AllTyped, Counted, EncodeProperties;
      ghost var before := packet.Written();
      if v == Mqtt5 {
        var _ := PropertyIO.WriteAll(packet, w.properties, true);
      }
      assert packet.Written() == before + PropertyBytes(v, w.properties);
      packet.WriteString(Truncated(w.topic));
      packet.WriteString(Truncated(w.payload));
      TruncatedOnce(w.payload);
      Associate4(before, PropertyBytes(v, w.properties), Counted(Truncated(w.topic)), Counted(Truncated(w.payload)));
    }

    method WriteId(packet: Packet)
      requires packet.Writable() && 2 + |OrEmpty(Clip(id))| <= packet.packetLength - packet.pos
      modifies packet`pos, packet.payload
      ensures packet.Writable() && packet.Written() == old(packet.Written()) + Counted(OrEmpty(Clip(id)))
    {
      hide Packet.Written, U16;
      if id.Some? {
        packet.WriteString(Truncated(id.value));
      } else {
        packet.WriteUint16(0);
        assert U16(0) + [] == U16(0);
      }
    }

    method WriteCredentials(packet: Packet)
      requires packet.Writable()
      requires OptionLength(Clip(username)) + OptionLength(Clip(password)) <= packet.packetLength - packet.pos
      modifies packet`pos, packet.payload
      ensures packet.Writable()
      ensures packet.Written() == old(packet.Written()) + (OptionalString(Clip(username)) + OptionalString(Clip(password)))
    {
      hide Packet.Written, Counted;
      if username.Some? {
        packet.WriteString(Truncated(username.value));
      }
      if password.Some? {
        packet.WriteString(Truncated(password.value));
      }
    }

    method WritePayload(packet: Packet, ghost r: Request)
      requires Encodable(r) && r.version == version && r.id == Clip(id) && r.will == ClippedWill(will)
      requires r.username == Clip(username) && r.password == Clip(password)
      requires packet.Writable() && |ConnectPayload(r)| <= packet.packetLength - packet.pos
      requires version == Mqtt5 && will.Some? ==> |EncodeList(will.value.properties)| < VARINT_LIMIT
      modifies packet`pos, packet.payload
      ensures packet.Writable() && packet.Written() == old(packet.Written()) + ConnectPayload(r)
    {
      hide Packet.Written, WillBytes, AllTyped, EncodeList, Counted, OptionalString, Clip;
      ghost var before := packet.Written();
      PayloadSizes(r);
      WriteId(packet);
      if will.Some? {
        WriteWill(packet, version, will.value);
      } else {
        NoWill(version);
      }
      assert packet.Written() == before + Counted(OrEmpty(r.id)) + WillBytes(version, r.will);
      WriteCredentials(packet);
      Associate4(before, Counted(OrEmpty(r.id)), WillBytes(version, r.will),
                 OptionalString(r.username) + OptionalString(r.password));
    }

    /** The whole body */
    method WriteRequest(packet: Packet, r: Request, properties: seq<Property>, local: seq<Property>)
      requires Encodable(r) && r.version == version && r.id == Clip(id) && r.will == ClippedWill(will)
      requires r.username == Clip(username) && r.password == Clip(password)
      requires r.version == Mqtt5 ==> r.properties == properties + local
      requires packet.Writable() && |ConnectBody(r)| <= packet.packetLength - packet.pos
      requires version == Mqtt5 ==> |EncodeList(r.properties)| < VARINT_LIMIT
      requires version == Mqtt5 && will.Some? ==> |EncodeList(will.value.properties)| < VARINT_LIMIT
      modifies packet`pos, packet.payload
      ensures packet.Writable() && packet.Written() == old(packet.Written()) + ConnectBody(r)
      ensures packet.pos == old(packet.pos) + |ConnectBody(r)|
    {
      hide AllTyped, EncodeList, Preamble, PropertyBytes, ConnectPayload, Packet.Written, Clip, ClippedWill;
      ghost var start := packet.Written();
      WriteHeader(packet, r, properties, local);
      WritePayload(packet, r);
      Associate4(start, Preamble(r), PropertyBytes(r.version, r.properties), ConnectPayload(r));
    }

    /** The receive maximum is the one that the caller put into the properties. */
    predicate Adopted(properties: seq<Property>)
      reads this
    {
      Property(RECEIVE_MAXIMUM, I16(inflightMaximum)) in properties && inflightQuota == inflightMaximum
    }

    /** The first part of send__connect: the property the library adds, and the lengths */
    method HeaderLengthFor(properties: seq<Property>) returns (local: seq<Property>, length: nat)
      requires AllTyped(properties) && AllTyped(properties + LocalProperties(properties, inflightMaximum))
      modifies `inflightMaximum, `inflightQuota
      ensures version != Mqtt5 ==> local == [] && inflightMaximum == old(inflightMaximum) && inflightQuota == old(inflightQuota)
      ensures version == Mqtt5 ==> local == LocalProperties(properties, old(inflightMaximum))
      ensures version == Mqtt5 && HasReceiveMaximum(properties) ==> Adopted(properties)
      ensures version == Mqtt5 && !HasReceiveMaximum(properties) ==>
        inflightMaximum == old(inflightMaximum) && inflightQuota == old(inflightQuota)
      ensures length == HeaderLength(version, if version == Mqtt5 then properties + local else properties)
    {
      hide Typed, EncodeList, Varint;
      local := [];
      match version {
        case Mqtt31 => length := 12;
        case Mqtt311 => length := 10;
        case Mqtt5 =>
          var maximum := ReadInt16(properties, RECEIVE_MAXIMUM);
          if maximum.None? {
            local := [Property(RECEIVE_MAXIMUM, I16(inflightMaximum))];
          } else {
            inflightMaximum, inflightQuota := maximum.value, maximum.value;
          }
          LocalTyped(properties, old(inflightMaximum));
          EncodeListAppend(properties, local);
          var proplen := PropertyIO.GetLengthAll(properties);
          var localLength := PropertyIO.GetLengthAll(local);
          proplen := proplen + localLength;
          length := 10 + proplen + VarintBytes(proplen);
      }
    }

    /** The lengths that send__connect adds up, all together */
    method LengthFor(ghost keepalive: Word, ghost cleanSession: bool, properties: seq<Property>)
      returns (local: seq<Property>, length: nat)
      requires Sayable(Asked(keepalive, cleanSession, properties)) && AllTyped(properties)
      modifies `inflightMaximum, `inflightQuota
      ensures version != Mqtt5 ==> local == []
      ensures version == Mqtt5 ==> local == LocalProperties(properties, old(inflightMaximum))
      ensures (inflightMaximum == old(inflightMaximum) && inflightQuota == old(inflightQuota)) || Adopted(properties)
      ensures version == Mqtt5 && HasReceiveMaximum(properties) ==> Adopted(properties)
      ensures var r := old(Asked(keepalive, cleanSession, properties));
        Encodable(Clipped(r)) && length == |ConnectBody(Clipped(r))| + Excess(r)
    {
      hide AllTyped, EncodeList, Varint, Preamble, PropertyBytes, WillBytes, Counted, HeaderLength, ConnectBody, Excess;
      ghost var r := Asked(keepalive, cleanSession, properties);
      LocalTyped(properties, inflightMaximum);
      AllTypedAppend(properties, LocalProperties(properties, inflightMaximum));
      ConnectSize(r);
      local, length := HeaderLengthFor(properties);
      length := length + if id.Some? then 2 + |id.value| else 2;
      if will.Some? {
        length := length + 2 + |will.value.topic| + 2 + |will.value.payload|;
        if version == Mqtt5 {
          var proplen := PropertyIO.GetLengthAll(will.value.properties);
          length := length + proplen + VarintBytes(proplen);
        }
      }
      if username.Some? {
        length := length + 2 + |username.value|;
      }
      if password.Some? {
        length := length + 2 + |password.value|;
      }
    }

    /** The second part of send__connect: a packet of the length announced, with the request in it */
    method Build(r: Request, properties: seq<Property>, local: seq<Property>, length: nat) returns (rc: Rc, packet: Packet?)
      requires Encodable(r) && r.version == version && r.id == Clip(id) && r.will == ClippedWill(will)
      requires r.username == Clip(username) && r.password == Clip(password)
      requires r.version == Mqtt5 ==> r.properties == properties + local
      requires |ConnectBody(r)| <= length < 0x8000_0000
      requires length < VARINT_LIMIT && version == Mqtt5 ==>
        && |EncodeList(r.properties)| < VARINT_LIMIT
        && (will.Some? ==> |EncodeList(will.value.properties)| < VARINT_LIMIT)
      ensures rc == (if length >= VARINT_LIMIT then PayloadSize else Success)
      ensures rc == Success <==> packet != null
      ensures packet != null ==>
        && fresh(packet) && packet.Writable() && packet.command == CMD_CONNECT && packet.remainingLength == length
        && packet.Written() == [CMD_CONNECT] + Varint(length) + ConnectBody(r)
        && packet.packetLength == packet.pos + (length - |ConnectBody(r)|)
        && (length == |ConnectBody(r)| ==> packet.Carries(CMD_CONNECT, ConnectBody(r)))
    {
      hide AllTyped, EncodeList, Varint, ConnectBody, Packet.Written, Clip, ClippedWill, PropertiesFit;
      var p := new Packet();
      p.command := CMD_CONNECT;
      p.remainingLength := length;
      rc := p.Alloc();
      if rc != Success {
        return rc, null;
      }
      WriteRequest(p, r, properties, local);
      Framing.FrameIs(CMD_CONNECT, ConnectBody(r));
      return Success, p;
    }

    /** send__connect, up to packet__queue. Whenever a packet is made, it is the request with its strings cut to their
        length modulo 65536; and it is filled exactly if and only if no string is longer than 65535 bytes. */
    method SendConnect(keepalive: Word, cleanSession: bool, properties: seq<Property>) returns (rc: Rc, packet: Packet?)
      requires Sayable(Asked(keepalive, cleanSession, properties)) && AllTyped(properties)
      modifies `inflightMaximum, `inflightQuota, `keepalive
      ensures (inflightMaximum == old(inflightMaximum) && inflightQuota == old(inflightQuota)) || Adopted(properties)
      ensures old(version) == Mqtt5 && HasReceiveMaximum(properties) ==> Adopted(properties)
      ensures Encodable(Clipped(old(Asked(keepalive, cleanSession, properties))))
      ensures var asked := old(Asked(keepalive, cleanSession, properties));
        var body, lost := ConnectBody(Clipped(asked)), Excess(asked);
        && rc == (if asked.version == Mqtt31 && asked.id.None? then Protocol
                  else if asked.version != Mqtt5 && asked.password.Some? && asked.username.None? then Inval
                  else if |body| + lost >= VARINT_LIMIT then PayloadSize
                  else Success)
        && (rc == Success <==> packet != null)
        && (packet != null ==>
              && fresh(packet) && packet.Writable() && packet.command == CMD_CONNECT && this.keepalive == keepalive
              && packet.remainingLength == |body| + lost
              && packet.Written() == [CMD_CONNECT] + Varint(packet.remainingLength) + body
              && packet.packetLength == packet.pos + lost
              && (lost == 0 ==> Clipped(asked) == asked && packet.Carries(CMD_CONNECT, body)))
    {
      hide AllTyped, EncodeList, Varint, ConnectBody, Packet.Written, Excess, Clip, ClippedWill, StringLength;
      hide HasReceiveMaximum, LocalProperties, PropertiesFit, Encodable, Sayable;
      ghost var r := Asked(keepalive, cleanSession, properties);
      ClippedFits(r);
      NothingLost(r);
      if version == Mqtt31 && id.None? {
        return Protocol, null;
      }
      var local, length := LengthFor(keepalive, cleanSession, properties);
      if version != Mqtt5 {
        if password.Some? && username.None? {
          return Inval, null;
        }
      }
      ListsFit(r);
      var all := if version == Mqtt5 then properties + local else properties;
      var written := Clipped(Request(version, cleanSession, keepalive, all, id, will, username, password));
      assert written == Clipped(r);
      rc, packet := Build(written, properties, local, length);
      if rc == Success {
        this.keepalive := keepalive;
      }
    }
  }

  lemma TruncatedOnce(s: Bytes)
    ensures Truncated(Truncated(s)) == Truncated(s)
  {
  }

  /** No length overflows, and in a packet that is not too large no property list is. */
  lemma ListsFit(r: Request)
    requires Sayable(r)
    ensures Encodable(Clipped(r)) && |ConnectBody(Clipped(r))| + Excess(r) < 0x8000_0000
    ensures |ConnectBody(Clipped(r))| + Excess(r) < VARINT_LIMIT && r.version == Mqtt5 ==>
      && |EncodeList(r.properties)| < VARINT_LIMIT
      && (r.will.Some? ==> |EncodeList(r.will.value.properties)| < VARINT_LIMIT)
  {
    hide AllTyped, EncodeList, ConnectBody, Excess;
    ConnectSize(r);
  }

  lemma LocalTyped(ps: seq<Property>, maximum: Word)
    requires AllTyped(ps)
    ensures AllTyped(LocalProperties(ps, maximum))
  {
    LocalIsTyped(maximum);
  }

  lemma PayloadSizes(r: Request)
    requires Encodable(r)
    ensures |ConnectPayload(r)| ==
      2 + |OrEmpty(r.id)| + |WillBytes(r.version, r.will)| + OptionLength(r.username) + OptionLength(r.password)
  {
    hide WillBytes, AllTyped, EncodeList;
  }

  lemma Associate4(a: Bytes, b: Bytes, c: Bytes, d: Bytes)
    ensures a + b + c + d == a + (b + (c + d))
  {
  }

  // ---------------------------------------------------------------------------------------------
  // The broker
  // ---------------------------------------------------------------------------------------------

  /** strcmp against one of the protocol names decides the version. */
  method FindVersion(name: Bytes, raw: Byte, command: Byte) returns (v: Option<Version>)
    ensures v == VersionOf(name, raw, command)
  {
    v := None;
    if UntilNul(name) == MQISDP {
      if raw % 128 != 3 {
        return None;
      }
      v := Some(Mqtt31);
    } else if UntilNul(name) == MQTT {
      if raw % 128 == 4 {
        v := Some(Mqtt311);
      } else if raw % 128 == 5 {
        v := Some(Mqtt5);
      } else {
        return None;
      }
      if command % 16 != 0 {
        return None;
      }
    }
  }

  method ReadHeaderFrom(packet: Packet, cfg: Config) returns (rc: Rc, header: Header)
    requires packet.Readable()
    modifies packet`pos
    ensures packet.Readable() && Outcome(rc, header, packet.Rest()) == ReadHeader(old(packet.Rest()), packet.command, cfg)
  {
    hide Packet.Rest, Packet.Readable, ReadU16, ReadBytes, ReadByte, VersionOf, DecodeFlags;
    header := Header(Mqtt31, 0, false, FlagSet(false, false, 0, false, false, false), 0);
    var slen, name, raw, v, byte, keepalive;
    rc, slen := packet.ReadUint16();
    if rc != Success {
      return Failed, header;
    }
    if slen != 4 && slen != 6 {
      return Protocol, header;
    }
    rc, name := packet.ReadBytes(slen);
    if rc != Success {
      return Protocol, header;
    }
    rc, raw := packet.ReadByte();
    if rc != Success {
      return Failed, header;
    }
    v := FindVersion(name, raw, packet.command);
    if v.None? {
      return Protocol, header;
    }
    rc, byte := packet.ReadByte();
    if rc != Success {
      return Failed, header;
    }
    if v.value == Mqtt311 || v.value == Mqtt5 {
      if byte % 2 != 0 {
        return Protocol, header;
      }
    }
    var flags := DecodeFlags(byte);
    if flags.willQos == 3 {
      return Protocol, header;
    }
    if flags.will && flags.willRetain && !cfg.retainAvailable {
      return Failed, header;
    }
    rc, keepalive := packet.ReadUint16();
    if rc != Success {
      return Failed, header;
    }
    header := Header(v.value, raw, v.value != Mqtt5 && raw >= 128, flags, keepalive);
    return Success, header;
  }

  /** property__process_will */
  method ProcessWill(ps: seq<Property>) returns (rc: Rc, forward: seq<Property>, delay: Dword, expiry: Dword)
    requires AllTyped(ps)
    ensures rc == if WillProcessable(ps) then Success else Protocol
    ensures rc == Success ==>
      && forward == Filtered(ps) && delay == LastDword(ps, WILL_DELAY_INTERVAL, 0) && expiry == LastDword(ps, MESSAGE_EXPIRY_INTERVAL, 0)
  {
    hide Filtered, LastDword, AllTyped;
    rc, forward, delay, expiry := Success, [], 0, 0;
    NothingFiltered(ps[..0]);
    for i := 0 to |ps|
      invariant WillProcessable(ps[..i])
      invariant forward == Filtered(ps[..i])
      invariant delay == LastDword(ps[..i], WILL_DELAY_INTERVAL, 0)
      invariant expiry == LastDword(ps[..i], MESSAGE_EXPIRY_INTERVAL, 0)
    {
      assert ps[..i + 1] == ps[..i] + [ps[i]];
      FilterOneMore(ps[..i], ps[i]);
      LastDwordOneMore(ps[..i], ps[i], WILL_DELAY_INTERVAL, 0);
      LastDwordOneMore(ps[..i], ps[i], MESSAGE_EXPIRY_INTERVAL, 0);
      DwordOf(ps, i);
      if Forwardable(ps[i].identifier) {
        forward := forward + [ps[i]];
      } else if ps[i].identifier == WILL_DELAY_INTERVAL {
        delay := ps[i].value.dword;
      } else if ps[i].identifier == MESSAGE_EXPIRY_INTERVAL {
        expiry := ps[i].value.dword;
      } else {
        return Protocol, forward, delay, expiry;
      }
    }
    assert ps[..|ps|] == ps;
  }

  lemma NothingFiltered(ps: seq<Property>)
    requires ps == []
    ensures Filtered(ps) == [] && forall id, otherwise :: LastDword(ps, id, otherwise) == otherwise
  {
  }

  lemma DwordOf(ps: seq<Property>, i: nat)
    requires i < |ps| && AllTyped(ps)
    ensures ps[i].identifier in {WILL_DELAY_INTERVAL, MESSAGE_EXPIRY_INTERVAL} ==> ps[i].value.I32?
  {
    assert Typed(ps[i]);
  }

  lemma {:induction false} FilterOneMore(ps: seq<Property>, p: Property)
    ensures Filtered(ps + [p]) == Filtered(ps) + if Forwardable(p.identifier) then [p] else []
  {
    hide Forwardable;
    if ps == [] {
      assert ps + [p] == [p] && [p][1..] == [];
      assert Filtered([p]) == (if Forwardable(p.identifier) then [p] else []) + Filtered([]);
    } else {
      FilterOneMore(ps[1..], p);
      assert (ps + [p])[1..] == ps[1..] + [p];
      var first := if Forwardable(ps[0].identifier) then [ps[0]] else [];
      var last := if Forwardable(p.identifier) then [p] else [];
      assert first + (Filtered(ps[1..]) + last) == first + Filtered(ps[1..]) + last;
    }
  }

  lemma {:induction false} LastDwordOneMore(ps: seq<Property>, p: Property, id: nat, otherwise: Dword)
    ensures LastDword(ps + [p], id, otherwise) ==
      if p.identifier == id && p.value.I32? then p.value.dword else LastDword(ps, id, otherwise)
    decreases |ps|
  {
    if ps == [] {
      assert ps + [p] == [p] && [p][1..] == [];
    } else {
      LastDwordOneMore(ps[1..], p, id, if ps[0].identifier == id && ps[0].value.I32? then ps[0].value.dword else otherwise);
      assert (ps + [p])[1..] == ps[1..] + [p];
    }
  }

  lemma TextHasNoNul(s: Bytes)
    requires WellFormed(s)
    ensures 0 !in s
  {
    hide Encode;
    var cs: seq<nat> :| AllAllowed(cs) && Utf8.EncodeAll(cs) == s;
    EncodedHasNoNul(cs);
  }

  lemma {:induction false} EncodedHasNoNul(cs: seq<nat>)
    requires AllAllowed(cs)
    ensures 0 !in Utf8.EncodeAll(cs)
  {
    hide Encode;
    if cs != [] {
      OneHasNoNul(cs[0]);
      EncodedHasNoNul(cs[1..]);
    }
  }

  lemma OneHasNoNul(c: nat)
    requires Allowed(c)
    ensures 0 !in Encode(c)
  {
  }

  lemma TextOf(s: Bytes)
    requires 0 !in s
    ensures '\0' !in TopicText(s)
  {
    forall i | 0 <= i < |s|
      ensures TopicText(s)[i] != '\0'
    {
      assert s[i] in s;
    }
  }

  /** will__read */
  method ReadWillFrom(packet: Packet, v: Version, qos: nat, retain: bool) returns (rc: Rc, will: WillMessage)
    requires packet.Readable()
    modifies packet`pos
    ensures packet.Readable() && Outcome(rc, will, packet.Rest()) == ReadWill(old(packet.Rest()), v, qos, retain)
  {
    hide Packet.Rest, Packet.Readable, ReadAll, ReadString, WellFormed, Filtered, LastDword, WillProcessable,
         TopicText, AllTyped;
    will := WillMessage([], [], qos, retain, [], 0, 0);
    var ps: seq<Property>, forward: seq<Property>, delay, expiry := [], [], 0, 0;
    NothingFiltered(ps);
    if v == Mqtt5 {
      rc, ps := PropertyIO.ReadAllFrom(CMD_WILL, packet);
      if rc != Success {
        return rc, will;
      }
      AllCanonical(CMD_WILL, old(packet.Rest()));
      rc, forward, delay, expiry := ProcessWill(ps);
      if rc != Success {
        return rc, will;
      }
    }
    ghost var behind := packet.Rest();
    var topic, size, payload;
    rc, topic := packet.ReadString();
    if rc != Success {
      return rc, will;
    }
    if |topic| == 0 {
      return Protocol, will;
    }
    StringCanonical(behind);
    TextHasNoNul(topic);
    TextOf(topic);
    rc := Topic.PubTopicCheck(TopicText(topic));
    if rc != Success {
      return rc, will;
    }
    rc, size := packet.ReadUint16();
    if rc != Success {
      return rc, will;
    }
    rc, payload := packet.ReadBytes(size);
    if rc != Success {
      return rc, will;
    }
    will := WillMessage(topic, payload, qos, retain, forward, delay, expiry);
    return Success, will;
  }

  method ReadIdFrom(packet: Packet, v: Version, cleanStart: bool, cfg: Config, autoId: Bytes) returns (rc: Rc, id: Bytes, generated: bool)
    requires packet.Readable()
    modifies packet`pos
    ensures packet.Readable()
    ensures Outcome(rc, (id, generated), packet.Rest()) == ReadId(old(packet.Rest()), v, cleanStart, cfg, autoId)
  {
    hide Packet.Rest, Packet.Readable, ReadString;
    generated := false;
    rc, id := packet.ReadString();
    if rc != Success {
      return Failed, id, generated;
    }
    if |id| == 0 {
      if v == Mqtt31 {
        return Protocol, id, generated;
      } else if (v == Mqtt311 && !cleanStart) || !cfg.allowZeroLengthId {
        return Protocol, id, generated;
      }
      id, generated := autoId, true;
    }
    if cfg.prefixes.Some? && !(cfg.prefixes.value <= id) {
      return Failed, id, generated;
    }
    return Success, id, generated;
  }

  method ReadCredentialsFrom(packet: Packet, v: Version, flags: FlagSet) returns (rc: Rc, username: Option<Bytes>, password: Option<Bytes>)
    requires packet.Readable()
    modifies packet`pos
    ensures packet.Readable()
    ensures Outcome(rc, (username, password), packet.Rest()) == ReadCredentials(old(packet.Rest()), v, flags)
  {
    hide Packet.Rest, Packet.Readable, ReadString, ReadBinary;
    username, password := None, None;
    var text;
    if flags.username {
      rc, text := packet.ReadString();
      if rc == Success {
        username := Pointer(text);
      } else if v != Mqtt31 {
        return Protocol, username, password;
      }
    } else if v == Mqtt311 || v == Mqtt31 {
      if flags.password {
        return Protocol, username, password;
      }
    }
    if flags.password {
      rc, text := packet.ReadBinary();
      if rc == Success {
        password := Pointer(text);
      } else if v != Mqtt31 {
        return Protocol, username, password;
      }
    }
    return Success, username, password;
  }

  /** The payload of the packet, which has to end with it */
  method ReadPayloadFrom(packet: Packet, v: Version, flags: FlagSet, cfg: Config, autoId: Bytes) returns (rc: Rc, payload: Payload)
    requires packet.Readable()
    modifies packet`pos
    ensures packet.Readable()
    ensures Outcome(rc, payload, packet.Rest()) == ReadPayload(old(packet.Rest()), v, flags, cfg, autoId)
  {
    hide Packet.Rest, Packet.Readable, ReadId, ReadWill, ReadCredentials;
    payload := Payload([], false, None, None, None);
    var id, generated, message, username, password;
    rc, id, generated := ReadIdFrom(packet, v, flags.cleanStart, cfg, autoId);
    if rc != Success {
      return rc, payload;
    }
    var will := None;
    if flags.will {
      rc, message := ReadWillFrom(packet, v, flags.willQos, flags.willRetain);
      if rc != Success {
        return rc, payload;
      }
      will := Some(message);
    } else if v == Mqtt311 || v == Mqtt5 {
      if flags.willQos != 0 || flags.willRetain {
        return Protocol, payload;
      }
    }
    rc, username, password := ReadCredentialsFrom(packet, v, flags);
    if rc != Success {
      return rc, payload;
    }
    if packet.pos != packet.remainingLength {
      return Protocol, payload;
    }
    return Success, Payload(id, generated, will, username, password);
  }

  /** handle__connect, as far as the check for surplus data; isNew is mosq_cs_new. */
  method HandleConnect(packet: Packet, isNew: bool, cfg: Config, autoId: Bytes) returns (rc: Rc, connected: Option<Connected>)
    requires packet.Readable()
    modifies packet`pos
    ensures packet.Readable() && (rc == Success <==> connected.Some?)
    ensures !isNew ==> rc == Protocol
    ensures isNew ==>
      match ParseConnect(old(packet.Rest()), packet.command, cfg, autoId)
      case Ok(c, rest) => connected == Some(c) && packet.Rest() == rest == []
      case Bad(error, _) => rc == error
  {
    hide Packet.Rest, Packet.Readable, ReadHeader, ReadAll, ReadPayload;
    if !isNew {
      return Protocol, None;
    }
    var header, ps: seq<Property>, payload;
    rc, header := ReadHeaderFrom(packet, cfg);
    if rc != Success {
      return rc, None;
    }
    ps := [];
    if header.rawVersion == 5 {
      rc, ps := PropertyIO.ReadAllFrom(CMD_CONNECT, packet);
      if rc != Success {
        return rc, None;
      }
    }
    PayloadEnds(packet.Rest(), header.version, header.flags, cfg, autoId);
    rc, payload := ReadPayloadFrom(packet, header.version, header.flags, cfg, autoId);
    if rc != Success {
      return rc, None;
    }
    return Success, Some(Connected(header, ps, payload));
  }

  lemma PayloadEnds(s: Bytes, v: Version, flags: FlagSet, cfg: Config, autoId: Bytes)
    ensures ReadPayload(s, v, flags, cfg, autoId).Ok? ==> ReadPayload(s, v, flags, cfg, autoId).rest == []
  {
    hide ReadId, ReadOptionalWill, ReadCredentials;
  }
}
