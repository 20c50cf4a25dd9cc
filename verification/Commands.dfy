/** The short packets (sections 3.4 to 3.7 and 3.12 to 3.14 of MQTT 5.0): lib/send_mosq.c and lib/send_disconnect.c,
    and how lib/handle_pubackcomp.c, lib/handle_pubrec.c and lib/handle_pubrel.c read them. */
module Commands {
  import opened MosqTypes
  import opened Wire
  import opened Framing
  import opened Packets
  import opened Properties
  import opened Connect
  import ConnectIO
  import PropertyIO
  import Subscribe

  const CMD_PUBACK := 0x40
  const CMD_PUBREC := 0x50
  const CMD_PUBCOMP := 0x70

  /** A reason code, and properties if the list is not null */
  predicate ReasonFits(properties: Option<seq<Property>>) {
    properties.Some? ==> PropertiesFit(properties.value)
  }

  /** Version 5 leaves out a reason code of 0 without properties. */
  function ReasonBytes(v: Version, reason: Byte, properties: Option<seq<Property>>): Bytes
    requires ReasonFits(properties)
  {
    if v != Mqtt5 || (reason == 0 && properties.None?) then []
    else [reason] + if properties.Some? then EncodeProperties(properties.value) else []
  }

  function AckBody(mid: Word, v: Version, reason: Byte, properties: Option<seq<Property>>): Bytes
    requires ReasonFits(properties)
  {
    U16(mid) + ReasonBytes(v, reason, properties)
  }

  // ---------------------------------------------------------------------------------------------
  // Reading
  // ---------------------------------------------------------------------------------------------

  datatype Ack = Ack(mid: Word, reason: Byte, properties: seq<Property>)

  /** What stands behind the identifier; size is the remaining length of the packet. */
  ghost function ReadReason(s: Bytes, v: Version, size: nat, command: nat): Parse<(Byte, seq<Property>)> {
    if v != Mqtt5 || size <= 2 then Ok((0, []), s)
    else
      match ReadByte(s)
      case Bad(rc, rest) => Bad(rc, rest)
      case Ok(reason, rest) =>
        if size <= 3 then Ok((reason, []), rest)
        else
          match ReadAll(command, rest)
          case Bad(rc, rest) => Bad(rc, rest)
          case Ok(ps, rest) => Ok((reason, ps), rest)
  }

  ghost function ReadAck(s: Bytes, v: Version, command: nat): Parse<Ack> {
    match ReadU16(s)
    case Bad(rc, rest) => Bad(rc, rest)
    case Ok(mid, rest) =>
      if mid == 0 then Bad(Protocol, rest)
      else
        match ReadReason(rest, v, |s|, command)
        case Bad(rc, rest) => Bad(rc, rest)
        case Ok((reason, ps), rest) => Ok(Ack(mid, reason, ps), rest)
  }

  /** Identifier, reason code and properties arrive, whether or not version 5 had to write the reason code. */
  lemma AckRoundTrip(mid: Word, v: Version, reason: Byte, properties: Option<seq<Property>>, command: nat)
    requires mid != 0 && ReasonFits(properties) && (v == Mqtt5 && properties.Some? ==> Sendable(command, properties.value))
    ensures ReadAck(AckBody(mid, v, reason, properties), v, command) ==
      Ok(Ack(mid, if v == Mqtt5 then reason else 0, if v == Mqtt5 && properties.Some? then properties.value else []), [])
  {
    hide ReadU16, ReadAll, U16, Sendable, EncodeProperties, AllTyped;
    var behind := ReasonBytes(v, reason, properties);
    U16ReadBack(mid, behind);
    if behind != [] {
      var list := if properties.Some? then EncodeProperties(properties.value) else [];
      ByteReadBack(reason, list);
      if properties.Some? {
        ListNotEmpty(properties.value);
        assert list + [] == list;
        AllReadBack(command, properties.value, []);
      }
    }
  }

  lemma ListNotEmpty(ps: seq<Property>)
    requires AllTyped(ps)
    ensures EncodeProperties(ps) != []
  {
    hide EncodeList;
  }

  /** The common part of handle__pubackcomp, handle__pubrec and handle__pubrel: the packet itself */
  method ReadAckFrom(packet: Packet, v: Version, command: nat) returns (rc: Rc, ack: Ack)
    requires packet.Readable() && packet.pos == 0
    modifies packet`pos
    ensures packet.Readable() && Outcome(rc, ack, packet.Rest()) == ReadAck(old(packet.Rest()), v, command)
  {
    hide Packet.Rest, Packet.Readable, ReadU16, ReadByte, ReadAll;
    var mid, reason, ps: seq<Property> := 0, 0, [];
    ack := Ack(mid, reason, ps);
    rc, mid := packet.ReadUint16();
    if rc != Success {
      return rc, ack;
    }
    if mid == 0 {
      return Protocol, ack;
    }
    if v == Mqtt5 && packet.remainingLength > 2 {
      rc, reason := packet.ReadByte();
      if rc != Success {
        return rc, ack;
      }
      if packet.remainingLength > 3 {
        rc, ps := PropertyIO.ReadAllFrom(command, packet);
        if rc != Success {
          return rc, ack;
        }
      }
    }
    return Success, Ack(mid, reason, ps);
  }

  // ---------------------------------------------------------------------------------------------
  // Sending
  // ---------------------------------------------------------------------------------------------

  /** What is added to the remaining length for a reason code and properties */
  method ReasonLength(v: Version, reason: Byte, properties: Option<seq<Property>>) returns (length: nat)
    requires ReasonFits(properties)
    ensures length == |ReasonBytes(v, reason, properties)| < 0x4000_0000
  {
    hide AllTyped, EncodeList, EncodeProperties;
    length := 0;
    if v == Mqtt5 {
      if reason != 0 || properties.Some? {
        length := length + 1;
      }
      if properties.Some? {
        var proplen := PropertyIO.GetLengthAll(properties.value);
        Subscribe.PropertiesSize(properties.value);
        length := length + VarintBytes(proplen) + proplen;
      }
    }
  }

  method WriteReason(packet: Packet, v: Version, reason: Byte, properties: Option<seq<Property>>)
    requires ReasonFits(properties) && packet.Writable()
    requires |ReasonBytes(v, reason, properties)| <= packet.packetLength - packet.pos
    requires v == Mqtt5 && properties.Some? ==> |EncodeList(properties.value)| < VARINT_LIMIT
    modifies packet`pos, packet.payload
    ensures packet.Writable() && packet.Written() == old(packet.Written()) + ReasonBytes(v, reason, properties)
  {
    hide AllTyped, EncodeList, EncodeProperties, Packet.Written;
    if v == Mqtt5 {
      if reason != 0 || properties.Some? {
        packet.WriteByte(reason);
      }
      if properties.Some? {
        var _ := PropertyIO.WriteAll(packet, properties.value, true);
      }
    }
  }

  lemma ListFits(v: Version, reason: Byte, properties: Option<seq<Property>>)
    requires ReasonFits(properties) && v == Mqtt5 && properties.Some?
    ensures |EncodeList(properties.value)| < |ReasonBytes(v, reason, properties)|
  {
    hide AllTyped, EncodeList;
  }

  /** send__command_with_mid */
  method SendCommandWithMid(v: Version, command: Byte, mid: Word, dup: bool, reason: Byte, properties: Option<seq<Property>>)
    returns (rc: Rc, packet: Packet?)
    requires ReasonFits(properties) && (dup ==> command / 8 % 2 == 0)
    ensures var body := AckBody(mid, v, reason, properties);
      && rc == (if |body| >= VARINT_LIMIT then PayloadSize else Success)
      && (rc == Success <==> packet != null)
      && (packet != null ==> fresh(packet) && packet.Carries(if dup then command + 8 else command, body))
  {
    hide ReasonBytes, AllTyped, EncodeList, Varint, U16, Packet.Written;
    ghost var body := AckBody(mid, v, reason, properties);
    var p := new Packet();
    p.command := if dup then command + 8 else command;
    var length := ReasonLength(v, reason, properties);
    p.remainingLength := 2 + length;
    rc := p.Alloc();
    if rc != Success {
      return rc, null;
    }
    ghost var start := p.Written();
    p.WriteUint16(mid);
    if v == Mqtt5 && properties.Some? {
      ListFits(v, reason, properties);
    }
    WriteReason(p, v, reason, properties);
    assert p.Written() == start + body;
    FrameIs(p.command, body);
    return Success, p;
  }

  /** send__disconnect; send__simple_command is the case without reason code and properties. */
  method SendDisconnect(v: Version, command: Byte, reason: Byte, properties: Option<seq<Property>>) returns (rc: Rc, packet: Packet?)
    requires ReasonFits(properties)
    ensures var body := ReasonBytes(v, reason, properties);
      && rc == (if |body| >= VARINT_LIMIT then PayloadSize else Success)
      && (rc == Success <==> packet != null)
      && (packet != null ==> fresh(packet) && packet.Carries(command, body))
  {
    hide ReasonBytes, AllTyped, EncodeList, Varint, Packet.Written;
    var p := new Packet();
    p.command := command;
    p.remainingLength := 0;
    if v == Mqtt5 && (reason != 0 || properties.Some?) {
      var length := ReasonLength(v, reason, properties);
      p.remainingLength := length;
    } else {
      NoReason(v, reason, properties);
    }
    rc := p.Alloc();
    if rc != Success {
      return rc, null;
    }
    if v == Mqtt5 && (reason != 0 || properties.Some?) {
      if properties.Some? {
        ListFits(v, reason, properties);
      }
      WriteReason(p, v, reason, properties);
    }
    FrameIs(command, ReasonBytes(v, reason, properties));
    return Success, p;
  }

  lemma NoReason(v: Version, reason: Byte, properties: Option<seq<Property>>)
    requires ReasonFits(properties) && !(v == Mqtt5 && (reason != 0 || properties.Some?))
    ensures ReasonBytes(v, reason, properties) == []
  {
  }

  /** The receiving side's quota, which an acknowledgement gives back (section 4.9 of MQTT 5.0) */
  class Acknowledger {
    const version: Version
    const inflightMaximum: Word
    var inflightQuota: int

    constructor (version: Version, inflightMaximum: Word)
      ensures this.version == version && this.inflightMaximum == inflightMaximum && inflightQuota == inflightMaximum
    {
      this.version, this.inflightMaximum, this.inflightQuota := version, inflightMaximum, inflightMaximum;
    }

    /** send__puback */
    method SendPuback(mid: Word, reason: Byte) returns (packet: Packet)
      modifies this
      ensures inflightQuota == Incremented(old(inflightQuota), inflightMaximum)
      ensures fresh(packet) && packet.Carries(CMD_PUBACK, AckBody(mid, version, reason, None))
    {
      inflightQuota := Incremented(inflightQuota, inflightMaximum);
      packet := Send(CMD_PUBACK, mid, reason);
    }

    /** send__pubcomp */
    method SendPubcomp(mid: Word) returns (packet: Packet)
      modifies this
      ensures inflightQuota == Incremented(old(inflightQuota), inflightMaximum)
      ensures fresh(packet) && packet.Carries(CMD_PUBCOMP, AckBody(mid, version, 0, None))
    {
      inflightQuota := Incremented(inflightQuota, inflightMaximum);
      packet := Send(CMD_PUBCOMP, mid, 0);
    }

    /** send__pubrec: only a refusal ends the exchange. */
    method SendPubrec(mid: Word, reason: Byte) returns (packet: Packet)
      modifies this
      ensures inflightQuota ==
        if reason >= 0x80 && version == Mqtt5 then Incremented(old(inflightQuota), inflightMaximum) else old(inflightQuota)
      ensures fresh(packet) && packet.Carries(CMD_PUBREC, AckBody(mid, version, reason, None))
    {
      if reason >= 0x80 && version == Mqtt5 {
        inflightQuota := Incremented(inflightQuota, inflightMaximum);
      }
      packet := Send(CMD_PUBREC, mid, reason);
    }

    /** send__pubrel */
    method SendPubrel(mid: Word) returns (packet: Packet)
      ensures fresh(packet) && packet.Carries(CMD_PUBREL + 2, AckBody(mid, version, 0, None))
    {
      packet := Send(CMD_PUBREL + 2, mid, 0);
    }

    method Send(command: Byte, mid: Word, reason: Byte) returns (packet: Packet)
      ensures fresh(packet) && packet.Carries(command, AckBody(mid, version, reason, None))
    {
      var rc, p := SendCommandWithMid(version, command, mid, false, reason, None);
      packet := p;
    }
  }
}
