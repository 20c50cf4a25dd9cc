/** Property lists in a packet: the functions of lib/property_mosq.c that move through the payload or the list. */
module PropertyIO {
  import opened MosqTypes
  import opened Utf8
  import opened Wire
  import opened Packets
  import opened Properties

  /** property__get_length_all */
  method GetLengthAll(ps: seq<Property>) returns (len: nat)
    requires AllTyped(ps)
    ensures len == |EncodeList(ps)|
  {
    hide Typed, EncodeProperty;
    len := 0;
    for i := 0 to |ps|
      invariant len == |EncodeList(ps[..i])|
    {
      TakeOneMore(ps, i);
      LengthIsSize(ps[i]);
      SelectedIfTyped(ps[i]);
      len := len + GetLength(ps[i]);
    }
    assert ps[..|ps|] == ps;
  }

  lemma TakeOneMore(ps: seq<Property>, i: nat)
    requires i < |ps| && AllTyped(ps)
    ensures EncodeList(ps[..i + 1]) == EncodeList(ps[..i]) + EncodeProperty(ps[i])
  {
    hide Typed, EncodeProperty;
    assert ps[..i + 1] == ps[..i] + [ps[i]];
    assert AllTyped([ps[i]]);
    EncodeListAppend(ps[..i], [ps[i]]);
    assert EncodeList([ps[i]]) == EncodeProperty(ps[i]) + [];
  }

  /** The switch of property__write */
  method WriteValueOf(packet: Packet, p: Property) returns (rc: Rc)
    requires packet.Writable() && Typed(p) && |EncodeValue(p.value)| <= packet.packetLength - packet.pos
    modifies packet`pos, packet.payload
    ensures packet.Writable() && rc == Success
    ensures packet.Written() == old(packet.Written()) + EncodeValue(p.value)
  {
    hide Varint, Counted, U16, U32, Packet.Written;
    match KindOf(p.identifier) {
      case ByteKind => packet.WriteByte(p.value.byte);
      case WordKind => packet.WriteUint16(p.value.word);
      case DwordKind => packet.WriteUint32(p.value.dword);
      case VarintKind =>
        rc := packet.WriteVarint(p.value.n);
        return rc;
      case StringKind => packet.WriteString(p.value.s);
      case BinaryKind => WriteBinary(packet, p.value.data);
      case PairKind =>
        packet.WriteString(p.value.name);
        packet.WriteString(p.value.value);
    }
    return Success;
  }

  method WriteBinary(packet: Packet, data: Bytes)
    requires packet.Writable() && Counts(data) && 2 + |data| <= packet.packetLength - packet.pos
    modifies packet`pos, packet.payload
    ensures packet.Writable() && packet.Written() == old(packet.Written()) + Counted(data)
  {
    hide U16, Packet.Written;
    packet.WriteUint16(|data|);
    packet.WriteBytes(data);
  }

  /** property__write */
  method Write(packet: Packet, p: Property) returns (rc: Rc)
    requires packet.Writable() && (Typed(p) || (KindOf(p.identifier) == NoKind && p.identifier < 0x8000_0000))
    requires packet.pos + |if Typed(p) then EncodeProperty(p) else Varint(p.identifier)| <= packet.packetLength
    modifies packet`pos, packet.payload
    ensures packet.Writable()
    ensures Typed(p) ==> rc == Success && packet.Written() == old(packet.Written()) + EncodeProperty(p)
    ensures !Typed(p) ==> rc != Success && packet.Written() == old(packet.Written()) + Varint(p.identifier)
  {
    hide Varint, EncodeValue, KindOf, Packet.Written;
    ghost var before := packet.Written();
    if KindOf(p.identifier) != NoKind {
      KindHasSmallIdentifier(p.identifier);
    }
    rc := packet.WriteVarint(p.identifier);
    if rc != Success {
      return rc;
    }
    if KindOf(p.identifier) == NoKind {
      return Inval;
    }
    rc := WriteValueOf(packet, p);
    assert before + Varint(p.identifier) + EncodeValue(p.value) == before + EncodeProperty(p);
  }

  /** The loop of property__write_all */
  method WriteList(packet: Packet, ps: seq<Property>) returns (rc: Rc)
    requires AllTyped(ps) && packet.Writable() && packet.pos + |EncodeList(ps)| <= packet.packetLength
    modifies packet`pos, packet.payload
    ensures packet.Writable() && rc == Success && packet.Written() == old(packet.Written()) + EncodeList(ps)
  {
    hide Typed, EncodeProperty, EncodeList, Varint, Packet.Written;
    ghost var start := packet.Written();
    NothingEncoded(ps[..0]);
    assert start + [] == start;
    for i := 0 to |ps|
      invariant packet.Writable() && packet.Written() == start + EncodeList(ps[..i])
    {
      TakeOneMore(ps, i);
      Room(ps, i + 1);
      rc := Write(packet, ps[i]);
      if rc != Success {
        return rc;
      }
      assert start + EncodeList(ps[..i]) + EncodeProperty(ps[i]) == start + EncodeList(ps[..i + 1]);
    }
    assert ps[..|ps|] == ps;
    return Success;
  }

  /** property__write_all */
  method WriteAll(packet: Packet, ps: seq<Property>, writeLen: bool) returns (rc: Rc)
    requires AllTyped(ps) && |EncodeList(ps)| < VARINT_LIMIT
    requires packet.Writable()
    requires packet.pos + |if writeLen then EncodeProperties(ps) else EncodeList(ps)| <= packet.packetLength
    modifies packet`pos, packet.payload
    ensures packet.Writable() && rc == Success
    ensures packet.Written() == old(packet.Written()) + if writeLen then EncodeProperties(ps) else EncodeList(ps)
  {
    hide AllTyped, EncodeList, Varint, Packet.Written;
    if writeLen {
      var len := GetLengthAll(ps);
      rc := packet.WriteVarint(len);
      if rc != Success {
        return rc;
      }
    }
    rc := WriteList(packet, ps);
  }

  lemma NothingEncoded(ps: seq<Property>)
    requires ps == []
    ensures EncodeList(ps) == []
  {
  }

  lemma Room(ps: seq<Property>, i: nat)
    requires i <= |ps| && AllTyped(ps)
    ensures |EncodeList(ps[..i])| <= |EncodeList(ps)|
  {
    hide Typed, EncodeProperty;
    assert ps == ps[..i] + ps[i..];
    EncodeListAppend(ps[..i], ps[i..]);
  }

  /** The switch of property__read */
  method ReadValueOf(packet: Packet, id: nat) returns (rc: Rc, value: Value)
    requires packet.Readable()
    modifies packet`pos
    ensures packet.Readable() && Outcome(rc, value, packet.Rest()) == ReadValue(KindOf(id), old(packet.Rest()))
  {
    hide ReadBinary, ReadString, ReadVarint, WellFormed, Packet.Rest;
    value := I8(0);
    match KindOf(id) {
      case ByteKind =>
        var byte;
        rc, byte := packet.ReadByte();
        value := I8(byte);
      case WordKind =>
        var word;
        rc, word := packet.ReadUint16();
        value := I16(word);
      case DwordKind =>
        var dword;
        rc, dword := packet.ReadUint32();
        value := I32(dword);
      case VarintKind =>
        var n, bytes;
        rc, n, bytes := packet.ReadVarint();
        value := VarintValue(n);
      case StringKind =>
        var str;
        rc, str := packet.ReadString();
        value := Str(str);
      case BinaryKind =>
        var data;
        rc, data := packet.ReadBinary();
        value := Bin(data);
      case PairKind =>
        var name, str;
        rc, name := packet.ReadString();
        if rc != Success {
          return rc, value;
        }
        rc, str := packet.ReadString();
        value := Pair(name, str);
      case NoKind => return MalformedPacket, value;
    }
  }

  /** property__read; left is what remains of len. */
  method Read(packet: Packet, len: int) returns (rc: Rc, left: int, p: Property)
    requires packet.Readable()
    modifies packet`pos
    ensures packet.Readable() && Outcome(rc, p, packet.Rest()) == ReadProperty(old(packet.Rest()))
    ensures rc == Success ==> Typed(p) && left == len - GetLength(p)
  {
    hide ReadVarint, ReadValue, Packet.Rest, Varint, WellFormed;
    left, p := len, Property(0, I8(0));
    var id, bytes;
    rc, id, bytes := packet.ReadVarint();
    if rc != Success {
      return rc, left, p;
    }
    left := left - 1;
    var value;
    rc, value := ReadValueOf(packet, id);
    if rc != Success {
      return rc, left, p;
    }
    p := Property(id, value);
    ReadPropertyCanonical(old(packet.Rest()));
    left := left - Consumed(p);
  }

  /** What property__read subtracts after the identifier */
  function Consumed(p: Property): (n: nat)
    requires Typed(p)
    ensures 1 + n == GetLength(p)
  {
    match p.value
    case I8(_) => 1
    case I16(_) => 2
    case I32(_) => 4
    case VarintValue(n) => VarintBytes(n)
    case Str(s) => 2 + |s|
    case Bin(data) => 2 + |data|
    case Pair(name, value) => 2 + |name| + 2 + |value|
  }

  function Prepend(ps: seq<Property>, r: Parse<seq<Property>>): Parse<seq<Property>> {
    match r
    case Ok(more, rest) => Ok(ps + more, rest)
    case Bad(rc, rest) => Bad(rc, rest)
  }

  lemma PrependOneMore(ps: seq<Property>, s: Bytes, len: int)
    requires len > 0
    ensures Prepend(ps, ReadList(s, len)) ==
      match ReadProperty(s)
      case Bad(rc, rest) => Bad(rc, rest)
      case Ok(p, rest) => if Selected(p) then Prepend(ps + [p], ReadList(rest, len - GetLength(p))) else Bad(Failed, rest)
  {
    hide ReadProperty;
    if ReadProperty(s).Ok? {
      ReadPropertyCanonical(s);
      var p, rest := ReadProperty(s).value, ReadProperty(s).rest;
      if ReadList(rest, len - GetLength(p)).Ok? {
        var more := ReadList(rest, len - GetLength(p)).value;
        assert ps + ([p] + more) == ps + [p] + more;
      }
    }
  }

  /** mosquitto_property_check_all */
  method CheckAll(command: nat, ps: seq<Property>) returns (rc: Rc)
    ensures rc == CheckFrom(command, ps, 0)
    ensures rc == Success <==> Accepted(command, ps)
  {
    hide ValueOk, CheckCommand;
    CheckAllAccepts(command, ps);
    for i := 0 to |ps|
      invariant CheckFrom(command, ps, 0) == CheckFrom(command, ps, i)
    {
      if !ValueOk(ps[i]) {
        return Protocol;
      }
      rc := CheckCommand(command, ps[i].identifier);
      if rc != Success {
        return rc;
      }
      for j := i + 1 to |ps|
        invariant ps[i].identifier != USER_PROPERTY ==> forall k :: i < k < j ==> ps[k].identifier != ps[i].identifier
      {
        if ps[i].identifier == ps[j].identifier && ps[i].identifier != USER_PROPERTY {
          return DuplicateProperty;
        }
      }
    }
    return Success;
  }

  /** property__read_all */
  method ReadAllFrom(command: nat, packet: Packet) returns (rc: Rc, ps: seq<Property>)
    requires packet.Readable()
    modifies packet`pos
    ensures packet.Readable() && Outcome(rc, ps, packet.Rest()) == ReadAll(command, old(packet.Rest()))
  {
    hide ReadList, ReadProperty, ReadVarint, Packet.Rest, Packet.Readable, CheckFrom, GetLength;
    ps := [];
    var len: int, bytes;
    rc, len, bytes := packet.ReadVarint();
    if rc != Success {
      return rc, ps;
    }
    ghost var start := packet.Rest();
    ghost var list := ReadList(start, len);
    PrependNothing(list);
    while len > 0
      invariant packet.Readable() && list == Prepend(ps, ReadList(packet.Rest(), len))
      decreases |packet.Rest()|
    {
      PrependOneMore(ps, packet.Rest(), len);
      ReadPropertyShrinks(packet.Rest());
      var p;
      rc, len, p := Read(packet, len);
      if rc != Success {
        return rc, [];
      }
      SelectedIfTyped(p);
      ps := ps + [p];
    }
    ReadListEnds(packet.Rest(), len);
    assert ps + [] == ps;
    rc := CheckAll(command, ps);
    if rc != Success {
      return rc, [];
    }
    return Success, ps;
  }

  lemma PrependNothing(r: Parse<seq<Property>>)
    ensures Prepend([], r) == r
  {
    if r.Ok? {
      assert [] + r.value == r.value;
    }
  }

  lemma ReadListEnds(s: Bytes, len: int)
    requires len <= 0
    ensures ReadList(s, len) == Ok([], s)
  {
  }

  lemma ReadPropertyShrinks(s: Bytes)
    ensures ReadProperty(s).Ok? ==> |ReadProperty(s).rest| < |s|
  {
    hide ReadProperty;
    if ReadProperty(s).Ok? {
      ReadPropertyCanonical(s);
      LengthIsSize(ReadProperty(s).value);
      LengthPositive(ReadProperty(s).value);
    }
  }
}
