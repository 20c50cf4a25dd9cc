/** struct mosquitto__packet with its allocation (lib/packet_mosq.c) and the readers and writers of
    lib/packet_datatypes.c. */
module Packets {
  import opened MosqTypes
  import opened Utf8
  import opened Wire
  import Framing

  class Packet {
    var command: Byte
    var mid: Word
    var remainingLength: Dword
    var remainingCount: int
    var remainingMult: nat
    var packetLength: nat
    var payload: array?<Byte>
    var toProcess: nat
    var pos: nat

    /** calloc */
    constructor ()
      ensures command == 0 && mid == 0 && remainingLength == 0 && payload == null
    {
      command, mid, remainingLength, remainingCount, remainingMult := 0, 0, 0, 0, 0;
      packetLength, payload, toProcess, pos := 0, null, 0, 0;
    }

    /** packet__cleanup */
    method Cleanup()
      modifies this
      ensures command == 0 && remainingCount == 0 && remainingMult == 1 && remainingLength == 0
      ensures payload == null && toProcess == 0 && pos == 0
    {
      command, remainingCount, remainingMult, remainingLength := 0, 0, 1, 0;
      payload, toProcess, pos := null, 0, 0;
    }

    // -------------------------------------------------------------------------------------------
    // Outgoing
    // -------------------------------------------------------------------------------------------

    ghost predicate Writable()
      reads this
    {
      payload != null && payload.Length == packetLength && pos <= packetLength
    }

    ghost function Written(): (r: Bytes)
      requires Writable()
      reads this, payload
      ensures |r| == pos
    {
      payload[..pos]
    }

    /** The packet is complete, and is this one. */
    ghost predicate Carries(command: Byte, body: Bytes)
      reads this, payload
    {
      Writable() && pos == packetLength && Written() == Framing.FrameBytes(Framing.Frame(command, body))
    }

    /** The first loop of packet__alloc: the digits of the remaining length, of which at most five are kept */
    static method LengthDigits(remainingLength: Dword) returns (bytes: Bytes)
      ensures 1 <= |bytes| <= 5
      ensures |bytes| < 5 <==> remainingLength < VARINT_LIMIT
      ensures |bytes| < 5 ==> bytes == Varint(remainingLength)
    {
      hide Varint;
      bytes := [];
      var rest: nat := remainingLength;
      var more := true;
      VarintDigits(remainingLength);
      while more
        decreases more, rest
        invariant |bytes| <= 5 && (more ==> |bytes| < 5)
        invariant Varint(remainingLength) == bytes + if more || rest > 0 then Varint(rest) else []
        invariant !more ==> 1 <= |bytes| && (rest == 0 || |bytes| == 5)
      {
        VarintUnfolds(rest);
        var byte := rest % 128;
        rest := rest / 128;
        if rest > 0 {
          byte := byte + 128;
        }
        assert bytes + ([byte] + if rest > 0 then Varint(rest) else []) == bytes + [byte] + if rest > 0 then Varint(rest) else [];
        bytes := bytes + [byte];
        more := rest > 0 && |bytes| < 5;
      }
    }

    /** packet__alloc: the fixed header (section 2.1 of MQTT 5.0), and room for exactly what it announces */
    method Alloc() returns (rc: Rc)
      modifies this
      ensures command == old(command) && mid == old(mid) && remainingLength == old(remainingLength)
      ensures rc == if remainingLength < VARINT_LIMIT then Success else PayloadSize
      ensures rc == Success ==>
        && Writable() && fresh(payload)
        && Written() == [command] + Varint(remainingLength)
        && packetLength == pos + remainingLength
        && remainingCount == |Varint(remainingLength)|
    {
      hide Varint;
      var bytes := LengthDigits(remainingLength);
      remainingCount := |bytes|;
      if remainingCount == 5 {
        return PayloadSize;
      }
      packetLength := remainingLength + 1 + remainingCount;
      var buffer := new Byte[packetLength];
      payload := buffer;
      buffer[0] := command;
      for i := 0 to |bytes|
        modifies buffer
        invariant buffer[0] == command && buffer[1..1 + i] == bytes[..i]
      {
        buffer[i + 1] := bytes[i];
        assert buffer[1..2 + i] == buffer[1..1 + i] + [bytes[i]];
      }
      pos := 1 + remainingCount;
      assert buffer[..pos] == [command] + buffer[1..pos];
      return Success;
    }

    method WriteByte(byte: Byte)
      requires Writable() && pos + 1 <= packetLength
      modifies `pos, payload
      ensures Writable() && Written() == old(Written()) + [byte]
    {
      payload[pos] := byte;
      pos := pos + 1;
    }

    method WriteBytes(bytes: Bytes)
      requires Writable() && pos + |bytes| <= packetLength
      modifies `pos, payload
      ensures Writable() && Written() == old(Written()) + bytes
    {
      forall i | 0 <= i < |bytes| {
        payload[pos + i] := bytes[i];
      }
      pos := pos + |bytes|;
    }

    method WriteUint16(word: Word)
      requires Writable() && pos + 2 <= packetLength
      modifies `pos, payload
      ensures Writable() && Written() == old(Written()) + U16(word)
    {
      WriteByte(word / 0x100);
      WriteByte(word % 0x100);
    }

    method WriteUint32(word: Dword)
      requires Writable() && pos + 4 <= packetLength
      modifies `pos, payload
      ensures Writable() && Written() == old(Written()) + U32(word)
    {
      WriteByte(word / 0x100 / 0x100 / 0x100);
      WriteByte(word / 0x100 / 0x100 % 0x100);
      WriteByte(word / 0x100 % 0x100);
      WriteByte(word % 0x100);
    }

    method WriteString(str: Bytes)
      requires |str| <= 65535
      requires Writable() && pos + 2 + |str| <= packetLength
      modifies `pos, payload
      ensures Writable() && Written() == old(Written()) + Counted(str)
    {
      WriteUint16(|str|);
      WriteBytes(str);
    }

    /** packet__write_varint. From 2^28 on it writes five bytes and fails. */
    method WriteVarint(word: nat) returns (rc: Rc)
      requires word < 0x8000_0000
      requires Writable() && pos + |Varint(word)| <= packetLength
      modifies `pos, payload
      ensures Writable() && Written() == old(Written()) + Varint(word)
      ensures rc == if word < VARINT_LIMIT then Success else Protocol
    {
      hide Varint;
      var left: nat := word;
      var count := 0;
      var more := true;
      VarintSize(word);
      while more
        decreases more, left
        invariant more ==> count + |Varint(left)| == |Varint(word)|
        invariant !more ==> count == |Varint(word)|
        invariant Writable() && pos == old(pos) + count && packetLength == old(packetLength)
        invariant Written() + (if more then Varint(left) else []) == old(Written()) + Varint(word)
      {
        ghost var was := left;
        var byte := left % 128;
        left := left / 128;
        if left > 0 {
          byte := byte + 128;
        }
        VarintUnfolds(was);
        WriteByte(byte);
        count := count + 1;
        more := left > 0 && count < 5;
      }
      return if count == 5 then Protocol else Success;
    }

    // -------------------------------------------------------------------------------------------
    // Incoming: the payload is what follows the fixed header
    // -------------------------------------------------------------------------------------------

    ghost predicate Readable()
      reads this
    {
      (if payload == null then remainingLength == 0 else payload.Length == remainingLength) && pos <= remainingLength
    }

    ghost function Rest(): (r: Bytes)
      requires Readable()
      reads this, payload
      ensures |r| == remainingLength - pos
    {
      if payload == null then [] else payload[pos..]
    }

    method ReadByte() returns (rc: Rc, byte: Byte)
      requires Readable()
      modifies `pos
      ensures Readable() && Outcome(rc, byte, Rest()) == Wire.ReadByte(old(Rest()))
    {
      byte := 0;
      if pos + 1 > remainingLength {
        return Protocol, byte;
      }
      byte := payload[pos];
      pos := pos + 1;
      return Success, byte;
    }

    method ReadBytes(count: nat) returns (rc: Rc, bytes: Bytes)
      requires Readable()
      modifies `pos
      ensures Readable() && Outcome(rc, bytes, Rest()) == Wire.ReadBytes(old(Rest()), count)
    {
      bytes := [];
      if pos + count > remainingLength {
        return Protocol, bytes;
      }
      ghost var s := Rest();
      if count > 0 {
        bytes := payload[pos..pos + count];
      }
      pos := pos + count;
      assert bytes == s[..count] && Rest() == s[count..];
      return Success, bytes;
    }

    method ReadUint16() returns (rc: Rc, word: Word)
      requires Readable()
      modifies `pos
      ensures Readable() && Outcome(rc, word, Rest()) == ReadU16(old(Rest()))
    {
      word := 0;
      if pos + 2 > remainingLength {
        return Protocol, word;
      }
      var msb: int := payload[pos];
      pos := pos + 1;
      var lsb: int := payload[pos];
      pos := pos + 1;
      word := msb * 0x100 + lsb;
      return Success, word;
    }

    method ReadUint32() returns (rc: Rc, word: Dword)
      requires Readable()
      modifies `pos
      ensures Readable() && Outcome(rc, word, Rest()) == ReadU32(old(Rest()))
    {
      word := 0;
      if pos + 4 > remainingLength {
        return Protocol, word;
      }
      var val: int := 0;
      ghost var s := Rest();
      for i := 0 to 4
        invariant pos == old(pos) + i && Readable()
        invariant val == if i == 0 then 0 else if i == 1 then s[0] else if i == 2 then Shifted(s[0], s[1])
          else if i == 3 then Shifted(Shifted(s[0], s[1]), s[2]) else Shifted(Shifted(Shifted(s[0], s[1]), s[2]), s[3])
      {
        val := val * 0x100 + payload[pos];
        pos := pos + 1;
      }
      return Success, val;
    }

    method ReadVarint() returns (rc: Rc, word: nat, bytes: nat)
      requires Readable()
      modifies `pos
      ensures Readable() && Outcome(rc, word, Rest()) == Wire.ReadVarint(old(Rest()))
      ensures rc == Success ==> bytes == |old(Rest())| - |Rest()|
    {
      hide ReadDigits, Lift, Digit, Wire.ReadVarint, Readable, Rest;
      word, bytes := 0, 0;
      var mult: nat, value: nat := 1, 0;
      ghost var s := Rest();
      ghost var result := Wire.ReadVarint(s);
      LiftNothing(s);
      for i := 0 to 4
        invariant Readable() && s == Rest()
        invariant bytes == i == |old(Rest())| - |s| && word == 0
        invariant result == Lift(value, mult, ReadDigits(s, 4 - i))
      {
        OneDigit(value, mult, s, 4 - i);
        var byte;
        rc, byte := ReadByte();
        if rc != Success {
          return Protocol, word, bytes;
        }
        s := s[1..];
        bytes := bytes + 1;
        value := value + Digit(byte, mult);
        mult := mult * 128;
        if byte < 128 {
          if bytes > 1 && byte == 0 {
            return Protocol, word, bytes;
          } else {
            word := value;
            return Success, word, bytes;
          }
        }
      }
      OneDigit(value, mult, s, 0);
      return Protocol, word, bytes;
    }

    method ReadBinary() returns (rc: Rc, data: Bytes)
      requires Readable()
      modifies `pos
      ensures Readable() && Outcome(rc, data, Rest()) == Wire.ReadBinary(old(Rest()))
    {
      data := [];
      var slen;
      rc, slen := ReadUint16();
      if rc != Success {
        return rc, data;
      }
      if slen == 0 {
        assert Rest()[..0] == [] && Rest()[0..] == Rest();
        return Success, data;
      }
      if pos + slen > remainingLength {
        return Protocol, data;
      }
      ghost var s := Rest();
      data := payload[pos..pos + slen];
      pos := pos + slen;
      assert data == s[..slen] && Rest() == s[slen..];
      return Success, data;
    }

    method ReadString() returns (rc: Rc, str: Bytes)
      requires Readable()
      modifies `pos
      ensures Readable() && Outcome(rc, str, Rest()) == Wire.ReadString(old(Rest()))
    {
      hide WellFormed, Wire.ReadBinary;
      rc, str := ReadBinary();
      if rc != Success {
        return rc, str;
      }
      if |str| == 0 {
        return Success, str;
      }
      BinaryCanonical(old(Rest()));
      // the copy that is made has a NUL behind it
      var copy := new Byte[|str| + 1](i requires 0 <= i <= |str| => if i < |str| then str[i] else 0);
      assert copy[..|str|] == str;
      var valid := ValidateUtf8(copy, |str|);
      if valid != Success {
        return MalformedUtf8, [];
      }
      return Success, str;
    }
  }

  /** A value on top of which more digits come */
  function Lift(value: nat, mult: nat, digits: Parse<nat>): Parse<nat> {
    match digits
    case Ok(high, rest) => Ok(value + high * mult, rest)
    case Bad(rc, rest) => Bad(rc, rest)
  }

  lemma LiftNothing(s: Bytes)
    ensures Lift(0, 1, ReadDigits(s, 4)) == ReadVarint(s)
  {
  }

  /** One turn of the loop in packet__read_varint */
  lemma OneDigit(value: nat, mult: nat, s: Bytes, k: nat)
    requires k <= 4
    ensures Lift(value, mult, ReadDigits(s, k)) ==
      if k == 0 || s == [] then Bad(Protocol, s)
      else if s[0] >= 128 then Lift(value + Digit(s[0], mult), mult * 128, ReadDigits(s[1..], k - 1))
      else if k < 4 && s[0] == 0 then Bad(Protocol, s[1..])
      else Ok(value + Digit(s[0], mult), s[1..])
  {
    if 0 < k && s != [] {
      var b := s[0];
      if b >= 128 {
        assert b % 128 == b - 128;
        if ReadDigits(s[1..], k - 1).Ok? {
          Distribute(mult, b % 128, ReadDigits(s[1..], k - 1).value);
        }
      } else {
        assert b % 128 == b;
      }
    }
  }
}
