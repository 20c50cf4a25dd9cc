/** The data representations of section 1.5 of MQTT 5.0 as byte sequences: what the writers of lib/packet_datatypes.c
    produce, what its readers accept, and that the two are inverse. */
module Wire {
  import opened MosqTypes
  import opened Utf8

  type Bytes = seq<Byte>

  /** uint32_t */
  type Dword = w: int | 0 <= w < 0x1_0000_0000

  const VARINT_LIMIT := 0x1000_0000

  /** What a reader returns: a value, or an error code, and in both cases what it left unread */
  datatype Parse<+T> = Ok(value: T, rest: Bytes) | Bad(rc: Rc, rest: Bytes)

  function Outcome<T>(rc: Rc, value: T, rest: Bytes): Parse<T> {
    if rc == Success then Ok(value, rest) else Bad(rc, rest)
  }

  // ---------------------------------------------------------------------------------------------
  // What is written
  // ---------------------------------------------------------------------------------------------

  function U16(w: Word): (r: Bytes)
    ensures |r| == 2
  {
    [w / 0x100, w % 0x100]
  }

  function U32(w: Dword): (r: Bytes)
    ensures |r| == 4
  {
    [w / 0x100 / 0x100 / 0x100, w / 0x100 / 0x100 % 0x100, w / 0x100 % 0x100, w % 0x100]
  }

  /** Seven bits a byte, least significant first; the top bit says that more follow (section 1.5.5) */
  function Varint(n: nat): Bytes {
    if n < 128 then [n] else [n % 128 + 128] + Varint(n / 128)
  }

  function Counted(s: Bytes): (r: Bytes)
    requires |s| <= 65535
    ensures |r| == 2 + |s|
  {
    U16(|s|) + s
  }

  // ---------------------------------------------------------------------------------------------
  // What is read
  // ---------------------------------------------------------------------------------------------

  /** (high << 8) + low */
  function Shifted(high: int, low: int): int {
    high * 0x100 + low
  }

  function ReadByte(s: Bytes): Parse<Byte> {
    if |s| < 1 then Bad(Protocol, s) else Ok(s[0], s[1..])
  }

  function ReadBytes(s: Bytes, count: nat): Parse<Bytes> {
    if |s| < count then Bad(Protocol, s) else Ok(s[..count], s[count..])
  }

  function ReadU16(s: Bytes): Parse<Word> {
    if |s| < 2 then Bad(Protocol, s) else Ok(Shifted(s[0], s[1]), s[2..])
  }

  function ReadU32(s: Bytes): Parse<Dword> {
    if |s| < 4 then Bad(Protocol, s)
    else Ok(Shifted(Shifted(Shifted(s[0], s[1]), s[2]), s[3]), s[4..])
  }

  /** At most k more digits; a last digit of zero is an overlong encoding unless it is the only digit. */
  function ReadDigits(s: Bytes, k: nat): Parse<nat> {
    if k == 0 || s == [] then Bad(Protocol, s)
    else if s[0] < 128 then
      if k < 4 && s[0] == 0 then Bad(Protocol, s[1..]) else Ok(s[0], s[1..])
    else
      match ReadDigits(s[1..], k - 1)
      case Ok(high, rest) => Ok(s[0] - 128 + 128 * high, rest)
      case Bad(rc, rest) => Bad(rc, rest)
  }

  function ReadVarint(s: Bytes): Parse<nat> {
    ReadDigits(s, 4)
  }

  /** The reader stops behind the length if what should follow is not there. */
  function ReadBinary(s: Bytes): Parse<Bytes> {
    match ReadU16(s)
    case Bad(rc, rest) => Bad(rc, rest)
    case Ok(len, rest) => ReadBytes(rest, len)
  }

  ghost function ReadString(s: Bytes): (r: Parse<Bytes>)
    ensures r.Ok? ==> |r.rest| < |s|
  {
    match ReadBinary(s)
    case Bad(rc, rest) => Bad(rc, rest)
    case Ok(str, rest) => if str == [] || WellFormed(str) then Ok(str, rest) else Bad(MalformedUtf8, rest)
  }

  /** A pointer to a string that was read: null for the empty one */
  function Pointer(s: Bytes): Option<Bytes> {
    if s == [] then None else Some(s)
  }

  // ---------------------------------------------------------------------------------------------
  // Reading is the inverse of writing
  // ---------------------------------------------------------------------------------------------

  lemma ByteReadBack(b: Byte, rest: Bytes)
    ensures ReadByte([b] + rest) == Ok(b, rest)
  {
    assert ([b] + rest)[1..] == rest;
  }

  lemma BytesReadBack(s: Bytes, rest: Bytes)
    ensures ReadBytes(s + rest, |s|) == Ok(s, rest)
  {
    assert (s + rest)[..|s|] == s && (s + rest)[|s|..] == rest;
  }

  lemma U16ReadBack(w: Word, rest: Bytes)
    ensures ReadU16(U16(w) + rest) == Ok(w, rest)
  {
    assert (U16(w) + rest)[2..] == rest;
  }

  lemma U32ReadBack(w: Dword, rest: Bytes)
    ensures ReadU32(U32(w) + rest) == Ok(w, rest)
  {
    var s := U32(w) + rest;
    assert s[4..] == rest;
    var h, m := w / 0x100 / 0x100, w / 0x100;
    assert s[0] == h / 0x100 && s[1] == h % 0x100 && s[2] == m % 0x100 && s[3] == w % 0x100;
    Reshift(h);
    Reshift(m);
    Reshift(w);
  }

  lemma Reshift(v: nat)
    ensures Shifted(v / 0x100, v % 0x100) == v
  {
  }

  lemma Unshift(high: nat, low: Byte)
    ensures Shifted(high, low) / 0x100 == high && Shifted(high, low) % 0x100 == low
  {
  }

  lemma BinaryReadBack(s: Bytes, rest: Bytes)
    requires |s| <= 65535
    ensures ReadBinary(Counted(s) + rest) == Ok(s, rest)
  {
    assert Counted(s) + rest == U16(|s|) + (s + rest);
    U16ReadBack(|s|, s + rest);
    BytesReadBack(s, rest);
  }

  lemma StringReadBack(s: Bytes, rest: Bytes)
    requires |s| <= 65535 && WellFormed(s)
    ensures ReadString(Counted(s) + rest) == Ok(s, rest)
  {
    BinaryReadBack(s, rest);
  }

  /** What is read are the bytes that writing the value gives. */
  lemma U16Canonical(s: Bytes)
    requires ReadU16(s).Ok?
    ensures s == U16(ReadU16(s).value) + ReadU16(s).rest
  {
  }

  lemma U32Canonical(s: Bytes)
    requires ReadU32(s).Ok?
    ensures s == U32(ReadU32(s).value) + ReadU32(s).rest
  {
    hide Shifted;
    var a, b, c, d := s[0], s[1], s[2], s[3];
    Unshift(a, b);
    Unshift(Shifted(a, b), c);
    Unshift(Shifted(Shifted(a, b), c), d);
    assert s == [a, b, c, d] + s[4..];
  }

  lemma BinaryCanonical(s: Bytes)
    requires ReadBinary(s).Ok?
    ensures |ReadBinary(s).value| <= 65535 && s == Counted(ReadBinary(s).value) + ReadBinary(s).rest
  {
    U16Canonical(s);
    var rest := ReadU16(s).rest;
    assert rest == rest[..ReadU16(s).value] + rest[ReadU16(s).value..];
  }

  // ---------------------------------------------------------------------------------------------
  // Variable byte integers
  // ---------------------------------------------------------------------------------------------

  /** 128 to the power k */
  function Limit(k: nat): (r: nat)
    ensures r > 0
  {
    if k == 0 then 1 else 128 * Limit(k - 1)
  }

  lemma Limits()
    ensures Limit(1) == 128 && Limit(2) == 16384 && Limit(3) == 2097152 && Limit(4) == VARINT_LIMIT
  {
    assert Limit(1) == 128 * Limit(0);
    assert Limit(2) == 128 * Limit(1);
    assert Limit(3) == 128 * Limit(2);
    assert Limit(4) == 128 * Limit(3);
  }

  lemma {:induction false} DigitsReadBack(n: nat, k: nat, rest: Bytes)
    requires 0 < k && n < Limit(k) && (n > 0 || k >= 4)
    ensures ReadDigits(Varint(n) + rest, k) == Ok(n, rest)
  {
    var s := Varint(n) + rest;
    if n < 128 {
      assert s[1..] == rest;
    } else {
      assert s[1..] == Varint(n / 128) + rest;
      assert k > 1 by { Limits(); }
      DigitsReadBack(n / 128, k - 1, rest);
    }
  }

  lemma VarintUnfolds(n: nat)
    ensures Varint(n) == [if n / 128 > 0 then n % 128 + 128 else n % 128] + if n / 128 > 0 then Varint(n / 128) else []
  {
  }

  /** packet__read_varint undoes packet__write_varint on 0..268435455. */
  lemma VarintReadBack(n: nat, rest: Bytes)
    requires n < VARINT_LIMIT
    ensures ReadVarint(Varint(n) + rest) == Ok(n, rest)
  {
    Limits();
    DigitsReadBack(n, 4, rest);
  }

  /** A byte with the continuation bit and the number behind it */
  lemma LowDigit(low: Byte, high: nat, limit: nat)
    requires low >= 128 && 0 < high < limit
    ensures var n := low - 128 + 128 * high; n < 128 * limit && Varint(n) == [low] + Varint(high)
  {
    var n := low - 128 + 128 * high;
    assert n / 128 == high && n % 128 + 128 == low;
    VarintUnfolds(n);
  }

  lemma {:induction false} DigitsCanonical(s: Bytes, k: nat)
    requires k <= 4 && ReadDigits(s, k).Ok?
    ensures var n := ReadDigits(s, k).value;
      n < Limit(k) && (n > 0 || k == 4) && s == Varint(n) + ReadDigits(s, k).rest
  {
    hide Varint;
    assert s == [s[0]] + s[1..];
    if s[0] < 128 {
      VarintUnfolds(s[0]);
      assert [s[0]] + [] == [s[0]];
    } else {
      DigitsCanonical(s[1..], k - 1);
      LowDigit(s[0], ReadDigits(s[1..], k - 1).value, Limit(k - 1));
    }
  }

  /** packet__read_varint accepts nothing but what packet__write_varint writes for such a number. */
  lemma VarintCanonical(s: Bytes)
    requires ReadVarint(s).Ok?
    ensures ReadVarint(s).value < VARINT_LIMIT
    ensures s == Varint(ReadVarint(s).value) + ReadVarint(s).rest
  {
    Limits();
    DigitsCanonical(s, 4);
  }

  /** (byte & 127) * mult */
  function Digit(byte: Byte, mult: nat): nat {
    byte % 128 * mult
  }

  lemma Distribute(m: nat, a: nat, high: nat)
    ensures (a + 128 * high) * m == a * m + high * (m * 128)
  {
  }

  /** packet__varint_bytes, on nonnegative arguments */
  function VarintBytes(word: nat): nat {
    if word < 128 then 1
    else if word < 16384 then 2
    else if word < 2097152 then 3
    else if word < 268435456 then 4
    else 5
  }

  /** The number of bytes that will be written, for every int32_t that is not negative */
  lemma VarintSize(n: nat)
    requires n < 0x8000_0000
    ensures |Varint(n)| == VarintBytes(n)
  {
    if n >= 128 {
      assert |Varint(n)| == 1 + |Varint(n / 128)|;
      if n >= 16384 {
        assert |Varint(n / 128)| == 1 + |Varint(n / 128 / 128)|;
        if n >= 2097152 {
          assert |Varint(n / 128 / 128)| == 1 + |Varint(n / 128 / 128 / 128)|;
          if n >= 268435456 {
            assert |Varint(n / 128 / 128 / 128)| == 1 + |Varint(n / 128 / 128 / 128 / 128)|;
          }
        }
      }
    }
  }

  /** How many bytes an unsigned integer takes; more than four from 2^28 on */
  lemma VarintDigits(n: nat)
    requires n < 0x1_0000_0000
    ensures 1 <= |Varint(n)| <= 5 && (|Varint(n)| < 5 <==> n < VARINT_LIMIT)
  {
    if n < 0x8000_0000 {
      VarintSize(n);
    } else {
      VarintSize(n / 128);
    }
  }
}
