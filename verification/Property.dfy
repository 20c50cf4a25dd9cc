/** MQTT 5 property lists (section 2.2.2 of MQTT 5.0): lib/property_mosq.c. The values of properties, what is written
    for them, what is read, and that the two are inverse. */
module Properties {
  import opened MosqTypes
  import opened Utf8
  import opened Wire

  // ---------------------------------------------------------------------------------------------
  // Identifiers (lib/mqtt_protocol.h)
  // ---------------------------------------------------------------------------------------------

  const PAYLOAD_FORMAT_INDICATOR := 1
  const MESSAGE_EXPIRY_INTERVAL := 2
  const CONTENT_TYPE := 3
  const RESPONSE_TOPIC := 8
  const CORRELATION_DATA := 9
  const SUBSCRIPTION_IDENTIFIER := 11
  const SESSION_EXPIRY_INTERVAL := 17
  const ASSIGNED_CLIENT_IDENTIFIER := 18
  const SERVER_KEEP_ALIVE := 19
  const AUTHENTICATION_METHOD := 21
  const AUTHENTICATION_DATA := 22
  const REQUEST_PROBLEM_INFORMATION := 23
  const WILL_DELAY_INTERVAL := 24
  const REQUEST_RESPONSE_INFORMATION := 25
  const RESPONSE_INFORMATION := 26
  const SERVER_REFERENCE := 28
  const REASON_STRING := 31
  const RECEIVE_MAXIMUM := 33
  const TOPIC_ALIAS_MAXIMUM := 34
  const TOPIC_ALIAS := 35
  const MAXIMUM_QOS := 36
  const RETAIN_AVAILABLE := 37
  const USER_PROPERTY := 38
  const MAXIMUM_PACKET_SIZE := 39
  const WILDCARD_SUB_AVAILABLE := 40
  const SUBSCRIPTION_ID_AVAILABLE := 41
  const SHARED_SUB_AVAILABLE := 42

  const CMD_CONNECT := 0x10
  const CMD_CONNACK := 0x20
  const CMD_PUBLISH := 0x30
  const CMD_PUBREL := 0x60
  const CMD_SUBSCRIBE := 0x80
  const CMD_UNSUBSCRIBE := 0xA0
  const CMD_DISCONNECT := 0xE0
  const CMD_AUTH := 0xF0
  const CMD_WILL := 0x100

  datatype Kind = ByteKind | WordKind | DwordKind | VarintKind | StringKind | BinaryKind | PairKind | NoKind

  /** The case labels of property__read, property__write and property__get_length */
  function KindOf(id: nat): Kind {
    if id in {PAYLOAD_FORMAT_INDICATOR, REQUEST_PROBLEM_INFORMATION, REQUEST_RESPONSE_INFORMATION, MAXIMUM_QOS,
              RETAIN_AVAILABLE, WILDCARD_SUB_AVAILABLE, SUBSCRIPTION_ID_AVAILABLE, SHARED_SUB_AVAILABLE} then ByteKind
    else if id in {SERVER_KEEP_ALIVE, RECEIVE_MAXIMUM, TOPIC_ALIAS_MAXIMUM, TOPIC_ALIAS} then WordKind
    else if id in {MESSAGE_EXPIRY_INTERVAL, SESSION_EXPIRY_INTERVAL, WILL_DELAY_INTERVAL, MAXIMUM_PACKET_SIZE} then DwordKind
    else if id == SUBSCRIPTION_IDENTIFIER then VarintKind
    else if id in {CONTENT_TYPE, RESPONSE_TOPIC, ASSIGNED_CLIENT_IDENTIFIER, AUTHENTICATION_METHOD,
                   RESPONSE_INFORMATION, SERVER_REFERENCE, REASON_STRING} then StringKind
    else if id in {AUTHENTICATION_DATA, CORRELATION_DATA} then BinaryKind
    else if id == USER_PROPERTY then PairKind
    else NoKind
  }

  /** The union in struct mqtt5__property */
  datatype Value =
    | I8(byte: Byte)
    | I16(word: Word)
    | I32(dword: Dword)
    | VarintValue(n: nat)
    | Str(s: Bytes)
    | Bin(data: Bytes)
    | Pair(name: Bytes, value: Bytes)

  datatype Property = Property(identifier: nat, value: Value)

  predicate Counts(s: Bytes) {
    |s| <= 65535
  }

  /** The member of the union that the identifier selects is the one that was set; string lengths are 16 bits wide. */
  predicate Selected(p: Property) {
    match KindOf(p.identifier)
    case ByteKind => p.value.I8?
    case WordKind => p.value.I16?
    case DwordKind => p.value.I32?
    case VarintKind => p.value.VarintValue?
    case StringKind => p.value.Str? && Counts(p.value.s)
    case BinaryKind => p.value.Bin? && Counts(p.value.data)
    case PairKind => p.value.Pair? && Counts(p.value.name) && Counts(p.value.value)
    case NoKind => true
  }

  /** As the functions mosquitto_property_add_* make them */
  predicate Typed(p: Property) {
    && Selected(p) && KindOf(p.identifier) != NoKind
    && (p.value.VarintValue? ==> p.value.n < VARINT_LIMIT)
  }

  predicate AllTyped(ps: seq<Property>) {
    forall k :: 0 <= k < |ps| ==> Typed(ps[k])
  }

  /** Strings are valid UTF-8. */
  ghost predicate ValidText(p: Property) {
    match p.value
    case Str(s) => WellFormed(s)
    case Pair(name, value) => WellFormed(name) && WellFormed(value)
    case _ => true
  }

  ghost predicate AllValidText(ps: seq<Property>) {
    forall k :: 0 <= k < |ps| ==> ValidText(ps[k])
  }

  // ---------------------------------------------------------------------------------------------
  // Writing
  // ---------------------------------------------------------------------------------------------

  function EncodeValue(v: Value): Bytes
    requires v.Str? ==> Counts(v.s)
    requires v.Bin? ==> Counts(v.data)
    requires v.Pair? ==> Counts(v.name) && Counts(v.value)
  {
    match v
    case I8(byte) => [byte]
    case I16(word) => U16(word)
    case I32(dword) => U32(dword)
    case VarintValue(n) => Varint(n)
    case Str(s) => Counted(s)
    case Bin(data) => Counted(data)
    case Pair(name, value) => Counted(name) + Counted(value)
  }

  function EncodeProperty(p: Property): Bytes
    requires Typed(p)
  {
    Varint(p.identifier) + EncodeValue(p.value)
  }

  function EncodeList(ps: seq<Property>): Bytes
    requires AllTyped(ps)
  {
    if ps == [] then [] else EncodeProperty(ps[0]) + EncodeList(ps[1..])
  }

  /** property__write_all with the length in front */
  function EncodeProperties(ps: seq<Property>): Bytes
    requires AllTyped(ps)
  {
    Varint(|EncodeList(ps)|) + EncodeList(ps)
  }

  /** property__get_length */
  function GetLength(p: Property): nat
    requires Selected(p)
  {
    match KindOf(p.identifier)
    case ByteKind => 2
    case WordKind => 3
    case DwordKind => 5
    case VarintKind =>
      if p.value.n < 128 then 2 else if p.value.n < 16384 then 3 else if p.value.n < 2097152 then 4
      else if p.value.n < 268435456 then 5 else 0
    case BinaryKind => 3 + |p.value.data|
    case StringKind => 3 + |p.value.s|
    case PairKind => 5 + |p.value.value| + |p.value.name|
    case NoKind => 0
  }

  lemma SelectedIfTyped(p: Property)
    requires Typed(p)
    ensures Selected(p)
  {
  }

  lemma KindHasSmallIdentifier(id: nat)
    requires KindOf(id) != NoKind
    ensures id < 128
  {
  }

  /** The precomputed length is the number of bytes that will be written. */
  lemma LengthIsSize(p: Property)
    requires Typed(p)
    ensures GetLength(p) == |EncodeProperty(p)|
  {
    KindHasSmallIdentifier(p.identifier);
    if p.value.VarintValue? {
      VarintSize(p.value.n);
    }
  }

  lemma {:induction false} EncodeListAppend(a: seq<Property>, b: seq<Property>)
    requires AllTyped(a) && AllTyped(b)
    ensures AllTyped(a + b) && EncodeList(a + b) == EncodeList(a) + EncodeList(b)
  {
    hide Typed, EncodeProperty;
    AllTypedAppend(a, b);
    if a == [] {
      assert a + b == b;
    } else {
      AllTypedTail(a);
      assert (a + b)[1..] == a[1..] + b;
      EncodeListAppend(a[1..], b);
    }
  }

  lemma AllTypedAppend(a: seq<Property>, b: seq<Property>)
    requires AllTyped(a) && AllTyped(b)
    ensures AllTyped(a + b)
  {
    hide Typed;
  }

  lemma AllTypedTail(ps: seq<Property>)
    requires ps != [] && AllTyped(ps)
    ensures Typed(ps[0]) && AllTyped(ps[1..])
  {
    hide Typed;
  }

  // ---------------------------------------------------------------------------------------------
  // Reading
  // ---------------------------------------------------------------------------------------------

  ghost function ReadPair(s: Bytes): Parse<Value> {
    match ReadString(s)
    case Bad(rc, rest) => Bad(rc, rest)
    case Ok(name, rest) =>
      match ReadString(rest)
      case Bad(rc, rest) => Bad(rc, rest)
      case Ok(value, rest) => Ok(Pair(name, value), rest)
  }

  ghost function ReadValue(kind: Kind, s: Bytes): Parse<Value> {
    match kind
    case ByteKind => (match ReadByte(s) case Ok(v, rest) => Ok(I8(v), rest) case Bad(rc, rest) => Bad(rc, rest))
    case WordKind => (match ReadU16(s) case Ok(v, rest) => Ok(I16(v), rest) case Bad(rc, rest) => Bad(rc, rest))
    case DwordKind => (match ReadU32(s) case Ok(v, rest) => Ok(I32(v), rest) case Bad(rc, rest) => Bad(rc, rest))
    case VarintKind => (match ReadVarint(s) case Ok(v, rest) => Ok(VarintValue(v), rest) case Bad(rc, rest) => Bad(rc, rest))
    case StringKind => (match ReadString(s) case Ok(v, rest) => Ok(Str(v), rest) case Bad(rc, rest) => Bad(rc, rest))
    case BinaryKind => (match ReadBinary(s) case Ok(v, rest) => Ok(Bin(v), rest) case Bad(rc, rest) => Bad(rc, rest))
    case PairKind => ReadPair(s)
    case NoKind => Bad(MalformedPacket, s)
  }

  ghost function ReadProperty(s: Bytes): Parse<Property> {
    match ReadVarint(s)
    case Bad(rc, rest) => Bad(rc, rest)
    case Ok(id, rest) =>
      match ReadValue(KindOf(id), rest)
      case Bad(rc, rest) => Bad(rc, rest)
      case Ok(v, rest) => Ok(Property(id, v), rest)
  }

  lemma NothingIsText()
    ensures WellFormed([])
  {
    NothingIsWellFormed();
  }

  lemma StringCanonical(s: Bytes)
    requires ReadString(s).Ok?
    ensures Counts(ReadString(s).value) && WellFormed(ReadString(s).value)
    ensures s == Counted(ReadString(s).value) + ReadString(s).rest
  {
    BinaryCanonical(s);
    NothingIsText();
  }

  lemma PairCanonical(s: Bytes)
    requires ReadPair(s).Ok?
    ensures var v := ReadPair(s).value;
      && v.Pair? && Counts(v.name) && Counts(v.value) && WellFormed(v.name) && WellFormed(v.value)
      && s == EncodeValue(v) + ReadPair(s).rest
  {
    hide ReadString, Counted, WellFormed;
    StringCanonical(s);
    var rest := ReadString(s).rest;
    StringCanonical(rest);
    var v := ReadPair(s).value;
    assert Counted(v.name) + (Counted(v.value) + ReadPair(s).rest) == Counted(v.name) + Counted(v.value) + ReadPair(s).rest;
  }

  /** A property that can be read is typed and valid, and reading it has consumed what writing it gives. */
  lemma ReadPropertyCanonical(s: Bytes)
    requires ReadProperty(s).Ok?
    ensures var p := ReadProperty(s).value;
      Typed(p) && ValidText(p) && s == EncodeProperty(p) + ReadProperty(s).rest
  {
    hide ReadVarint, ReadString, ReadBinary, ReadU16, ReadU32, ReadPair, WellFormed, Varint, Counted, U16, U32;
    VarintCanonical(s);
    var id, rest := ReadVarint(s).value, ReadVarint(s).rest;
    var p, left := ReadProperty(s).value, ReadProperty(s).rest;
    match KindOf(id) {
      case ByteKind => assert rest == [rest[0]] + rest[1..];
      case WordKind => U16Canonical(rest);
      case DwordKind => U32Canonical(rest);
      case VarintKind => VarintCanonical(rest);
      case StringKind => StringCanonical(rest);
      case BinaryKind => BinaryCanonical(rest);
      case PairKind => PairCanonical(rest);
    }
    assert rest == EncodeValue(p.value) + left;
    assert Varint(id) + (EncodeValue(p.value) + left) == Varint(id) + EncodeValue(p.value) + left;
  }

  lemma PairReadBack(name: Bytes, value: Bytes, rest: Bytes)
    requires Counts(name) && Counts(value) && WellFormed(name) && WellFormed(value)
    ensures ReadPair(Counted(name) + Counted(value) + rest) == Ok(Pair(name, value), rest)
  {
    hide ReadString, Counted, WellFormed;
    assert Counted(name) + Counted(value) + rest == Counted(name) + (Counted(value) + rest);
    StringReadBack(name, Counted(value) + rest);
    StringReadBack(value, rest);
  }

  /** A property that was written is read back. */
  lemma PropertyReadBack(p: Property, rest: Bytes)
    requires Typed(p) && ValidText(p)
    ensures ReadProperty(EncodeProperty(p) + rest) == Ok(p, rest)
  {
    hide ReadVarint, ReadString, ReadBinary, ReadU16, ReadU32, ReadPair, WellFormed, Varint, Counted, U16, U32;
    KindHasSmallIdentifier(p.identifier);
    var v := EncodeValue(p.value);
    assert EncodeProperty(p) + rest == Varint(p.identifier) + (v + rest);
    VarintReadBack(p.identifier, v + rest);
    match p.value {
      case I8(byte) => ByteReadBack(byte, rest);
      case I16(word) => U16ReadBack(word, rest);
      case I32(dword) => U32ReadBack(dword, rest);
      case VarintValue(n) => VarintReadBack(n, rest);
      case Str(s) => StringReadBack(s, rest);
      case Bin(data) => BinaryReadBack(data, rest);
      case Pair(name, value) => PairReadBack(name, value, rest);
    }
  }

  // ---------------------------------------------------------------------------------------------
  // Lists
  // ---------------------------------------------------------------------------------------------

  /** The loop of property__read_all: it goes on while the signed remainder len is positive. */
  ghost function ReadList(s: Bytes, len: int): Parse<seq<Property>>
    decreases |s|
  {
    if len <= 0 then Ok([], s)
    else
      match ReadProperty(s)
      case Bad(rc, rest) => Bad(rc, rest)
      case Ok(p, rest) =>
        ReadPropertyCanonical(s);
        LengthIsSize(p);
        match ReadList(rest, len - GetLength(p))
        case Bad(rc, rest) => Bad(rc, rest)
        case Ok(ps, rest) => Ok([p] + ps, rest)
  }

  lemma {:induction false} ListReadBack(ps: seq<Property>, rest: Bytes)
    requires AllTyped(ps) && AllValidText(ps)
    ensures ReadList(EncodeList(ps) + rest, |EncodeList(ps)|) == Ok(ps, rest)
    decreases |ps|
  {
    hide Typed, ValidText, ReadProperty, EncodeProperty, GetLength;
    if ps == [] {
      assert [] + rest == rest;
    } else {
      AllTypedTail(ps);
      assert ValidText(ps[0]);
      assert forall k :: 0 <= k < |ps[1..]| ==> ps[1..][k] == ps[k + 1];
      LengthIsSize(ps[0]);
      LengthPositive(ps[0]);
      var behind := EncodeList(ps[1..]) + rest;
      assert EncodeList(ps) + rest == EncodeProperty(ps[0]) + behind;
      PropertyReadBack(ps[0], behind);
      ListReadBack(ps[1..], rest);
      assert [ps[0]] + ps[1..] == ps;
    }
  }

  lemma LengthPositive(p: Property)
    requires Typed(p)
    ensures GetLength(p) >= 2
  {
  }

  /** Whatever list is read, its bytes are what writing it gives; only its last property may reach beyond len. */
  lemma {:induction false} ListCanonical(s: Bytes, len: int)
    requires ReadList(s, len).Ok?
    ensures var ps := ReadList(s, len).value;
      && AllTyped(ps) && AllValidText(ps) && s == EncodeList(ps) + ReadList(s, len).rest
      && (len <= 0 <==> ps == [])
      && (len > 0 ==> |EncodeList(ps[..|ps| - 1])| < len <= |EncodeList(ps)|)
    decreases |s|
  {
    hide Typed, ValidText, ReadProperty, EncodeProperty, GetLength;
    if len > 0 {
      ReadPropertyCanonical(s);
      var p, rest := ReadProperty(s).value, ReadProperty(s).rest;
      LengthIsSize(p);
      LengthPositive(p);
      SelectedIfTyped(p);
      ListCanonical(rest, len - GetLength(p));
      var tail := ReadList(rest, len - GetLength(p)).value;
      ConsList(p, tail);
      var ps := [p] + tail;
      assert ReadList(s, len).value == ps;
      assert EncodeProperty(p) + (EncodeList(tail) + ReadList(s, len).rest) == EncodeList(ps) + ReadList(s, len).rest;
      if tail != [] {
        assert ps[..|ps| - 1] == [p] + tail[..|tail| - 1];
        ConsList(p, tail[..|tail| - 1]);
      } else {
        assert ps[..|ps| - 1] == [];
      }
    } else {
      assert s == [] + s;
    }
  }

  lemma ConsList(p: Property, ps: seq<Property>)
    requires Typed(p) && AllTyped(ps)
    ensures AllTyped([p] + ps) && EncodeList([p] + ps) == EncodeProperty(p) + EncodeList(ps)
    ensures ValidText(p) && AllValidText(ps) ==> AllValidText([p] + ps)
  {
    hide Typed, ValidText, EncodeProperty;
    assert ([p] + ps)[1..] == ps;
  }

  // ---------------------------------------------------------------------------------------------
  // Checks
  // ---------------------------------------------------------------------------------------------

  /** mosquitto_property_check_command */
  function CheckCommand(command: nat, id: nat): Rc {
    if id in {PAYLOAD_FORMAT_INDICATOR, MESSAGE_EXPIRY_INTERVAL, CONTENT_TYPE, RESPONSE_TOPIC, CORRELATION_DATA} then
      if command != CMD_PUBLISH && command != CMD_WILL then Protocol else Success
    else if id == SUBSCRIPTION_IDENTIFIER then
      if command != CMD_PUBLISH && command != CMD_SUBSCRIBE then Protocol else Success
    else if id == SESSION_EXPIRY_INTERVAL then
      if command != CMD_CONNECT && command != CMD_CONNACK && command != CMD_DISCONNECT then Protocol else Success
    else if id in {AUTHENTICATION_METHOD, AUTHENTICATION_DATA} then
      if command != CMD_CONNECT && command != CMD_CONNACK && command != CMD_AUTH then Protocol else Success
    else if id in {ASSIGNED_CLIENT_IDENTIFIER, SERVER_KEEP_ALIVE, RESPONSE_INFORMATION, MAXIMUM_QOS, RETAIN_AVAILABLE,
                   WILDCARD_SUB_AVAILABLE, SUBSCRIPTION_ID_AVAILABLE, SHARED_SUB_AVAILABLE} then
      if command != CMD_CONNACK then Protocol else Success
    else if id == WILL_DELAY_INTERVAL then
      if command != CMD_WILL then Protocol else Success
    else if id in {REQUEST_PROBLEM_INFORMATION, REQUEST_RESPONSE_INFORMATION} then
      if command != CMD_CONNECT then Protocol else Success
    else if id == SERVER_REFERENCE then
      if command != CMD_CONNACK && command != CMD_DISCONNECT then Protocol else Success
    else if id == REASON_STRING then
      if command in {CMD_CONNECT, CMD_PUBLISH, CMD_SUBSCRIBE, CMD_UNSUBSCRIBE} then Protocol else Success
    else if id in {RECEIVE_MAXIMUM, TOPIC_ALIAS_MAXIMUM, MAXIMUM_PACKET_SIZE} then
      if command != CMD_CONNECT && command != CMD_CONNACK then Protocol else Success
    else if id == TOPIC_ALIAS then
      if command != CMD_PUBLISH then Protocol else Success
    else if id == USER_PROPERTY then Success
    else Protocol
  }

  /** A byte that is 0 or 1 */
  predicate IsFlag(id: nat) {
    id in {REQUEST_PROBLEM_INFORMATION, REQUEST_RESPONSE_INFORMATION, MAXIMUM_QOS, RETAIN_AVAILABLE,
           WILDCARD_SUB_AVAILABLE, SUBSCRIPTION_ID_AVAILABLE, SHARED_SUB_AVAILABLE}
  }

  /** The identifier allows the value. */
  predicate ValueOk(p: Property) {
    && (IsFlag(p.identifier) ==> p.value.I8? && p.value.byte <= 1)
    && (p.identifier == MAXIMUM_PACKET_SIZE ==> p.value.I32? && p.value.dword != 0)
    && (p.identifier in {RECEIVE_MAXIMUM, TOPIC_ALIAS} ==> p.value.I16? && p.value.word != 0)
  }

  predicate Repeated(ps: seq<Property>, i: nat)
    requires i < |ps|
  {
    ps[i].identifier != USER_PROPERTY && exists j :: i < j < |ps| && ps[j].identifier == ps[i].identifier
  }

  /** mosquitto_property_check_all from the property at index i on: the first finding decides. */
  function CheckFrom(command: nat, ps: seq<Property>, i: nat): Rc
    requires i <= |ps|
    decreases |ps| - i
  {
    if i == |ps| then Success
    else if !ValueOk(ps[i]) then Protocol
    else if CheckCommand(command, ps[i].identifier) != Success then CheckCommand(command, ps[i].identifier)
    else if Repeated(ps, i) then DuplicateProperty
    else CheckFrom(command, ps, i + 1)
  }

  /** What a list accepted for a command looks like */
  predicate Accepted(command: nat, ps: seq<Property>) {
    && (forall i :: 0 <= i < |ps| ==> ValueOk(ps[i]) && CheckCommand(command, ps[i].identifier) == Success)
    && (forall i, j :: 0 <= i < j < |ps| && ps[i].identifier == ps[j].identifier ==> ps[i].identifier == USER_PROPERTY)
  }

  lemma {:induction false} CheckFromAccepts(command: nat, ps: seq<Property>, i: nat)
    requires i <= |ps|
    ensures CheckFrom(command, ps, i) == Success <==>
      && (forall k :: i <= k < |ps| ==> ValueOk(ps[k]) && CheckCommand(command, ps[k].identifier) == Success)
      && (forall k, j :: i <= k < j < |ps| && ps[k].identifier == ps[j].identifier ==> ps[k].identifier == USER_PROPERTY)
    decreases |ps| - i
  {
    hide ValueOk, CheckCommand;
    if i < |ps| {
      CheckFromAccepts(command, ps, i + 1);
    }
  }

  lemma CheckAllAccepts(command: nat, ps: seq<Property>)
    ensures CheckFrom(command, ps, 0) == Success <==> Accepted(command, ps)
  {
    hide ValueOk, CheckCommand;
    CheckFromAccepts(command, ps, 0);
  }

  // ---------------------------------------------------------------------------------------------
  // property__read_all
  // ---------------------------------------------------------------------------------------------

  ghost function ReadAll(command: nat, s: Bytes): Parse<seq<Property>> {
    match ReadVarint(s)
    case Bad(rc, rest) => Bad(rc, rest)
    case Ok(len, rest) =>
      match ReadList(rest, len)
      case Bad(rc, rest) => Bad(rc, rest)
      case Ok(ps, rest) => if CheckFrom(command, ps, 0) != Success then Bad(CheckFrom(command, ps, 0), rest) else Ok(ps, rest)
  }

  /** A list that can be sent with a command */
  ghost predicate Sendable(command: nat, ps: seq<Property>) {
    AllTyped(ps) && AllValidText(ps) && Accepted(command, ps) && |EncodeList(ps)| < VARINT_LIMIT
  }

  /** The round trip: the same properties in the same order, and exactly the bytes written are consumed. */
  lemma AllReadBack(command: nat, ps: seq<Property>, rest: Bytes)
    requires Sendable(command, ps)
    ensures ReadAll(command, EncodeProperties(ps) + rest) == Ok(ps, rest)
  {
    hide ReadList, ReadVarint, Varint, Accepted, AllTyped, AllValidText;
    var list := EncodeList(ps);
    assert EncodeProperties(ps) + rest == Varint(|list|) + (list + rest);
    VarintReadBack(|list|, list + rest);
    ListReadBack(ps, rest);
    CheckAllAccepts(command, ps);
  }

  /** The other way: what is accepted is a list that may be sent, its properties were written in these bytes, and the
      declared length is met except that the last property may go beyond it. */
  lemma AllCanonical(command: nat, s: Bytes)
    requires ReadAll(command, s).Ok?
    ensures ReadVarint(s).Ok?
    ensures var len, ps := ReadVarint(s).value, ReadAll(command, s).value;
      && AllTyped(ps) && AllValidText(ps) && Accepted(command, ps)
      && s == Varint(len) + EncodeList(ps) + ReadAll(command, s).rest
      && (len == |EncodeList(ps)| || (len > 0 && |EncodeList(ps[..|ps| - 1])| < len < |EncodeList(ps)|))
  {
    hide ReadList, ReadVarint, Varint, Accepted, AllTyped, AllValidText, CheckFrom;
    VarintCanonical(s);
    ListCanonical(ReadVarint(s).rest, ReadVarint(s).value);
    CheckAllAccepts(command, ReadAll(command, s).value);
    assert Varint(ReadVarint(s).value) + (EncodeList(ReadAll(command, s).value) + ReadAll(command, s).rest)
        == Varint(ReadVarint(s).value) + EncodeList(ReadAll(command, s).value) + ReadAll(command, s).rest;
  }

  /** It does go beyond: a declared length of one byte, and a property of two. */
  lemma LastPropertyOverruns()
    ensures ReadAll(CMD_PUBLISH, [1, PAYLOAD_FORMAT_INDICATOR, 0]) == Ok([Property(PAYLOAD_FORMAT_INDICATOR, I8(0))], [])
  {
    var p := Property(PAYLOAD_FORMAT_INDICATOR, I8(0));
    var s := [1, PAYLOAD_FORMAT_INDICATOR, 0];
    assert s == Varint(1) + (EncodeProperty(p) + []);
    VarintReadBack(1, EncodeProperty(p) + []);
    PropertyReadBack(p, []);
    assert ReadList([], 1 - GetLength(p)) == Ok([], []);
    assert [p] + [] == [p];
    assert ReadList(EncodeProperty(p) + [], 1) == Ok([p], []);
    CheckAllAccepts(CMD_PUBLISH, [p]);
  }
}
