/** The CONNECT packet (section 3.1 of MQTT 5.0): what send__connect of lib/send_connect.c writes, what handle__connect
    of src/handle_connect.c makes of it, and that the broker gets what the client meant. */
module Connect {
  import opened MosqTypes
  import opened Utf8
  import opened Wire
  import opened Properties
  import Topic

  datatype Version = Mqtt31 | Mqtt311 | Mqtt5

  datatype Will = Will(topic: Bytes, payload: Bytes, qos: nat, retain: bool, properties: seq<Property>)

  /** What a client asks for */
  datatype Request = Request(version: Version, cleanSession: bool, keepalive: Word, properties: seq<Property>,
                             id: Option<Bytes>, will: Option<Will>, username: Option<Bytes>, password: Option<Bytes>)

  const MQISDP: Bytes := [77, 81, 73, 115, 100, 112]
  const MQTT: Bytes := [77, 81, 84, 84]

  // ---------------------------------------------------------------------------------------------
  // What is written
  // ---------------------------------------------------------------------------------------------

  function ProtocolName(v: Version): Bytes {
    if v == Mqtt31 then MQISDP else MQTT
  }

  function VersionByte(v: Version): Byte {
    match v
    case Mqtt31 => 3
    case Mqtt311 => 4
    case Mqtt5 => 5
  }

  function Bit(b: bool): Byte {
    if b then 1 else 0
  }

  /** The connect flags (section 3.1.2.3) */
  function Flags(cleanSession: bool, will: Option<Will>, username: bool, password: bool): Byte
    requires will.Some? ==> will.value.qos <= 2
  {
    Bit(cleanSession) * 2
    + (if will.Some? then Bit(will.value.retain) * 32 + will.value.qos * 8 + 4 else 0)
    + Bit(username) * 128 + Bit(password) * 64
  }

  /** packet__write_string is given the length as a uint16_t. */
  function Truncated(s: Bytes): (r: Bytes)
    ensures |r| == |s| % 0x1_0000 && r <= s
  {
    s[..|s| % 0x1_0000]
  }

  function OrEmpty(s: Option<Bytes>): Bytes {
    if s.Some? then s.value else []
  }

  predicate OptionCounts(s: Option<Bytes>) {
    Counts(OrEmpty(s))
  }

  predicate PropertiesFit(ps: seq<Property>) {
    AllTyped(ps) && |EncodeList(ps)| < 0x2000_0000
  }

  /** What the client library makes sure of: strings no longer than 65535 bytes, and lengths that do not overflow */
  predicate Encodable(r: Request) {
    && PropertiesFit(r.properties)
    && OptionCounts(r.id) && OptionCounts(r.username) && OptionCounts(r.password)
    && (r.will.Some? ==>
          && r.will.value.qos <= 2 && Counts(r.will.value.topic) && |r.will.value.payload| <= 268435455
          && PropertiesFit(r.will.value.properties))
  }

  function OptionalString(s: Option<Bytes>): Bytes
    requires OptionCounts(s)
  {
    if s.Some? then Counted(s.value) else []
  }

  function PropertyBytes(v: Version, ps: seq<Property>): Bytes
    requires AllTyped(ps)
  {
    if v == Mqtt5 then EncodeProperties(ps) else []
  }

  function WillBytes(v: Version, will: Option<Will>): Bytes
    requires will.Some? ==> Counts(will.value.topic) && AllTyped(will.value.properties)
  {
    if will.None? then []
    else PropertyBytes(v, will.value.properties) + (Counted(will.value.topic) + Counted(Truncated(will.value.payload)))
  }

  function Preamble(r: Request): Bytes
    requires Encodable(r)
  {
    Counted(ProtocolName(r.version))
    + ([VersionByte(r.version)]
    + ([Flags(r.cleanSession, r.will, r.username.Some?, r.password.Some?)] + U16(r.keepalive)))
  }

  function ConnectPayload(r: Request): Bytes
    requires Encodable(r)
  {
    Counted(OrEmpty(r.id)) + (WillBytes(r.version, r.will) + (OptionalString(r.username) + OptionalString(r.password)))
  }

  function ConnectBody(r: Request): Bytes
    requires Encodable(r)
  {
    Preamble(r) + (PropertyBytes(r.version, r.properties) + ConnectPayload(r))
  }

  // ---------------------------------------------------------------------------------------------
  // What is read: the first bytes
  // ---------------------------------------------------------------------------------------------

  /** What the broker is configured to accept; prefixes is clientid_prefixes. */
  datatype Config = Config(retainAvailable: bool, allowZeroLengthId: bool, prefixes: Option<Bytes>)

  datatype FlagSet = FlagSet(cleanStart: bool, will: bool, willQos: nat, willRetain: bool, password: bool, username: bool)

  datatype Header = Header(version: Version, rawVersion: Byte, isBridge: bool, flags: FlagSet, keepalive: Word)

  /** A C string ends at its first NUL. */
  function UntilNul(s: Bytes): Bytes {
    if s == [] || s[0] == 0 then [] else [s[0]] + UntilNul(s[1..])
  }

  function VersionOf(name: Bytes, raw: Byte, command: Byte): Option<Version> {
    if UntilNul(name) == MQISDP then
      if raw % 128 != 3 then None else Some(Mqtt31)
    else if UntilNul(name) == MQTT then
      if command % 16 != 0 then None
      else if raw % 128 == 4 then Some(Mqtt311)
      else if raw % 128 == 5 then Some(Mqtt5)
      else None
    else None
  }

  function DecodeFlags(b: Byte): FlagSet {
    FlagSet(b / 2 % 2 == 1, b / 4 % 2 == 1, b / 8 % 4, b / 32 % 2 == 1, b / 64 % 2 == 1, b / 128 == 1)
  }

  function ReadVersion(s: Bytes, command: Byte): Parse<(Version, Byte)> {
    match ReadU16(s)
    case Bad(_, rest) => Bad(Failed, rest)
    case Ok(slen, rest) =>
      if slen != 4 && slen != 6 then Bad(Protocol, rest)
      else
        match ReadBytes(rest, slen)
        case Bad(_, rest) => Bad(Protocol, rest)
        case Ok(name, rest) =>
          match ReadByte(rest)
          case Bad(_, rest) => Bad(Failed, rest)
          case Ok(raw, rest) =>
            var v := VersionOf(name, raw, command);
            if v.None? then Bad(Protocol, rest) else Ok((v.value, raw), rest)
  }

  function ReadFlags(s: Bytes, v: Version, cfg: Config): Parse<FlagSet> {
    match ReadByte(s)
    case Bad(_, rest) => Bad(Failed, rest)
    case Ok(b, rest) =>
      var flags := DecodeFlags(b);
      if v != Mqtt31 && b % 2 != 0 then Bad(Protocol, rest)
      else if flags.willQos == 3 then Bad(Protocol, rest)
      else if flags.will && flags.willRetain && !cfg.retainAvailable then Bad(Failed, rest)
      else Ok(flags, rest)
  }

  function ReadHeader(s: Bytes, command: Byte, cfg: Config): Parse<Header> {
    match ReadVersion(s, command)
    case Bad(rc, rest) => Bad(rc, rest)
    case Ok((v, raw), rest) =>
      match ReadFlags(rest, v, cfg)
      case Bad(rc, rest) => Bad(rc, rest)
      case Ok(flags, rest) =>
        match ReadU16(rest)
        case Bad(_, rest) => Bad(Failed, rest)
        case Ok(keepalive, rest) => Ok(Header(v, raw, v != Mqtt5 && raw >= 128, flags, keepalive), rest)
  }

  // ---------------------------------------------------------------------------------------------
  // What is read: the rest
  // ---------------------------------------------------------------------------------------------

  /** The properties that go on with a message */
  predicate Forwardable(id: nat) {
    id in {CONTENT_TYPE, CORRELATION_DATA, PAYLOAD_FORMAT_INDICATOR, RESPONSE_TOPIC, USER_PROPERTY}
  }

  function Filtered(ps: seq<Property>): seq<Property> {
    if ps == [] then [] else (if Forwardable(ps[0].identifier) then [ps[0]] else []) + Filtered(ps[1..])
  }

  /** The last value that a property of four bytes has in a list */
  function LastDword(ps: seq<Property>, id: nat, otherwise: Dword): Dword {
    if ps == [] then otherwise
    else LastDword(ps[1..], id, if ps[0].identifier == id && ps[0].value.I32? then ps[0].value.dword else otherwise)
  }

  datatype WillMessage = WillMessage(topic: Bytes, payload: Bytes, qos: nat, retain: bool,
                                     properties: seq<Property>, delay: Dword, expiry: Dword)

  predicate WillProcessable(ps: seq<Property>) {
    forall k :: 0 <= k < |ps| ==>
      Forwardable(ps[k].identifier) || ps[k].identifier in {WILL_DELAY_INTERVAL, MESSAGE_EXPIRY_INTERVAL}
  }

  ghost function ReadWillProperties(s: Bytes, v: Version): Parse<seq<Property>> {
    if v != Mqtt5 then Ok([], s)
    else
      match ReadAll(CMD_WILL, s)
      case Bad(rc, rest) => Bad(rc, rest)
      case Ok(ps, rest) => if WillProcessable(ps) then Ok(ps, rest) else Bad(Protocol, rest)
  }

  function TopicText(s: Bytes): (r: string)
    ensures |r| == |s|
  {
    seq(|s|, i requires 0 <= i < |s| => s[i] as char)
  }

  predicate TopicOk(s: Bytes) {
    s != [] && |s| <= 65535 && Topic.ValidTopic(TopicText(s))
  }

  /** will__read */
  ghost function ReadWill(s: Bytes, v: Version, qos: nat, retain: bool): Parse<WillMessage> {
    match ReadWillProperties(s, v)
    case Bad(rc, rest) => Bad(rc, rest)
    case Ok(ps, rest) =>
      match ReadString(rest)
      case Bad(rc, rest) => Bad(rc, rest)
      case Ok(topic, rest) =>
        if topic == [] then Bad(Protocol, rest)
        else if !TopicOk(topic) then Bad(Inval, rest)
        else
          match ReadBinary(rest)
          case Bad(rc, rest) => Bad(rc, rest)
          case Ok(payload, rest) =>
            Ok(WillMessage(topic, payload, qos, retain, Filtered(ps),
                           LastDword(ps, WILL_DELAY_INTERVAL, 0), LastDword(ps, MESSAGE_EXPIRY_INTERVAL, 0)), rest)
  }

  ghost function ReadOptionalWill(s: Bytes, v: Version, flags: FlagSet): Parse<Option<WillMessage>> {
    if flags.will then
      match ReadWill(s, v, flags.willQos, flags.willRetain)
      case Bad(rc, rest) => Bad(rc, rest)
      case Ok(will, rest) => Ok(Some(will), rest)
    else if v != Mqtt31 && (flags.willQos != 0 || flags.willRetain) then Bad(Protocol, s)
    else Ok(None, s)
  }

  /** The client identifier, and whether it had to be generated; autoId is what client_id_gen returns. */
  ghost function ReadId(s: Bytes, v: Version, cleanStart: bool, cfg: Config, autoId: Bytes): Parse<(Bytes, bool)> {
    match ReadString(s)
    case Bad(_, rest) => Bad(Failed, rest)
    case Ok(id, rest) =>
      if id == [] && (v == Mqtt31 || (v == Mqtt311 && !cleanStart) || !cfg.allowZeroLengthId) then Bad(Protocol, rest)
      else
        var used := if id == [] then autoId else id;
        if cfg.prefixes.Some? && !(cfg.prefixes.value <= used) then Bad(Failed, rest)
        else Ok((used, id == []), rest)
  }

  /** Clients of version 3.1 may announce a name and a password and leave them out. */
  ghost function ReadUsername(s: Bytes, v: Version, flags: FlagSet): Parse<Option<Bytes>> {
    if flags.username then
      match ReadString(s)
      case Ok(name, rest) => Ok(Pointer(name), rest)
      case Bad(_, rest) => if v == Mqtt31 then Ok(None, rest) else Bad(Protocol, rest)
    else if v != Mqtt5 && flags.password then Bad(Protocol, s)
    else Ok(None, s)
  }

  function ReadPassword(s: Bytes, v: Version, flags: FlagSet): Parse<Option<Bytes>> {
    if flags.password then
      match ReadBinary(s)
      case Ok(password, rest) => Ok(Pointer(password), rest)
      case Bad(_, rest) => if v == Mqtt31 then Ok(None, rest) else Bad(Protocol, rest)
    else Ok(None, s)
  }

  datatype Payload = Payload(id: Bytes, assignedId: bool, will: Option<WillMessage>, username: Option<Bytes>, password: Option<Bytes>)

  ghost function ReadCredentials(s: Bytes, v: Version, flags: FlagSet): Parse<(Option<Bytes>, Option<Bytes>)> {
    match ReadUsername(s, v, flags)
    case Bad(rc, rest) => Bad(rc, rest)
    case Ok(username, rest) =>
      match ReadPassword(rest, v, flags)
      case Bad(rc, rest) => Bad(rc, rest)
      case Ok(password, rest) => Ok((username, password), rest)
  }

  ghost function ReadPayload(s: Bytes, v: Version, flags: FlagSet, cfg: Config, autoId: Bytes): Parse<Payload> {
    match ReadId(s, v, flags.cleanStart, cfg, autoId)
    case Bad(rc, rest) => Bad(rc, rest)
    case Ok((id, generated), rest) =>
      match ReadOptionalWill(rest, v, flags)
      case Bad(rc, rest) => Bad(rc, rest)
      case Ok(will, rest) =>
        match ReadCredentials(rest, v, flags)
        case Bad(rc, rest) => Bad(rc, rest)
        case Ok((username, password), rest) =>
          if rest != [] then Bad(Protocol, rest) else Ok(Payload(id, generated, will, username, password), rest)
  }

  /** The properties are read only if the version byte is exactly 5. */
  ghost function ReadConnectProperties(s: Bytes, raw: Byte): Parse<seq<Property>> {
    if raw == 5 then ReadAll(CMD_CONNECT, s) else Ok([], s)
  }

  datatype Connected = Connected(header: Header, properties: seq<Property>, payload: Payload)

  /** handle__connect, as far as the end of the packet */
  ghost function ParseConnect(s: Bytes, command: Byte, cfg: Config, autoId: Bytes): Parse<Connected> {
    match ReadHeader(s, command, cfg)
    case Bad(rc, rest) => Bad(rc, rest)
    case Ok(header, rest) =>
      match ReadConnectProperties(rest, header.rawVersion)
      case Bad(rc, rest) => Bad(rc, rest)
      case Ok(ps, rest) =>
        match ReadPayload(rest, header.version, header.flags, cfg, autoId)
        case Bad(rc, rest) => Bad(rc, rest)
        case Ok(payload, rest) => Ok(Connected(header, ps, payload), rest)
  }

  // ---------------------------------------------------------------------------------------------
  // The round trip
  // ---------------------------------------------------------------------------------------------

  ghost predicate Text(s: Bytes) {
    Counts(s) && WellFormed(s)
  }

  /** A request that a broker with this configuration has to honour */
  ghost predicate Valid(r: Request, cfg: Config, autoId: Bytes) {
    && Encodable(r)
    && (r.version == Mqtt5 ==> Sendable(CMD_CONNECT, r.properties))
    && Text(OrEmpty(r.id)) && Text(OrEmpty(r.username))
    && (OrEmpty(r.id) == [] ==> r.version != Mqtt31 && (r.version == Mqtt5 || r.cleanSession) && cfg.allowZeroLengthId)
    && (cfg.prefixes.Some? ==> cfg.prefixes.value <= if OrEmpty(r.id) == [] then autoId else OrEmpty(r.id))
    && (r.version != Mqtt5 && r.password.Some? ==> r.username.Some?)
    && (r.will.Some? ==> ValidWill(r.version, r.will.value, cfg))
  }

  ghost predicate ValidWill(v: Version, w: Will, cfg: Config) {
    && w.qos <= 2 && Text(w.topic) && TopicOk(w.topic) && Counts(w.payload)
    && (w.retain ==> cfg.retainAvailable)
    && (v == Mqtt5 ==> Sendable(CMD_WILL, w.properties) && WillProcessable(w.properties))
  }

  /** What the broker should get; an empty name or password is a null pointer. */
  function Meant(r: Request, autoId: Bytes): Connected
    requires r.will.Some? ==> r.will.value.qos <= 2
  {
    var ps := if r.version == Mqtt5 && r.will.Some? then r.will.value.properties else [];
    Connected(
      Header(r.version, VersionByte(r.version), false,
             FlagSet(r.cleanSession, r.will.Some?, if r.will.Some? then r.will.value.qos else 0,
                     r.will.Some? && r.will.value.retain, r.password.Some?, r.username.Some?),
             r.keepalive),
      if r.version == Mqtt5 then r.properties else [],
      Payload(
        if OrEmpty(r.id) == [] then autoId else OrEmpty(r.id), OrEmpty(r.id) == [],
        if r.will.None? then None
        else Some(WillMessage(r.will.value.topic, r.will.value.payload, r.will.value.qos, r.will.value.retain,
                              Filtered(ps), LastDword(ps, WILL_DELAY_INTERVAL, 0), LastDword(ps, MESSAGE_EXPIRY_INTERVAL, 0))),
        Pointer(OrEmpty(r.username)), Pointer(OrEmpty(r.password))))
  }

  lemma BitsApart(c: nat, w: nat, q: nat, r: nat, p: nat, u: nat)
    requires c <= 1 && w <= 1 && q <= 3 && r <= 1 && p <= 1 && u <= 1
    ensures var b := c * 2 + w * 4 + q * 8 + r * 32 + p * 64 + u * 128;
      && b % 2 == 0 && b / 2 % 2 == c && b / 4 % 2 == w && b / 8 % 4 == q && b / 32 % 2 == r && b / 64 % 2 == p && b / 128 == u
  {
    var b := c * 2 + w * 4 + q * 8 + r * 32 + p * 64 + u * 128;
    assert b / 2 == c + w * 2 + q * 4 + r * 16 + p * 32 + u * 64;
    assert b / 4 == w + q * 2 + r * 8 + p * 16 + u * 32;
    assert b / 8 == q + r * 4 + p * 8 + u * 16;
    assert b / 32 == r + p * 2 + u * 4;
    assert b / 64 == p + u * 2;
  }

  lemma FlagsDecode(cleanSession: bool, will: Option<Will>, username: bool, password: bool)
    requires will.Some? ==> will.value.qos <= 2
    ensures var b := Flags(cleanSession, will, username, password);
      && b % 2 == 0
      && DecodeFlags(b) == FlagSet(cleanSession, will.Some?, if will.Some? then will.value.qos else 0,
                                   will.Some? && will.value.retain, password, username)
  {
    if will.Some? {
      BitsApart(Bit(cleanSession), 1, will.value.qos, Bit(will.value.retain), Bit(password), Bit(username));
    } else {
      BitsApart(Bit(cleanSession), 0, 0, 0, Bit(password), Bit(username));
    }
  }

  lemma UntilNulOfNames()
    ensures UntilNul(MQISDP) == MQISDP && UntilNul(MQTT) == MQTT
  {
    assert MQTT == [77] + ([81] + ([84] + ([84] + [])));
    NotNul(84, []);
    NotNul(84, [84]);
    NotNul(81, [84, 84]);
    NotNul(77, [81, 84, 84]);
    NotNul(112, []);
    NotNul(100, [112]);
    NotNul(115, [100, 112]);
    NotNul(73, [115, 100, 112]);
    NotNul(81, [73, 115, 100, 112]);
    NotNul(77, [81, 73, 115, 100, 112]);
  }

  lemma NotNul(b: Byte, s: Bytes)
    requires b != 0
    ensures UntilNul([b] + s) == [b] + UntilNul(s)
  {
    assert ([b] + s)[1..] == s;
  }

  lemma VersionReadBack(v: Version, rest: Bytes)
    ensures ReadVersion(Counted(ProtocolName(v)) + ([VersionByte(v)] + rest), CMD_CONNECT) == Ok((v, VersionByte(v)), rest)
  {
    hide ReadU16, ReadBytes, ReadByte, UntilNul, U16;
    var name, behind := ProtocolName(v), [VersionByte(v)] + rest;
    assert Counted(name) + behind == U16(|name|) + (name + behind);
    U16ReadBack(|name|, name + behind);
    BytesReadBack(name, behind);
    ByteReadBack(VersionByte(v), rest);
    UntilNulOfNames();
  }

  lemma FlagsReadBack(r: Request, cfg: Config, rest: Bytes)
    requires r.will.Some? ==> r.will.value.qos <= 2
    requires r.will.Some? && r.will.value.retain ==> cfg.retainAvailable
    ensures ReadFlags([Flags(r.cleanSession, r.will, r.username.Some?, r.password.Some?)] + rest, r.version, cfg)
         == Ok(Meant(r, []).header.flags, rest)
  {
    hide DecodeFlags, Flags;
    FlagsDecode(r.cleanSession, r.will, r.username.Some?, r.password.Some?);
    ByteReadBack(Flags(r.cleanSession, r.will, r.username.Some?, r.password.Some?), rest);
  }

  lemma HeaderReadBack(r: Request, cfg: Config, rest: Bytes)
    requires Encodable(r) && (r.will.Some? && r.will.value.retain ==> cfg.retainAvailable)
    ensures ReadHeader(Preamble(r) + rest, CMD_CONNECT, cfg) == Ok(Meant(r, []).header, rest)
  {
    hide ReadVersion, ReadFlags, ReadU16, Flags, Counted, U16;
    var flags := [Flags(r.cleanSession, r.will, r.username.Some?, r.password.Some?)];
    var behind := flags + (U16(r.keepalive) + rest);
    assert Preamble(r) + rest == Counted(ProtocolName(r.version)) + ([VersionByte(r.version)] + behind);
    VersionReadBack(r.version, behind);
    FlagsReadBack(r, cfg, U16(r.keepalive) + rest);
    U16ReadBack(r.keepalive, rest);
  }

  lemma WillReadBack(v: Version, w: Will, cfg: Config, rest: Bytes)
    requires ValidWill(v, w, cfg) && AllTyped(w.properties)
    ensures var ps := if v == Mqtt5 then w.properties else [];
      ReadWill(WillBytes(v, Some(w)) + rest, v, w.qos, w.retain) ==
        Ok(WillMessage(w.topic, w.payload, w.qos, w.retain, Filtered(ps),
                       LastDword(ps, WILL_DELAY_INTERVAL, 0), LastDword(ps, MESSAGE_EXPIRY_INTERVAL, 0)), rest)
  {
    hide ReadAll, ReadString, ReadBinary, Counted, EncodeProperties, Filtered, LastDword, WillProcessable, TopicOk,
         WellFormed, AllTyped, Accepted, AllValidText;
    assert Truncated(w.payload) == w.payload;
    var behind := Counted(w.topic) + (Counted(w.payload) + rest);
    if v == Mqtt5 {
      assert WillBytes(v, Some(w)) + rest == EncodeProperties(w.properties) + behind;
      AllReadBack(CMD_WILL, w.properties, behind);
    } else {
      assert WillBytes(v, Some(w)) + rest == behind;
    }
    StringReadBack(w.topic, Counted(w.payload) + rest);
    BinaryReadBack(w.payload, rest);
    TopicNotEmpty(w.topic);
  }

  lemma TopicNotEmpty(s: Bytes)
    requires TopicOk(s)
    ensures s != []
  {
  }

  lemma CredentialsReadBack(r: Request)
    requires OptionCounts(r.username) && OptionCounts(r.password) && Text(OrEmpty(r.username))
    requires r.version != Mqtt5 && r.password.Some? ==> r.username.Some?
    requires r.will.Some? ==> r.will.value.qos <= 2
    ensures ReadCredentials(OptionalString(r.username) + OptionalString(r.password), r.version, Meant(r, []).header.flags)
         == Ok((Pointer(OrEmpty(r.username)), Pointer(OrEmpty(r.password))), [])
  {
    hide ReadString, ReadBinary, Counted, WellFormed, Filtered, LastDword;
    var behind := OptionalString(r.password);
    assert behind + [] == behind && [] + behind == behind;
    if r.username.Some? {
      StringReadBack(r.username.value, behind);
    }
    if r.password.Some? {
      BinaryReadBack(r.password.value, []);
    }
  }

  lemma IdReadBack(r: Request, cfg: Config, autoId: Bytes, rest: Bytes)
    requires Valid(r, cfg, autoId)
    ensures ReadId(Counted(OrEmpty(r.id)) + rest, r.version, r.cleanSession, cfg, autoId)
         == Ok((if OrEmpty(r.id) == [] then autoId else OrEmpty(r.id), OrEmpty(r.id) == []), rest)
  {
    hide ReadString, Counted, WellFormed, Encodable, Sendable, ValidWill;
    StringReadBack(OrEmpty(r.id), rest);
  }

  lemma PayloadReadBack(r: Request, cfg: Config, autoId: Bytes)
    requires Valid(r, cfg, autoId)
    ensures ReadPayload(ConnectPayload(r), r.version, Meant(r, []).header.flags, cfg, autoId) == Ok(Meant(r, autoId).payload, [])
  {
    hide ReadId, ReadWill, ReadCredentials, Counted, WillBytes, OptionalString, WellFormed, Sendable, ValidWill,
         AllTyped, Filtered, LastDword;
    var credentials := OptionalString(r.username) + OptionalString(r.password);
    IdReadBack(r, cfg, autoId, WillBytes(r.version, r.will) + credentials);
    if r.will.Some? {
      WillReadBack(r.version, r.will.value, cfg, credentials);
    } else {
      NoWill(r.version);
      assert [] + credentials == credentials;
    }
    CredentialsReadBack(r);
  }

  lemma NoWill(v: Version)
    ensures WillBytes(v, None) == []
  {
  }

  /** The broker gets what the client meant, and nothing is left over. */
  lemma ConnectRoundTrip(r: Request, cfg: Config, autoId: Bytes)
    requires Valid(r, cfg, autoId)
    ensures ParseConnect(ConnectBody(r), CMD_CONNECT, cfg, autoId) == Ok(Meant(r, autoId), [])
  {
    hide ReadHeader, ReadPayload, ReadAll, Preamble, ConnectPayload, Sendable, WellFormed, EncodeProperties,
         AllTyped, Filtered, LastDword;
    var behind := PropertyBytes(r.version, r.properties) + ConnectPayload(r);
    RetainIsAvailable(r, cfg, autoId);
    HeaderReadBack(r, cfg, behind);
    if r.version == Mqtt5 {
      AllReadBack(CMD_CONNECT, r.properties, ConnectPayload(r));
    } else {
      assert behind == ConnectPayload(r);
    }
    PayloadReadBack(r, cfg, autoId);
  }

  lemma RetainIsAvailable(r: Request, cfg: Config, autoId: Bytes)
    requires Valid(r, cfg, autoId)
    ensures r.will.Some? && r.will.value.retain ==> cfg.retainAvailable
  {
  }

  /** The client lets a will have a reason string; only then does the broker refuse the will's properties. */
  lemma WillPropertiesAccepted(ps: seq<Property>)
    requires Accepted(CMD_WILL, ps)
    ensures WillProcessable(ps) <==> forall k :: 0 <= k < |ps| ==> ps[k].identifier != REASON_STRING
  {
    forall k | 0 <= k < |ps|
      ensures ps[k].identifier != REASON_STRING <==>
        Forwardable(ps[k].identifier) || ps[k].identifier in {WILL_DELAY_INTERVAL, MESSAGE_EXPIRY_INTERVAL}
    {
      assert CheckCommand(CMD_WILL, ps[k].identifier) == Success;
    }
  }

  // ---------------------------------------------------------------------------------------------
  // Nothing else is accepted
  // ---------------------------------------------------------------------------------------------

  /** The protocol name as the broker compares it: a name of six bytes may be "MQTT", a NUL and any byte. */
  predicate NameIs(name: Bytes, wanted: Bytes) {
    (|name| == 4 || |name| == 6) && wanted <= name && (|name| == |wanted| || name[|wanted|] == 0)
  }

  /** Name, version byte, flags and fixed header that the broker accepts. The top bit of the version byte is ignored, and
      the reserved flag, too, from clients of version 3.1. */
  predicate HeaderOk(name: Bytes, raw: Byte, flags: Byte, command: Byte, cfg: Config) {
    && (if NameIs(name, MQISDP) then raw % 128 == 3
        else NameIs(name, MQTT) && raw % 128 in {4, 5} && command % 16 == 0 && flags % 2 == 0)
    && flags / 8 % 4 != 3
    && (flags / 4 % 2 == 1 && flags / 32 % 2 == 1 ==> cfg.retainAvailable)
  }

  function HeaderBytes(name: Bytes, raw: Byte, flags: Byte, keepalive: Word): Bytes
    requires Counts(name)
  {
    Counted(name) + ([raw] + ([flags] + U16(keepalive)))
  }

  /** The header that name, version byte and flags stand for */
  function HeaderOf(name: Bytes, raw: Byte, flags: Byte, keepalive: Word): Header {
    var v := if NameIs(name, MQISDP) then Mqtt31 else if raw % 128 == 4 then Mqtt311 else Mqtt5;
    Header(v, raw, v != Mqtt5 && raw >= 128, DecodeFlags(flags), keepalive)
  }

  lemma {:induction false} UntilNulIs(s: Bytes, p: Bytes)
    requires 0 !in p
    ensures UntilNul(s) == p <==> p <= s && (|s| == |p| || s[|p|] == 0)
  {
    if s != [] && p != [] {
      assert 0 !in p[1..];
      UntilNulIs(s[1..], p[1..]);
      if s[0] == p[0] {
        assert p == [p[0]] + p[1..];
        assert p[1..] <= s[1..] <==> p <= s;
      }
    }
  }

  lemma NamesTold(name: Bytes)
    requires |name| == 4 || |name| == 6
    ensures UntilNul(name) == MQISDP <==> NameIs(name, MQISDP)
    ensures UntilNul(name) == MQTT <==> NameIs(name, MQTT)
  {
    UntilNulIs(name, MQISDP);
    UntilNulIs(name, MQTT);
  }

  /** A header with these bytes is accepted exactly if they are in order. */
  lemma HeaderJudged(name: Bytes, raw: Byte, flags: Byte, keepalive: Word, rest: Bytes, command: Byte, cfg: Config)
    requires Counts(name)
    ensures var r := ReadHeader(HeaderBytes(name, raw, flags, keepalive) + rest, command, cfg);
      && (r.Ok? <==> HeaderOk(name, raw, flags, command, cfg))
      && (r.Ok? ==> r == Ok(HeaderOf(name, raw, flags, keepalive), rest))
  {
    hide U16, UntilNul, DecodeFlags, ReadU16, ReadBytes, ReadByte, NameIs;
    var c := U16(keepalive) + rest;
    var b := [flags] + c;
    var a := [raw] + b;
    assert HeaderBytes(name, raw, flags, keepalive) + rest == U16(|name|) + (name + a);
    U16ReadBack(|name|, name + a);
    BytesReadBack(name, a);
    ByteReadBack(raw, b);
    ByteReadBack(flags, c);
    U16ReadBack(keepalive, rest);
    OnlyTheseLengths(name);
    if |name| == 4 || |name| == 6 {
      NamesTold(name);
      OneName(name);
    }
    FlagBits(flags);
  }

  lemma OnlyTheseLengths(name: Bytes)
    ensures NameIs(name, MQISDP) || NameIs(name, MQTT) ==> |name| == 4 || |name| == 6
  {
  }

  lemma OneName(name: Bytes)
    ensures !(NameIs(name, MQISDP) && NameIs(name, MQTT))
  {
  }

  lemma FlagBits(b: Byte)
    ensures var f := DecodeFlags(b);
      f.will == (b / 4 % 2 == 1) && f.willQos == b / 8 % 4 && f.willRetain == (b / 32 % 2 == 1)
  {
  }

  /** And no other bytes are: the broker accepts exactly the headers in order, and reads them as what they say. */
  lemma AcceptedHeader(s: Bytes, command: Byte, cfg: Config) returns (name: Bytes, flags: Byte)
    requires ReadHeader(s, command, cfg).Ok?
    ensures var h, rest := ReadHeader(s, command, cfg).value, ReadHeader(s, command, cfg).rest;
      && Counts(name) && s == HeaderBytes(name, h.rawVersion, flags, h.keepalive) + rest
      && HeaderOk(name, h.rawVersion, flags, command, cfg)
      && h == HeaderOf(name, h.rawVersion, flags, h.keepalive)
  {
    hide ReadVersion, ReadFlags, ReadU16, U16, NameIs, HeaderOk, HeaderOf;
    var a := ReadVersion(s, command);
    name := VersionCanonical(s, command);
    var (v, raw) := a.value;
    var b := ReadFlags(a.rest, v, cfg);
    flags := FlagsCanonical(a.rest, v, cfg);
    U16Canonical(b.rest);
    var k := ReadU16(b.rest);
    Associate(Counted(name), [raw], [flags], U16(k.value), k.rest);
    HeaderJudged(name, raw, flags, k.value, k.rest, command, cfg);
  }

  lemma Associate(a: Bytes, b: Bytes, c: Bytes, d: Bytes, e: Bytes)
    ensures a + (b + (c + (d + e))) == a + (b + (c + d)) + e
  {
  }

  lemma VersionCanonical(s: Bytes, command: Byte) returns (name: Bytes)
    requires ReadVersion(s, command).Ok?
    ensures Counts(name) && s == Counted(name) + ([ReadVersion(s, command).value.1] + ReadVersion(s, command).rest)
  {
    hide VersionOf, U16, Shifted;
    U16Canonical(s);
    var a := ReadU16(s);
    var b := ReadBytes(a.rest, a.value);
    name := b.value;
    assert a.rest == name + b.rest;
    assert b.rest == [b.rest[0]] + b.rest[1..];
  }

  lemma FlagsCanonical(s: Bytes, v: Version, cfg: Config) returns (flags: Byte)
    requires ReadFlags(s, v, cfg).Ok?
    ensures s == [flags] + ReadFlags(s, v, cfg).rest
  {
    hide DecodeFlags;
    flags := s[0];
    assert s == [s[0]] + s[1..];
  }

  /** A will has a topic without wildcards, and the QoS and retain flag of the header. */
  ghost predicate LawfulWill(will: Option<WillMessage>, h: Header) {
    && (will.Some? <==> h.flags.will)
    && (will.None? && h.version != Mqtt31 ==> h.flags.willQos == 0 && !h.flags.willRetain)
    && (will.Some? ==>
          && TopicOk(will.value.topic) && WellFormed(will.value.topic) && Counts(will.value.payload)
          && will.value.qos == h.flags.willQos && will.value.retain == h.flags.willRetain)
  }

  /** Before version 5 a password needs a name; what was not announced is not there. */
  ghost predicate LawfulCredentials(username: Option<Bytes>, password: Option<Bytes>, h: Header) {
    && (h.version != Mqtt5 && h.flags.password ==> h.flags.username)
    && (username.Some? ==> h.flags.username && username.value != [] && WellFormed(username.value))
    && (password.Some? ==> h.flags.password && password.value != [])
  }

  /** An identifier is generated only where the client may leave it out (section 3.1.3.1). */
  ghost predicate LawfulId(p: Payload, h: Header, cfg: Config, autoId: Bytes) {
    && (p.assignedId ==> p.id == autoId && cfg.allowZeroLengthId && (h.version == Mqtt5 || (h.version == Mqtt311 && h.flags.cleanStart)))
    && (!p.assignedId ==> p.id != [] && WellFormed(p.id))
    && (cfg.prefixes.Some? ==> cfg.prefixes.value <= p.id)
  }

  lemma WillIsLawful(s: Bytes, h: Header)
    requires ReadOptionalWill(s, h.version, h.flags).Ok?
    ensures LawfulWill(ReadOptionalWill(s, h.version, h.flags).value, h)
  {
    hide ReadAll, ReadString, ReadBinary, WellFormed, TopicOk, Filtered, LastDword, WillProcessable, Counted;
    if h.flags.will {
      var rest := ReadWillProperties(s, h.version).rest;
      StringCanonical(rest);
      BinaryCanonical(ReadString(rest).rest);
    }
  }

  lemma CredentialsAreLawful(s: Bytes, h: Header)
    requires ReadCredentials(s, h.version, h.flags).Ok?
    ensures var (username, password) := ReadCredentials(s, h.version, h.flags).value; LawfulCredentials(username, password, h)
  {
    hide ReadString, ReadBinary, WellFormed, Counted;
    if h.flags.username && ReadString(s).Ok? {
      StringCanonical(s);
    }
  }

  lemma IdIsLawful(s: Bytes, h: Header, cfg: Config, autoId: Bytes)
    requires ReadId(s, h.version, h.flags.cleanStart, cfg, autoId).Ok?
    ensures var (id, generated) := ReadId(s, h.version, h.flags.cleanStart, cfg, autoId).value;
      LawfulId(Payload(id, generated, None, None, None), h, cfg, autoId)
  {
    hide ReadString, WellFormed, Counted;
    StringCanonical(s);
  }

  /** Whatever CONNECT the broker accepts starts with a header in order, keeps the standard's rules on properties,
      identifier, will, name and password, and leaves nothing over. A version byte of 0x85 means version 5, but then no
      properties are read. */
  lemma AcceptedConnect(s: Bytes, command: Byte, cfg: Config, autoId: Bytes) returns (name: Bytes, flags: Byte)
    requires ParseConnect(s, command, cfg, autoId).Ok?
    ensures var c := ParseConnect(s, command, cfg, autoId).value;
      && ParseConnect(s, command, cfg, autoId).rest == []
      && Counts(name) && HeaderBytes(name, c.header.rawVersion, flags, c.header.keepalive) <= s
      && HeaderOk(name, c.header.rawVersion, flags, command, cfg)
      && c.header == HeaderOf(name, c.header.rawVersion, flags, c.header.keepalive)
      && (c.header.rawVersion != 5 ==> c.properties == [])
      && (c.header.rawVersion == 5 ==> AllTyped(c.properties) && AllValidText(c.properties) && Accepted(CMD_CONNECT, c.properties))
      && LawfulId(c.payload, c.header, cfg, autoId)
      && LawfulWill(c.payload.will, c.header)
      && LawfulCredentials(c.payload.username, c.payload.password, c.header)
  {
    hide ReadHeader, ReadAll, ReadId, ReadOptionalWill, ReadCredentials, AllTyped, AllValidText, Accepted,
         HeaderOk, HeaderOf, HeaderBytes, LawfulWill, LawfulCredentials, WellFormed;
    name, flags := AcceptedHeader(s, command, cfg);
    var h, rest := ReadHeader(s, command, cfg).value, ReadHeader(s, command, cfg).rest;
    if h.rawVersion == 5 {
      AllCanonical(CMD_CONNECT, rest);
      rest := ReadAll(CMD_CONNECT, rest).rest;
    }
    IdIsLawful(rest, h, cfg, autoId);
    rest := ReadId(rest, h.version, h.flags.cleanStart, cfg, autoId).rest;
    WillIsLawful(rest, h);
    rest := ReadOptionalWill(rest, h.version, h.flags).rest;
    CredentialsAreLawful(rest, h);
  }
}
