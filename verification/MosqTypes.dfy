/** Types shared by the client library and the broker. */
module MosqTypes {

  /** uint8_t */
  type Byte = b: int | 0 <= b < 0x100

  /** uint16_t; also the type of packet identifiers */
  type Word = w: int | 0 <= w < 0x1_0000

  datatype Option<+T> = None | Some(value: T)

  /** The return codes (MOSQ_ERR_*) the modelled functions use.
      Failed stands for the bare "return 1" of the broker handlers. */
  datatype Rc = Success | Failed | Protocol | Inval | NotFound | NoConn | ConnLost | Errno
              | PayloadSize | OversizePacket | MalformedUtf8 | MalformedPacket | DuplicateProperty
              | AclDenied

  /** enum mosquitto_msg_state */
  datatype MsgState =
    | Invalid
    | PublishQos0
    | PublishQos1
    | WaitForPuback
    | PublishQos2
    | WaitForPubrec
    | ResendPubrel
    | WaitForPubrel
    | ResendPubcomp
    | WaitForPubcomp
    | SendPubrec
    | Queued

  /** util__increment_*_quota and util__decrement_*_quota */
  function Incremented(quota: int, maximum: Word): int {
    if quota < maximum then quota + 1 else quota
  }

  function Decremented(quota: int): int {
    if quota > 0 then quota - 1 else quota
  }

  function Min(a: int, b: int): int {
    if a < b then a else b
  }

  function Max(a: int, b: int): int {
    if a < b then b else a
  }

  /** A list without the element at index k */
  function Without<T>(s: seq<T>, k: nat): (r: seq<T>)
    requires k < |s|
    ensures |r| == |s| - 1
    ensures forall i :: 0 <= i < |r| ==> r[i] == if i < k then s[i] else s[i + 1]
  {
    s[..k] + s[k + 1..]
  }
}
