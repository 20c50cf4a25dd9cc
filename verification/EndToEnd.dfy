/** The pieces together: messages published on a connection reach the broker's handler as they were meant and in order,
    whatever the network does to the byte stream in between. */
module EndToEnd {
  import opened MosqTypes
  import opened Wire
  import opened Framing
  import opened Properties
  import opened Connect
  import opened Publish

  /** A message that this broker has to take over and whose packet it is willing to read */
  ghost predicate Deliverable(m: Message, l: Listener, limit: nat) {
    && ValidFor(m, l) && AllTyped(AllProperties(m))
    && |PublishBody(m, l.version)| < VARINT_LIMIT && (limit == 0 || |PublishBody(m, l.version)| < limit)
  }

  ghost predicate AllDeliverable(ms: seq<Message>, l: Listener, limit: nat) {
    forall k :: 0 <= k < |ms| ==> Deliverable(ms[k], l, limit)
  }

  ghost function FrameOf(m: Message, l: Listener, limit: nat): Frame
    requires Deliverable(m, l, limit)
  {
    Frame(PublishCommand(m), PublishBody(m, l.version))
  }

  ghost function FramesOf(ms: seq<Message>, l: Listener, limit: nat): seq<Frame>
    requires AllDeliverable(ms, l, limit)
  {
    seq(|ms|, k requires 0 <= k < |ms| => FrameOf(ms[k], l, limit))
  }

  lemma FrameIsAcceptable(m: Message, l: Listener, limit: nat)
    requires Deliverable(m, l, limit)
    ensures Acceptable(FrameOf(m, l, limit), false, limit)
  {
    hide PublishBody, AllTyped, AllProperties;
    CommandBits(m);
  }

  /** The handler makes of a packet what the sender of the message meant, whatever topic aliases it has by then. */
  ghost predicate Understood(f: Frame, m: Message, l: Listener) {
    && m.topic.Some?
    && (forall aliases ::
          ParsePublish(f.body, f.command, l, aliases) == Ok((MeantMessage(m, l.version), AliasesAfter(m, l.version, aliases)), []))
  }

  lemma FrameIsUnderstood(m: Message, l: Listener, limit: nat)
    requires Deliverable(m, l, limit)
    ensures Understood(FrameOf(m, l, limit), m, l)
  {
    hide ParsePublish, MeantMessage, AliasesAfter, PublishBody, PublishCommand, AllProperties, AllTyped;
    forall aliases
      ensures ParsePublish(PublishBody(m, l.version), PublishCommand(m), l, aliases)
           == Ok((MeantMessage(m, l.version), AliasesAfter(m, l.version, aliases)), [])
    {
      PublishRoundTrip(m, l, aliases);
    }
  }

  /** Part of what was sent has arrived. Then the packets handled are those of the first messages, in order, and each is
      understood. */
  lemma PublishesArriveInOrder(ms: seq<Message>, l: Listener, limit: nat, sent: Bytes, pending: Bytes, received: Bytes)
    requires AllDeliverable(ms, l, limit)
    requires sent + pending == Stream(FramesOf(ms, l, limit)) && received <= sent
    ensures var c := FeedAll(Open(false, IDLE, []), received, limit);
      && c.Open? && |c.handled| <= |ms|
      && (received + pending == Stream(FramesOf(ms, l, limit)) && pending == [] ==> |c.handled| == |ms|)
      && forall k :: 0 <= k < |c.handled| ==> Understood(c.handled[k], ms[k], l)
  {
    hide Deliverable, FrameOf, FeedAll, Understood, Stream;
    var frames := FramesOf(ms, l, limit);
    forall k | 0 <= k < |frames|
      ensures Acceptable(frames[k], false && k == 0, limit)
    {
      FrameIsAcceptable(ms[k], l, limit);
    }
    Delivered(frames, sent, pending, received, false, limit);
    var c := FeedAll(Open(false, IDLE, []), received, limit);
    forall k | 0 <= k < |c.handled|
      ensures Understood(c.handled[k], ms[k], l)
    {
      assert c.handled[k] == frames[k] == FrameOf(ms[k], l, limit);
      FrameIsUnderstood(ms[k], l, limit);
    }
  }
}
