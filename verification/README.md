# Mosquitto 1.6.3 in Dafny

A model of the MQTT 3.1.1 and 5.0 client library and broker of Mosquitto 1.6.3, with proofs. `dafny verify dfyconfig.toml`
checks all of it. Code that the sources run in place is code here too: classes with mutable fields, arrays, loops and, where
pointers matter, linked nodes. Each such method is proved against a specification function or states its result outright;
the lemmas about those functions carry the properties.

**Delivery.** `ClientQueue` and `ClientRuns` are the client's list of outgoing messages with its send quota; `PacketIds` the
source of packet identifiers. `BrokerDb` and `BrokerDbMethods` are the broker's message store and the lists of each client;
`BrokerWorld` and `BrokerRuns` put any number of clients around one store and let any sequence of operations run.
`BrokerSends`, `BrokerAnswers`, `BrokerAcks`, `BrokerResets` and `BrokerInserts` say message by message what each operation
sends, answers, takes in and leaves, and `BrokerWrites` what that means for a client that was away. `BrokerRefs`,
`BrokerCounters`, `BrokerFifo` and `BrokerOrder` say what each operation keeps, `BrokerKept` that a message for a client stays
until it is acknowledged, `BrokerCommitted` that a QoS 2 message is not published again after PUBREC, and `Broker` serves any
sequence of operations on mutable contexts, so that the theorems about runs hold of the code. `Qos2` joins a client and the
broker by two channels that a disconnect empties, and `Qos2Steps` says what each packet does; `Qos2Slots`, `Qos2Invariant` and
`Qos2Proof` lead to at-most-once routing, `Qos2Ids` adds the source of identifiers, and `Qos2Limit` shows that the bound on
outstanding messages is exact. `Qos2Replies` and `Qos2Complete` lead to the other half, that nothing is lost and so every call
is routed exactly once; `Resend` says that a reconnect repeats packets in call order. `StoreList` is the store's doubly linked
list.

**Transport.** `Packet` is struct mosquitto__packet with its allocation, readers and writers. `Framing` describes a stream of
packets and a receiver that takes it byte by byte; `Transport` is the code that writes and reads any number of bytes at a
time, against a socket with an arbitrary schedule.

**Codec.** `Wire` has the data representations, `Property`, `PropertyIO` and `PropertySplit` the property lists, `Connect`,
`ConnectIO`, `Publish`, `PublishIO`, `Subscribe` and `Commands` the packets: what the senders write, what the handlers read,
that the second undoes the first, and what is accepted; `StandardExamples` has concrete bytes. `EndToEnd` puts transport and
codec together.

**Recognisers.** `Topic` has the topic and filter checks, the matcher and the tokeniser against the level-by-level rules of
section 4.7 of MQTT 5.0; `Utf8` the validator against section 4 of RFC 3629 and section 1.5.4 of MQTT 5.0.

Where the code does not do what one would expect, the model follows the code and a lemma says exactly when it does:

- CONNACK refills the client's send quota although a reconnect has already counted the messages outstanding, and the next
  reconnect takes messages beyond `inflight_maximum` out of their handshake. Hence the bound in `Qos2Proof.RoutedAtMostOnce`,
  the run in `Qos2Limit.OverrunRoutesTwice`, and `ClientRuns.ResetKeepsHandshakes`. For the same reason the Receive Maximum
  of CONNACK is kept from there on exactly if nothing was outstanding (`ClientRuns.ReceiveMaximumIff`).
- The broker's reconnect forgets PUBREC for a message whose PUBREL is still to be sent, as after an earlier reconnect, and
  publishes it again (`BrokerCommitted.PublishedAgainIff`).
- A connected client with fewer payload bytes than `max_inflight_bytes` has no room in a queue with a byte limit
  (`BrokerInserts.NoQueueBelowInflightBytes`).
- The broker's reconnect takes quota for outgoing messages from the receive quota (`BrokerCounters.ReconnectFlow`), sets the
  state of one message while it moves another (`BrokerFifo.ResetQueueExact`), and corrects counters that a QoS downgrade or
  the access check at connect had skewed (`BrokerCounters.InsertCounters`, `AclPurgeCounters`, `ReconnectResetCounters`).
- When routing a released message fails, PUBCOMP goes out all the same and the broker goes on holding the message, so that a
  later one under its identifier is taken for a duplicate (`Qos2Complete.FailedRoutingTakesNext`). Hence the condition on
  identifiers in `Qos2Complete.NothingLost`.
- A peer that closes the connection inside the body of a packet is reported as an errno error, anywhere else as a lost
  connection (`Transport.Receiver.Read`).
- A property list may overrun its declared length in its last property (`Properties.AllCanonical`, `LastPropertyOverruns`).
- A command byte of zero counts as no command (`Framing.ZeroCommandByte`).
- A string of more than 65535 bytes in CONNECT is announced in full and written cut off (`ConnectIO.ConnectSize`,
  `NothingLost`); with properties of 2^28 bytes or more PUBLISH writes more than it announces (`Publish.PublishFill`).
- The client lets a will have a reason string, which the broker refuses (`Connect.WillPropertiesAccepted`), and a client whose
  own `inflight_maximum` is 0 announces a receive maximum of 0, which the broker refuses (`ConnectIO.LocalPropertiesSendable`).
- The tokeniser returns an empty last token for a topic that ends in a separator; the comment at lib/mosquitto.h:2228-2236
  says otherwise.
- In a filter given with its length, a NUL before a wildcard passes for a separator (`Topic.SubTopicCheck2`).
- In SUBSCRIBE an empty filter is passed over without its option byte (`Subscribe.EmptyFilterSkipped`).
- The protocol name "MQTT" may be followed by a NUL and any byte, and version 5 announced with the top bit set has no
  properties (`Connect.HeaderJudged`, `AcceptedConnect`).

## Model

| member | source | states |
|---|---|---|
| ClientQueue.OutQueue.ReleaseToInflight | mqtt/mosquitto-1.6.3/lib/messages_mosq.c:187-215 | exactly the next waiting messages go out, in list order, each for one quota and then waiting for PUBACK or PUBREC by its QoS; the pass ends with the list or the quota, or at a PUBLISH that is not taken, whose message is marked all the same and whose error is returned |
| ClientQueue.OutQueue.Queue | mqtt/mosquitto-1.6.3/lib/messages_mosq.c:119-135 | a new message goes to the end of the list and the next waiting ones go out |
| ClientQueue.OutQueue.Remove | mqtt/mosquitto-1.6.3/lib/messages_mosq.c:218-271 | the first message with the identifier goes if its QoS fits, otherwise nothing changes; the three answers |
| ClientQueue.OutQueue.OutUpdate | mqtt/mosquitto-1.6.3/lib/messages_mosq.c:318-338 | only the state of the first message with the identifier changes, and only if the QoS fits |
| ClientQueue.OutQueue.ReconnectReset | mqtt/mosquitto-1.6.3/lib/messages_mosq.c:137-184 | by position, QoS and state, what a reconnect makes of each message; the quota left over |
| ClientQueue.OutQueue.RetryCheck | mqtt/mosquitto-1.6.3/lib/messages_mosq.c:273-309 | what is sent for each message, by state, QoS and identifier, in list order: PUBLISH with the duplicate flag until it is answered, then PUBREL; send errors are ignored; exactly what was due is marked as a duplicate |
| ClientQueue.OutQueue.HandlePubackcomp | mqtt/mosquitto-1.6.3/lib/handle_pubackcomp.c:42-117 | one more quota before the identifier is looked up; the first message with it goes if it has the QoS, and the next waiting ones go out; the three return codes |
| ClientQueue.OutQueue.HandlePubrec | mqtt/mosquitto-1.6.3/lib/handle_pubrec.c:38-109 | without an error the first message with the identifier waits for PUBCOMP and PUBREL is the answer, also if there is none, but not if it is of QoS 1; with an error it goes, quota comes back and the next waiting ones go out |
| ClientQueue.OutQueue.HandleConnack | mqtt/mosquitto-1.6.3/lib/handle_connack.c:31-109 | maximum and quota are the Receive Maximum of CONNACK, or the old maximum without one; accepted, it repeats what is due, refused, it sends nothing |
| ClientQueue.ReleaseLetsOut | mqtt/mosquitto-1.6.3/lib/messages_mosq.c:187-215 | the release pass by the fields of list, quota and wire, for every send outcome |
| ClientQueue.AckEffect | mqtt/mosquitto-1.6.3/lib/handle_pubackcomp.c:57-117 | PUBACK and PUBCOMP by the fields, for every list and identifier |
| ClientQueue.PubrecEffect | mqtt/mosquitto-1.6.3/lib/handle_pubrec.c:67-108 | PUBREC with and without an error by the fields, for every list and identifier |
| ClientQueue.ReconnectRestores | mqtt/mosquitto-1.6.3/lib/messages_mosq.c:137-184 | a reconnect by the fields of every message |
| ClientQueue.RetrySends | mqtt/mosquitto-1.6.3/lib/messages_mosq.c:273-309 | the retry pass by the fields of every message |
| ClientQueue.ConnackSets | mqtt/mosquitto-1.6.3/lib/handle_connack.c:66-96 | CONNACK with and without a Receive Maximum, accepted and refused, by the fields |
| ClientRuns.ReleaseLetsOutNext | mqtt/mosquitto-1.6.3/lib/messages_mosq.c:187-215 | exactly as many waiting messages go out as the quota allows, the oldest first, and the line of what was sent and what waits is unchanged |
| ClientRuns.RemoveOutstanding | mqtt/mosquitto-1.6.3/lib/messages_mosq.c:218-271 | removing an outstanding message keeps "released prefix, waiting suffix" and the order of what waits |
| ClientRuns.StepKeepsWindow | mqtt/mosquitto-1.6.3/lib/messages_mosq.c:119-271 | every publish call, acknowledgement and PUBREC keeps: released prefix then waiting suffix, quota plus prefix is inflight_maximum, nothing waits while there is quota |
| ClientRuns.SendOrder | mqtt/mosquitto-1.6.3/lib/messages_mosq.c:119-271 | over every run of a connection the PUBLISH packets sent, followed by the messages that wait, are the publish calls in call order (section 4.6 of MQTT 5.0) |
| ClientRuns.SendOrderFromEmpty | mqtt/mosquitto-1.6.3/lib/messages_mosq.c:119-271 | the same for every connection that starts with an empty list |
| ClientRuns.ReceiveMaximumKept | mqtt/mosquitto-1.6.3/lib/handle_connack.c:66-70 | over every run of a connection whose CONNACK finds an empty list, at any time no more messages are let out and unacknowledged than its Receive Maximum allows, and none waits while that leaves room (section 4.9 of MQTT 5.0) |
| ClientRuns.ReceiveMaximumIff | mqtt/mosquitto-1.6.3/lib/handle_connack.c:66-70 | a CONNACK that finds only messages let out keeps that bound over all runs if and only if it finds none |
| ClientRuns.Serve | mqtt/mosquitto-1.6.3/lib/messages_mosq.c:119-338 | on the mutable list: an event has the effect that the runs are built of, and from a window in order the window and the send order go on |
| ClientRuns.ServeAll | mqtt/mosquitto-1.6.3/lib/messages_mosq.c:119-338 | after any sequence of events on the mutable list: released prefix, waiting suffix, and the packets sent followed by what waits are the publish calls in call order |
| ClientRuns.ServeConnection | mqtt/mosquitto-1.6.3/lib/handle_connack.c:66-70 | the same bound on the mutable list, from HandleConnack on through any sequence of events |
| Resend.ResentInCallOrder | mqtt/mosquitto-1.6.3/lib/messages_mosq.c:273-309 | whatever run of calls, packets, disconnects and reconnects came before, CONNACK makes the client send again what states, QoS and identifiers call for, in the order of the publish calls (section 4.6 of MQTT 5.0) |
| Resend.ReconnectSendsOwed | mqtt/mosquitto-1.6.3/lib/messages_mosq.c:137-184 | a reconnect and the CONNACK that accepts it: for each of the first inflight_maximum messages one packet in list order, PUBLISH with the duplicate flag for QoS 1 and for QoS 2 before PUBREC, PUBREL after it, none for a QoS 2 message never let out, and nothing else |
| Resend.OwedAfterAnyRun | mqtt/mosquitto-1.6.3/lib/messages_mosq.c:273-309 | the same after any run of the two-party system, in the order of the publish calls (section 4.4 of MQTT 5.0) |
| Resend.Resume | mqtt/mosquitto-1.6.3/lib/messages_mosq.c:273-309 | the same on the mutable list |
| ClientRuns.ResetKeepsHandshakes | mqtt/mosquitto-1.6.3/lib/messages_mosq.c:162-183 | a reconnect leaves every released message in its handshake if and only if none lies beyond the first inflight_maximum places |
| PacketIds.IdSource.Generate | mqtt/mosquitto-1.6.3/lib/util_mosq.c:130-149 | the identifiers go round from 1 to 65535: after the n-th one issued since any start comes the n+1-st |
| PacketIds.NthInClosedForm | mqtt/mosquitto-1.6.3/lib/util_mosq.c:130-149 | the n-th identifier in closed form, modulo 65535 |
| PacketIds.IdsRepeatAfter65535 | mqtt/mosquitto-1.6.3/lib/util_mosq.c:130-149 | identifiers are never 0, and two of them are equal if and only if they were issued a multiple of 65535 apart |
| PacketIds.UniqueMatch | mqtt/mosquitto-1.6.3/lib/messages_mosq.c:218-338 | with fewer than 65535 identifiers issued since the oldest message, identifiers are distinct and removal and update act on the very message meant |
| PacketIds.NextIdKeepsOrder | mqtt/mosquitto-1.6.3/lib/actions.c:104-145 | a publish call with the next identifier keeps that condition |
| Qos2Ids.NextIsNew | mqtt/mosquitto-1.6.3/lib/util_mosq.c:130-149 | the next identifier is not that of a publish call since which fewer than 65535 have been issued |
| Qos2Ids.TimelyIsLegal | mqtt/mosquitto-1.6.3/lib/actions.c:104-145 | so a publish call made in time has an identifier unlike those of all messages in use, at the client, under way and at the broker |
| Qos2Ids.RoutedAtMostOnceWithIds | mqtt/mosquitto-1.6.3/lib/util_mosq.c:130-149 | at-most-once routing over every run in which the client takes its identifiers from its own source, with nothing assumed of them but that fewer than 65535 are issued while one is in use |
| BrokerDbMethods.Context.DequeueFirst | mqtt/mosquitto-1.6.3/src/database.c:287-297 | the line of messages in flight and queued is unchanged and one more of it is in flight; counters stay right, and so does the flow-control bound if there was quota |
| BrokerDbMethods.Context.PromoteOut | mqtt/mosquitto-1.6.3/src/database.c:318-339 | exactly the first queued messages move, as many as inflight_maximum leaves room for, each in the state for its QoS |
| BrokerDbMethods.Context.PromoteIn | mqtt/mosquitto-1.6.3/src/database.c:922-935 | the same for incoming QoS 2 messages, which wait for PUBREL then; a PUBREC goes out for each |
| BrokerDbMethods.Context.UpdateOutgoing | mqtt/mosquitto-1.6.3/src/database.c:531-546 | only the state of the first message in flight with the identifier changes, and only if the QoS fits; the three return codes |
| BrokerDbMethods.Context.StoreFind | mqtt/mosquitto-1.6.3/src/database.c:721-743 | the first message in flight under the sender's identifier, if there is none the first queued one, otherwise none |
| BrokerDbMethods.Context.WriteQueuedIn | mqtt/mosquitto-1.6.3/src/database.c:1108-1125 | of the incoming QoS 2 queue exactly the first messages move, up to the quota or the first PUBREC that is not sent; each waits for PUBREL, but the one whose PUBREC failed stays in send_pubrec and its error is returned; counters stay right |
| BrokerDbMethods.Context.WriteQueuedOut | mqtt/mosquitto-1.6.3/src/database.c:1127-1146 | exactly the first queued messages move, as many as the quota allows; counters and flow-control bound stay right |
| BrokerDbMethods.Context.ResetOutgoing | mqtt/mosquitto-1.6.3/src/database.c:747-812 | every message in flight stays in its place and gets the state for its QoS, PUBREL to be sent again exactly for QoS 2 messages that waited for PUBCOMP; the queue moves up by as many as fit; counters right afterwards; the flow-control bound holds if and only if it survives as BrokerCounters.ReconnectFlow says |
| BrokerDbMethods.Context.ResetQueueLoop | mqtt/mosquitto-1.6.3/src/database.c:788-809 | as many messages are promoted as fit; "state is queued" goes on agreeing with "in the queue" if and only if no QoS 0 message stands behind one that does not fit |
| BrokerDbMethods.Db.RefInc | mqtt/mosquitto-1.6.3/src/database.c:235-238 | a balanced store stays balanced with one reference more |
| BrokerDbMethods.Db.RefDec | mqtt/mosquitto-1.6.3/src/database.c:240-247 | a balanced store stays balanced with one reference less, list, count and byte sum included |
| BrokerDbMethods.Db.MessageStore | mqtt/mosquitto-1.6.3/src/database.c:633-719 | the new message was not stored before, and the store stays balanced |
| BrokerDbMethods.Db.Remove | mqtt/mosquitto-1.6.3/src/database.c:265-284 | references stay conserved, counters and flow-control bound right |
| BrokerDbMethods.Db.DeleteOutgoing | mqtt/mosquitto-1.6.3/src/database.c:300-342 | by identifier, QoS and state, which messages in flight go, or up to which misfit; after success the head of the queue is promoted, each message for one quota, up to inflight_maximum in flight; references conserved, counters right |
| BrokerDbMethods.Db.HandlePubackcomp | mqtt/mosquitto-1.6.3/lib/handle_pubackcomp.c:57-82 | one more quota and then the same; acknowledging an outstanding message succeeds and keeps the flow-control bound |
| BrokerDbMethods.Db.HandlePubrec | mqtt/mosquitto-1.6.3/lib/handle_pubrec.c:67-106 | without an error the first message in flight with the identifier waits for PUBCOMP and PUBREL is the answer, unless it is not of QoS 2; with one it goes; either keeps the flow-control bound |
| BrokerDbMethods.Db.AlreadySent | mqtt/mosquitto-1.6.3/src/database.c:370-381 | whether the client is recorded in dest_ids and duplicates are off |
| BrokerDbMethods.Db.Insert | mqtt/mosquitto-1.6.3/src/database.c:344-529 | which messages are taken, by connection, limits and lists; where each joins, with which state, QoS and identifier, what is recorded, and the return code; references conserved, flow-control bound kept, counters right if and only if no QoS is brought down to 0 |
| BrokerDbMethods.Db.ReconnectReset | mqtt/mosquitto-1.6.3/src/database.c:747-885 | both directions message by message, by QoS and state; references conserved, and all counters right afterwards whatever they were |
| BrokerDbMethods.Db.ReleaseIncoming | mqtt/mosquitto-1.6.3/src/database.c:888-941 | by identifier and stored QoS, which messages are routed and go, or up to which one that blocks; then the queue moves up with a PUBREC for each; references conserved and counters right |
| BrokerDbMethods.Db.WriteIncoming | mqtt/mosquitto-1.6.3/src/database.c:968-1024 | the PUBREC or PUBCOMP due for each message goes out in list order up to the first that is not taken; expired messages go, answered ones wait for PUBREL, each PUBCOMP gives receive quota back; references conserved |
| BrokerDbMethods.Db.WriteOutgoing | mqtt/mosquitto-1.6.3/src/database.c:1026-1106 | the PUBLISH or PUBREL due for each message goes out in list order up to the first that is not taken; what is left of each: QoS 0, expired and oversize ones go, QoS 1 waits for PUBACK and QoS 2 for PUBREC with the duplicate flag, PUBREL for PUBCOMP; references conserved, flow-control bound kept |
| BrokerDbMethods.Db.Write | mqtt/mosquitto-1.6.3/src/database.c:943-1149 | the four loops in their order up to the first error; where everything is taken and nothing expires, the wire and all four lists message by message; references conserved, counters and flow-control bound right |
| BrokerDbMethods.Db.MessagesDelete | mqtt/mosquitto-1.6.3/src/database.c:549-583 | the client holds no reference any more, and every one it held has been given back |
| BrokerDbMethods.Db.CheckAcl | mqtt/mosquitto-1.6.3/src/handle_connect.c:84-101 | exactly the denied messages go, each with its reference |
| BrokerDbMethods.Db.CheckAcls | mqtt/mosquitto-1.6.3/src/handle_connect.c:84-101 | references stay conserved, and the counters right if and only if nothing is denied |
| BrokerDbMethods.Db.TakeOver | mqtt/mosquitto-1.6.3/src/handle_connect.c:127-143 | the new context goes on with both directions as after a reconnect, the old one has nothing left; together they hold as many references as before |
| BrokerDbMethods.Db.Compact | mqtt/mosquitto-1.6.3/src/database.c:250-262 | exactly the messages that someone refers to stay, and the store stays balanced |
| Broker.Server.Serve | mqtt/mosquitto-1.6.3/src/database.c:179-1149 | on mutable contexts and store, each operation has the effect that the runs are built of and keeps reference conservation |
| Broker.Server.ServeAll | mqtt/mosquitto-1.6.3/src/database.c:179-1149 | after any sequence of operations on mutable contexts and store: references conserved, every message for a client that is not done with still there, and under their conditions counters right, queues marked right and the flow-control bound kept |
| BrokerSends.WriteOutSends | mqtt/mosquitto-1.6.3/src/database.c:1026-1106 | the second loop of db__message_write by the fields of every message, for every outcome of every send |
| BrokerSends.AllSentOut | mqtt/mosquitto-1.6.3/src/database.c:1026-1106 | where everything is taken and nothing expires: one PUBLISH with identifier, QoS, message and duplicate flag for each message to be published and one PUBREL for each in resend_pubrel, in list order, and what is left of each |
| BrokerAnswers.WriteInAnswers | mqtt/mosquitto-1.6.3/src/database.c:968-1024 | the first loop by the fields of every message, for every outcome of every send |
| BrokerAnswers.WriteInQueuedSends | mqtt/mosquitto-1.6.3/src/database.c:1108-1125 | the third loop sends a PUBREC for each message that moves up, until one is not taken |
| BrokerAnswers.ReleaseQueuedSends | mqtt/mosquitto-1.6.3/src/database.c:922-935 | so does the second loop of db__message_release_incoming, whether they are taken or not |
| BrokerWrites.WriteInStages | mqtt/mosquitto-1.6.3/src/database.c:943-1149 | db__message_write for any sends and expiry: the four loops one after the other, and the first error ends it |
| BrokerWrites.WritesAll | mqtt/mosquitto-1.6.3/src/database.c:943-1149 | where everything is taken and nothing expires: every answer due, then every PUBLISH and PUBREL due, then a PUBREC for each message that moves up; and all four lists afterwards |
| BrokerAcks.AckDeletes | mqtt/mosquitto-1.6.3/lib/handle_pubackcomp.c:57-82 | PUBACK and PUBCOMP by identifier, QoS and state, for every list |
| BrokerAcks.PubrecErrorDeletes | mqtt/mosquitto-1.6.3/lib/handle_pubrec.c:67-76 | PUBREC with an error, which gives no quota back |
| BrokerAcks.PubrecEffect | mqtt/mosquitto-1.6.3/lib/handle_pubrec.c:71-106 | PUBREC without an error, for every list |
| BrokerAcks.ReleaseIncomingReleases | mqtt/mosquitto-1.6.3/src/database.c:888-941 | PUBREL by identifier and stored QoS, for every list |
| BrokerAcks.SourceFindsFirst | mqtt/mosquitto-1.6.3/src/database.c:721-743 | the lookup by the sender's identifier finds the first in flight, or if there is none the first queued |
| BrokerResets.ResetOutgoingRestarts | mqtt/mosquitto-1.6.3/src/database.c:747-812 | by position: identifier, QoS, message, duplicate flag and order stay; the state is publish for QoS 0, 1 and 2, but resend_pubrel if and only if a QoS 2 message waited for PUBCOMP; how many queued messages move up |
| BrokerResets.ResetIncomingRestarts | mqtt/mosquitto-1.6.3/src/database.c:815-875 | exactly the QoS 2 messages in flight stay, as they are; the receive quota left; how many queued messages move up |
| BrokerResets.TakeoverRestarts | mqtt/mosquitto-1.6.3/src/handle_connect.c:127-143 | a takeover is a reconnect of the messages found, with the identity and wire of the new context |
| BrokerCommitted.NeverPublishedAgain | mqtt/mosquitto-1.6.3/src/database.c:747-1149 | over every run with any number of clients: once PUBREC has been handled for all that is outstanding under an identifier, no PUBLISH under it goes on the wire until a new message takes the identifier, reconnects and takeovers included, as long as none of them finds the PUBREL still to be sent (section 4.3.3 of MQTT 5.0) |
| BrokerCommitted.PubrecIsFinal | mqtt/mosquitto-1.6.3/lib/handle_pubrec.c:71-106 | so from the PUBREC of a QoS 2 message on it is never published again |
| BrokerCommitted.PublishedAgainIff | mqtt/mosquitto-1.6.3/src/database.c:774-779 | the condition is exact: a reconnect and a write in which everything is taken publish a committed message again if and only if its PUBREL was still to be sent, as it is after an earlier reconnect |
| BrokerKept.KeptUntilAcknowledged | mqtt/mosquitto-1.6.3/src/database.c:287-1149 | delivery at least once: over every run with any number of clients a QoS 1 or QoS 2 message for a client stays in its lists, through disconnects, failed sends, reconnects and takeovers, until the client acknowledges or refuses its identifier, its session ends, or the message expires, is too large or is denied (section 4.3 of MQTT 5.0) |
| BrokerKept.ApplyPresent | mqtt/mosquitto-1.6.3/src/database.c:287-1149 | one operation, for whichever client |
| BrokerInserts.InsertTakes | mqtt/mosquitto-1.6.3/src/database.c:344-529 | which messages db__message_insert takes, where they join, and what it answers, by connection, limits and what the lists hold |
| BrokerInserts.RoomIsReady | mqtt/mosquitto-1.6.3/src/database.c:40-108 | with the counters right, the questions about room are about messages and payload bytes in the lists |
| BrokerInserts.NoQueueBelowInflightBytes | mqtt/mosquitto-1.6.3/src/database.c:71-108 | a connected client with fewer bytes than max_inflight_bytes has no room in a queue with a byte limit, since the difference is unsigned |
| BrokerInserts.KeptWhileAway | mqtt/mosquitto-1.6.3/src/database.c:430-436 | a QoS > 0 message for a client that is away and below the limits is at the end of its queue, and the answer is 0 |
| BrokerInserts.NewClientHasRoom | mqtt/mosquitto-1.6.3/src/database.c:415-470 | a client that has just connected gets its first message in flight, whatever its maximum and the limits |
| BrokerWrites.DeliveredOnReturn | mqtt/mosquitto-1.6.3/src/database.c:430-436 | with room in flight for all that is queued, the write after the reconnect puts its PUBLISH on the wire |
| BrokerWrites.PublishedOnReturn | mqtt/mosquitto-1.6.3/src/database.c:780-809 | any queued message that fits at a reconnect is published by the next write |
| BrokerWrites.RepeatedOnReturn | mqtt/mosquitto-1.6.3/src/database.c:755-780 | any QoS > 0 message in flight when the connection broke is published again by the write after the reconnect, unless it waited for PUBCOMP: then PUBREL is sent |
| BrokerFifo.PromotedIsFifo | mqtt/mosquitto-1.6.3/src/database.c:287-297 | a promotion leaves the line of messages in flight and queued as it is, and states still say which of the two a message is |
| BrokerFifo.PromoteUpToFifo | mqtt/mosquitto-1.6.3/src/database.c:328-339 | the loop after an acknowledgement promotes exactly the head of the queue, as far as inflight_maximum allows |
| BrokerFifo.ReleaseQueuedFifo | mqtt/mosquitto-1.6.3/src/database.c:922-935 | the same for the loop of db__message_release_incoming |
| BrokerFifo.WriteInQueuedFifo | mqtt/mosquitto-1.6.3/src/database.c:1108-1125 | the same for the third loop of db__message_write, whichever PUBRECs are sent: a failed one ends the loop with its error, and its message has moved and stays in send_pubrec |
| BrokerFifo.WriteOutQueuedFifo | mqtt/mosquitto-1.6.3/src/database.c:1127-1146 | the same for the fourth loop of db__message_write |
| BrokerFifo.ResetQueueFifo | mqtt/mosquitto-1.6.3/src/database.c:788-809 | with only QoS > 0 messages queued the reconnect loop promotes a prefix of the queue whatever the limits are |
| BrokerFifo.ResetQueueExact | mqtt/mosquitto-1.6.3/src/database.c:788-809 | under any limits it leaves "state is queued" equivalent to "in the queue" if and only if no QoS 0 message stands behind a message that quota or byte limit will not let go |
| BrokerFifo.ResetQueueByQuota | mqtt/mosquitto-1.6.3/src/database.c:788-809 | without a byte limit: if and only if no QoS 0 message stands behind a QoS > 0 message beyond the quota |
| BrokerOrder.InsertJoins | mqtt/mosquitto-1.6.3/src/database.c:457-507 | a new message joins at the end of those in flight or of those queued, and nothing else moves |
| BrokerOrder.ApplyOrder | mqtt/mosquitto-1.6.3/src/database.c:287-1149 | every operation on any client leaves its messages in their order: some may go, a new one joins at one of the two ends |
| BrokerOrder.QueuedExactlyWhenMarked | mqtt/mosquitto-1.6.3/src/database.c:287-1149 | in every state that can be reached while only QoS > 0 messages are put into queues, a message of any client is marked as queued if and only if it is in the queue |
| BrokerOrder.LinesOnlyThin | mqtt/mosquitto-1.6.3/src/database.c:287-1149 | over any run without an insert for a client, its messages in flight and queued leave their line without changing places |
| BrokerRefs.RefDecGood | mqtt/mosquitto-1.6.3/src/database.c:240-247 | giving up a reference keeps the store balanced: counts equal references, and what is referred to is stored |
| BrokerRefs.InsertKeeps | mqtt/mosquitto-1.6.3/src/database.c:344-529 | an insert keeps the balance |
| BrokerRefs.DeleteOutgoingKeeps | mqtt/mosquitto-1.6.3/src/database.c:300-342 | an acknowledgement keeps the balance |
| BrokerRefs.ReleaseIncomingKeeps | mqtt/mosquitto-1.6.3/src/database.c:888-941 | a release keeps the balance |
| BrokerRefs.WriteKeeps | mqtt/mosquitto-1.6.3/src/database.c:943-1149 | db__message_write keeps the balance, expiry included |
| BrokerRefs.ReconnectResetKeeps | mqtt/mosquitto-1.6.3/src/database.c:747-885 | a reconnect keeps the balance |
| BrokerRefs.DeleteAllKeeps | mqtt/mosquitto-1.6.3/src/database.c:549-583 | the end of a session keeps the balance |
| BrokerRefs.TakeoverKeeps | mqtt/mosquitto-1.6.3/src/handle_connect.c:127-143 | the two contexts of a takeover together hold as many references as before |
| BrokerRefs.CompactedExactly | mqtt/mosquitto-1.6.3/src/database.c:250-262 | after the compaction exactly the messages that someone refers to are stored |
| BrokerWorld.TakeOverRefs | mqtt/mosquitto-1.6.3/src/handle_connect.c:127-143 | a takeover keeps the balance over all contexts |
| BrokerWorld.ReferencesConserved | mqtt/mosquitto-1.6.3/src/database.c:179-284 | in every state the broker can reach, each stored message's ref_count is the number of client messages in all lists of all contexts that point to it plus the outside holders, no message that is pointed to has been removed, and count and byte sum are those of the list |
| StoreList.MessageList.Add | mqtt/mosquitto-1.6.3/src/database.c:179-187 | with pointers: the message becomes the head of a well-formed doubly linked list |
| StoreList.MessageList.Unlink | mqtt/mosquitto-1.6.3/src/database.c:190-206 | with pointers: the list without the message is well formed and in the old order |
| StoreList.MessageList.Remove | mqtt/mosquitto-1.6.3/src/database.c:190-220 | count and byte sum follow the list |
| StoreList.MessageList.Compact | mqtt/mosquitto-1.6.3/src/database.c:250-262 | exactly the messages with a reference stay, in order |
| BrokerCounters.InsertCounters | mqtt/mosquitto-1.6.3/src/database.c:457-486 | an insert keeps msg_count, msg_bytes and their QoS > 0 versions right if and only if it does not bring a QoS down to 0 |
| BrokerCounters.InsertFlow | mqtt/mosquitto-1.6.3/src/database.c:517-519 | an insert keeps the flow-control bound |
| BrokerCounters.DeleteOutgoingCounters | mqtt/mosquitto-1.6.3/src/database.c:300-342 | an acknowledgement keeps the counters right |
| BrokerCounters.AckFlow | mqtt/mosquitto-1.6.3/lib/handle_pubackcomp.c:57-82 | PUBACK or PUBCOMP of an outstanding message keeps the flow-control bound, although the quota grows first |
| BrokerCounters.PubrecErrorFlow | mqtt/mosquitto-1.6.3/lib/handle_pubrec.c:67-76 | PUBREC with an error keeps the bound |
| BrokerCounters.WriteOk | mqtt/mosquitto-1.6.3/src/database.c:943-1149 | db__message_write keeps counters and bound |
| BrokerCounters.ReleaseIncomingOk | mqtt/mosquitto-1.6.3/src/database.c:888-941 | a release keeps the counters right |
| BrokerCounters.ReconnectResetCounters | mqtt/mosquitto-1.6.3/src/database.c:747-875 | a reconnect makes the counters right whatever they were |
| BrokerCounters.ReconnectFlow | mqtt/mosquitto-1.6.3/src/database.c:747-812 | the flow-control bound survives a reconnect if and only if the QoS > 0 messages in flight and among those that will be promoted are no more than the promotions, nor more than the maximum; for any limits and any queue |
| BrokerCounters.ReconnectFlowAllAcknowledged | mqtt/mosquitto-1.6.3/src/database.c:747-812 | with only QoS > 0 messages queued, that is if and only if no QoS > 0 message was in flight |
| BrokerCounters.ResetQueueMoves | mqtt/mosquitto-1.6.3/src/database.c:788-809 | for any limits and any queue the reconnect loop promotes as many messages as fit, from the head, each for one quota |
| BrokerCounters.AclPurgeCounters | mqtt/mosquitto-1.6.3/src/handle_connect.c:84-101 | the access check at connect leaves the counters right if and only if it removes nothing |
| BrokerRuns.CountersConserved | mqtt/mosquitto-1.6.3/src/database.c:265-284 | over every run without such a downgrade or purge the counters of all contexts are lengths and payload sums |
| BrokerRuns.FlowControlled | mqtt/mosquitto-1.6.3/src/database.c:40-60 | over every run in which the client acknowledges only what is outstanding and reconnects only where the bound survives that, in-flight QoS > 0 messages plus quota never exceed inflight_maximum (section 4.9 of MQTT 5.0) |
| BrokerRuns.OverlapSuppressed | mqtt/mosquitto-1.6.3/src/database.c:370-381 | with duplicates off, over every run, a client below version 5 is given a stored message at most once, and dest_ids lists exactly those given it |
| Qos2Slots.SourceFindHeld | mqtt/mosquitto-1.6.3/src/database.c:721-743 | the lookup by the sender's identifier finds a held message if there is one |
| Qos2Slots.InsertHeld | mqtt/mosquitto-1.6.3/src/database.c:344-529 | an incoming PUBLISH adds at most its own message to those held |
| Qos2Slots.ReleaseIncomingHeld | mqtt/mosquitto-1.6.3/src/database.c:888-941 | what PUBREL routes is taken from what was held, each once |
| Qos2Steps.PublishHandled | mqtt/mosquitto-1.6.3/src/handle_publish.c:284-366 | what a PUBLISH makes the broker answer, hold, route and take from its receive quota, by QoS, refusal, routing and what it holds under the identifier |
| Qos2Steps.PubrelHandled | mqtt/mosquitto-1.6.3/lib/handle_pubrel.c:68-83 | what a PUBREL makes it route, let go and answer |
| Qos2Steps.ConnectHandled | mqtt/mosquitto-1.6.3/src/handle_connect.c:110-145 | what a CONNECT leaves of the session, and CONNACK |
| Qos2Steps.ReplyHandled | mqtt/mosquitto-1.6.3/lib/handle_pubrec.c:38-109 | what each reply does to the client |
| Qos2Proof.PublishArrives | mqtt/mosquitto-1.6.3/src/handle_publish.c:284-366 | the broker's PUBLISH step keeps the invariant over client list, packets under way, held messages and routed messages |
| Qos2Proof.PubrelArrives | mqtt/mosquitto-1.6.3/lib/handle_pubrel.c:39-89 | the broker's PUBREL step keeps it |
| Qos2Proof.ToClientKeeps | mqtt/mosquitto-1.6.3/lib/handle_pubrec.c:38-109 | the client's step for every reply keeps it |
| Qos2Proof.ReconnectKeeps | mqtt/mosquitto-1.6.3/lib/messages_mosq.c:137-184 | loss of all packets and a reconnect keep it |
| Qos2Proof.RoutedAtMostOnce | mqtt/mosquitto-1.6.3/src/database.c:888-941 | over every run with disconnects, lost packets, lost sessions, refusals and expiry, with at most inflight_maximum messages outstanding under distinct identifiers, no QoS 2 publish call is routed twice; a message routed and still held by the client waits for PUBCOMP or repeats PUBREL (section 4.3.3 of MQTT 5.0) |
| Qos2Limit.OverrunRoutesTwice | mqtt/mosquitto-1.6.3/lib/messages_mosq.c:162-183 | the bound is exact: for every inflight_maximum from 1 to 65534, with distinct identifiers, one QoS 2 message above it outstanding and no packet refused by a transport, a connection that breaks makes a run route every publish call, and the last one twice |
| Qos2Replies.WriteTells | mqtt/mosquitto-1.6.3/src/database.c:943-1149 | without expiry db__message_write lets go of no incoming message, and its PUBRECs and PUBCOMPs are for messages held |
| Qos2Replies.ReleaseIncomingTells | mqtt/mosquitto-1.6.3/src/database.c:888-941 | the PUBRECs of db__message_release_incoming are for messages held |
| Qos2Replies.ReconnectResetKeeps | mqtt/mosquitto-1.6.3/src/database.c:814-885 | with QoS 2 messages only the incoming half of a reconnect lets go of none |
| Qos2Replies.InsertTells | mqtt/mosquitto-1.6.3/src/database.c:344-529 | an incoming message whose insert is answered with 0, and so with PUBREC, is held |
| Qos2Complete.PublishCompletes | mqtt/mosquitto-1.6.3/src/handle_publish.c:284-366 | the broker's PUBLISH step keeps: every QoS 2 call routed, held or uncommitted at the client, and no PUBREC, PUBREL or PUBCOMP under way lets the client forget any other |
| Qos2Complete.PubrelCompletes | mqtt/mosquitto-1.6.3/lib/handle_pubrel.c:39-89 | its PUBREL step keeps that, also when routing fails |
| Qos2Complete.ToClientCompletes | mqtt/mosquitto-1.6.3/lib/handle_pubrec.c:38-109 | the client's step for every reply keeps it |
| Qos2Complete.NothingLost | mqtt/mosquitto-1.6.3/lib/messages_mosq.c:119-338 | over every run with disconnects, lost packets, failed sends, full queues and failed routing, in which the broker keeps sessions and neither refuses nor expires messages and identifiers are unused when they are issued: every QoS 2 publish call has been routed, or is held by the broker, or is in the client's list in a state in which it is published again |
| Qos2Complete.RoutedExactlyOnce | mqtt/mosquitto-1.6.3/src/database.c:888-941 | so once the client's list is empty and the broker holds nothing, every QoS 2 publish call has been routed exactly once (section 4.3.3 of MQTT 5.0) |
| Qos2Complete.FailedRoutingTakesNext | mqtt/mosquitto-1.6.3/src/database.c:914-919 | if the subscription tree fails to take a released message, PUBCOMP goes out, the broker goes on holding the message, and the next PUBLISH under its identifier is acknowledged without being stored; its PUBREL routes the old message |
| Topic.JoinLevels | mqtt/mosquitto-1.6.3/lib/util_topic.c:138-252 | the levels of a string, joined with "/", are the string |
| Topic.LevelsJoin | mqtt/mosquitto-1.6.3/lib/util_topic.c:138-252 | the levels of joined levels are those levels |
| Topic.WildsByLevel | mqtt/mosquitto-1.6.3/lib/util_topic.c:86-107 | looking at the neighbours of each wildcard decides what section 4.7.1 of MQTT 5.0 demands level by level |
| Topic.PubTopicCheck | mqtt/mosquitto-1.6.3/lib/util_topic.c:49-62 | success if and only if there is no wildcard and at most 65535 characters |
| Topic.PubTopicCheck2 | mqtt/mosquitto-1.6.3/lib/util_topic.c:64-77 | the same with a given length |
| Topic.SubTopicCheck | mqtt/mosquitto-1.6.3/lib/util_topic.c:86-107 | success if and only if every wildcard fills a level, "#" only the last, and there are at most 65535 characters |
| Topic.SubTopicCheck2 | mqtt/mosquitto-1.6.3/lib/util_topic.c:109-130 | the same with a given length, for any text: a NUL before a wildcard counts as a separator unless "+" stands before it, any other NUL is a character like another |
| Topic.TopicMatchesSub | mqtt/mosquitto-1.6.3/lib/util_topic.c:138-252 | for every nonempty filter and topic that pass the checks it succeeds and answers what level-by-level matching with "+", "#", the parent level and the "$" rule gives; it reads nothing behind a terminator |
| Topic.Tokenise | mqtt/mosquitto-1.6.3/lib/mosquitto.c:542-597 | the tokens are the levels, null for an empty one, also behind a separator at the end |
| Topic.JoinTokens | mqtt/mosquitto-1.6.3/lib/mosquitto.c:542-597 | joining the tokens restores the string |
| Utf8.GatheredIsEncoded | mqtt/mosquitto-1.6.3/lib/utf8_mosq.c:33-76 | the bytes of an accepted sequence are the encoding of the code point that was put together |
| Utf8.EncodedIsGathered | mqtt/mosquitto-1.6.3/lib/utf8_mosq.c:33-76 | the encoding of an allowed code point is such a sequence and yields the code point |
| Utf8.TakeOff | mqtt/mosquitto-1.6.3/lib/utf8_mosq.c:33-107 | taking off a sequence in front does not change whether the string is well formed |
| Utf8.ValidateUtf8 | mqtt/mosquitto-1.6.3/lib/utf8_mosq.c:22-108 | success if and only if the bytes are a concatenation of encodings (section 4 of RFC 3629) of code points that are no NUL, control, surrogate or non-character; no index behind len is read |
| Wire.U32ReadBack | mqtt/mosquitto-1.6.3/lib/packet_datatypes.c:174-199 | a four-byte integer that was written is read back |
| Wire.U32Canonical | mqtt/mosquitto-1.6.3/lib/packet_datatypes.c:174-199 | what is read is what writing the value gives |
| Wire.BinaryReadBack | mqtt/mosquitto-1.6.3/lib/packet_datatypes.c:91-146 | counted bytes that were written are read back |
| Wire.StringReadBack | mqtt/mosquitto-1.6.3/lib/packet_datatypes.c:122-146 | a valid string that was written is read back |
| Wire.BinaryCanonical | mqtt/mosquitto-1.6.3/lib/packet_datatypes.c:91-119 | what is read is what writing the bytes gives |
| Wire.VarintReadBack | mqtt/mosquitto-1.6.3/lib/packet_datatypes.c:202-255 | reading undoes writing on 0..268435455 (section 1.5.5 of MQTT 5.0) |
| Wire.VarintCanonical | mqtt/mosquitto-1.6.3/lib/packet_datatypes.c:202-232 | reading succeeds on nothing but what is written for such a number: no overlong encoding, no fifth byte |
| Wire.VarintSize | mqtt/mosquitto-1.6.3/lib/packet_datatypes.c:258-271 | packet__varint_bytes is the number of bytes written, for every int32_t that is not negative; five for those that fail |
| Packets.Packet.Alloc | mqtt/mosquitto-1.6.3/lib/packet_mosq.c:47-84 | success if and only if the remaining length is below 2^28; then the fixed header is written and the room is exactly the rest |
| Packets.Packet.WriteString | mqtt/mosquitto-1.6.3/lib/packet_datatypes.c:141-146 | two length bytes and the string are added |
| Packets.Packet.WriteUint32 | mqtt/mosquitto-1.6.3/lib/packet_datatypes.c:193-199 | four bytes, most significant first, are added |
| Packets.Packet.WriteVarint | mqtt/mosquitto-1.6.3/lib/packet_datatypes.c:235-255 | the variable byte integer is added; an error from 2^28 on |
| Packets.Packet.ReadUint16 | mqtt/mosquitto-1.6.3/lib/packet_datatypes.c:149-164 | value, error and position for every payload |
| Packets.Packet.ReadUint32 | mqtt/mosquitto-1.6.3/lib/packet_datatypes.c:174-190 | value, error and position for every payload |
| Packets.Packet.ReadVarint | mqtt/mosquitto-1.6.3/lib/packet_datatypes.c:202-232 | value, error, number of bytes and position for every payload |
| Packets.Packet.ReadBinary | mqtt/mosquitto-1.6.3/lib/packet_datatypes.c:91-119 | value, error and position for every payload |
| Packets.Packet.ReadString | mqtt/mosquitto-1.6.3/lib/packet_datatypes.c:122-138 | value, error and position for every payload, with the text validated |
| Framing.FeedLength | mqtt/mosquitto-1.6.3/lib/packet_mosq.c:347-383 | any part of the bytes of a remaining length leaves the receiver in the middle of it; all of them give the length |
| Framing.FeedFrame | mqtt/mosquitto-1.6.3/lib/packet_mosq.c:308-456 | any part of a packet leaves the receiver in the middle of it with nothing handled; the whole packet is handled once |
| Framing.FeedStream | mqtt/mosquitto-1.6.3/lib/packet_mosq.c:308-456 | whatever part of a stream of acceptable packets has arrived, exactly the packets complete in it have been handled, in order, and pausing there loses nothing |
| Framing.Delivered | mqtt/mosquitto-1.6.3/lib/packet_mosq.c:101-456 | what was queued being what was sent and what is pending, the packets handled are a prefix of those queued, and all of them once everything has arrived |
| Framing.FrameJudged | mqtt/mosquitto-1.6.3/lib/packet_mosq.c:322-400 | the fate of one packet: refused if it is the first and no CONNECT, refused if it reaches max_packet_size, otherwise handled |
| Framing.FiveDigits | mqtt/mosquitto-1.6.3/lib/packet_mosq.c:347-383 | a remaining length of more than four bytes is refused with the fifth |
| Framing.ZeroCommandByte | mqtt/mosquitto-1.6.3/lib/packet_mosq.c:308-348 | a packet of any size whose first byte is zero is handled if its bytes come at once, and is not if the receiver pauses behind the first |
| Transport.Sender.WriteCurrent | mqtt/mosquitto-1.6.3/lib/packet_mosq.c:197-223 | the inner loop: however much the socket takes, sent plus pending is unchanged |
| Transport.Sender.Write | mqtt/mosquitto-1.6.3/lib/packet_mosq.c:169-271 | for every schedule of partial writes sent plus pending bytes are unchanged; without an error or a full socket nothing stays pending |
| Transport.Sender.Queue | mqtt/mosquitto-1.6.3/lib/packet_mosq.c:101-151 | the packet's bytes come behind everything that was pending |
| Transport.Receiver.ReadDigits | mqtt/mosquitto-1.6.3/lib/packet_mosq.c:347-383 | the remaining length across any number of calls, at most four bytes |
| Transport.Receiver.ReadBody | mqtt/mosquitto-1.6.3/lib/packet_mosq.c:404-435 | the body across any number of reads, never behind the end of its buffer; the end of the stream is an error without a number here |
| Transport.Receiver.Read | mqtt/mosquitto-1.6.3/lib/packet_mosq.c:277-456 | for every schedule of partial reads the state is that of the byte-by-byte receiver after the bytes that were given, resumable at any point; which errors are returned when: at the end of the stream "connection lost" before a body and an errno error inside one |
| Transport.Receiver.LoopRead | mqtt/mosquitto-1.6.3/lib/loop.c:323-361 | over any number of calls on a stream of acceptable packets exactly the complete ones have been handled, in order, and no error is returned but those of the socket, by the same rule, and of the handler |
| EndToEnd.PublishesArriveInOrder | mqtt/mosquitto-1.6.3/lib/packet_mosq.c:101-456 | whatever part of the bytes of a series of publishes has arrived, the handler has been given the first of them in order and makes of each what was meant |
| Properties.LengthIsSize | mqtt/mosquitto-1.6.3/lib/property_mosq.c:256-323 | property__get_length is the number of bytes written |
| Properties.PropertyReadBack | mqtt/mosquitto-1.6.3/lib/property_mosq.c:30-141 | a property that was written is read back |
| Properties.ReadPropertyCanonical | mqtt/mosquitto-1.6.3/lib/property_mosq.c:30-141 | a property that is read has the right type and valid text, and its bytes are what writing it gives |
| Properties.ListReadBack | mqtt/mosquitto-1.6.3/lib/property_mosq.c:144-186 | a list that was written is read back in order |
| Properties.ListCanonical | mqtt/mosquitto-1.6.3/lib/property_mosq.c:157-177 | the bytes of a list that is read are what writing it gives, and only its last property may reach beyond the declared length |
| Properties.CheckAllAccepts | mqtt/mosquitto-1.6.3/lib/property_mosq.c:840-891 | success if and only if every value and identifier fits the command and nothing but user properties is repeated |
| Properties.AllReadBack | mqtt/mosquitto-1.6.3/lib/property_mosq.c:144-186 | read_all after write_all gives the same properties in order and consumes exactly the bytes written, for every list that may be sent with the command |
| Properties.AllCanonical | mqtt/mosquitto-1.6.3/lib/property_mosq.c:144-186 | a list that is accepted may be sent with the command, its bytes are what writing it gives, and the declared length is met or overrun by the last property alone |
| Properties.LastPropertyOverruns | mqtt/mosquitto-1.6.3/lib/property_mosq.c:157-177 | a concrete list that overruns its declared length and is accepted |
| PropertyIO.GetLengthAll | mqtt/mosquitto-1.6.3/lib/property_mosq.c:326-337 | the sum is the number of bytes of the list |
| PropertyIO.Write | mqtt/mosquitto-1.6.3/lib/property_mosq.c:340-403 | the encoding is added, or an error after the identifier for an unknown one |
| PropertyIO.WriteAll | mqtt/mosquitto-1.6.3/lib/property_mosq.c:406-424 | the encodings are added in order, with or without the length in front |
| PropertyIO.Read | mqtt/mosquitto-1.6.3/lib/property_mosq.c:30-141 | property, error and position for every payload; what is subtracted from the length is the length of the property |
| PropertyIO.ReadAllFrom | mqtt/mosquitto-1.6.3/lib/property_mosq.c:144-186 | list, error and position for every payload and command |
| PropertyIO.CheckAll | mqtt/mosquitto-1.6.3/lib/property_mosq.c:840-891 | success if and only if the list is acceptable for the command; which error otherwise |
| PropertySplit.NoOtherProperty | mqtt/mosquitto-1.6.3/src/handle_publish.c:118-162 | the default case is never reached for a list accepted for PUBLISH |
| PropertySplit.NothingLost | mqtt/mosquitto-1.6.3/src/handle_publish.c:111-165 | the two lists together have the nodes of the original list, each once |
| PropertySplit.ValuesOfChosen | mqtt/mosquitto-1.6.3/src/handle_publish.c:111-165 | the values taken out are the order-preserving filter of the original values |
| PropertySplit.Take | mqtt/mosquitto-1.6.3/src/handle_publish.c:120-140 | one relinking step keeps both lists well formed |
| PropertySplit.Split | mqtt/mosquitto-1.6.3/src/handle_publish.c:111-165 | the relinking yields two acyclic lists without a common node, the order-preserving filters by "goes on with the message", and finds alias and expiry |
| Connect.FlagsDecode | mqtt/mosquitto-1.6.3/src/handle_connect.c:467-496 | the flag byte that is written decodes to what was meant |
| Connect.HeaderReadBack | mqtt/mosquitto-1.6.3/src/handle_connect.c:399-509 | protocol name, version, flags and keepalive are read back |
| Connect.WillReadBack | mqtt/mosquitto-1.6.3/src/handle_connect.c:280-356 | the will is read back: topic, payload, QoS, retain, the properties that go on, delay and expiry |
| Connect.ConnectRoundTrip | mqtt/mosquitto-1.6.3/lib/send_connect.c:139-192 | for every request the broker has to honour, the parser recovers from the bytes written what the client meant, and nothing is left over |
| Connect.AcceptedConnect | mqtt/mosquitto-1.6.3/src/handle_connect.c:399-634 | whatever CONNECT the parser accepts starts with a header in order, satisfies the standard's rules on properties, identifier, will, name and password, and ends with the packet; with a version byte of 0x85 no properties are read |
| Connect.HeaderJudged | mqtt/mosquitto-1.6.3/src/handle_connect.c:399-509 | a header is accepted if and only if protocol name, version byte, flags and fixed header are in order: "MQTT" may be followed by a NUL and any byte, the top bit of the version byte is ignored, the reserved flag counts from version 3.1.1 on |
| Connect.AcceptedHeader | mqtt/mosquitto-1.6.3/src/handle_connect.c:399-509 | every accepted header is of that form and is read as what its bytes say |
| Connect.WillPropertiesAccepted | mqtt/mosquitto-1.6.3/src/property_broker.c:58-111 | among the lists that the client's check accepts for a will, the broker takes exactly those without a reason string |
| ConnectIO.LocalPropertiesSendable | mqtt/mosquitto-1.6.3/lib/send_connect.c:69-76 | the property list with the added receive maximum may be sent if and only if the caller's list may and the maximum is not 0 |
| ConnectIO.ConnectSize | mqtt/mosquitto-1.6.3/lib/send_connect.c:68-131 | the lengths added up are the bytes written plus what strings of more than 65535 bytes lose |
| ConnectIO.NothingLost | mqtt/mosquitto-1.6.3/lib/send_connect.c:167-192 | nothing is lost if and only if no string is longer than 65535 bytes, and then what is written is what was asked for |
| ConnectIO.Client.SendConnect | mqtt/mosquitto-1.6.3/lib/send_connect.c:34-203 | which error is returned when; otherwise the packet carries the request with each string cut to its length modulo 65536, and is filled exactly if and only if none is cut |
| ConnectIO.ProcessWill | mqtt/mosquitto-1.6.3/src/property_broker.c:58-111 | the filtered properties, delay and expiry, or an error for any other property |
| ConnectIO.ReadHeaderFrom | mqtt/mosquitto-1.6.3/src/handle_connect.c:399-509 | header, error and position for every packet |
| ConnectIO.ReadWillFrom | mqtt/mosquitto-1.6.3/src/handle_connect.c:280-356 | will, error and position for every packet |
| ConnectIO.HandleConnect | mqtt/mosquitto-1.6.3/src/handle_connect.c:360-634 | accepted content or error for every packet |
| Publish.PublishFill | mqtt/mosquitto-1.6.3/lib/send_publish.c:141-212 | the announced length is the length written if and only if the properties are shorter than 2^28 bytes |
| Publish.PublishRoundTrip | mqtt/mosquitto-1.6.3/lib/send_publish.c:182-212 | for every message the broker has to take over, the parser recovers flags, topic, identifier, the properties that go on, expiry, and as payload exactly the rest |
| Publish.AcceptedPublish | mqtt/mosquitto-1.6.3/src/handle_publish.c:60-282 | whatever PUBLISH the parser accepts satisfies the standard's rules, and its payload is exactly the end of the packet |
| PublishIO.SendRealPublish | mqtt/mosquitto-1.6.3/lib/send_publish.c:131-215 | which error is returned when; otherwise the packet carries the message and is filled exactly, unless version 5 properties of 2^28 bytes or more make an assertion fail, and exactly then |
| PublishIO.SplitProperties | mqtt/mosquitto-1.6.3/src/handle_publish.c:111-165 | on the list of nodes: the properties that go on, the alias and the expiry interval |
| PublishIO.Context.HandlePublish | mqtt/mosquitto-1.6.3/src/handle_publish.c:60-282 | message and topic aliases, or error, for every packet |
| Subscribe.SendTopics | mqtt/mosquitto-1.6.3/lib/send_subscribe.c:36-95 | the packet carries a fresh identifier, the properties and the whole list, and is filled exactly |
| Subscribe.SubscribeRoundTrip | mqtt/mosquitto-1.6.3/lib/send_subscribe.c:69-82 | the parser recovers the whole list of filters and options in order, the identifier and the subscription identifier, and nothing is left over, whatever the access check and the subscription tree answer without an error |
| Subscribe.AcceptedSubscribe | mqtt/mosquitto-1.6.3/src/handle_subscribe.c:49-204 | whatever SUBSCRIBE the parser accepts has a nonzero identifier, only valid filters and options, to each of which access check and subscription tree have agreed, no subscription identifier of 0, and ends with the packet; the subscription identifier is the first one given |
| Subscribe.AgreedIffNotRefused | mqtt/mosquitto-1.6.3/src/handle_subscribe.c:152-170 | exactly which answers of the access check and of sub__add let the handler go on, and when a subscription is denied |
| Subscribe.EmptyFilterSkipped | mqtt/mosquitto-1.6.3/src/handle_subscribe.c:81-124 | an empty filter changes nothing of what is read from the rest, whose first byte is not taken for its options |
| Subscribe.ReadSubscriptionsFrom | mqtt/mosquitto-1.6.3/src/handle_subscribe.c:81-199 | list or error for every packet, and beside each subscription its SUBACK code: 0x80 for a denial, while any other error of the access check or of sub__add ends the loop with that error |
| Subscribe.HandleSubscribe | mqtt/mosquitto-1.6.3/src/handle_subscribe.c:30-204 | request and codes, or error, for every packet, the errors of the access check and of sub__add among them |
| Commands.AckRoundTrip | mqtt/mosquitto-1.6.3/lib/send_mosq.c:119-165 | identifier, reason code and properties are recovered, also when version 5 leaves the reason code out |
| Commands.ReadAckFrom | mqtt/mosquitto-1.6.3/lib/handle_pubackcomp.c:61-74 | identifier, reason code, properties or error for every packet |
| Commands.SendCommandWithMid | mqtt/mosquitto-1.6.3/lib/send_mosq.c:119-165 | the packet is filled exactly |
| Commands.SendDisconnect | mqtt/mosquitto-1.6.3/lib/send_disconnect.c:35-84 | the packet is filled exactly, with or without reason code and properties |
| Commands.Acknowledger.SendPuback | mqtt/mosquitto-1.6.3/lib/send_mosq.c:68-78 | the packet, and one receive quota given back |
| Commands.Acknowledger.SendPubrec | mqtt/mosquitto-1.6.3/lib/send_mosq.c:93-105 | the packet, and receive quota given back only for a refusal in version 5 |
| Commands.Acknowledger.SendPubcomp | mqtt/mosquitto-1.6.3/lib/send_mosq.c:80-90 | the packet, and one receive quota given back |
| StandardExamples.NetworkOrder | mqtt/mosquitto-1.6.3/lib/packet_datatypes.c:167-199 | two- and four-byte integers have the most significant byte first |
| StandardExamples.VarintTable | mqtt/mosquitto-1.6.3/lib/packet_datatypes.c:235-256 | the limits of each length of a variable byte integer (section 1.5.5 of MQTT 5.0) |
| StandardExamples.PropertyTypes | mqtt/mosquitto-1.6.3/lib/property_mosq.c:30-141 | exactly the identifiers of each property type (section 2.2.2.2 of MQTT 5.0) |
| StandardExamples.PropertiesByPacket | mqtt/mosquitto-1.6.3/lib/property_mosq.c:427-518 | exactly the properties of each packet |
| StandardExamples.ValueRules | mqtt/mosquitto-1.6.3/lib/property_mosq.c:840-872 | exactly the values that are refused: flags above 1 and limits of 0 |
| StandardExamples.ForwardedInOrder | mqtt/mosquitto-1.6.3/src/handle_publish.c:111-165 | exactly the properties that go on with a message, in their order |
| StandardExamples.LastCounts | mqtt/mosquitto-1.6.3/src/handle_publish.c:141-150 | of several topic aliases or expiry intervals the last counts |
| StandardExamples.AliasRules | mqtt/mosquitto-1.6.3/src/handle_publish.c:168-187 | which topic aliases are refused, and which topic an accepted one leads to |
| StandardExamples.OptionBits | mqtt/mosquitto-1.6.3/src/handle_subscribe.c:108-146 | QoS and options of a subscription, bit by bit |
| StandardExamples.ConnectExample | mqtt/mosquitto-1.6.3/lib/send_connect.c:139-170 | the bytes of a CONNECT header with every kind of flag (section 3.1.2) |
| StandardExamples.PublishExample | mqtt/mosquitto-1.6.3/lib/send_publish.c:182-212 | the bytes of a PUBLISH, with and without a property length |
| StandardExamples.PublishFirstByte | mqtt/mosquitto-1.6.3/lib/send_publish.c:182-184 | packet type, duplicate flag, QoS and retain flag of a PUBLISH, bit by bit |
| StandardExamples.SubscribeExample | mqtt/mosquitto-1.6.3/lib/send_subscribe.c:69-82 | the bytes of a SUBSCRIBE with two filters |

## Left out

- Sockets, TLS, poll loops, signals and the clock: a read or write of the network moves an arbitrary number of bytes or fails; whether a message has expired is an arbitrary predicate.
- Running out of memory, `free` and mutexes: allocation succeeds, and each locked section is one step.
- The subscription tree, retained messages, access control and authentication: whether a message is routed or refused, and who may read it, is an arbitrary choice at each step. Outside references to stored messages are a multiset that may grow and shrink.
- The transport under the message lists: each send function answers with an arbitrary return code for each packet, and a packet answered with an error does not arrive.
- Topic, payload and properties of messages in the lists are one number each that stands for the content.
- The client's receiving side (lib/handle_publish.c, incoming half of lib/messages_mosq.c): there is no duplicate detection to prove anything about.
- QoS 0 messages in the two-party system; the broker's side of the counters, quotas and lists does have them.
- What handle__subscribe does behind a subscription: a failure of sub__retain_queue makes it return 1 after the SUBACK, and send__suback may fail.
- Bridges, apart from the flag in CONNECT and the fixed options in SUBSCRIBE: topic remapping, mount points and lazy bridges beyond the insert.
- Websockets, SOCKS, callbacks, $SYS statistics, logging, persistence, configuration, command-line programs, string tables and property names.
- The client's branch of packet__write for DISCONNECT, which ends the connection: the model is the broker's form.
- The CONNACK that answers a refused CONNECT, the context fields that CONNECT properties set, and everything in handle__connect behind the check for surplus data.
- Sending SUBACK, UNSUBACK and CONNACK, and reading UNSUBSCRIBE and DISCONNECT.
- Bit masks are written as division and remainder; integers are unbounded where the code bounds their range first, and 16-bit truncation is explicit where a cast relies on it. Wrap-around of the broker's message counters is not modelled.
- ClientRuns.SendOrder: assumes that the transport takes every packet and that the peer acknowledges only what is outstanding; a failed send leaves a message marked as in flight without taking quota, and an acknowledgement raises the quota before its identifier is looked up.
- ClientRuns.ReceiveMaximumKept: assumes the same as ClientRuns.SendOrder.
- Resend.ReconnectSendsOwed: asks that every message is in a state of outgoing messages, which Resend.OwedAfterAnyRun proves of every run.
- BrokerInserts.InsertTakes: speaks of the lists where the code asks its counters, so it asks that the counters are right; BrokerCounters and BrokerRuns.CountersConserved say when they are.
- BrokerCommitted.NeverPublishedAgain: takes for granted that what the broker sends outside db__message_write are not PUBLISH packets.
- BrokerKept.KeptUntilAcknowledged: names the message by its identifier and stored message; an acknowledgement of the identifier ends the claim even if it was meant for an earlier message.
- BrokerRuns.FlowControlled: assumes that the client acknowledges only what is outstanding, since an acknowledgement raises the quota before its identifier is looked up, and that the bound survives each reconnect, which BrokerCounters.ReconnectFlow decides exactly.
- Qos2Limit.OverrunRoutesTwice: stops at 65534, because more than 65535 messages cannot be outstanding under distinct identifiers.
- BrokerFifo.ReleaseQueuedFifo: is about a queue of QoS 2 messages, as are WriteInQueuedFifo, BrokerAnswers.WriteInQueuedSends and BrokerAnswers.ReleaseQueuedSends; the broker queues no others on their way in (BrokerOrder.QueuedExactlyWhenMarked keeps that over runs).
- Qos2Proof.RoutedAtMostOnce: is about QoS 2 messages from the client to the broker; a QoS 1 message must not take an identifier that the broker still holds for a QoS 2 message.
- Qos2Complete.NothingLost: asks that a QoS 2 call take an identifier that neither the broker's list nor any packet of a handshake still carries; a PUBCOMP or held message left over from an earlier call would otherwise be taken for the new one's. It does not say that a run ever becomes quiet.
- Topic.TopicMatchesSub: for filters or topics that do not pass the checks it states only that nothing behind a terminator is read and that an error comes with a negative answer.
- ConnectIO.Client.SendConnect: demands that the strings together and each property list are short enough for their lengths not to overflow an int.
- PublishIO.SendRealPublish: demands a topic of at most 65535 bytes and a payload of at most 268435455, as the callers check, and property lists whose lengths do not overflow an int.
