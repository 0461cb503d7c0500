# Verified protocol models

This project models, in Dafny, the protocol code of a set of Go extensions and proves properties of it that hold for
every input, every interleaving or every run.

Where the source updates variables in a loop or fields of an object, the model is a method or a class, and its
`ensures` ties the result to a specification function. The theorems are about those functions. Concurrent code is a
step system: a `Run` is a fold of single steps over an arbitrary list of choices, and a theorem about `Run` is a theorem
about every interleaving.

| files | what they model |
|---|---|
| `HttpsigComponents`, `HttpsigParams`, `HttpsigDictionary`, `HttpsigBase`, `HttpsigSignVerify`, `HttpsigFields` | HTTP message signatures, RFC 9421 |
| `Connector` | the reconnecting socket connector |
| `SioPacket`, `SioBinary`, `SioReassembly`, `SioDelivery` | the Socket.IO packet text, binary attachments, their reassembly, and the whole path of a binary event |
| `Varint`, `WtCapsule`, `WtControl`, `WtStream`, `WtSession`, `WtErrors` | WebTransport framing, the control loop, streams, datagrams, closing and error codes |
| `SftpTransfer` | parallel SFTP upload and download |
| `OtlpExporter` | the span queue of the OTLP exporter |
| `Unescape`, `EntityMeanings` | decoding HTML entities, and what each entity stands for |
| `TraceContext` | W3C trace context, samplers, carriers |
| `Text`, `Bytes`, `Buffers`, `Utf8` | shared text, byte, buffer and UTF-8 vocabulary |

## Main results

- **Signatures.** A message may be signed any number of times, by any keys and under any labels. For the first signature
  under each label, the base a verifier rebuilds from the re-parsed headers is the base its signer signed, and the
  verifier accepts it (`SignVerify.EverySignatureHolds`, `SignVerify.EverySignatureVerifies`). What acceptance means is
  stated exactly (`SignVerify.AcceptedIff`), and the base determines every covered value
  (`SignatureBase.BaseInjective`). What the verifier returns is the configuration, field by field, and it refuses
  exactly what the policy objects to (`FieldValues.SignedAcceptedIff`). The text of the base is stated from the message
  (`FieldValues.BaseExact`), and equal bases mean equal header texts (`FieldValues.HeadersDetermined`).
- **Connector.** In every interleaving each connection is current, or claimed by one goroutine, or closed exactly once.
  Dials never overlap, at most one reconnect loop is live, and none is live after `Close` has passed its cancellation.
  A `Disconnect` that has ended, and a `Close` that has done its work, have given up every connection installed before
  them, and the goroutine that takes a connection is the one that closes it. A reconnect loop goes on until it succeeds,
  is cancelled or has used up its attempts, and no `Connect` that begins after `Close` dials.
- **Socket.IO.** A packet survives its text form if and only if it is well formed. A tree survives the lifting of its
  binary leaves, in any map order, if and only if it is faithful. A frame completes an event if and only if it is the
  last attachment announced by the header it follows. Joined, they say exactly what an emitted binary event brings out
  behind any frames, when its arguments are the ones sent (`BinaryDelivery.BinaryEventDelivered`), and that any sequence
  of emissions on a fresh connection comes out as exactly the carriable events in order
  (`BinaryDelivery.EmissionsDelivered`).
- **WebTransport.** A control stream is read back capsule by capsule and in step. A stream or datagram reaches exactly
  the session it is for. Exactly one write carries the stream header in any interleaving, and it is first on the wire
  if and only if no other write overtakes it. Closing a session never sends on, or closes again, a closed channel, and
  when it is done all channels are closed and the context is cancelled. The error code maps are inverse bijections.
- **SFTP.** A parallel transfer that returns nil without being cancelled from outside has copied every byte, under every
  schedule and every pattern of short reads. In general a nil result means copied if and only if the producer sent
  every chunk. It returns an error if and only if a worker failed, and a worker fails if and only if one of its copy
  steps met an error that leaves its chunk incomplete. Whenever the size fits and the source is long enough, some run
  succeeds.
- **OTLP.** Sent batches, current batch and queue together are always the accepted snapshots in order. A tick sends
  everything received, and from every state before the end of the drain a shutdown can end with everything sent.
- **Unescape.** The loop equals a byte-at-a-time specification. It never lengthens the text, shortens it if and only if
  there is an entity to decode, and keeps it well-formed UTF-8. The 103 names decode to their code points and no others
  do, every scalar value is decoded from its decimal and its hexadecimal digits, and decoding undoes escaping.
- **Trace context.** Trace ID, sampled bit and tracestate are constant along a chain of child spans and hops if and only
  if every hop leaves from an active span.

## Where the code does less than its comments suggest

The model follows the code. For each case there is a lemma at an input or a run, and a theorem that says exactly when
the code does what the comment suggests:

- A transfer cancelled by its caller can return nil with nothing copied: `Transfer.OutsideCancelCanLoseChunks`,
  `Transfer.NilCopiedIff`.
- A read loop starts a reconnect loop even after `Disconnect`: `Connectors.ReconnectsAfterDisconnect`,
  `Connectors.TriggerIff`.
- An ending reconnect loop cancels a newer one: `Connectors.NewerLoopLost`, `Connectors.LoopEndCancelsIff`.
- A reassembled binary acknowledgement comes out as an event: `Reassembly.BinaryAckBecomesEvent`,
  `Reassembly.OnlyPlainAcks`.
- The peer's close code is overwritten with 0 in an open session: `ControlLoops.PeerCodeLost`,
  `ControlLoops.PeerClose`.
- The 512-byte buffer holds the close capsule only for messages of up to 504 bytes, although 1024 are allowed:
  `Capsules.LongMessageDoesNotFit`, `Capsules.CloseCapsuleFitsIff`.
- Overlapping writers can put a payload in front of the stream header: `Streams.HeaderNotFirstWhenOverlapping`,
  `Streams.HeaderFirstIff`, `Streams.HeaderAlwaysFirstIff`.
- Datagrams of a session whose ID is not a multiple of four, which no request stream has, never reach it:
  `Streams.DatagramLost`, `Streams.DatagramDeliveredIff`.
- A close that meets a delivery blocked on a full channel waits until a stream is accepted or the context is cancelled:
  `SessionClosing.JamIsReachable`, `SessionClosing.CloserGetsThroughIff`, `SessionClosing.StuckIff`.
- Two overlapping `Shutdown` calls close the done channel twice: `Exporters.OverlappingShutdownsPanic`,
  `Exporters.DoubleCloseIff`.
- Two hops in a row lose the trace, since only an active span is injected: `TraceContexts.TwoHopsLoseTrace`,
  `TraceContexts.ChainKeepsTraceIff`.
- An empty tracestate lets an old entry of a reused carrier through: `TraceContexts.StaleStateArrives`,
  `TraceContexts.HopKeepsIff`.
- Ratio 0 still samples root traces whose last eight ID bytes are zero: `TraceContexts.RatioZeroSamples`,
  `TraceContexts.RatioMonotone`.
- The version of a `traceparent` need not be hexadecimal: `TraceContexts.VersionNeedNotBeHex`,
  `TraceContexts.AcceptedTextIff`.
- A policy that requires a component with parameters is met by the same name with other parameters:
  `SignVerify.OtherQueryParameterAccepted`, `SignVerify.ParametersNeverInsisted`, `SignVerify.RequiredIff`.
- A signature under a label that is taken is never found: `SignVerify.SecondDefaultLost`, `SignVerify.TakenLabel`,
  `SignVerify.TakenLabelReadsOld`.
- Quotes do not protect a semicolon in a signature parameter: `SignatureParameters.SemicolonLost`,
  `SignatureParameters.ParamsTextRoundTripIff`.
- Line breaks in the values of dictionary keys let two messages share one signature base: `SignatureBase.BaseCollision`.
  In one value they do no harm (`SignatureBase.BaseInjective`); for two keys `SignatureBase.KeyCollisionIff` says
  exactly when they do, and `SignatureBase.FieldOneLineIff` which values can have them.
- The attachments of an event with more than 64 of them complete an older event that still waits:
  `BinaryDelivery.OlderEventTaken`, `BinaryDelivery.BinaryEventDelivered`.

## Model

| member | source | states |
|---|---|---|
| `Components.ParseComponentIdentifier` | auth/httpsig/base.go:52-172 | the parsing loop yields the component that name and parameter list stand for: last value of each parameter, each flag, and the canonical text; `bs` together with `sf` or `key` is refused |
| `Components.ParamRoundTrip` | auth/httpsig/base.go:100-163 | a canonical parameter survives being written and read, and its text has no semicolon |
| `Components.ParamsRoundTrip` | auth/httpsig/base.go:97-163 | a canonical parameter list survives being written, split at semicolons and read |
| `Components.ReparseIff` | auth/httpsig/base.go:52-172 | parsing a component's serialized form gives the same component if and only if its name has no quote |
| `SignatureParameters.SplitInnerList` | auth/httpsig/base.go:386-416 | the scanning loop cuts an inner list at the spaces that stand outside quotes |
| `SignatureParameters.SplitJoined` | auth/httpsig/base.go:386-416 | splitting the joined identifiers gives back the identifiers |
| `SignatureParameters.SerializeSignatureParams` | auth/httpsig/base.go:258-314 | writes the identifiers in order and exactly the parameters that are set, or the first identifier's error |
| `SignatureParameters.ParseSignatureParams` | auth/httpsig/base.go:317-384 | reads list and parameters, with the error cases of a missing parenthesis |
| `SignatureParameters.ParamsTextRoundTrip` | auth/httpsig/base.go:258-384 | written parameters are read back with the serialized identifiers, and zero for times that are not positive |
| `SignatureParameters.ParamsTextRoundTripIff` | auth/httpsig/base.go:258-384 | for clean identifiers and 64-bit times the text reads back if and only if key ID, algorithm, nonce and tag have no semicolon |
| `SignatureParameters.SemicolonLost` | auth/httpsig/base.go:346-380 | a key ID with a semicolon that is not read back |
| `Dictionary.SplitHeaderComma` | auth/httpsig/verify.go:267-311 | the scanning loop cuts a header at commas outside quotes, parentheses and byte sequences |
| `Dictionary.ParseDictionaryMembers` | auth/httpsig/verify.go:242-265 | the members of a header in order, pieces without an equals sign skipped |
| `Dictionary.MembersAppend` | auth/httpsig/sign.go:140-147 | appending a solid member to a balanced header adds exactly that member at the end and keeps the header balanced |
| `Dictionary.WrittenIsSolid` | auth/httpsig/sign.go:65-76 | a serialized parameter list is never cut by the header splitter |
| `Dictionary.ByteSequenceIsSolid` | auth/httpsig/sign.go:72-77 | neither is a base64 byte sequence |
| `SignatureBase.WriteLines` | auth/httpsig/base.go:191-233 | one line for each covered component, duplicates and errors reported at the first offender |
| `SignatureBase.BuildSignatureBase` | auth/httpsig/base.go:186-254 | the loop and the final test give the text of `FieldValues.BaseExact`, or the error of the first offending component, of the parameters, or of a text that is not ASCII |
| `SignatureBase.FieldOneLineIff` | auth/httpsig/base.go:562-625 | the value of a header component holds a line break if and only if a dictionary key is selected whose first item has one inside its value; whole headers and byte sequences never do |
| `SignatureBase.DictionaryKeyIff` | auth/httpsig/base.go:627-655 | a dictionary key stands for the value of the first item that has it, in any case, and a bare item for `?1` |
| `SignatureBase.BaseInjective` | auth/httpsig/base.go:186-254 | for fixed parameters, equal bases imply equal values of every covered component, if at most one of them has line breaks, the same one in both messages |
| `SignatureBase.KeyCollisionIff` | auth/httpsig/base.go:191-233 | for two dictionary keys, other values with the same lines exist if and only if the text between the values occurs once more where it can be read as the boundary |
| `SignatureBase.BaseCollision` | auth/httpsig/base.go:562-615 | with a line break in the value of a dictionary key, two messages that differ in both covered values have the same base |
| `SignatureBase.CollisionIsSigned` | auth/httpsig/base.go:186-254 | that base is built without error whenever values and parameters are ASCII |
| `SignatureBase.LinesUnaffected` | auth/httpsig/base.go:191-233 | the lines do not depend on the message's own two signature headers unless these are covered; `req` and `tr` forms are read elsewhere |
| `FieldValues.FoldedValue` | auth/httpsig/base.go:617-625 | in a trimmed value over several lines each CRLF, CR or LF between them becomes one space |
| `FieldValues.PlainFieldValue` | auth/httpsig/base.go:562-615 | a header component stands for its values in order, each cleaned, with a comma and a space between them |
| `FieldValues.CleanFieldValue` | auth/httpsig/base.go:562-615 | values that are trimmed and have no line break stand for themselves, joined in order |
| `FieldValues.TwoValues` | auth/httpsig/base.go:608-614 | a header with values `a` and `b` stands for `a, b` |
| `FieldValues.WrappedFieldValue` | auth/httpsig/base.go:585-594 | with `bs` each value is cleaned, encoded and put between colons, joined in order |
| `FieldValues.FieldMissingIff` | auth/httpsig/base.go:562-583 | a header component without a key is missing if and only if the message has no value for it |
| `FieldValues.ComponentSource` | auth/httpsig/base.go:208-226 | `req` reads the related request of a response, `tr` the trailers, and everything else the message itself |
| `FieldValues.DerivedSource` | auth/httpsig/base.go:426-516 | a derived component has the value the message gives its name, and `@query-param` the one of its parameter |
| `FieldValues.BaseExact` | auth/httpsig/base.go:186-254 | for distinct components and their values, the base exists if and only if the text of one line for each and of the parameter line is ASCII, and is that text |
| `FieldValues.BaseNeedsValues` | auth/httpsig/base.go:191-233 | a base exists only if every identifier parses, occurs once and has a value |
| `FieldValues.HeadersDetermined` | auth/httpsig/base.go:186-254 | for fixed parameters, equal bases imply the same joined text of every plainly covered header, under the condition of `BaseInjective` |
| `FieldValues.CleanHeadersDetermined` | auth/httpsig/base.go:186-254 | for clean values that is the joined text of the header values as they are |
| `FieldValues.WrappedDetermined` | auth/httpsig/base.go:585-594 | the `bs` form determines even the list of cleaned values |
| `SignVerify.LiveMessage.Append` | auth/httpsig/sign.go:140-147 | sets or extends one header in place |
| `SignVerify.LiveMessage.SignInPlace` | auth/httpsig/sign.go:83-138 | adds both members of a successful signing and changes nothing otherwise |
| `SignVerify.RebuiltBase` | auth/httpsig/verify.go:75-186 | parsing the written parameters and building the base on the signed message gives the base of the original configuration |
| `SignVerify.SignEstablishes` | auth/httpsig/sign.go:45-79 | after signing under a new label, the headers hold the new signature behind whatever was there; the record of what was signed exists in any case |
| `FieldValues.SignSucceedsIff` | auth/httpsig/sign.go:45-79 | signing succeeds if and only if the base exists and the key signs it |
| `SignVerify.TakenLabel` | auth/httpsig/sign.go:140-147 | under a taken label each header keeps its old value; the new pair is found if and only if each header lacked the label or had the same value |
| `SignVerify.TakenLabelReadsOld` | auth/httpsig/verify.go:56-82 | so a verifier given that label reads what it read before |
| `SignVerify.SecondDefaultLost` | auth/httpsig/sign.go:26-29 | two signings under the default label at different times, of which only the first is ever read |
| `SignVerify.AppendedPreserves` | auth/httpsig/sign.go:140-147 | a later signature, also under the same label, disturbs none of the earlier ones |
| `SignVerify.VerifyMessage` | auth/httpsig/verify.go:17-193 | the whole verification, with its loops over members, covered and required components, in the source's order of errors |
| `SignVerify.FindMissing` | auth/httpsig/verify.go:162-179 | the first required component that does not parse or is not covered decides |
| `SignVerify.CollectCovered` | auth/httpsig/verify.go:153-160 | the serialized forms and names of the components that parse |
| `SignVerify.PlainNameIsGood` | auth/httpsig/base.go:52-96 | any name without delimiters, in any case, is an identifier the theorems about signing apply to |
| `SignVerify.DefaultsAreGood` | auth/httpsig/sign.go:26-40 | so are the default label and the default components, on every message |
| `SignVerify.RequiredIff` | auth/httpsig/verify.go:152-179 | the required components pass if and only if each parses and some covered component has its name; parameters play no part |
| `SignVerify.FormCoveredIff` | auth/httpsig/verify.go:152-179 | a requirement that is met is covered in its own form if and only if a component of its name parses to the very component required |
| `SignVerify.FormIff` | auth/httpsig/base.go:52-172 | two identifiers have the same serialized form if and only if they parse to the same component |
| `SignVerify.OtherQueryParameterAccepted` | auth/httpsig/verify.go:168-171 | requiring one query parameter is met by covering any other one |
| `SignVerify.ParametersNeverInsisted` | auth/httpsig/verify.go:168-171 | for every required component there is another form that meets the requirement in its place |
| `SignVerify.AcceptedIff` | auth/httpsig/verify.go:17-193 | parameters are returned if and only if they stand under the tried label in one header, the signature under the same label in the other checks over the base of this message under them, and algorithm, key, tag, time window and required names fit |
| `SignVerify.DefaultLabel` | auth/httpsig/verify.go:45-53 | without a label the verifier does what it does with the first label of the header |
| `SignVerify.DefaultTriesOldest` | auth/httpsig/verify.go:45-53 | so on a message signed before it tries the oldest signature, however many were added |
| `SignVerify.EverySignatureHolds` | auth/httpsig/verify.go:34-87 | after any number of signings under any labels, each label reads back the parameters, base and signature bytes of the first signing under it |
| `SignVerify.EverySignatureVerifies` | auth/httpsig/verify.go:17-193 | each of those verifies under its label, the first of all also without one, and the verifier returns the configured parameters in normal form |
| `FieldValues.RecordAsConfigured` | auth/httpsig/sign.go:17-57 | what was signed has, field by field, the times, nonce and tag of the configuration, ID and algorithm of the key, and the serialized forms of the named or default components |
| `FieldValues.SignedAcceptedIff` | auth/httpsig/verify.go:95-193 | a signature under a new label is accepted if and only if tag, expiry, age and required names of the policy allow the configuration, the parameters returned are the configured ones, and each objection has its error |
| `SignVerify.DecodeBare` | auth/httpsig/verify.go:313-320 | a signature without the colons is read as well |
| `Connectors.ConnectionsAccountedFor` | socket/connector/connector.go:328-473 | in every interleaving an installed connection is current, or claimed by exactly one goroutine, or closed exactly once |
| `Connectors.AllClosedAtRest` | socket/connector/connector.go:328-473 | when every goroutine has ended, every connection ever dialed was closed exactly once |
| `Connectors.TakerCloses` | socket/connector/connector.go:439-473 | once `Close` or `Disconnect` has taken the current connection, it is never current again, and that very goroutine still claims it or it has been closed exactly once |
| `Connectors.DisconnectReleases` | socket/connector/connector.go:439-452 | when a `Disconnect` call has ended, every connection installed before it is no longer current and is closed once or claimed |
| `Connectors.CloseReleases` | socket/connector/connector.go:455-473 | when the `Close` call that set the flag has done its work, the same holds of every connection installed before the flag was set |
| `Connectors.CloseCancelsRoot` | socket/connector/connector.go:455-461 | once the flag is set, the root context is cancelled or a `Close` call is about to cancel it |
| `Connectors.NoNewDialAfterClose` | socket/connector/connector.go:328-331 | once the connector is closed no goroutine gets past the test of `Connect`, in any continuation |
| `Connectors.CancelSections` | socket/connector/connector.go:475-483 | the sections of `Connect`, `Disconnect` and `Close` that cancel reconnection leave no loop live |
| `Connectors.LoopGoesOn` | socket/connector/connector.go:500-565 | a reconnect loop ends only after an attempt that succeeded, on cancellation, or when its attempts are used up |
| `Connectors.LoopTriesAgain` | socket/connector/connector.go:508-565 | a live loop that waits dials again, unless the connector is closed or another `Connect` is under way |
| `Connectors.AttemptDecides` | socket/connector/connector.go:354-378 | a failed dial makes the loop wait, a successful one installs the connection, starts its reader and ends the loop |
| `Connectors.ReconnectionSucceeds` | socket/connector/connector.go:380-565 | a run that reconnects after `Disconnect`: the new connection is current and read, the old one was closed once, and no loop is left |
| `Connectors.DialsNeverOverlap` | socket/connector/connector.go:328-360 | no two goroutines are ever dialing |
| `Connectors.OneLiveLoop` | socket/connector/connector.go:475-501 | a live reconnect loop is the one the stored cancel function refers to |
| `Connectors.NoLoopAfterClose` | socket/connector/connector.go:455-498 | once `Close` has passed its cancellation, no continuation of the run has a live loop |
| `Connectors.ReconnectsAfterDisconnect` | socket/connector/connector.go:380-452 | a run of one `Connect` and one `Disconnect`, both to their end, after which a reconnect loop is live |
| `Connectors.TriggerIff` | socket/connector/connector.go:395-397 | in every reachable state a trigger makes a loop live if and only if the connector is not closed and no loop is recorded |
| `Connectors.LoopEndCancelsIff` | socket/connector/connector.go:500-501 | in every reachable state the end of a loop leaves no loop live, and takes down another live one if and only if the recorded loop is another and the root context is not cancelled |
| `Connectors.NewerLoopLost` | socket/connector/connector.go:475-501 | a run in which an ending loop cancels a newer live one |
| `Connectors.RunInv` | socket/connector/connector.go:328-565 | the joint invariant of mutex sections, claims, deliveries, watchers and loops holds in every reachable state |
| `Packets.DecodePacket` | socketio/packet.go:160-186 | the decoder with its three sub-parsers and error cases |
| `Packets.ParseAttachments` | socketio/packet.go:188-208 | reads the count up to the dash, or to the end if there is none, and refuses what is not a number from 0 to 64 |
| `Packets.ParseNamespace` | socketio/packet.go:210-229 | reads a namespace up to its comma, or takes the default |
| `Packets.ParseAckId` | socketio/packet.go:231-246 | reads the run of digits as a 64-bit number, clamped when it is too large |
| `Packets.PacketRoundTripIff` | socketio/packet.go:134-246 | decoding an encoded packet returns it if and only if it is well formed |
| `Packets.DecodeStableIff` | socketio/packet.go:134-246 | for every text that decodes, encoding and decoding again changes nothing if and only if the packet is not ambiguous |
| `Packets.AmbiguousOccurs` | socketio/packet.go:210-229 | a concrete text that decodes to an ambiguous packet |
| `BinaryTrees.DeconstructInto` | socketio/packet.go:291-317 | lifts the binary leaves behind the buffers already there, numbering them in the order met |
| `BinaryTrees.DeconstructFields` | socketio/packet.go:306-313 | does so for the fields of an object in any order |
| `BinaryTrees.Deconstruct` | socketio/packet.go:283-289 | the result has no binary leaf, the numbers are 0 to n-1 at the leaves' paths, n > 0 if and only if there is a binary leaf, and putting the leaves back restores the tree if and only if it is faithful |
| `BinaryTrees.PathsDistinct` | socketio/packet.go:291-317 | no number is used at two places |
| `BinaryTrees.StrippedUnchanged` | socketio/packet.go:291-317 | a tree without binary leaves is returned as it is |
| `BinaryTrees.AttachmentsIff` | socketio/packet.go:248-289 | `hasBinary` holds if and only if there are attachments |
| `BinaryTrees.ReconstructIff` | socketio/packet.go:319-367 | reconstruction restores the original if and only if no placeholder look-alike holds a binary leaf or names an attachment |
| `BinaryTrees.NoLookalikeIsFaithful` | socketio/packet.go:345-348 | a tree with no map whose `_placeholder` is true is faithful |
| `BinaryTrees.LookalikeLost` | socketio/packet.go:345-367 | a tree whose look-alike comes back as an attachment |
| `BinaryTrees.PlaceholderForms` | socketio/packet.go:350-367 | a placeholder names its attachment by an integer, a float or a number kept as text |
| `BinaryTrees.WireRoundTrip` | socketio/packet.go:283-367 | the same across JSON, which turns every number, also one kept as text, into a float |
| `Reassembly.Receiver.AddBuffer` | socketio/packet.go:71-83 | appends a frame, and is done when the announced count is reached or the size limit was passed |
| `Reassembly.Receiver.Dispatch` | socketio/engineio.go:289-323 | one inbound frame changes the pending reassembly and the output as the step function says |
| `Reassembly.Receiver.HandlePacket` | socketio/engineio.go:325-347 | a packet starts a reassembly, is passed on, or is ignored |
| `Reassembly.PendingAfterRun` | socketio/engineio.go:289-347 | after any run the pending reassembly is what the frames behind the last binary header determine |
| `Reassembly.PendingIsBounded` | socketio/packet.go:60-83 | it holds fewer than the announced number of frames, or none, and at most 32 MiB |
| `Reassembly.CompletionIff` | socketio/engineio.go:289-323 | a frame emits an event if and only if it is the last announced attachment, the limit is kept and the data is a list; the event is rebuilt from exactly those attachments in order |
| `Reassembly.OnlyPlainAcks` | socketio/engineio.go:289-347 | over every run the acknowledgements are exactly those of the plain acknowledgement packets; no reassembly ends in one |
| `Reassembly.OnlyMessagesAnswered` | socketio/engineio.go:306-347 | over every run the connects, acknowledgements and refusals are those of the readable messages, in order |
| `Reassembly.SentIsAnswered` | socketio/engineio.go:325-347 | a well-formed packet sent as a message gets its answer after any run: CONNECT, EVENT, ACK with a number and CONNECT_ERROR have one each |
| `Reassembly.BinaryAckBecomesEvent` | socketio/packet.go:85-111 | a binary acknowledgement with one attachment is handed to the event handlers, rebuilt |
| `Reassembly.ZeroAnnouncedNeverCompletes` | socketio/packet.go:71-83 | a header that announces nothing is never completed |
| `BinaryDelivery.EmitBinary` | socketio/client.go:380-416 | lifts the leaves and sends the header and one frame for each attachment, in order |
| `BinaryDelivery.Emit` | socketio/client.go:319-345 | sends a tree without binary leaves as one plain event, and any other as header and attachments |
| `BinaryDelivery.BinaryEventDelivered` | socketio/client.go:380-416 | behind any earlier frames, an event with up to 64 attachments comes out, once and alone, if and only if there is one at least and those before the last fit in 32 MiB; with more, exactly the older event that its attachments complete comes out; the arguments are the ones sent if and only if the tree on the wire is faithful |
| `BinaryDelivery.OlderEventTaken` | socketio/packet.go:188-208 | a waiting header that is completed by the first attachment of an event with more than 64 |
| `BinaryDelivery.EmissionsDelivered` | socketio/client.go:319-416 | for any emissions one after another on a fresh connection, plain or binary, the output is exactly the carriable events in order and nothing stays pending |
| `BinaryDelivery.EmittedArguments` | socketio/packet.go:283-367 | each comes out with the arguments emitted, up to number representation, if and only if the tree on the wire is faithful |
| `Varints.RoundTrip` | webtransport/capsule.go:35-48 | an encoded number is decoded whatever follows it |
| `Varints.EncodeIsShortest` | webtransport/capsule.go:35-48 | no decodable form is shorter than the encoder's, and the one of equal length is the encoder's |
| `Varints.Reader.ReadVarint` | webtransport/dial.go:446-465 | reading one byte, then as many as it announces, equals decoding at the front of the stream; a truncated stream is an error |
| `Capsules.EncodeCapsule` | webtransport/capsule.go:51-66 | the buffer starts with type, length and payload, and what does not fit is dropped |
| `Capsules.TruncateErrorMessage` | webtransport/capsule.go:69-80 | a long message becomes its longest well-formed prefix of at most 1024 bytes, a short one stays |
| `Capsules.TruncationDropsAtMostThree` | webtransport/capsule.go:69-80 | a well-formed message keeps at least 1021 of the first 1024 bytes and stays well-formed |
| `Capsules.EncodeCloseSessionCapsule` | webtransport/capsule.go:93-102 | the buffer starts with the close capsule of the truncated message |
| `Capsules.ClosePayloadRoundTrip` | webtransport/capsule.go:83-129 | decoding an encoded close payload gives code and truncated message, and fails exactly on short ill-formed messages |
| `Capsules.ClosePayloadCanonical` | webtransport/capsule.go:115-129 | every accepted payload is the encoding of what it was decoded to |
| `Capsules.CloseCapsuleFitsIff` | webtransport/session.go:293-304 | the 512-byte buffer suffices if and only if the truncated message has at most 504 bytes |
| `Capsules.LongMessageDoesNotFit` | webtransport/session.go:293-304 | a well-formed message of 505 bytes whose capsule does not fit |
| `Capsules.MaxStreamsRoundTrip` | webtransport/capsule.go:138-164 | a stream limit is sent if and only if the reader accepts it, and is then read back |
| `ControlLoops.ControlledSession.FetchCapsule` | webtransport/session.go:372-435 | one capsule is read, or the error cases of a short stream or an oversized payload occur |
| `ControlLoops.PayloadLimitIff` | webtransport/session.go:418-435 | a payload that is there in full is read if and only if it has at most 16 MiB |
| `ControlLoops.ControlledSession.ControlLoop` | webtransport/session.go:367-476 | the loop ends in the state, with the capsules read and the bytes left, that the recursive specification says |
| `ControlLoops.StaysInStep` | webtransport/session.go:367-476 | after any capsules but CLOSE the loop has read exactly them, is in step with what follows, and drains if and only if it did or a DRAIN capsule occurred |
| `ControlLoops.ControlStreamRoundTrip` | webtransport/session.go:367-476 | a whole stream of such capsules is read back exactly and every byte is consumed |
| `ControlLoops.CapsulesInjective` | webtransport/capsule.go:51-66 | different capsule sequences never have the same bytes |
| `ControlLoops.PeerClose` | webtransport/session.go:441-454 | CLOSE ends the loop, leaves the rest unread and leaves code 0 in an open session, the peer's code in a closed one |
| `ControlLoops.PeerCodeLost` | webtransport/session.go:441-454 | a peer that closes with code 7 leaves code 0 |
| `Streams.Stream.Write` | webtransport/stream.go:90-133 | one write: header on the first, number of payload bytes reported, partial acceptance by the transport |
| `Streams.WriteReportsPayload` | webtransport/stream.go:203-246 | the wire is a prefix of header and payloads, and the reported count is the payload bytes this write added |
| `Streams.HandleIncoming` | webtransport/dial.go:408-444 | accepts exactly the streams of the given type and session and leaves the payload in the stream |
| `Streams.StreamDelivered` | webtransport/dial.go:408-465 | for any run of writes the handler of any type and session gets exactly the concatenated payloads, or nothing if type or session differ |
| `Streams.KindsNeverMix` | webtransport/dial.go:408-444 | a bidirectional stream is never taken for a unidirectional one, nor the other way round |
| `Streams.DatagramDeliveredIff` | webtransport/dial.go:386-405 | a datagram reaches exactly the session whose ID is the sender's rounded down to a multiple of four |
| `Streams.DatagramLost` | webtransport/dial.go:399-402 | a session made with ID 1 never receives its own datagrams |
| `Streams.ExactlyOneHeader` | webtransport/stream.go:90-133 | in every interleaving at most one raw write carries the header, and exactly one when all writers are done |
| `Streams.HeaderFirstWhenSequential` | webtransport/stream.go:95-121 | if writers never overlap, the header is first on the wire |
| `Streams.HeaderFirstIff` | webtransport/stream.go:95-130 | in every run the header is first if and only if no other raw write falls between the carrier's store and its raw write |
| `Streams.HeaderAlwaysFirstIff` | webtransport/stream.go:95-130 | it is first in every run if and only if there is at most one writer |
| `Streams.HeaderNotFirstWhenOverlapping` | webtransport/stream.go:118-121 | a schedule, for any two or more writers, that puts a payload first |
| `SessionClosing.NeverPanics` | webtransport/session.go:282-364 | in every interleaving of closers and deliveries nothing is sent on a closed channel and no channel is closed twice |
| `SessionClosing.ClosersExclusive` | webtransport/session.go:282-364 | only one thread is ever past the swap, and no delivery holds the lock while channels are closed |
| `SessionClosing.CloseCompletes` | webtransport/session.go:282-315 | every closer that has finished leaves the flag set, and once the one that set it has finished all three channels are closed and the context is cancelled |
| `SessionClosing.DeliveryDecides` | webtransport/session.go:317-364 | a delivery ends with the item in its channel, which had room, or without it because the session was cancelled, or for a datagram because the channel held 1024 |
| `SessionClosing.CloseWaitsForAccept` | webtransport/session.go:282-348 | once a delivery is blocked on a full stream channel and a closer waits for the lock, no step of any closer or delivery ends it |
| `SessionClosing.StuckIff` | webtransport/session.go:282-454 | in every reachable state all threads are stuck if and only if each has finished, is a delivery blocked on a full stream channel of an uncancelled session, is a writer that has asked for the lock while there is one, or stands before the lock while such a writer waits |
| `SessionClosing.CloserGetsThroughIff` | webtransport/session.go:282-364 | in every reachable state some steps of closers and deliveries give a waiting closer the lock if and only if the session is cancelled or no stream channel has more deliveries waiting than free places |
| `SessionClosing.JamIsReachable` | webtransport/session.go:282-348 | a run of 257 deliveries and one close that gets there |
| `ErrorCodes.InverseIff` | webtransport/errors.go:64-90 | one map sends n to h if and only if the other sends h to n |
| `ErrorCodes.FromHttpDefinedIff` | webtransport/errors.go:73-90 | defined exactly on the unreserved codes of the range; the overflow branch is never taken |
| `ErrorCodes.RangeExact` | webtransport/constants.go:99-103 | every code lands in the range off the reserved points, and exactly the least and greatest codes hit the ends |
| `ErrorCodes.StrictlyIncreasing` | webtransport/errors.go:64-67 | the map keeps and reflects the order |
| `Transfer.TilesPartition` | ssh/sftp/sftp.go:285-296 | every position lies in exactly one chunk, and no chunk holds anything else |
| `Transfer.ProduceChunks` | ssh/sftp/sftp.go:285-296 | the 64-bit loop, cancelled at any point, sends the first tiles if the rounded-up size fits in 64 bits, and otherwise goes on at a negative offset |
| `Transfer.LastStepIff` | ssh/sftp/sftp.go:288-288 | the step behind the last chunk ends the loop if and only if the rounded-up size fits |
| `Transfer.CopyChunk` | ssh/sftp/sftp.go:298-352 | for every pattern of short reads and errors, it succeeds if and only if its reads add up to its size with no write error and no read error that leaves it short before; what is touched is a beginning of the chunk, and on success all of it |
| `Transfer.EofWithLastBytes` | ssh/sftp/sftp.go:318-320 | an end of file reported together with the last bytes makes no difference |
| `Transfer.ProducedAreTiles` | ssh/sftp/sftp.go:199-296 | under every schedule the chunks sent so far are the first tiles; more follow only if the rounded-up size does not fit in 64 bits |
| `Transfer.ErrorIffWorkerFailed` | ssh/sftp/sftp.go:199-240 | once all workers returned, the transfer returns an error if and only if a worker failed |
| `Transfer.FailedIff` | ssh/sftp/sftp.go:213-228 | a worker has failed if and only if one of its own copy steps met a write error on bytes it read, or a read error short of its chunk |
| `Transfer.CopyWrites` | ssh/sftp/sftp.go:308-321 | a copy step writes exactly the bytes that the write took |
| `Transfer.ChannelBounded` | ssh/sftp/sftp.go:206-228 | the channel never holds more than two chunks for each worker, and a failure cancels the transfer |
| `Transfer.ProducesIff` | ssh/sftp/sftp.go:285-296 | a chunk is sent if and only if the producer is not done and the channel has room |
| `Transfer.TransferCanSucceed` | ssh/sftp/sftp.go:199-352 | whenever the rounded-up size fits and the source is long enough, some run returns nil with every byte copied |
| `Transfer.NilMeansCopied` | ssh/sftp/sftp.go:199-352 | nil without outside cancellation means every byte of the destination equals the source |
| `Transfer.NilCopiedIff` | ssh/sftp/sftp.go:199-352 | a transfer that returned nil has copied every byte if and only if the producer sent every chunk |
| `Transfer.OutsideCancelCanLoseChunks` | ssh/sftp/sftp.go:230-239 | for every configuration, a schedule in which a cancelled transfer returns nil with an empty destination |
| `Exporters.SpansConserved` | otel/exporter.go:187-261 | in every interleaving the sent batches, the batch and the queue are the accepted snapshots in order, and batches have 1 to `batchSize` items |
| `Exporters.ExitedHasSentAll` | otel/exporter.go:237-250 | the ended worker has sent exactly what had been accepted when it found the queue empty, which includes everything accepted before the shutdown |
| `Exporters.TickSends` | otel/exporter.go:257-258 | after a tick while the worker serves, everything it received has been sent |
| `Exporters.AcceptedIff` | otel/exporter.go:187-215 | a snapshot is accepted if and only if fewer than 2048 are waiting, and is dropped otherwise |
| `Exporters.ShutdownCanFinish` | otel/exporter.go:237-301 | from every state before the drain has found the queue empty, some continuation ends the worker with everything accepted sent |
| `Exporters.DoubleCloseIff` | otel/exporter.go:290-301 | the done channel is closed twice if and only if two callers were between test and close at once |
| `Exporters.OverlappingShutdownsPanic` | otel/exporter.go:290-301 | a run of two overlapping calls that does |
| `Exporters.Exporter.Export` | otel/exporter.go:187-215 | enqueues the spans that are there as long as there is room and drops the rest |
| `Exporters.Exporter.Receive` | otel/exporter.go:252-256 | takes the oldest snapshot and sends the batch once it is full |
| `Exporters.Exporter.Drain` | otel/exporter.go:237-250 | undisturbed, the drain sends batch and queue in full batches, the last one possibly shorter |
| `Unescaping.ParseNumericEntity` | extract/unescape.go:81-131 | both digit loops compute the number of at most six hexadecimal or seven decimal digits, with refusal and replacement as the source does |
| `Unescaping.AppendUnescape` | extract/unescape.go:26-55 | the searching loop appends exactly the byte-at-a-time decoding |
| `Unescaping.Unescape` | extract/unescape.go:14-22 | the shortcut without an ampersand gives the same |
| `Unescaping.EntityShrinks` | extract/unescape.go:69-347 | what an entity stands for is a scalar value whose encoding is shorter than the entity and reads back as that value |
| `Unescaping.DecodedLength` | extract/unescape.go:26-55 | the result is never longer, is shorter if and only if an entity occurs, and is the same text otherwise |
| `Unescaping.DecodedValid` | extract/unescape.go:26-55 | well-formed UTF-8 stays well-formed |
| `EntityMeanings.NamedExactly` | extract/unescape.go:133-347 | a name stands for a code point if and only if the pair is one of the 103 listed |
| `EntityMeanings.NamedEntityDecodes` | extract/unescape.go:26-79 | each listed name between ampersand and semicolon decodes to its code point, whatever follows |
| `EntityMeanings.DecimalEntityDecodes` | extract/unescape.go:81-131 | the decimal digits of every scalar value decode to it |
| `EntityMeanings.HexEntityDecodes` | extract/unescape.go:81-131 | so do its hexadecimal digits, in either letter case |
| `EntityMeanings.EntityAtIff` | extract/unescape.go:35-52 | an ampersand starts an entity if and only if a semicolon follows within twelve bytes and what lies between stands for a code point; otherwise it is kept |
| `EntityMeanings.EscapedInverse` | extract/unescape.go:26-55 | decoding gives back every byte string whose markup bytes were replaced by their entities |
| `Utf8.RuneCanonical` | extract/unescape.go:44-46 | well-formed characters are exactly what the encoder writes |
| `TraceContexts.FormatTraceParent` | otel/w3c.go:204-234 | the 55-character buffer holds version, IDs and flags, and an invalid context gives the empty text |
| `TraceContexts.TraceParentRoundTrip` | otel/w3c.go:204-286 | parsing a formatted context gives back both IDs and all flag bits |
| `TraceContexts.ParsedSurvives` | otel/w3c.go:242-286 | what is parsed from any header survives formatting and parsing |
| `TraceContexts.Carrier.Inject` | otel/carrier.go:88-108 | writes the parent text, and the state if there is one, for a valid span only |
| `TraceContexts.Carrier.Extract` | otel/carrier.go:111-131 | reads the parent text and adds a state that is not empty |
| `TraceContexts.HopExact` | otel/carrier.go:88-131 | what arrives over a carrier is the context sent, with an old state of the carrier if it had none |
| `TraceContexts.HopKeepsIff` | otel/carrier.go:88-131 | a hop keeps the context if and only if it has a state or the carrier has none |
| `TraceContexts.RatioMonotone` | otel/tracer.go:40-62 | a larger ratio samples every trace a smaller one does, with the exact sets at 0 and 1 |
| `TraceContexts.RatioExact` | otel/tracer.go:40-62 | between 0 and 1 the root traces sampled are exactly those whose last eight bytes, as a number, are at most the ratio of two to the power 64 |
| `TraceContexts.RootStart` | otel/tracer.go:169-185 | a span without a valid parent is valid under the new trace ID, keeps the state, and is sampled as the sampler says |
| `TraceContexts.RatioZeroSamples` | otel/tracer.go:40-62 | trace IDs that ratio 0 samples |
| `TraceContexts.AcceptedTextIff` | otel/w3c.go:242-286 | a header is accepted if and only if, trimmed, lengths, hyphens and hexadecimal fields fit, the IDs are not zero and the version is not "ff" |
| `TraceContexts.VersionIgnored` | otel/w3c.go:253-261 | texts that differ only in a version other than "00" and "ff" parse to the same context |
| `TraceContexts.VersionNeedNotBeHex` | otel/w3c.go:253-261 | the text of any valid context with "zz" as its version is accepted |
| `TraceContexts.StaleStateArrives` | otel/carrier.go:105-128 | a context without a state arrives with the one left in the carrier |
| `TraceContexts.ChainKeepsTraceIff` | otel/tracer.go:152-192 | trace ID, sampled bit and tracestate stay those of the root all along a chain of starts and hops if and only if every hop leaves from an active span |
| `TraceContexts.TwoHopsLoseTrace` | otel/carrier.go:93-96 | two hops in a row end without any context |
| `TraceContexts.FlagsAlongChain` | otel/tracer.go:178-183 | along such a chain, of the flags only the sampled bit survives the first link |

## Left out

- Cryptography, base64, JSON text and hexadecimal decoding libraries are function parameters or written from their
  standards; base64 is assumed to decode what it encoded.
- The varint library is not part of this model; it is written from section 16 of RFC 9000, for values below 2^62.
- Components.ParseComponentIdentifier: the untouched raw text that the source keeps beside the parsed component is not modelled.
- SignatureBase.BuildSignatureBase: values derived from the URL are an abstract function of the message, and header names are taken as unique lower-case keys.
- SignatureBase.BaseInjective: allows line breaks in one covered value only; the exact condition beyond that is stated for two dictionary keys (`KeyCollisionIff`).
- SignVerify.VerifyMessage: clock arithmetic is unbounded; the nil checks on context and verifier, and the label stored in the returned parameters, are not modelled.
- SignVerify.LiveMessage.SignInPlace: the creation time is given; the default of the current time is left to the caller.
- SignVerify.EverySignatureVerifies: requires labels, parameters and identifiers free of the delimiters the scanners use, signature headers whose quotes, parentheses and byte sequences are closed (`BalancedHeaders`), and that the message's own signature headers are not covered; it speaks of the first signature under a label, and `TakenLabel` of the others.
- Text.Lower: lower-casing is for ASCII; other letters are left alone.
- Text.Split: lengths and offsets of header and packet text count characters, where the source counts bytes; the separators are ASCII, so the pieces are the same.
- Connectors.RunInv: `WaitForConnection`, `Send`, endpoint lists, back-off times and the cipher are not modelled; a dial may succeed or fail at will.
- Reassembly.CompletionIff: the JSON parser is a parameter; handlers behind the dispatch are not modelled.
- BinaryTrees.Deconstruct: raw JSON messages inside a tree are opaque leaves.
- BinaryDelivery.Emit: marshalling errors, write errors and emissions that overlap are not modelled.
- BinaryDelivery.BinaryEventDelivered: of the JSON library it is assumed that the list sent is written in brackets and read back with its numbers as floats (`ReadsBack`), and of the namespace that it starts with a slash and has no comma.
- BinaryTrees.WireRoundTrip: floats are real numbers, so no digit of a large integer is lost.
- Capsules.MaxStreamsRoundTrip: the data limit capsules have the same form without an upper bound and are not repeated.
- Streams.ExactlyOneHeader: a raw write appends its bytes in one step, as the transport's own lock makes it.
- SessionClosing.NeverPanics: the accessors that take the read lock only to copy the close error are not modelled.
- Transfer.CopyChunk: the destination is an array with room for the chunk; `NilMeansCopied` uses a growing destination. The reads are a given list, and a chunk whose reads run out counts as not successful; that the source goes on reading is not modelled.
- Exporters.SpansConserved: the HTTP request and its outcome, the span pool and the timer are not modelled.
- TraceContexts.AcceptedTextIff: the hexadecimal decoder is a library that is not part of this model; it is taken to accept upper-case digits too.
- TraceContexts.RatioMonotone: here and in `RatioExact` the threshold is computed over real numbers, not 64-bit floating point.
- TraceContexts.ChainKeepsTraceIff: parents are span contexts of spans that have not ended; random IDs are parameters.
- Liveness and fairness of the concurrent parts.
- Socket.IO dialing, heartbeat and reconnection, and the connection state machine.
- QUIC, QPACK, HTTP/3 settings and handshakes, and URL parsing of WebTransport dialing.
- gRPC, GeoIP, cookies, tunnels, SSH client and agent, SOCKS5, proof-of-possession tokens and code generation, which are thin clients or wrappers.
- Socket framing, dispatcher, processor and session, and the extraction searches, which would add only easy members.
