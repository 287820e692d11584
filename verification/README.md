# SMS gateway: a verified model

The gateway is ESP32 firmware that drives a USB modem. It promises never to send an SMS twice by
guessing, never to lose one it received, and never to garble text. This project models the code
behind these promises in Dafny 4.11 and proves them. `dafny verify dfyconfig.toml` checks it.

| modules | what they model |
|---|---|
| `Journal`, `StoreQueries`, `SlotMap`, `SmsStore` | the durable store: a finite map of records, and the 128 slots that refine it |
| `Outbound`, `SendingRuns`, `SmsService`, `OutboundCodec`, `Cmgs`, `Exchange` | sending: a machine of single durable writes and modem hand-overs, the service functions as runs of it, and one hand-over in both directions |
| `DeliverPdu`, `Inbound`, `Reassembly`, `ArrivalOrder`, `InboundService` | receiving: the PDU, parts, reassembly, repeats, and the modem's copy |
| `Replay`, `ReplayService` | at-least-once publication over MQTT |
| `Gateway`, `Joint`, `Device`, `EndToEnd` | all of it together: over whole histories, as classes over one store, and from a text at one end to the record at the other |
| `Idempotency`, `IdempotencyStore`, `IdempotentSend`, `SendHandler` | the 32-slot ledger and the requests that use it |
| `Bytes`, `Septets`, `Utf8`, `Gsm7`, `Ucs2`, `Address`, `UserData`, `Split`, `Submit`, `SubmitTheorems`, `Acceptance` | the codec of 3GPP TS 23.038 and TS 23.040 |
| `AtParser`, `AtProtocol`, `AtEngine` | the AT command channel |
| `SemVer`, `SemVerText`, `OtaVersion`, `Ota` | firmware updates |
| `RateLimiter` | the token bucket |

How the code is represented:

- Functions that update objects or loop over buffers are methods of classes; each is proved
  against a function on values, and the promises are proved about that function or about the
  machine whose runs the methods perform.
- Flash writes can fail. A fault says which step of a store call failed and whether the flash took
  it all the same. Power loss inside a call is the call failing at that step with nothing after it.
- A public call is one atomic step, as the mutexes make it; the sending and publishing tasks are
  split into one step per durable write or hand-over, so everything else may come in between.
- Octets are numbers below 256, segment masks are sets, shifts and masks are division and
  remainder, or bitwise functions where bits are the point. C strings are their octets before
  the terminator.
- Fewer than 2^32 record ids and ledger sequence numbers are used. SHA-256 values stand for their
  input; a digest is a parameter where its value matters. MQTT packet ids are fresh.
- Memory, the bytes that come from the modem, the network and the clock are parameters.

Four promises hold under an exact condition only.

- A multipart message is stored exactly once in every arrival order if and only if all its parts
  have the same encoding (`ArrivalOrder.ExactlyOneReceived`).
- One record per idempotency key holds as long as no key is reserved anew while an earlier instance
  of the same request is still trying to finalize it (`IdempotentSend.GuardIsExact`). A finalization
  that is stored but reported as failed can lead there. A save that reports failure but stored its
  record is not counted (`IdempotentSend.HiddenSaveDuplicates`).
- A hand-over that goes well on the wire gives the service its reference if and only if the line
  parser holds nothing that gets in the way (`Exchange.HandOverAnswers`).
- The documentation (docs/sms-subsystem.md:15) says that compressed messages and messages with
  national language shift tables are kept as raw PDUs. The code keeps an unsupported message if and
  only if it is 8-bit (`DeliverPdu.UnsupportedIsPreservedIffEightBit`); the model follows the code.

## Model

| member | source | states |
|---|---|---|
| Outbound.SubmittedAtMostOncePerDecision | components/sms_service/sms_service.c:727-885 | over every run of enqueues, sends, failing saves, lost modem answers, power losses at any point, reboots, delivery reports, deletions and retries, a segment is handed to the modem at most 1 + (operator retries of its message) times |
| Outbound.NeverAgainOnceSent | components/sms_service/sms_service.c:809-817 | once the sent bit of a segment is in flash, no continuation of the run hands that segment to the modem again |
| Outbound.ReachableRecordsOk | components/sms_service/sms_service.c:424-472 | in every reachable record the delivered and failed bits lie within the sent bits, SENT means every segment was sent, DELIVERED means every segment was confirmed |
| Outbound.DeliveredStays | components/sms_service/sms_service.c:447-457 | DELIVERED is left only by deletion or pruning |
| Outbound.RemovedOnlyWhenAskedOrPrunable | components/sms_store/sms_store.c:219-258 | a record disappears only through a call that asks for it, or as a prunable record of a full journal |
| Outbound.OnlyEnqueueCreates | components/sms_service/sms_service.c:1065-1079 | a new outbound record comes from an enqueue call and holds what that call was given |
| Outbound.ContentIsWhatWasAsked | components/sms_service/sms_service.c:1065-1079 | in every reachable state, recipient, text, reference and segment count of an outbound record are those of some enqueue call |
| Outbound.StepKeeps | components/sms_service/sms_service.c:751-885 | every step keeps the invariant behind these results: the record in RAM is the one in flash, and only queued or held segments may still be sent |
| Outbound.RunKeeps | components/sms_service/sms_service.c:920-961 | every run keeps that invariant |
| SmsService.Service.SendSegment | components/sms_service/sms_service.c:751-818 | performs exactly the steps that flash, memory and modem call for; the answer and everything said to the modem are what the engine makes of this segment and of the bytes that come from the modem; it succeeds if and only if both saves take effect, there is memory and a modem, and these bytes carry a reference; then the stored record has the sent bit and exactly that reference for this segment and everything else of it as before |
| SmsService.Service.HandOver | components/sms_service/sms_service.c:778-818 | from the mark in flash: one hand-over of the PDU of this segment, with the answer and the channel state that the bytes of the modem determine; on success the reference of the answer is in the stored record |
| SmsService.Service.Withdraw | components/sms_service/sms_service.c:770-807 | before anything reached the modem: without memory the segment is queued again, without a modem the record becomes UNCERTAIN |
| SmsService.Service.Settle | components/sms_service/sms_service.c:796-817 | a +CMGS reference confirms the segment and is stored with it, and success is exactly that the save took effect; anything else leaves the record UNCERTAIN |
| Outbound.SentIsReported | components/sms_service/sms_service.c:424-472 | sending and reporting together: from the confirmation with a reference on, whatever happens in between, a delivery report for that reference changes exactly that segment of that record, if no newer record for the recipient and no lower segment carries the reference too |
| Outbound.ReportFindsSegment | components/sms_store/sms_store.c:515-559 | a report marks exactly the segment that carries its reference, field by field, and leaves every other record alone |
| Outbound.ReferenceStays | components/sms_service/sms_service.c:809-817 | over every run the reference under which a segment was sent stays with it as long as the record is there |
| Outbound.ConfirmedMeans | components/sms_service/sms_service.c:809-812 | a confirmation sets one sent bit and one reference and clears the marker |
| Outbound.MarkedMeans | components/sms_service/sms_service.c:759-761 | before a hand-over the record shows SENDING, the number of the segment and one more attempt, which wraps after 255 |
| SmsService.Service.PickMessage | components/sms_service/sms_service.c:832-867 | nothing is picked only if nothing is queued or the oldest queued message does not encode to its stored count, which is then failed; else the oldest queued message is worked on |
| SmsService.Service.ProcessOneOutbound | components/sms_service/sms_service.c:820-885 | takes the oldest queued message and sends its unsent segments in order up to the first that is not confirmed; exactly those are handed over, once each; every answer and everything said to the modem is determined by the encoded segments and the bytes of the modem; if all are confirmed the record is SENT with every sent bit |
| SmsService.Service.SendAll | components/sms_service/sms_service.c:863-884 | the loop over the segments performs the run of the sending machine that its surroundings determine, says to the modem what segment k calls for in round k, and counts every hand-over |
| SendingRuns.ModemGets | components/sms_service/sms_service.c:751-885 | what the loop writes to the modem are PDUs of unsent segments, each under its own number, at most once and in order, among them every segment the modem has answered |
| SendingRuns.ModemGetsAll | components/sms_service/sms_service.c:863-873 | if every segment is sent or answered, the modem got exactly the PDUs of those that were not sent, in order |
| SendingRuns.BehindSent | components/sms_service/sms_service.c:863-872 | behind n segments exactly these and the earlier sent ones carry the sent bit, and the content is unchanged |
| SmsService.Service.FinishMessage | components/sms_service/sms_service.c:875-884 | SENT is stored if every segment is sent and the save is not disturbed, and never otherwise |
| SmsService.Service.MarkInterruptedSendsUncertain | components/sms_service/sms_service.c:727-749 | if the listing works, every record left in SENDING is UNCERTAIN afterwards unless its own save failed, no other record changes, and with undisturbed saves no outbound record is in SENDING |
| SmsService.Service.MarkNext | components/sms_service/sms_service.c:734-747 | one round visits the record with the next higher id, with the fault of that record, so the loop ends and skips none |
| SmsService.Service.VisitRecord | components/sms_service/sms_service.c:740-745 | a visited record in SENDING becomes UNCERTAIN unless its save fails; others stay as they are |
| SmsService.Service.ProcessStatusReport | components/sms_service/sms_service.c:424-472 | a delivery report changes the newest record that carries its reference, if there is one, and fails exactly if there is none or its save fails |
| Outbound.ReportsMean | components/sms_service/sms_service.c:448-461 | what any number of delivery reports amount to: the delivered and failed bits are exactly the segments so reported, DELIVERED means all of them are delivered, FAILED that one failed and not all are delivered, and nothing else changes |
| Outbound.ReportsInAnyOrder | components/sms_service/sms_service.c:448-461 | the order of the reports and their repetition make no difference |
| SmsService.Service.Send | components/sms_service/sms_service.c:1065-1086 | a queued message is in the journal exactly as given, under its new id |
| SmsService.Service.DeleteMessage | components/sms_service/sms_service.c:1103-1118 | queued and sending messages are refused without any change |
| SmsService.Service.RetryUncertain | components/sms_service/sms_service.c:1120-1141 | takes effect exactly for outbound records in UNCERTAIN |
| SmsService.Service.Promise | components/sms_service/sms_service.c:727-885 | whatever methods were called in whatever order with whatever faults: payload writes of a segment are at most its hand-overs, and these at most 1 + operator retries |
| SmsService.Service.SendText | components/sms_service/sms_service.c:1036-1088 | a text of 4096 octets or more, or one that does not encode, is refused without a trace; else exactly the message that was asked for is queued, with its segment count, and with a free slot and no fault that succeeds |
| Cmgs.ExecuteCmgs | components/sms_service/sms_service.c:767-797 | answer and channel are those of the specified hand-over, from the state the channel is in: the reference that the bytes of the modem carry if they end the transaction with OK |
| Cmgs.HandOverGuarantees | components/sms_service/sms_service.c:767-797 | whatever the modem sends, one hand-over says nothing but AT+CMGS= with the length of the segment in plain digits and its PDU with the closing Ctrl-Z, the PDU at most once, and there is a reference only if the PDU was written before the final OK |
| Exchange.HandOverAnswers | components/sms_service/sms_service.c:776-812 | the other direction: the modem shows its prompt, takes the PDU and answers +CMGS: r and OK, in any fragments; then the service gets r, for every r from 0 to 255, if and only if the parser does not hold an overlong line, or a stale line that is final, takes the next line along, or carries another reference |
| Exchange.RestIsHarmless | components/at_engine/at_engine.c:440-446 | a parser at rest holds none of these |
| Cmgs.DecimalShows | components/sms_service/sms_service.c:767-768 | the digits written for a number are canonical and show that number |
| Cmgs.ReferenceExactly | components/sms_service/sms_service.c:179-201 | digits behind +CMGS: and spaces are the reference if and only if they show at most 255, whatever follows them |
| Cmgs.NoReference | components/sms_service/sms_service.c:179-201 | without digits there is none |
| SubmitTheorems.LengthIsWhatFollows | components/sms_codec/sms_pdu.c:411-558 | the length announced for a segment is the number of octets of its PDU behind the empty service centre field |
| Cmgs.ParseCmgsReference | components/sms_service/sms_service.c:179-201 | the reference of the first line that has one |
| OutboundCodec.QueuedNeverFailsToEncode | components/sms_service/sms_service.c:842-861 | in every run whose enqueue calls passed the encoder, every outbound record still encodes, into as many slots as its stored segment count, to exactly that count |
| OutboundCodec.NoPickFails | components/sms_service/sms_service.c:842-861 | in such runs no message is ever failed for not encoding |
| Reassembly.NothingLost | components/sms_service/sms_service.c:227-422 | whatever fails and wherever power is lost while a message is filed: every part that was stored is still there or inside a stored received message of its sender, every protected received message is still there, success means the arrived text is in flash, and the invariant of the inbound side holds |
| Reassembly.CutShort | components/sms_service/sms_service.c:301-307 | power loss between two deletions of parts is the same as the later deletions failing, so the statement above covers it |
| Reassembly.PartOccurs | components/sms_service/sms_service.c:254-278 | the text of every gathered part lies inside the joined text |
| Reassembly.DeletePartsHeld | components/sms_service/sms_service.c:301-307 | deleting the parts of a message that is stored as a whole loses nothing |
| Reassembly.AssembleHolds | components/sms_service/sms_service.c:227-312 | reassembly with any faults keeps every part or its text inside a received message |
| Reassembly.FilePartKeeps | components/sms_service/sms_service.c:347-377 | filing a part leaves other parts and received messages alone; success means it is stored and its message has at most 16 parts |
| Inbound.SaveReceivedKeeps | components/sms_service/sms_service.c:280-296 | saving a message whose identity was looked for and not found keeps received identities pairwise distinct |
| Inbound.SaveRawKeeps | components/sms_service/sms_service.c:474-512 | saving a raw PDU that was looked for and not found keeps raw PDUs pairwise distinct |
| Inbound.SavePartKeeps | components/sms_store/sms_store.c:317-324 | a part of a message of more than 16 parts is never stored; other parts keep the invariant |
| Inbound.RewriteKeeps | components/sms_service/sms_service.c:358-369 | rewriting a part that arrived again with another text keeps the invariant |
| Inbound.OthersKeep | components/sms_store/sms_store.c:312-358 | pruning, deletion and saves of other records keep the invariant of the inbound side |
| ArrivalOrder.ExactlyOneReceived | components/sms_service/sms_service.c:227-422 | for the parts of one message (no clashing reference, text below 4096 octets) and any journal whose free slots and prunable records together make room for them and the result: every order with repeats leaves exactly one received message, with the parts joined by number, if and only if all parts have the same encoding |
| ArrivalOrder.OnceInAnyOrder | components/sms_service/sms_service.c:227-422 | the direction that gives exactly one received message; a full journal makes room by pruning, and every record that is not prunable stays |
| ArrivalOrder.TwiceIfMixed | components/sms_service/sms_service.c:234-240 | the failing family: for any two parts with different encodings, repeating the message with the other one last stores the same text of the same sender twice, because the encoding of the last part is part of the identity |
| ArrivalOrder.MixedReceivedTwice | components/sms_service/sms_service.c:234-240 | a concrete message and arrival order for which it is stored twice |
| EndToEnd.MixedPdusReceivedTwice | components/sms_service/sms_service.c:514-565 | the two PDUs of that message, in the default alphabet and in UCS-2: arriving as 2, 1, 1, 2 they leave two received messages with the same text in an empty journal |
| ArrivalOrder.ContentInAnyOrder | components/sms_service/sms_service.c:234-278 | mixed or not, at least one message results, and text, sender and timestamp do not depend on the order |
| ArrivalOrder.ArrivalShows | components/sms_service/sms_service.c:314-404 | one arrival collects its part, or completes the message and clears its parts, and touches nothing else |
| ArrivalOrder.GatherCollected | components/sms_service/sms_service.c:254-278 | gathering succeeds exactly if no part is missing, and joins the texts by number |
| InboundService.Inbox.GatherParts | components/sms_service/sms_service.c:251-278 | the gathering loop finds the parts in order, or the error of the first that is missing, unreadable or too long; every part found has a place in the 16-entry array |
| InboundService.FoundPartFits | components/sms_service/sms_service.c:252-252 | no stored part has a number above 16, so the array of part ids is never overrun |
| InboundService.Inbox.DeletePartials | components/sms_service/sms_service.c:301-307 | the deleting loop |
| InboundService.Inbox.AssembleIfComplete | components/sms_service/sms_service.c:227-312 | reassembly does to the slots what its specification does to the journal |
| InboundService.Inbox.FileOnePart | components/sms_service/sms_service.c:347-377 | keeps, rewrites or stores a part |
| InboundService.Inbox.PersistDeliver | components/sms_service/sms_service.c:314-422 | filing a message does to the slots what its specification does to the journal; a message in one part is then stored with its sender, encoding, time and text |
| Reassembly.SingleIsStored | components/sms_service/sms_service.c:325-422 | after success there is a received message with the sender, encoding, time and text of the arrival; a known one changes nothing, old records stay, and with a free slot and no fault it succeeds |
| Reassembly.TwoArrivalsAreTwo | components/sms_service/sms_service.c:400-418 | two messages in one part that differ in sender, encoding, time or text are two records, unless the first was pruned |
| Reassembly.PartIsStored | components/sms_service/sms_service.c:347-377 | a part that is new or came with another text is stored with everything that came with it; a repeat changes nothing |
| Reassembly.RawIsStored | components/sms_service/sms_service.c:495-505 | a new raw PDU is stored with its sender and time |
| Reassembly.AssembledFields | components/sms_service/sms_service.c:254-296 | what a reassembled message is stored as |
| InboundService.Inbox.PersistUnsupported | components/sms_service/sms_service.c:474-512 | keeping a raw PDU does to the slots what its specification does to the journal |
| Reassembly.RawKeptOnce | components/sms_service/sms_service.c:474-512 | a raw PDU is stored exactly once after success, however often it arrives, and no received message or part is lost for it |
| InboundService.Inbox.ProcessDeliverPdu | components/sms_service/sms_service.c:514-565 | from the PDU text on: the copy on the modem is deleted exactly when filing succeeded, and then the text (for a message in one part with its sender, encoding and time) or the raw PDU, once, is in flash; no earlier part or protected message was lost for it |
| DeliverPdu.DeliverDecode | components/sms_codec/sms_pdu.c:871-918 | the decoder with its cursor reads the frame of section 9.2.2.1 of 3GPP TS 23.040 and the user data in it, with every error result |
| DeliverPdu.StampShows | components/sms_codec/sms_pdu.c:713-751 | the text of the time stamp shows the date, time and zone that the semi-octets hold, with the century by the year |
| DeliverPdu.NameIsOrigin | components/sms_codec/sms_pdu.c:142-199 | an alphanumeric sender of up to eleven septets is shown as the text of these septets |
| UserData.DcsByRange | components/sms_codec/sms_pdu.c:635-654 | the encoding of every coding scheme, by range |
| UserData.SecondElementCounts | components/sms_codec/sms_pdu.c:656-696 | of two concatenation elements the second counts |
| DeliverPdu.FrameRoundTrip | components/sms_codec/sms_pdu.c:889-917 | every SMS-DELIVER built from an originating address that decodes, a valid time, a coding scheme and any user data is read back as exactly these |
| DeliverPdu.PduRoundTrip | components/sms_codec/sms_pdu.c:877-893 | and so is its hexadecimal text behind any service centre address |
| DeliverPdu.FieldsAreRead | components/sms_codec/sms_pdu.c:871-918 | both together: every field of a proper PDU is read back from its text |
| DeliverPdu.DecodedDataFacts | components/sms_codec/sms_pdu.c:753-851 | whatever the user data holds: decoded text is below 2048 octets and has a text encoding, part numbers lie within their totals |
| DeliverPdu.TextIsWellDecoded | components/sms_service/sms_service.c:514-550 | a PDU that is filed as text has what the inbound half relies on |
| DeliverPdu.BinaryFits | components/sms_service/sms_service.c:474-512 | a PDU that is kept raw fits its field, so it is never truncated |
| DeliverPdu.KeptRawExactly | components/sms_service/sms_service.c:523-543 | a PDU is kept raw if and only if its frame is sound and its coding scheme says 8-bit data |
| DeliverPdu.UnsupportedIsPreservedIffEightBit | components/sms_service/sms_service.c:523-543 | of the messages the decoder calls unsupported exactly the 8-bit ones are preserved |
| DeliverPdu.CompressedIsNotPreserved | components/sms_codec/sms_pdu.c:635-654 | no PDU with a compressed coding scheme (0x20 to 0x3F) is preserved, whatever else it holds, contrary to docs/sms-subsystem.md:15 |
| DeliverPdu.ShiftedIsNotPreserved | components/sms_codec/sms_pdu.c:698-711 | nor is any PDU with text whose header selects a national language table |
| DeliverPdu.ShiftedExampleIsNotPreserved | components/sms_codec/sms_pdu.c:698-711 | two such PDUs, with the single shift and with the locking shift element |
| InboundService.Inbox.FindPartial | components/sms_store/sms_store.c:426-455 | the search finds the one record with that sender, reference, total and number |
| InboundService.Inbox.FindIdentity | components/sms_store/sms_store.c:457-487 | the search finds a received message with that sender, time, encoding and text exactly if there is one |
| Gateway.GatewayPromises | components/sms_service/sms_service.c:920-961 | over every history of a new gateway, sending and arriving PDUs of every kind interleaved: the hand-over bound holds, no two received messages share an identity, no part or raw PDU is stored twice and no part is numbered above 16 |
| Gateway.PersistIsRun | components/sms_service/sms_service.c:314-422 | filing a message is a run of inbound saves and part deletions of the same machine |
| Gateway.ArrivalIsRun | components/sms_service/sms_service.c:514-565 | so is the arrival of any PDU, and it keeps the invariant of the inbound side |
| Gateway.StepSame | components/sms_service/sms_service.c:751-885 | no other step adds or changes an inbound record |
| Gateway.SendingKeepsInbound | components/sms_service/sms_service.c:751-885 | the invariant of the inbound side survives every step of the sending side |
| SmsStore.Store.FindIdSlot | components/sms_store/sms_store.c:187-201 | finds the slot of an id exactly if it is stored |
| SmsStore.Store.FindEmptySlot | components/sms_store/sms_store.c:203-217 | finds a free slot exactly if fewer than 128 records are stored |
| SmsStore.Store.FindPrunableSlot | components/sms_store/sms_store.c:240-258 | finds the prunable record with the smallest id |
| SmsStore.Store.WriteSlot | components/sms_store/sms_store.c:175-185 | replaces one record, or under a failing write perhaps nothing |
| SmsStore.Store.EraseSlot | components/sms_store/sms_store.c:260-267 | removes one record, or under a failing erase perhaps nothing |
| SmsStore.Store.InsertAt | components/sms_store/sms_store.c:269-285 | a new record takes the next id of the durable allocator |
| SmsStore.Store.Save | components/sms_store/sms_store.c:312-358 | the slot array refines the journal: saving is the journal operation of that name, with every fault |
| SmsStore.Store.Get | components/sms_store/sms_store.c:360-373 | the record with that id |
| SmsStore.Store.Delete | components/sms_store/sms_store.c:375-393 | deleting is the journal operation of that name |
| SmsStore.Store.SetReplayWatermark | components/sms_store/sms_store.c:617-628 | changes the protection and nothing else |
| SmsStore.Store.List | components/sms_store/sms_store.c:575-615 | returns exactly the page: the smallest ids above the given one, ascending |
| SmsStore.Store.NextRecord | components/sms_service/sms_service.c:735-744 | the record with the next higher id, if there is one |
| SmsStore.Store.FindStatus | components/sms_store/sms_store.c:395-424 | the record with the smallest id among those with the status |
| SmsStore.Store.FindFirst | components/sms_store/sms_store.c:426-513 | the scans of find_partial and its siblings: a match exactly if one is stored |
| SmsStore.Store.FindOutboundReference | components/sms_store/sms_store.c:515-559 | the newest record with that recipient and reference, and its first segment that carries it |
| StoreQueries.InsertionSort | components/sms_store/sms_store.c:561-573 | the first elements of the array become their sorted form |
| StoreQueries.SortedIsSorted | components/sms_store/sms_store.c:561-573 | which is ascending by id and a permutation |
| StoreQueries.PickedIsPage | components/sms_store/sms_store.c:575-615 | any ascending selection with nothing smaller left out is the page |
| SmsStore.Offer | components/sms_store/sms_store.c:595-607 | one record offered to the selection: appended, or in place of the largest kept so far |
| Journal.SaveNewEffect | components/sms_store/sms_store.c:312-358 | a new record gets an id above all stored ones and changes no other record, except that a full journal loses its smallest prunable id |
| Journal.SaveExistingEffect | components/sms_store/sms_store.c:341-346 | rewriting a record touches no other record and prunes nothing |
| Journal.ProtectedNeverPruned | components/sms_store/sms_store.c:219-238 | partial, queued, sending, uncertain, report-awaiting and protected received records are never removed by a save |
| Journal.PrunableExactly | components/sms_store/sms_store.c:219-238 | delivered, failed and unsupported records, sent ones without a report to wait for, and received ones that are published or need not be |
| Journal.SavedIfRoom | components/sms_store/sms_store.c:312-358 | a record that fits its fields is saved if and only if one of 128 slots is free or something may be pruned |
| Journal.RefusedIfTooLong | components/sms_store/sms_store.c:312-330 | one that does not fit is refused and nothing changes |
| Journal.PageAscends | components/sms_store/sms_store.c:575-615 | a page is strictly ascending above its start and holds stored records |
| Journal.PagesContinue | components/sms_service/sms_service.c:734-747 | reading on from the last id of a page continues it: no record is skipped or repeated |
| Journal.ShortPageIsAll | components/sms_store/sms_store.c:575-615 | a page shorter than asked for holds every record above its start |
| Journal.WholeJournalInOnePage | components/sms_store/sms_store.c:575-615 | one page of more than 128 records is the whole journal above its start, in order |
| Replay.CursorNeverPassesUnacknowledged | components/mqtt_service/mqtt_service.c:570-685 | over every run with disconnects, timeouts, lost acknowledgements, failing cursor writes, power losses and any other use of the journal, the durable cursor only grows and every received message at or below it was acknowledged by the broker |
| Replay.PrunableIsAcknowledged | components/sms_store/sms_store.c:219-238 | while protection is on, a received message that may be pruned has been acknowledged |
| Replay.StepKeeps | components/mqtt_service/mqtt_service.c:743-775 | every step keeps the invariant: the message in flight is the next received one above the cursor, and queued acknowledgements are real |
| Gateway.GatewayIsRely | components/mqtt_service/mqtt_service.c:609-638 | every step of the gateway is one the replay machine allows for: received messages appear only under new ids |
| Gateway.ReceivedLeavesOnlyAcknowledged | components/sms_store/sms_store.c:219-258 | one step: while protection is on, a received message leaves the journal only by a delete call or after it was acknowledged |
| Joint.ReceivedIsNeverLostUnacknowledged | components/sms_store/sms_store.c:219-258 | over every joint run of sending, receiving, publishing and power losses: a message that was received and is gone was removed by a delete call, was acknowledged by the broker, or left while protection was off |
| Joint.ProtectedIsNeverLost | components/mqtt_service/mqtt_service.c:926-926 | and if MQTT is never switched off, only by a delete call or acknowledged |
| Joint.StepKeeps | components/mqtt_service/mqtt_service.c:570-685 | every step of either side keeps both invariants over the one journal |
| Device.Firmware.Promise | components/sms_service/sms_service.c:727-961 | the classes over one store: whatever methods of the device were called with whatever faults, the hand-over bound holds, received identities, parts and raw PDUs are distinct, and what pruning may take was acknowledged |
| Device.Firmware.SwitchOn | components/sms_service/sms_service.c:920-923 | power on and the walk: no record appears or disappears, and interrupted sends become UNCERTAIN |
| Device.Firmware.Work | components/sms_service/sms_service.c:820-885 | one round of sending keeps the promises of receiving and publishing |
| Device.Firmware.Receive | components/sms_service/sms_service.c:514-565 | an arriving PDU keeps the promises of sending and publishing |
| Device.Firmware.Publish | components/mqtt_service/mqtt_service.c:609-685 | a round of publishing, with or without a timeout, finds the oldest message that waits |
| Device.Firmware.Acknowledge | components/mqtt_service/mqtt_service.c:650-667 | an acknowledgement moves the cursor and keeps the promises of sending and receiving |
| Device.Firmware.SwitchOff | components/sms_service/sms_service.c:727-749 | power loss hits sending and publishing together and keeps every promise |
| ReplayService.Replayer.Init | components/mqtt_service/mqtt_service.c:1000-1008 | an unreadable cursor stops the service; otherwise RAM cursor and watermark are the durable cursor |
| ReplayService.Replayer.ReplayNextInbound | components/mqtt_service/mqtt_service.c:609-638 | if connected with nothing in flight: the smallest received id above the cursor is published exactly if there is one, every record up to it can be read and the client takes the packet; 128 rounds suffice |
| ReplayService.Replayer.PublishInboundReplay | components/mqtt_service/mqtt_service.c:582-607 | notes the message and its packet only if the client took it |
| ReplayService.Replayer.InflightClear | components/mqtt_service/mqtt_service.c:640-648 | forgets the attempt and nothing durable |
| ReplayService.Replayer.ReplayWatchdog | components/mqtt_service/mqtt_service.c:669-685 | after a timeout, and only then, the publication is given up and the same scan starts again; the cursor stays |
| ReplayService.Replayer.OnPublished | components/mqtt_service/mqtt_service.c:762-775 | exactly the message in flight is queued for acknowledgement, and only for its own packet |
| ReplayService.Replayer.ReplayCursorStore | components/mqtt_service/mqtt_service.c:570-580 | flash first, then RAM, then the watermark; a failed write leaves RAM and watermark, whether or not the flash took it |
| ReplayService.Replayer.HandleReplayAck | components/mqtt_service/mqtt_service.c:650-667 | only an acknowledgement of the message in flight moves the cursor, and to that message, if it can be stored; then the scan for the next one follows; any other acknowledgement is only taken from the queue |
| ReplayService.Replayer.Reconfigure | components/mqtt_service/mqtt_service.c:926-926 | the watermark follows the configuration |
| ReplayService.Replayer.Promise | components/mqtt_service/mqtt_service.c:570-685 | whatever methods were called and interrupted, a message that pruning may take has been acknowledged |
| IdempotentSend.AtMostOneRecordPerKey | components/api_server/api_server.c:625-675 | for every interleaving of requests, faults and power losses in which no key is reserved anew for a request of which an earlier instance is still trying to finalize it: at most one record per key while the key is retained, not counting records that failed saves left behind, and a replay with a nonzero id names exactly that record |
| IdempotentSend.ReplayIsTheSameRequest | components/api_idempotency/api_idempotency.c:179-184 | over every run, guarded or not: a replayed id is that of a record queued for the same request, and a conflict names one queued for another |
| IdempotentSend.GuardIsExact | components/api_server/api_server.c:667-674 | the condition is exact: reserving a key breaks it if and only if some request can then finalize the key so that a replay names a wrong record |
| IdempotentSend.BrokenGuardMisleads | components/api_server/api_server.c:667-674 | in every reachable situation that breaks it, the next attempt of the earlier instance does so |
| IdempotentSend.StoredFinalizationIsHarmless | components/api_server/api_server.c:667-674 | a finalization that is stored but reported as failed, and then given up or repeated at once, is the same as one that was reported |
| IdempotentSend.MissMeansNone | components/api_idempotency/api_idempotency.c:146-205 | a claim that is granted finds no reported record for its key |
| IdempotentSend.HiddenSaveDuplicates | components/api_server/api_server.c:661-666 | the condition on saves is needed: a save that reports failure but stored the record leads to two records for one key |
| IdempotentSend.PhantomFinalizationMisleads | components/api_server/api_server.c:667-674 | how the condition gets broken: a finalization that is stored but reported as failed is retried after its key was forgotten and claimed again, and a replay then names a record of the forgotten request |
| IdempotentSend.StaleRetryIsReachable | components/api_server/api_server.c:667-674 | and that situation is reached from a new ledger |
| IdempotentSend.ForgottenOnlyAfterLaterClaims | components/api_idempotency/api_idempotency.c:158-199 | a key is forgotten only when it is finalized, all 32 slots are taken and every earlier claim still retained is an open reservation; with p of those, exactly 31 - p retained keys were claimed later |
| Idempotency.ClaimForgets | components/api_idempotency/api_idempotency.c:158-199 | a claim forgets nothing but the oldest finalized key of a full ledger, and never a reservation |
| Idempotency.ForgottenAfterManyClaims | components/api_idempotency/api_idempotency.c:158-199 | the same count by sequence numbers |
| IdempotencyStore.Slots.Scan | components/api_idempotency/api_idempotency.c:158-187 | one pass finds the key, or the free slot, the oldest finalized slot and the highest sequence number |
| IdempotencyStore.Slots.Claim | components/api_idempotency/api_idempotency.c:146-205 | the slots refine the ledger: claim, with every fault; a retained key is answered with a replay for the same request and a conflict for another one, and nothing changes |
| Idempotency.ClaimAnswers | components/api_idempotency/api_idempotency.c:146-205 | what a claim is answered, from the ledger before it alone: conflict, replay or miss, and when it succeeds |
| Idempotency.FinalizeExactly | components/api_idempotency/api_idempotency.c:207-235 | finalizing changes the id of one entry of the same request and nothing else |
| Idempotency.ReleaseExactly | components/api_idempotency/api_idempotency.c:237-269 | releasing removes an open reservation of the same request and nothing else |
| IdempotencyStore.Slots.Finalize | components/api_idempotency/api_idempotency.c:207-235 | finalize on slots is finalize on the ledger |
| IdempotencyStore.Slots.ReleasePending | components/api_idempotency/api_idempotency.c:237-269 | release erases a reservation of the same request and nothing else |
| IdempotencyStore.Slots.Lookup | components/api_idempotency/api_idempotency.c:114-144 | a miss exactly if the key is not retained; else replay or conflict with its id |
| IdempotencyStore.Slots.Remember | components/api_idempotency/api_idempotency.c:271-282 | success means the key is finalized with that id, and without faults it succeeds if the key is open to it or there is room; a key of another request or id is left alone |
| SendHandler.Handler.HandleSend | components/mqtt_service/mqtt_service.c:437-467 | one request from claim to reply, after any history of such requests and faults: the reply and the queueing are determined by what the claim answers and by the faults; a retained key is answered from the ledger alone, with a conflict for another request; a replayed id is the one record that was made for the key and for this request, and a message is queued only if none was made |
| SendHandler.Handler.QueueAndSettle | components/api_server/api_server.c:661-674 | the message is queued once; the key is released if that fails and finalized if it succeeds |
| SendHandler.Handler.FinalizeWithRetries | components/api_server/api_server.c:667-674 | at most three attempts, success exactly if one of them works, else the request is given up and the key stays reserved |
| SubmitTheorems.RoundTrip | components/sms_codec/sms_pdu.c:411-558 | for every recipient, text and reference the encoder accepts: decoding the user data of each segment succeeds with the right reference, total and number, and the texts joined in order are the original UTF-8 |
| SubmitTheorems.OffsetsAreClean | components/sms_codec/sms_pdu.c:350-378 | no escape pair and no surrogate pair is ever split |
| Acceptance.AcceptedExactly | components/sms_codec/sms_pdu.c:411-558 | exactly which texts are accepted, said of their code points: a valid number, and 160 septets or 70 units at most, or a split into sixteen pieces of 153 or 152 septets, or 67 or 66 units; the default alphabet is used exactly if it covers the text, and no split needs fewer segments |
| Acceptance.ShortTextsAreAccepted | components/sms_codec/sms_pdu.c:411-558 | up to sixteen times one less than a piece holds is always accepted |
| Acceptance.OnlyTextIsAccepted | components/sms_codec/sms_pdu.c:411-434 | nothing but UTF-8 without NUL is accepted |
| Acceptance.GreedyIsBest | components/sms_codec/sms_pdu.c:350-378 | the greedy split needs at most n segments if and only if any split into n pieces exists that keeps characters whole |
| Acceptance.FindExactly | components/sms_codec/sms_gsm7.c:138-156 | a code point is found exactly if the alphabet has it, with one septet in the basic table and two in the extension |
| Acceptance.ValidRecipients | components/sms_codec/sms_pdu.c:94-118 | one to twenty digits with or without a plus, and nothing else |
| Gsm7.BasicIsChart | components/sms_codec/sms_gsm7.c:7-25 | the table is the chart of section 6.2.1 of 3GPP TS 23.038, character by character |
| Gsm7.ExtensionIsChart | components/sms_codec/sms_gsm7.c:27-43 | and the extension table that of section 6.2.1.1 |
| SubmitTheorems.SubmitPreflight | components/sms_codec/sms_pdu.c:560-633 | the preflight, with its own counting loop, finds the encoding and segment count of its specification |
| Split.CountUcs2 | components/sms_codec/sms_pdu.c:608-629 | the counting loop without offsets counts the segments of the greedy split, and fails beyond 16 |
| EndToEnd.TextArrivesOnce | components/sms_service/sms_service.c:227-422 | end to end: the segments of any accepted text, decoded by the receiving side and filed in any order with repeats, leave exactly one received message, and it holds that text |
| EndToEnd.PdusArriveOnce | components/sms_service/sms_service.c:514-565 | the same from PDU to PDU: whatever service centre, flags, protocol and times the network wraps around the segments of an accepted text, and in whatever order and how often the PDUs arrive, the receiving gateway ends with exactly one received message, of that sender and with that text |
| EndToEnd.CarrierIsDelivered | components/sms_codec/sms_pdu.c:871-918 | the PDU that carries a segment decodes to the sender, the time and the piece of text of the segment |
| EndToEnd.SegmentsAreOneMessage | components/sms_codec/sms_pdu.c:411-558 | decoded, the segments of an accepted text are the numbered parts of one message in one encoding |
| EndToEnd.ShortTextArrives | components/sms_service/sms_service.c:400-422 | a text of one segment is received whole, with its sender and time, whenever it can be stored |
| SubmitTheorems.PreflightAgrees | components/sms_codec/sms_pdu.c:560-633 | the preflight accepts exactly what the 16-slot encoder accepts, with the same encoding and segment count |
| SubmitTheorems.AcceptedAtEveryReference | components/api_server/api_server.c:607-610 | acceptance at reference 0x0100 is acceptance at every 16-bit reference, in the same encoding and no more segments |
| SubmitTheorems.QueuedMessageReencodes | components/sms_service/sms_service.c:842-861 | a queued message encodes again, from its stored fields and into its stored number of slots, to the same segments |
| Split.SplitGsm7 | components/sms_codec/sms_pdu.c:350-378 | the greedy split of septets, or failure when it needs more than 16 segments |
| Split.SplitUcs2 | components/sms_codec/sms_pdu.c:512-532 | the greedy split of UTF-16 units |
| Split.CutIsClean | components/sms_codec/sms_pdu.c:362-370 | a cut never separates an escape or a high surrogate from what belongs to it |
| Split.CapacityMonotone | components/sms_codec/sms_pdu.c:350-378 | a larger capacity never needs more segments |
| Submit.BuildSubmitPdu | components/sms_codec/sms_pdu.c:293-348 | builds the octets of the SMS-SUBMIT or fails as specified |
| Submit.ViewOfPdu | components/sms_codec/sms_pdu.c:293-348 | a built PDU shows its first octet, recipient, coding scheme and user data where section 9.2.2.2 of 3GPP TS 23.040 puts them |
| Submit.FieldRoundTrip | components/sms_codec/sms_pdu.c:753-845 | decoding the user data of a segment gives its text and its place in the message |
| Submit.SubmitEncode | components/sms_codec/sms_pdu.c:411-558 | the encoder computes the specified segments |
| UserData.ParseConcatUdh | components/sms_codec/sms_pdu.c:656-696 | reads the concatenation element of a user data header; malformed headers are refused |
| UserData.HasNationalShift | components/sms_codec/sms_pdu.c:698-711 | finds national language shift elements |
| UserData.HeaderRoundTrip | components/sms_codec/sms_pdu.c:201-220 | a header written for a reference, total and number is read back as these |
| UserData.DecodeUserData | components/sms_codec/sms_pdu.c:753-851 | user data decoding computes its specification, with every error result |
| Septets.PackSeptets | components/sms_codec/sms_pdu.c:227-263 | packs into exactly the specified octets, and fails exactly when they do not fit |
| Septets.UnpackSeptets | components/sms_codec/sms_pdu.c:265-291 | unpacks, and fails exactly when a septet reaches beyond the buffer |
| Septets.PackUnpack | components/sms_codec/sms_pdu.c:222-291 | any septets packed behind any header and unpacked behind it are the same septets |
| Septets.PackKeepsHeader | components/sms_codec/sms_pdu.c:227-263 | the header octets survive, fill and padding bits are zero |
| Gsm7.Gsm7Find | components/sms_codec/sms_gsm7.c:138-156 | the table search finds the septets of a code point exactly if the alphabet has it |
| Gsm7.SeptetCount | components/sms_codec/sms_gsm7.c:158-182 | counts the septets of a text, or reports that the alphabet does not cover it |
| Gsm7.Encode | components/sms_codec/sms_gsm7.c:184-213 | encodes a text that fits into exactly its septets |
| Gsm7.ExtensionDecode | components/sms_codec/sms_gsm7.c:215-224 | looks up the extension table |
| Gsm7.Decode | components/sms_codec/sms_gsm7.c:226-250 | decodes exactly the decodable septets that fit |
| Gsm7.TextRoundTrip | components/sms_codec/sms_gsm7.c:184-250 | encoding and decoding is the identity on every text the alphabet covers |
| Gsm7.CutDecodes | components/sms_codec/sms_gsm7.c:226-250 | decodable septets cut anywhere but behind an escape are two decodable strings whose texts join |
| Utf8.NextIsEncoded | components/sms_codec/sms_gsm7.c:45-97 | only the shortest form of a scalar value is read: encoding it again gives the octets that were read |
| Utf8.NextOfEncode | components/sms_codec/sms_gsm7.c:45-136 | what is appended for a scalar value is read back as that value, whatever follows |
| Utf8.SurrogateNotReadBack | components/sms_codec/sms_gsm7.c:99-136 | a surrogate is appended as octets that the reader refuses, so callers must exclude surrogates |
| Ucs2.Utf8ToUcs2 | components/sms_codec/sms_pdu.c:380-409 | converts a text that fits into exactly its UTF-16 units |
| Ucs2.TextRoundTrip | components/sms_codec/sms_pdu.c:380-409 | every UTF-8 text survives the way through UTF-16 |
| Ucs2.CutDecodes | components/sms_codec/sms_pdu.c:823-844 | decodable units cut anywhere but behind a high surrogate are two decodable strings whose texts join |
| Address.HexEncode | components/sms_codec/sms_pdu.c:61-73 | hexadecimal text, refused when it does not fit with its terminator |
| Address.HexDecode | components/sms_codec/sms_pdu.c:37-59 | octets of hexadecimal text, with every error result |
| Address.HexRoundTrip | components/sms_codec/sms_pdu.c:37-73 | every octet string that fits survives hexadecimal text |
| Address.Validate | components/sms_codec/sms_pdu.c:94-118 | accepts exactly the addresses that can be encoded |
| Address.Encode | components/sms_codec/sms_pdu.c:120-140 | writes the semi-octet address |
| Address.Decode | components/sms_codec/sms_pdu.c:142-199 | reads numeric and alphanumeric addresses |
| Address.AddressRoundTrip | components/sms_codec/sms_pdu.c:120-199 | every address the encoder accepts is read back unchanged, plus sign included |
| AtParser.EveryFragmentation | components/at_engine/at_parser.c:44-107 | with prompts off, every byte stream in every fragmentation emits exactly the lines between CR and LF that are not empty, and one overflow per line above 512 bytes |
| AtParser.EmitsPlainReading | components/at_engine/at_parser.c:44-107 | the same for one chunk |
| AtParser.ChunkingIsInvisible | components/at_engine/at_parser.c:44-107 | where the transport cuts the stream makes no difference, prompts on or off |
| AtParser.Parser.FeedByte | components/at_engine/at_parser.c:54-106 | the loop body on the buffer and its flags is the automaton step; the buffer is never overrun |
| AtParser.Parser.EmitLine | components/at_engine/at_parser.c:5-20 | the line is handed over and the buffer emptied |
| AtParser.Parser.FeedAll | components/at_engine/at_parser.c:44-107 | the loop is the automaton on the whole chunk |
| AtParser.Parser.SetPromptEnabled | components/at_engine/at_parser.c:34-42 | switching prompts off also forgets the pending space |
| AtProtocol.RoutingReadsNotifications | components/at_engine/at_router.c:14-34 | over any list of lines the router, which carries a counter from line to line, leaves exactly the lines outside whole notifications (a header with its body, or a single line), whatever a body says; it never waits for more than one line |
| AtProtocol.FinalIsNeverUrc | components/at_engine/at_protocol.c:58-132 | no final result line begins like an unsolicited one, so routing before the check for final lines loses none |
| AtEngine.PayloadAtMostOnce | components/at_engine/at_engine.c:190-271 | for every byte stream an attempt writes the payload at most once, and a prompt request reports OK only if a successful payload write came before the OK line |
| AtEngine.FeedKeeps | components/at_engine/at_engine.c:190-271 | every chunk keeps the invariant behind that: prompts are on only while nothing was written, and the response buffer keeps its limits |
| AtEngine.FeedLinkAppend | components/at_engine/at_engine.c:398-402 | cutting a chunk in two leaves parser and transaction the same |
| AtEngine.CutIsInvisible | components/at_engine/at_engine.c:365-418 | so it makes no difference to an attempt, at any place of its stream, unless the attempt is through before the cut |
| AtEngine.CutMatters | components/at_engine/at_engine.c:200-225 | that condition is needed: a prompt behind the final OK still makes the engine write the payload if it comes in the same chunk, and not if it comes in the next |
| AtEngine.BodyNeverFinal | components/at_engine/at_engine.c:242-254 | the line behind a +CMT:, +CDS: or +CBM: header that the command does not expect never ends a command, even if it reads OK |
| AtEngine.NoPromptNoWrite | components/at_engine/at_engine.c:204-208 | a command without a prompt never writes a payload |
| AtEngine.Engine.ProcessToken | components/at_engine/at_engine.c:190-271 | tokens change the transaction as specified |
| AtEngine.Engine.CaptureLine | components/at_engine/at_engine.c:127-143 | response lines are kept within 24 lines and 2048 bytes |
| AtEngine.Engine.Feed | components/at_engine/at_engine.c:398-402 | the parser loop with the token callback is the specified step, byte by byte |
| AtEngine.Engine.ExecuteAttempt | components/at_engine/at_engine.c:342-418 | from the state the parser is in, the loop over the chunks of an attempt gives the result, the transaction and the parser state that its specification gives, and adds exactly its acts to the log |
| AtEngine.AttemptGuarantees | components/at_engine/at_engine.c:342-418 | for every attempt: nothing but its command line and payload is sent, the payload at most once and not without prompt or if the command could not be sent; OK only behind a final OK line and, for prompts, a successful write before it |
| AtEngine.AttemptReports | components/at_engine/at_engine.c:342-418 | what an undisturbed attempt reports, for every request, parser state and fragmentation: a timeout if no final line comes outside notifications, and else what the first such line says, OK only for prompts that were answered; the lines before it are the response |
| AtEngine.FirstFinalDecides | components/at_engine/at_engine.c:190-271 | OK gives OK, or a protocol error if the payload was not written before it; ERROR, +CME ERROR and +CMS ERROR give the results of those names; nothing later changes the result |
| AtEngine.PlainAttempt | components/at_engine/at_engine.c:342-418 | for a command without a prompt the attempt sees exactly the plain reading of the bytes |
| AtEngine.RetriesAsAsked | components/at_engine/at_engine.c:273-287 | a request is repeated exactly as long as the policy names the result and attempts are left, and reports the last result |
| AtEngine.Engine.ExecuteRequest | components/at_engine/at_engine.c:420-456 | result, number of attempts, response lines, parser state and everything sent are those of the specified request, from the state the parser is in and the idle traffic before each attempt |
| AtEngine.WritesPerRequest | components/at_engine/at_engine.c:420-456 | for every retry policy: between one and max_attempts attempts, no more payload writes than attempts, nothing but the command line and the payload is sent, and OK for a prompt only behind the payload |
| SemVer.PrecedenceLaws | components/ota_service/ota_version_policy.c:147-157 | precedence (section 11 of SemVer 2.0.0) is a total preorder, and versions tie exactly if they differ in build metadata only |
| SemVer.PrecedenceIsNewer | components/ota_service/ota_version_policy.c:147-157 | numbers decide first, from major to patch, then a release is above its pre-releases |
| SemVer.SectionElevenExample | components/ota_service/ota_version_policy.c:112-145 | the example of section 11.4 of SemVer 2.0.0 ascends |
| SemVerText.ReadIsRender | components/ota_service/ota_version_policy.c:55-100 | whatever text is accepted is the text of a valid version |
| SemVerText.RenderIsRead | components/ota_service/ota_version_policy.c:55-100 | the text of every valid version whose numbers fit 32 bits is accepted, and its parts are found |
| OtaVersion.ParseNumber | components/ota_service/ota_version_policy.c:17-32 | accepts exactly canonical numbers up to 32 bits, with their value and end; the overflow check is exact |
| OtaVersion.ScanDotted | components/ota_service/ota_version_policy.c:64-98 | the character loops accept exactly dotted identifiers |
| OtaVersion.ValidPrereleaseSequence | components/ota_service/ota_version_policy.c:39-53 | refuses exactly numeric identifiers with leading zeros |
| OtaVersion.ParseSemver | components/ota_service/ota_version_policy.c:55-100 | accepts exactly version texts and finds their parts |
| OtaVersion.CompareIdentifiersIsOrder | components/ota_service/ota_version_policy.c:112-126 | comparing lengths and then digits is comparing numbers, so identifiers are ordered as section 11.4 says |
| OtaVersion.ComparePrerelease | components/ota_service/ota_version_policy.c:128-145 | the two-cursor loop computes the order of pre-releases |
| OtaVersion.SemverCompare | components/ota_service/ota_version_policy.c:147-157 | answers exactly for two valid version texts, and then with their precedence |
| OtaVersion.TiesDifferInBuildOnly | components/ota_service/ota_version_policy.c:147-157 | two texts tie exactly if they agree up to the build metadata |
| OtaVersion.Decide | components/ota_service/ota_version_policy.c:159-181 | accepts exactly what may be installed, and names the first objection |
| OtaVersion.InstallsExactlyNewer | components/ota_service/ota_version_policy.c:159-181 | without overrides exactly the same project with no lower secure version and a newer version is installed |
| OtaVersion.SecureVersionNeverFalls | components/ota_service/ota_version_policy.c:171-173 | along any chain of accepted updates the secure version never falls |
| OtaVersion.VersionStrictlyIncreases | components/ota_service/ota_version_policy.c:174-180 | along any chain of updates accepted without overrides the version strictly increases |
| Ota.Begin | components/ota_service/ota_service.c:245-301 | a session exactly for a plausible image size, while no other update is going on or unconfirmed |
| Ota.Session.Write | components/ota_service/ota_service.c:303-334 | a chunk that is accepted is hashed and, past the prefix, in flash; on failure the flash still holds only received bytes in order, and none unless the policy accepted the prefix |
| Ota.Session.HoldPrefix | components/ota_service/ota_service.c:316-327 | the first bytes are held back until the prefix is complete |
| Ota.Session.ValidatePrefixAndStart | components/ota_service/ota_service.c:140-169 | nothing reaches the flash unless the policy accepts |
| Ota.Session.Finish | components/ota_service/ota_service.c:336-396 | the boot slot is switched only to a complete image with the announced digest; success exactly if nothing else fails |
| Ota.Session.Upload | components/ota_service/ota_service.c:303-396 | for every chunking, abandoned at the first failure: flash is a prefix of the image, empty unless the policy accepted its start, and the boot slot is switched only to exactly the announced image; an acceptable image is installed if nothing fails |
| RateLimiter.WindowBound | components/api_common/api_common.c:62-82 | in every window of calls on a forward clock the granted cost is at most capacity + rate * elapsed + 1e-9 |
| RateLimiter.Conservation | components/api_common/api_common.c:62-82 | tokens left and cost granted are covered by the first fill and the refills, so the tolerance never adds up |
| RateLimiter.AfterKeeps | components/api_common/api_common.c:62-82 | tokens stay within [-1e-9, capacity] |
| RateLimiter.GrantedInTime | components/api_common/api_common.c:62-82 | a full bucket grants what it can hold, and so does any bucket once the cost has been refilled |
| RateLimiter.SlowCallsAreGranted | components/api_common/api_common.c:62-82 | calls that each cost no more than is refilled since the one before are all granted |
| RateLimiter.Limiter.Allow | components/api_common/api_common.c:62-82 | grants exactly what the bucket covers |

## Left out

- SMS-STATUS-REPORT framing: it repeats the fields of SMS-DELIVER and would only add easy members; reports are modelled from their recipient, reference and status on.
- Message events, diagnostics counters, the modem error kept in a record and the delivery status octets: they do not influence the modelled behaviour.
- Clearing pending reservations by the operator: documented to permit duplicates, so no promise covers it.
- Numeric error codes of +CME ERROR and +CMS ERROR lines and the captured final line: only the kind of the final line is modelled.
- The queue of unsolicited lines behind the AT engine, and reading and scanning the modem's message storage.
- Record serialisation in the store (magic, version, field packing): a slot holds a record or nothing.
- Wi-Fi, the setup portal, USB and modem recovery, display, MQTT configuration, discovery and topics, HTTP and JSON plumbing, the layout of the foreign application descriptor, image confirmation after reboot.
- Floating point rounding in the token bucket: the limiter is modelled over the reals.
- Wrap-around of record ids and of ledger sequence numbers.
- Real mutexes, queues and task priorities: the lock-protected functions are atomic steps.
- IdempotentSend.AtMostOneRecordPerKey: holds for guarded runs and does not count records of failed saves; the lemmas beside it show that the guard is exact and that a failed save that stored its record gives a second one.
- ArrivalOrder.ExactlyOneReceived: assumes free slots or prunable records for the parts and the results, and no other traffic in between, since a journal without room refuses parts.
