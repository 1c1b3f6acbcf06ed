# Verification model of smsgate

smsgate is firmware that bridges a modem driven by AT commands and a Telegram chat. This
project models its six components that carry protocols, state machines or real arithmetic,
and proves what they promise over all inputs, all runs and all interleavings.

| files | component |
|---|---|
| `LogPayload`, `RingCells`, `FlashRecord`, `FlashLog`, `LogPages`, `FlashStore` | the event log kept as a ring of records in flash |
| `Septets`, `Gsm7`, `UserData`, `Headers`, `Ucs2`, `Message`, `PartCount`, `Concat`, `ConcatRefusals` | the SMS codec and the reassembly of long messages |
| `Delivery`, `DeliverySafety`, `DeliveryRuns`, `DeliveryProgress`, `DeliveryLife`, `DeliveryLoop` | delivery of received messages, from modem slot to verified deletion |
| `TelegramCursor`, `TelegramRuns` | the polling cursor shared by two threads and a durable store |
| `LineAssembler`, `UrcQueue`, `UrcRoom`, `AtPort`, `AtSessions`, `AtProgress`, `AtDriver` | the AT port: lines, unsolicited results, commands, resynchronisation |
| `LogClock`, `SendOnce`, `ChunkedBody` | the log clock, the outbound send, and chunked HTTP bodies |
| `Common`, `Bits`, `Utf8` | shared types, bitwise operations on integers, UTF-8 |

Code that the source writes as loops and updates is modelled by classes and methods
(`FlashStore`, `ConcatReassembler`, `MainLoop`, `TelegramLoop`, `Driver`, `Assembler`,
`Clock`, `Worker`, `Connection`, and the loops of the codec). Each is proved equal to a
function on values, and the properties are proved about those functions and about runs of
them. Check everything with `dafny verify dfyconfig.toml`.

## Assumptions

- Flash log: fewer than 2^32 - 2 appends are committed in total; erasing is atomic; a write
  that did not finish leaves a prefix of the record, and that prefix does not read as a valid
  record. `CutInHeaderUnreadable` and `CutBeforeLastByteUnreadable` prove the last point
  where it is provable; the remaining cuts rely on the checksum.
- Delivery: a fingerprint stands for the content it was computed from, and an occupied modem
  slot changes only when it is deleted. What a content decodes to is a parameter. Which reads
  fail, whether a delete that reports an error took effect, what Telegram answers and when the
  device reboots are all arbitrary.
- Telegram cursor: the server answers with distinct updates at or above the offset, with ids
  below the largest 64-bit integer; `SaturatedIdRepeats` shows that the last bound is needed.
  A store write that reports an error may or may not have taken effect.
- AT port: the modem answers each command with one reply whose only terminal is its last
  line; the reply of a command holds no line that begins like the answer of the probe sent
  after it; unsolicited lines are neither terminals nor probe answers. An unsolicited line that
  `IsUrc` does not know goes into a body like a reply line; only `SessionOwnOnly` assumes that
  there is none. A refused command (an unanswered probe) and a message that cannot be written
  end the session the property speaks of; `RefusedLosesStep` and `FailedWriteInStep` show why.
  The results of `AtSessions` hold without any of this, on whatever lines the modem sends.
- Log clock: each true uptime is less than 2^31 ms away from the largest one before it.

## Model

| member | source | states |
|---|---|---|
| `LogPayload.PayloadRoundTrip` | src/log_ring.rs:88-146 | Every entry that encodes decodes to the stored form of itself: same kind, flag and timestamp, sender and body possibly cut. |
| `LogPayload.StoredIsLongestPrefix` | src/log_ring.rs:100-106 | The stored sender and body are character prefixes that fit their escaped budgets, and no longer prefix fits. |
| `LogPayload.PayloadFits` | src/log_ring.rs:88-123 | An encoded payload is at most 240 bytes. |
| `LogPayload.EncodesExactly` | src/log_ring.rs:88-123 | An entry can be stored if and only if it fits without its sender and body. |
| `LogPayload.DecodesExactly` | src/log_ring.rs:125-146 | A payload is an entry if and only if it is six fields between tabs, the first the version and the second a known kind; the others are the entry's, unescaped. |
| `LogPayload.KindExactly` | src/log_ring.rs:617-624 | The kind alone is read of every payload that is an entry, and only behind the version. |
| `LogPayload.UnescapedKept` | src/log_ring.rs:678-699 | Text without an escape sequence, lone backslashes included, is kept as it is. |
| `LogPayload.EncodeEntry` | src/log_ring.rs:88-123 | The encoding method returns the payload of the specification, or the length that was too large. |
| `LogPayload.PushEscapedTruncated` | src/log_ring.rs:657-676 | The copying loop writes the escaped longest prefix within the budget. |
| `LogPayload.UnescapeEscape` | src/log_ring.rs:645-699 | Unescaping undoes escaping for every string. |
| `LogPayload.ComputeChecksum` | src/log_ring.rs:626-633 | The loop computes the 32-bit FNV-1a hash of the bytes. |
| `LogPayload.StepInjective` | src/log_ring.rs:626-633 | One hash step tells two different states, or two different bytes, apart. |
| `LogPayload.OneByteChangesChecksum` | src/log_ring.rs:626-633 | Changing exactly one byte changes the checksum. |
| `LogPayload.StoredKeepsMost` | src/log_ring.rs:88-123 | The stored form keeps as much as 240 bytes allow: no longer sender would fit even without a body, and no longer body behind a whole sender. |
| `LogPayload.ChecksumVector` | src/log_ring.rs:626-633 | The hash of a known text is the published value. |
| `FlashRecord.ReadRecord` | src/log_ring.rs:588-615 | A fully written record reads back with its sequence number and payload. |
| `FlashRecord.ReadsExactly` | src/log_ring.rs:588-615 | A slot reads as a record if and only if it carries that record's header and payload, whatever else is in it. |
| `FlashRecord.OneBadPayloadByteRejected` | src/log_ring.rs:588-615 | A record that differs in exactly one payload byte is never accepted. |
| `FlashRecord.CutInHeaderUnreadable` | src/log_ring.rs:588-615 | A record cut within its first ten bytes is unreadable. |
| `FlashRecord.CutBeforeLastByteUnreadable` | src/log_ring.rs:588-615 | A record cut just before its last payload byte is unreadable unless that byte was never to be cleared. |
| `FlashRecord.CutAfterPayloadIsComplete` | src/log_ring.rs:396-416 | A cut behind the payload leaves the complete record. |
| `RingCells.MountOk` | src/log_ring.rs:339-385 | Mounting a ring in any reachable storage recovers the sequence number and a write position that keep the ring invariant, with the same readable log. |
| `RingCells.AppendOk` | src/log_ring.rs:387-425 | A completed append keeps the invariant; the log becomes what was kept plus the new record. |
| `RingCells.WriteFailed` | src/log_ring.rs:404-416 | After a failed write the position moves past the sector that may hold a torn record, the invariant holds, and everything the append kept stays readable. |
| `RingCells.KeptIsSuffix` | src/log_ring.rs:387-394 | Erasing for an append removes exactly the oldest records, those of the sector being erased. |
| `RingCells.MountFindsPosition` | src/log_ring.rs:339-385 | Behind a readable newest record, mounting finds exactly the sequence number and write position that were in RAM. |
| `RingCells.MountSkipsTorn` | src/log_ring.rs:339-385 | Behind a torn slot within a sector, mounting resumes at the start of the next sector, as the failed write itself does. |
| `FlashLog.WritesLandOnErased` | src/log_ring.rs:387-416 | In every state the invariant allows, the next write lands on a fully erased slot. |
| `FlashLog.WritesAreExact` | src/log_ring.rs:741-753 | Clearing bits there stores the exact record, or the exact prefix of it that was programmed. |
| `FlashLog.StepInv` | src/log_ring.rs:339-425 | Appends, failed writes, power cuts and remounts all keep the ring invariant. |
| `FlashLog.CommittedAppend` | src/log_ring.rs:387-425 | A successful append keeps everything but the sector erased for it and adds the new record at the end. |
| `FlashLog.RemountInv` | src/log_ring.rs:339-385 | A power cut between operations loses nothing readable. |
| `FlashLog.RunsKeepCommittedSuffix` | src/log_ring.rs:339-425 | On every run from flash without records, what is readable is a contiguously numbered suffix of all committed entries, and the next write lands on an erased slot. |
| `FlashLog.AppendOutcome` | src/log_ring.rs:387-425 | An append whose erase is refused changes nothing; otherwise the log loses only the erased sector, and gains the new record exactly when the write succeeds. |
| `FlashLog.CutAppendOutcome` | src/log_ring.rs:387-425 | A power cut in an append leaves the old log when it comes before the erase the append needs; otherwise the old log less the erased sector, followed by the new entry exactly when all of its record was programmed. |
| `FlashLog.AppendAfterFailure` | src/log_ring.rs:387-425 | After a failed write at a sector start, an append that succeeds leaves exactly what the failed one would have kept, followed by its own entry; within a sector it also gives up the records of the sector behind. |
| `FlashLog.RemountAfterAppend` | src/log_ring.rs:339-425 | A remount after a successful append gives the ring as it was in RAM. |
| `FlashLog.RemountAfterFailure` | src/log_ring.rs:339-425 | A remount after a write that failed within a sector and left anything behind gives the ring as it was in RAM. |
| `FlashLog.FaultlessCapacity` | src/log_ring.rs:387-425 | Without faults n appends keep n entries up to the number of slots, then all slots but the rest of the sector being filled. |
| `FlashStore.MemFlash.Write` | src/log_ring.rs:741-753 | A write clears bits only, all of them or a prefix when it fails. |
| `FlashStore.MemFlash.Erase` | src/log_ring.rs:755-769 | An erase sets whole sectors to 0xFF, refuses misaligned requests, and touches nothing else. |
| `FlashStore.Mount` | src/log_ring.rs:339-385 | Mounting checks the geometry and sets up the ring the specification describes. |
| `FlashStore.GeometryExactly` | src/log_ring.rs:340-349 | The accepted geometries are whole sectors of whole records, at least one of each. |
| `FlashStore.FlashLogRing.Append` | src/log_ring.rs:387-425 | The append method on bytes is the append of the specification, entry by entry encoded. |
| `FlashStore.FlashLogRing.PageOf` | src/log_ring.rs:470-483 | On any storage the page method returns the page of the specification. |
| `FlashStore.FlashLogRing.LastEntries` | src/log_ring.rs:433-445 | On any storage the last-n method returns the tail of the specification. |
| `FlashStore.FlashLogRing.LatestEntryOfKind` | src/log_ring.rs:447-468 | The latest-of-kind method returns the entry of the specification. |
| `FlashStore.FlashLogRing.AllEntries` | src/log_ring.rs:427-431 | The entries method returns all entries in sequence order. |
| `FlashStore.FlashLogRing.EntryCountOf` | src/log_ring.rs:485-493 | The count loop counts the readable records. |
| `FlashStore.InsertNewestHeader` | src/log_ring.rs:544-554 | Binary search and bounded insertion produce the list of the specification. |
| `LogPages.NewestOfInsert` | src/log_ring.rs:544-554 | Bounded insertion keeps exactly the newest headers of the unbounded sorted list. |
| `LogPages.NewestHeadersAreLast` | src/log_ring.rs:526-542 | On any storage the bounded scan returns the last headers of the fully sorted list. |
| `LogPages.SortedIsRingOrder` | src/log_ring.rs:427-431 | Sorting by sequence number is ring order. |
| `LogPages.ReachableHolds` | src/log_ring.rs:387-445 | Every reachable ring whose entries fit holds a log of stored entries, so the results below apply to every run. |
| `LogPages.EntriesAreLog` | src/log_ring.rs:427-431 | Entries are the whole log, oldest first, and the count is its length. |
| `LogPages.LastNIsTail` | src/log_ring.rs:433-445 | The last n entries are the tail of the log. |
| `LogPages.PageIsSlice` | src/log_ring.rs:470-483 | A page is the slice of the reversed log at its offset. |
| `LogPages.LatestIsNewestOfKind` | src/log_ring.rs:447-468 | The latest of a kind is the newest matching entry, or none exactly when there is none. |
| `LogPages.OlderButtonsShowEverything` | src/commands/builtin/log_cmd.rs:89-116 | Following Older buttons from offset 0 ends and shows every entry exactly once, newest first. |
| `LogPages.NewerMeetsOlder` | src/commands/builtin/log_cmd.rs:91-101 | A Newer button leads to the page whose Older button leads back, or to the newest page. |
| `LogPages.NewerFromBehind` | src/commands/builtin/log_cmd.rs:91-101 | At an offset behind the end the page is empty and Newer leads to the oldest page: the last ten entries or all there are, with no Older button; the newest page and an empty log have no Newer button. |
| `Concat.ConcatReassembler.FeedWithSlot` | src/sms/concat.rs:136-218 | Feeding a part does what the specification says: validation, expiry, lookup or eviction, conflict check, slot tracking, completion. |
| `Concat.ConcatReassembler.Locate` | src/sms/concat.rs:156-188 | The part's group is found, or made at the end of the table after evicting the oldest one of eight. |
| `Concat.ConcatReassembler.FeedAt` | src/sms/concat.rs:190-217 | A conflicting part or slot is refused; the last missing part removes the group and returns its message. |
| `Concat.ConcatReassembler.EvictExpired` | src/sms/concat.rs:156-157 | Exactly the groups older than a day are dropped. |
| `Concat.AnyOrderDelivers` | src/sms/concat.rs:136-218 | Parts fed in any order, with repeats and storage slots, between parts of other messages: their outcomes are incomplete until the last missing part delivers the parts joined in order, with all their slots, each once. |
| `Concat.NotSparedIsEvicted` | src/sms/concat.rs:168-180 | That condition on other messages is exact for each arrival: a part of theirs that does not meet it takes the place of this message's group. |
| `ConcatRefusals.RefusedExactly` | src/sms/concat.rs:190-217 | A part of a message that is being collected is refused if and only if its text contradicts the one held in its place, its slot's place is known with other content, or 64 slots are tracked; the message is then collected on as if it had not come. |
| `ConcatRefusals.MisnumberedRefused` | src/sms/concat.rs:136-155 | A part numbered outside its message changes nothing. |
| `ConcatRefusals.StartsOver` | src/sms/concat.rs:156-188 | A part that comes more than a day after its message's first starts the message over. |
| `Septets.PackSeptets` | src/sms/codec.rs:880-899 | The packing loop on a byte buffer produces the packing of the specification. |
| `Septets.UnpackSeptets` | src/sms/codec.rs:300-313 | The unpacking loop produces the unpacking of the specification. |
| `Septets.UnpackPack` | src/sms/codec.rs:300-899 | Unpacking undoes packing at every bit offset. |
| `Septets.HelloUnpacked` | src/sms/codec.rs:300-313 | A known packing unpacks to its text: the first septet is in the lowest bits. |
| `Septets.PlaceKeeps` | src/sms/codec.rs:886-897 | Placing a septet disturbs no septet below it. |
| `Septets.UnpackIgnoresBelow` | src/sms/codec.rs:300-313 | Unpacking from a bit up reads nothing below that bit's octet. |
| `Gsm7.CharDecodes` | src/sms/codec.rs:637-878 | The encoding of every character in the alphabet decodes to that character; escapes are followed by a code. |
| `Gsm7.DecodeEncode` | src/sms/codec.rs:315-923 | Decoding undoes encoding for every body the alphabet holds. |
| `Gsm7.EncodeGsm7Body` | src/sms/codec.rs:912-923 | The encoding loop yields the septets, or nothing for a body outside the alphabet. |
| `Gsm7.SeptetsToText` | src/sms/codec.rs:315-331 | The decoding loop is the decoding of the specification. |
| `Gsm7.DecodeConcat` | src/sms/codec.rs:315-331 | Pieces that do not end inside an escape may be decoded one by one. |
| `Gsm7.CodeIsEncoded` | src/sms/codec.rs:275-298 | Every code but the escape is what the character it decodes to encodes to. |
| `Gsm7.ExtensionIsEncoded` | src/sms/codec.rs:285-298 | So is every code behind the escape, or it decodes to a space, and that exactly when no character is encoded with it. |
| `Gsm7.DanglingEscape` | src/sms/codec.rs:315-331 | An escape with nothing behind it is dropped. |
| `UserData.SplitGsm7` | src/sms/codec.rs:1010-1025 | The splitting loop produces the chunks of the specification. |
| `UserData.ChunksAreEscapeSafe` | src/sms/codec.rs:1010-1025 | The chunks are the body in order and none ends between an escape and its code. |
| `UserData.BuildGsm7Fields` | src/sms/codec.rs:991-1063 | The builder fills the user-data fields of the specification, or none above the limits. |
| `UserData.ParseField` | src/sms/codec.rs:470-629 | The parser of DCS, header, length and user data returns the result of the specification, errors included. |
| `UserData.HeaderLeavesSeptets` | src/sms/codec.rs:1037-1044 | The six header octets touch no bit of the septets packed from bit 49 up. |
| `UserData.Gsm7PartParses` | src/sms/codec.rs:534-608 | The parser reads a built part back as its chunk's text with reference, total and part number. |
| `Headers.HeaderRead` | src/sms/codec.rs:545-590 | A header of any number of elements, known or not, whole or cut short, is read as what its last concatenation and its last port element say. |
| `Headers.PlaceRead` | src/sms/codec.rs:569-582 | A reference of 8 or 16 bits, the total and the part are read from their element alone and between any others. |
| `Headers.PortsRead` | src/sms/codec.rs:561-568 | Both port elements are read, alone and between any others. |
| `Headers.EveryHeader` | src/sms/codec.rs:545-590 | Every header is of that form. |
| `Headers.Gsm7FieldParses` | src/sms/codec.rs:600-609 | A GSM-7 text behind any header is read as that text and what the header says. |
| `Headers.OctetFieldParses` | src/sms/codec.rs:610-629 | The same of a UCS-2 and of an 8-bit text. |
| `Headers.PlainParses` | src/sms/codec.rs:520-629 | Without a header the text is all there is; an 8-bit or UCS-2 field is refused if and only if its length octet promises more octets than there are. |
| `Headers.ParsesExactly` | src/sms/codec.rs:520-599 | A field with a header is accepted if and only if the header, and the octets its length promises, are there. |
| `Headers.SchemeRead` | src/sms/codec.rs:482-499 | Every data coding scheme of the general, message-waiting and data-class groups is read in its alphabet. |
| `Ucs2.EncodeBody` | src/sms/codec.rs:925-936 | The encoding loop yields two octets per UTF-16 unit. |
| `Ucs2.DecodeEncode` | src/sms/codec.rs:333-936 | Decoding undoes encoding for every sequence of characters. |
| `Ucs2.LoneSurrogatesDropped` | src/sms/codec.rs:333-356 | Of any units, with surrogates that lack their other half and an octet too many at the end, exactly the characters are read, in order. |
| `Ucs2.Split` | src/sms/codec.rs:1083-1097 | The splitting loop produces the chunks of the specification. |
| `Ucs2.ChunksAreWhole` | src/sms/codec.rs:1083-1097 | The chunks are the body in order and none cuts a surrogate pair. |
| `Ucs2.BuildFields` | src/sms/codec.rs:1066-1136 | The builder fills the user-data fields of the specification, or none above the limits. |
| `Ucs2.PartParses` | src/sms/codec.rs:578-590 | The parser reads a built part back as its chunk's text with reference, total and part number. |
| `UserData.Ucs2ToText` | src/sms/codec.rs:333-356 | The decoding loop is the decoding of the specification, lone surrogates dropped. |
| `Message.BuildMessage` | src/sms/codec.rs:970-988 | A body is built in the GSM alphabet when it can be, else in UCS-2. |
| `Message.SinglePartLoopback` | src/sms/codec.rs:476-1081 | A message built in one part parses to exactly its body. |
| `Message.MultipartLoopback` | src/sms/codec.rs:476-1136 | A message built in up to 255 parts, parsed and fed to the reassembler in any order, with repeats and between the parts of other messages, comes back as exactly its body with the slots of all its parts. |
| `Message.CarriedDelivers` | src/sms/codec.rs:476-629 | Any fields that carry the numbered parts of a message, parsed and fed in any order between other traffic, deliver the joined texts. |
| `Message.ForeignDelivers` | src/sms/codec.rs:476-629 | So do parts of another sender under a reference of 8 or 16 bits, in any coding and with other elements in their headers. |
| `PartCount.CountSmsParts` | src/sms/codec.rs:1139-1154 | The counter returns the count of the specification, 0 above the limit. |
| `PartCount.CountGsm7Parts` | src/sms/codec.rs:1156-1182 | The two counting loops compute the GSM-7 count, none for a body outside the alphabet. |
| `PartCount.CountUcs2Parts` | src/sms/codec.rs:1184-1201 | The two counting loops compute the UCS-2 count. |
| `PartCount.CountIsLeast` | src/sms/codec.rs:1156-1182 | Above 160 septets no division at character boundaries into pieces of at most 153 septets uses fewer pieces than the count. |
| `PartCount.CountIsReached` | src/sms/codec.rs:1156-1182 | Some such division uses exactly that many. |
| `PartCount.CountAtMostBuilt` | src/sms/codec.rs:1010-1182 | The GSM-7 count never exceeds the number of chunks the builder makes. |
| `PartCount.CountIsBuiltExactly` | src/sms/codec.rs:1010-1182 | Above 160 septets the count equals the number of chunks built if and only if the body and the septets wasted by early cuts before the last counted part fit into that many parts. |
| `PartCount.BuiltExactlyWhenFitting` | src/sms/codec.rs:1010-1064 | Above 160 septets the builder makes a message under a limit of 1 to 255 parts if and only if the body and what its cuts waste before the last allowed part fit into that many parts. |
| `PartCount.CountIsBuilt` | src/sms/codec.rs:1010-1182 | In particular they are equal when no part but the last is cut at 151 septets. |
| `PartCount.CountIsBuiltWithoutExtensions` | src/sms/codec.rs:1010-1182 | In particular they are equal for a body without extension characters. |
| `PartCount.BuiltExceedsCount` | src/sms/codec.rs:1019-1021 | They can differ: 151 letters, a bracket and n more letters count two parts; the cut in front of the bracket makes them three exactly when n is above 151. |
| `PartCount.Ucs2CountIsBuilt` | src/sms/codec.rs:1066-1201 | For a body outside the alphabet the count is exactly the number of parts built, as long as that is at most 255. |
| `PartCount.CountedWhenBuilt` | src/sms/codec.rs:970-1201 | For every body and limit: what is built was counted, with at most as many parts as are built; both agree on which bodies take one part and on the empty one. |
| `DeliveryRuns.StepInv` | src/main.rs:756-1584 | Every event of the pipeline keeps the delivery invariant. |
| `DeliveryRuns.NothingIsLost` | src/main.rs:756-836 | On every run, with any number of reboots, content once in the modem is still there, or was delivered to Telegram in a notification that contains it, or was dropped on purpose. |
| `DeliveryRuns.HistoryIsHonest` | src/main.rs:1952-1983 | A message counts as delivered only when Telegram returned an id for its notification, and as dropped only while forwarding was off or its sender blocked. |
| `DeliveryRuns.TryDeleteOk` | src/bridge/sms_handler.rs:265-275 | A slot is erased only while it holds the content that was settled; a changed slot keeps its new message. |
| `DeliveryRuns.QueuesKeepShape` | src/main.rs:1890-2080 | In every reachable state the ready queue is calls, then messages, then plain notifications, at most 8; at most 4 receipts are pending; no storage place is held twice anywhere. |
| `DeliveryRuns.UnrepeatableStays` | src/main.rs:2024-2049 | A waiting call or direct message is never pushed out of the ready queue. |
| `DeliveryRuns.DispatchTakesFront` | src/main.rs:1890-1938 | Dispatch sends from the front, in order, as many as fit. |
| `DeliveryRuns.DispatchHoldsMessages` | src/main.rs:1890-1900 | While 32 deletions are due no message is sent. |
| `DeliveryProgress.ReceiptsTaken` | src/main.rs:756-814 | Taking the receipts leaves exactly the items without a reply, and exactly the slots of the acknowledged messages become due, behind those that already are. |
| `DeliveryProgress.DueIsErased` | src/main.rs:816-836 | A due slot is erased within as many working attempts as its position in the queue, whatever else happens between them, and stays out of the modem unless its content is stored anew. |
| `DeliveryProgress.DueStays` | src/main.rs:816-836 | A due slot that is still in the modem is given up by nothing but a reboot. |
| `DeliveryProgress.GivenUpExactly` | src/main.rs:816-836 | An attempt ends a due deletion if and only if the modem has just erased the content or holds other content there; else it is tried again behind the others. |
| `DeliveryProgress.EraseAll` | src/main.rs:816-836 | As many working attempts as deletions are due erase exactly the slots whose content is unchanged, and leave due exactly those whose place is empty. |
| `DeliveryProgress.AcknowledgedIsErased` | src/main.rs:756-836 | A run that acknowledges a message, takes its receipt and makes as many working attempts as are due then leaves none of its slots in the modem, whatever else happens in between. |
| `DeliveryProgress.RefusedIsReleased` | src/main.rs:786-814 | After the receipt of a failed send the message's slots are in the modem and held by nothing, so they are read again. |
| `DeliveryProgress.StoredIsQueued` | src/main.rs:1323-1344 | A whole stored message that nothing holds is queued when there is room, behind every call and message and in front of everything plain, at the cost of at most the newest plain notification. |
| `DeliveryProgress.StoredIsDropped` | src/main.rs:1952-1983 | While forwarding is off or its sender blocked its slot becomes due at once instead. |
| `DeliveryProgress.StoredWaits` | src/main.rs:1323-1344 | A place that is held past reassembly, or for which there is no room, is left as it is. |
| `DeliveryProgress.CallIsQueued` | src/main.rs:1218-1246 | A call is queued in front of everything; in a full queue the newest plain notification, or else the newest message that is still in the modem, gives way, and only eight calls and direct messages refuse it. |
| `DeliveryProgress.DirectIsQueued` | src/main.rs:1248-1281 | A direct message is queued behind the calls and direct messages that wait, unless they are eight. |
| `DeliveryProgress.NoticeIsQueued` | src/main.rs:1986-2008 | A plain notification goes last while fewer than eight wait. |
| `DeliveryProgress.DispatchTakesOthers` | src/main.rs:1890-1938 | While 32 deletions are due everything but messages is still sent from the front, in order, as much as fits. |
| `DeliveryLife.StoredLife` | src/main.rs:756-1940 | From an idle state, reading, sending, acknowledging and erasing a stored message delivers it and frees its place, and changes nothing else. |
| `DeliveryLife.PartsLife` | src/main.rs:756-1940 | The same of a message stored in parts that are read in any order: it is delivered joined, and exactly the places of its parts are free again. |
| `DeliveryLife.ListedExactly` | src/main.rs:1457-1465 | A complete listing gives up exactly the due ME slots it lacks. |
| `DeliveryLife.SweepDrains` | src/main.rs:816-1465 | A complete listing and then as many working attempts as are left empty the queue of due ME slots. |
| `DeliverySafety.FeedOk` | src/sms/concat.rs:189-217 | Reassembly keeps every tracked slot backed by a part in its place, and a completed message covers all of its slots. |
| `DeliverySafety.FeedHolds` | src/sms/concat.rs:43-56 | Feeding a slot never makes a place held twice, even when the slot is read again. |
| `DeliverySafety.PrepareOk` | src/bridge/sms_handler.rs:446-583 | A prepared message is carried by every slot it names, and each of those is still in the modem. |
| `DeliveryLoop.MainLoop.ProcessReceipts` | src/main.rs:756-814 | The receipt loop with swap-removal takes exactly the replies that have arrived and queues deletions for those sent. |
| `DeliveryLoop.MainLoop.FinishReceipt` | src/main.rs:766-785 | One receipt: the last pending item takes its place, and a sent message's slots become due for deletion. |
| `DeliveryLoop.MainLoop.TryFrontDeletion` | src/main.rs:816-836 | The front deletion is retried, finished or requeued as the specification says. |
| `DeliveryLoop.MainLoop.DeleteVerified` | src/bridge/sms_handler.rs:265-275 | Only a slot that still holds the expected content is erased. |
| `DeliveryLoop.MainLoop.ReserveCriticalSlot` | src/main.rs:2011-2021 | Room is made by dropping the newest plain notification only. |
| `DeliveryLoop.MainLoop.ReserveEphemeralSlot` | src/main.rs:2024-2049 | Otherwise room is made by deferring the newest message that is still in the modem. |
| `DeliveryLoop.MainLoop.QueuePlainNotification` | src/main.rs:1986-2008 | A plain notification is appended, or dropped when the queue is full. |
| `DeliveryLoop.MainLoop.QueueSmsPreparation` | src/main.rs:1952-1983 | A prepared message is queued in front of the plain notifications, or dropped with its slots due for deletion. |
| `DeliveryLoop.MainLoop.PrepareSms` | src/bridge/sms_handler.rs:446-583 | Decoding and reassembly give the preparation of the specification. |
| `DeliveryLoop.MainLoop.ReceiveDirectSms` | src/main.rs:1248-1281 | A direct message gets a slot by eviction if need be, or is refused. |
| `DeliveryLoop.MainLoop.ReceiveCall` | src/main.rs:1218-1246 | A call goes to the front of the ready queue. |
| `DeliveryLoop.MainLoop.ReadStoredSms` | src/main.rs:1323-1344 | A stored message already in flight or due for deletion is skipped; else it is prepared and queued. |
| `DeliveryLoop.MainLoop.SlotInFlight` | src/main.rs:2052-2066 | The search finds a place held by a ready or pending message. |
| `DeliveryLoop.MainLoop.DeletionPending` | src/main.rs:2069-2075 | The search finds a place due for deletion. |
| `DeliveryLoop.MainLoop.DispatchReadyNotifications` | src/main.rs:1890-1940 | The dispatch loop hands over what the specification says. |
| `DeliveryLoop.MainLoop.ForgetVanished` | src/main.rs:1457-1465 | A complete listing drops exactly the ME deletions whose slot is gone. |
| `TelegramCursor.AtMostOnce` | src/main.rs:503-1849 | On every interleaving of the two threads, failed writes and reboots: no update is handled twice, and the offset sent is at most the stored cursor. |
| `TelegramCursor.NeverOverwritten` | src/main.rs:1595-1676 | When main takes a batch that wants an acknowledgement it holds none, owes none, and the polling thread waits for exactly this one. |
| `TelegramCursor.AckMeansHandled` | src/main.rs:1844-1849 | When the acknowledgement is out, everything main accepted has been handled. |
| `TelegramCursor.StepInv` | src/main.rs:516-551 | Every step of either thread keeps the protocol invariant. |
| `TelegramCursor.CollectWithin` | src/im/telegram/mod.rs:341-354 | A batch holds distinct updates from the offset up to its own cursor, which passes every update, filtered ones included. |
| `TelegramCursor.CollectInboundUpdates` | src/im/telegram/mod.rs:341-354 | The collecting loop computes the batch of the specification. |
| `TelegramCursor.CheckpointCursor` | src/bridge/poller.rs:26-36 | A cursor ahead of the persisted one is stored before it counts as persisted; a failed write changes nothing in RAM. |
| `TelegramCursor.SaturatedIdRepeats` | src/im/telegram/mod.rs:341-354 | With the largest 64-bit update id the saturating cursor cannot move on and the update is handled again. |
| `TelegramRuns.CollectsInbound` | src/im/telegram/mod.rs:341-354 | The messages of a batch are exactly the inbound updates, in the order served. |
| `TelegramRuns.NextIsLeast` | src/im/telegram/mod.rs:341-354 | Its cursor is the least one past the old cursor and every update, filtered ones included. |
| `TelegramRuns.EveryUpdateHandled` | src/main.rs:503-1849 | On every run without a reboot the inbound updates served are those dispatched, once each and in the order served, followed by those that still wait; none that waits is below the polling cursor. |
| `TelegramRuns.DrainEmpties` | src/main.rs:1595-1620 | On every run the channel holds at most eight events, so one pass of the drain empties it or stops at a batch to be stored. |
| `TelegramRuns.UnstoredIsHeld` | src/main.rs:1640-1676 | On every run a store write that reports an error leaves the batch held whole: nothing of it is handled or acknowledged. |
| `TelegramRuns.RoundCompletes` | src/main.rs:503-1849 | From an idle state an answer with anything new is taken, stored, dispatched whole and acknowledged, and moves all three cursors past it. |
| `TelegramCursor.TelegramLoop.DrainChannel` | src/main.rs:1595-1620 | The drain loop takes at most eight events and stops at a batch that wants an acknowledgement. |
| `TelegramCursor.TelegramLoop.CheckpointHeld` | src/main.rs:1640-1676 | A held batch is released only after its cursor is stored. |
| `TelegramCursor.TelegramLoop.PollOnce` | src/main.rs:516-534 | A batch that moves the cursor is sent with an acknowledgement and waited for. |
| `TelegramCursor.TelegramLoop.ReceiveAck` | src/main.rs:534-547 | The polling cursor moves to the batch's own one only when the acknowledgement has arrived. |
| `TelegramCursor.TelegramLoop.DispatchNext` | src/main.rs:1733-1795 | The first waiting message is handled and waits no longer. |
| `TelegramCursor.TelegramLoop.Acknowledge` | src/main.rs:1844-1849 | The acknowledgement that is owed goes out, once, when nothing waits. |
| `UrcQueue.DeliveriesArePaired` | src/modem/a76xx/at.rs:438-466 | On every interleaving main receives exactly the accepted deliveries in order, the rest are whole in the queue, and each pairs a header with the first hex line after it. |
| `UrcQueue.NextPollIsBody` | src/main.rs:1100-1156 | Once main got a header, the next line it polls is that delivery's body, whatever ran in between. |
| `UrcQueue.NothingUncounted` | src/modem/a76xx/at.rs:479-516 | The queue never exceeds 32 lines or one +CGEV, and every other notification was taken, is queued or waiting, or was counted as lost. |
| `UrcQueue.OnlyPollingTakes` | src/modem/a76xx/at.rs:479-516 | Queued calls and deliveries leave only by polling. |
| `UrcQueue.RefusedOnlyWhenFull` | src/modem/a76xx/at.rs:499-516 | Room is refused only when nothing but calls and deliveries is left and they do not leave room. |
| `UrcQueue.CgevGoesFirst` | src/modem/a76xx/at.rs:499-516 | A message notice is pushed out only once no +CGEV is left, and never without need. |
| `UrcQueue.NewestCgevWins` | src/modem/a76xx/at.rs:479-490 | On every run a +CGEV line in the queue is the last one that was passed to the queue. |
| `UrcQueue.RouteKeeps` | src/modem/a76xx/at.rs:438-466 | Routing a line completes a pair into the queue whole, holds a header, counts a loss, or leaves the line alone. |
| `UrcRoom.RoomExactly` | src/modem/a76xx/at.rs:499-516 | Room is made if and only if the calls and deliveries that wait leave it. |
| `UrcRoom.OldestNoticeFirst` | src/modem/a76xx/at.rs:499-516 | Message notices are pushed out oldest first, each counted once. |
| `UrcRoom.LineIsQueued` | src/modem/a76xx/at.rs:479-497 | A notification is queued last unless 32 lines of calls and deliveries wait; nothing gives way to it while there is room. |
| `UrcRoom.CgevIsQueued` | src/modem/a76xx/at.rs:479-490 | A +CGEV takes the place of the queued one or a free place but the last; it pushes nothing out and is never counted. |
| `UrcRoom.PairIsQueued` | src/modem/a76xx/at.rs:438-466 | A completed delivery is queued header before body if and only if two places can be made, else counted as one loss. |
| `AtPort.ResyncInStep` | src/modem/a76xx/at.rs:260-310 | A resynchronisation that succeeds has consumed every line of the old reply and of its own probe. |
| `AtPort.SendAtOwn` | src/modem/a76xx/at.rs:113-201 | A command that is not refused, collected or streamed, gets only lines of its own reply and unsolicited lines that nothing tells from one, ends at its own terminal, and leaves the port in step. |
| `AtPort.SendPduOwn` | src/modem/a76xx/at.rs:524-589 | The same of an outbound message, whether it is refused before the prompt, given up there, timed out behind it or completed. |
| `AtPort.FailedWriteInStep` | src/modem/a76xx/at.rs:561-564 | After a message that could not be written the port is in step if and only if the modem sends no more of its reply, for the failure does not mark it as outstanding. |
| `AtPort.ReferenceRead` | src/modem/a76xx/at.rs:582-588 | A reference below 256 is read from the first line that has one, whatever spaces are around it. |
| `AtPort.ReferenceTooLarge` | src/modem/a76xx/at.rs:582-588 | A reference of 256 or more counts as 0. |
| `AtPort.SessionOwn` | src/modem/a76xx/at.rs:113-589 | Through any sequence of commands, streamed commands, outbound messages and polls, with timeouts, interruptions and resynchronisations, command n is ended by reply n only and its body holds no line of another reply. |
| `AtPort.SessionOwnOnly` | src/modem/a76xx/at.rs:113-589 | If the port knows every unsolicited line it meets, a body is nothing but lines of its own reply. |
| `AtPort.RefusedLosesStep` | src/modem/a76xx/at.rs:279-309 | The property ends with the first unanswered probe: its late answer can be taken for the reply of the next command. |
| `AtPort.ReplyCollected` | src/modem/a76xx/at.rs:333-431 | A reply with other traffic between its lines is collected whole, in order, up to its terminal; the traffic is queued as if there were no reply; the reply counts as too long exactly when it exceeds a limit. |
| `AtSessions.SessionMirrored` | src/modem/a76xx/at.rs:113-589 | Every session of commands, messages and polls is a run of the queue: the same port at its end, every line read routed in order, and exactly the polled lines handed to main. |
| `AtSessions.SessionPaired` | src/main.rs:1100-1156 | In every session the direct deliveries main gets are, in order, headers each with the first hex line read after it; accepted ones it has not got yet are whole in the queue. |
| `AtSessions.NextPolledIsBody` | src/modem/a76xx/at.rs:203-229 | After a poll that returned a header the next poll returns a line, whatever commands come in between, and that line is the first hex line read after the header. |
| `AtSessions.FrontPolled` | src/modem/a76xx/at.rs:203-207 | A poll returns the front of the queue whenever there is one. |
| `AtSessions.NothingPolled` | src/modem/a76xx/at.rs:203-229 | A poll that returns nothing found the queue empty and, unless a reply is outstanding or its time was up, the port too. |
| `AtSessions.CommandsKeepQueued` | src/modem/a76xx/at.rs:113-589 | No command or message takes a call or a delivery out of the queue. |
| `AtProgress.ResyncSucceeds` | src/modem/a76xx/at.rs:260-310 | Resynchronising succeeds if and only if the old terminal comes within the first wait or the probe's marker and then an OK within the second. |
| `AtProgress.PreparedUnlessLost` | src/modem/a76xx/at.rs:238-244 | A command is refused if and only if resynchronising fails; otherwise at most 32 lines are drained first. |
| `AtProgress.PromptAwaited` | src/modem/a76xx/at.rs:524-560 | The wait for the prompt ends with it, with the first terminal before it, or with its time. |
| `AtProgress.CommandAnswered` | src/modem/a76xx/at.rs:108-147 | A reply that comes in time is the result of its command: its lines in order, its terminal, and other traffic in the queue. |
| `AtProgress.MessageAnswered` | src/modem/a76xx/at.rs:524-589 | A message whose prompt comes and that can be written gets the reply that follows it. |
| `AtProgress.CallInterrupts` | src/modem/a76xx/at.rs:333-376 | A call interrupts a command that touches the message storage; it is queued and the rest of the reply is outstanding. |
| `AtProgress.OthersKeepOn` | src/modem/a76xx/at.rs:333-376 | No other command is interrupted. |
| `AtDriver.Driver.ReserveUrcSlots` | src/modem/a76xx/at.rs:499-516 | The eviction loop makes the room of the specification. |
| `AtDriver.Driver.QueueUrcLine` | src/modem/a76xx/at.rs:479-497 | Queuing a line does what the specification says. |
| `AtDriver.Driver.RouteCmtLine` | src/modem/a76xx/at.rs:438-466 | Routing a line does what the specification says, expiry included. |
| `AtDriver.Driver.Resynchronize` | src/modem/a76xx/at.rs:260-310 | Both waiting loops do what the specification says. |
| `AtDriver.Driver.DrainUrcs` | src/modem/a76xx/at.rs:312-329 | Draining reads at most 32 lines and queues them. |
| `AtDriver.Driver.CollectReply` | src/modem/a76xx/at.rs:333-376 | The collecting loop does what the specification says. |
| `AtDriver.Driver.Send` | src/modem/a76xx/at.rs:108-147 | A command is prepared, sent and collected, and marked timed out when it ends without a terminal. |
| `AtDriver.Driver.SendStreaming` | src/modem/a76xx/at.rs:149-201 | The streaming loop hands on the lines of the specification and stops where it does. |
| `AtDriver.Driver.SendCmgsPdu` | src/modem/a76xx/at.rs:524-589 | The prompt loop, the write of the message, the collection behind it and the reference read from it do what the specification says. |
| `AtDriver.Driver.PollUrc` | src/modem/a76xx/at.rs:203-229 | A poll drops an expired header and returns the queue's front, or reads until a line belongs nowhere else or completes a delivery. |
| `AtDriver.Driver.TakeDiagnostics` | src/modem/a76xx/at.rs:97-99 | The report is the number of losses since the last one, saturated, and starts again from none. |
| `LineAssembler.LineDelivered` | src/modem/a76xx/at.rs:393-417 | A line of at most 1024 bytes is delivered once at its newline; a longer one is counted once and dropped; the next line starts afresh. |
| `LineAssembler.Assembler.ConsumeLineByte` | src/modem/a76xx/at.rs:393-417 | Consuming a byte does what the specification says and counts overflows. |
| `LogClock.DaysRoundTrip` | src/log_clock.rs:257-280 | Every day number converts to a valid Gregorian date that converts back to it. |
| `LogClock.CivilRoundTrip` | src/log_clock.rs:257-280 | Every valid date converts to a day number that converts back to it. |
| `LogClock.CivilWalksCalendar` | src/log_clock.rs:257-280 | Day 0 is 1 January 1970 and each next number is the calendar's next day. |
| `LogClock.SecondsRoundTrip` | src/log_clock.rs:35-55 | Converting to local seconds and back returns every valid time. |
| `LogClock.TimeRoundTrip` | src/log_clock.rs:35-55 | Every second count whose year fits 16 bits comes back from the time it converts to. |
| `LogClock.ExtendsExactly` | src/log_clock.rs:107-125 | A sample less than 2^31 ms from the largest one is extended to the true uptime. |
| `LogClock.ClockIsTrue` | src/log_clock.rs:83-125 | Over every such sequence of samples, through any number of wraps, the clock holds the true largest uptime and the true time of its last sync. |
| `LogClock.TimestampsElapse` | src/log_clock.rs:92-105 | After a sync every timestamp is the time told plus the whole seconds since. |
| `LogClock.TimestampsBeforeSync` | src/log_clock.rs:92-105 | Before the first sync every timestamp counts the whole seconds of uptime from the first day of year 0. |
| `LogClock.Clock.ExtendUptime` | src/log_clock.rs:107-125 | The method extends a sample and remembers the largest result. |
| `LogClock.Clock.SyncFromNetwork` | src/log_clock.rs:83-90 | The network time is stored with the extended uptime at which it was told. |
| `LogClock.Clock.TimestampAt` | src/log_clock.rs:92-105 | The method returns the timestamp of the specification. |
| `SendOnce.DoPostOnce` | src/im/telegram/http.rs:225-268 | A request reported as not sent never started its body; any other started it at most once. |
| `SendOnce.PostOnce` | src/im/telegram/http.rs:79-105 | The same across the one reconnect inside a post. |
| `SendOnce.AtMostOneBody` | src/im/telegram/worker.rs:62-129 | Across all retries and every transport behaviour writing of the body starts at most once, exactly once when an id comes back, and not at all when the send ends retryable or at the deadline. |
| `SendOnce.RetryableIffUntouched` | src/im/telegram/worker.rs:62-129 | An attempt to send a request with a body may be repeated if and only if the body was not begun. |
| `SendOnce.AtMostOneHead` | src/im/telegram/worker.rs:62-129 | A request without a body, which is complete with its head, is not even begun twice. |
| `SendOnce.RetriedUntilSettled` | src/im/telegram/worker.rs:62-129 | The first attempt that cannot be retried is the result if the deadline leaves room for it; every one before it was followed by another. |
| `SendOnce.ExhaustedTimesOut` | src/im/telegram/worker.rs:62-129 | When every attempt up to the deadline could be retried the result is the deadline. |
| `SendOnce.DeliversWhenItWorks` | src/im/telegram/worker.rs:62-129 | As soon as the transport works within the deadline, the next attempt delivers. |
| `SendOnce.DeadConnectionReplaced` | src/im/telegram/http.rs:79-105 | A connection that dies under the head of a request is replaced and the request still goes out. |
| `SendOnce.IdleIsReplaced` | src/im/telegram/http.rs:79-105 | Nothing is written on a connection that has been idle too long. |
| `SendOnce.DeliveredHasId` | src/im/telegram/worker.rs:62-129 | A send counts as delivered only with a positive id that the server gave. |
| `SendOnce.Worker.PostJson` | src/im/telegram/http.rs:79-105 | The retry loop inside a post does what the specification says. |
| `SendOnce.Worker.SendWithRetries` | src/im/telegram/worker.rs:62-129 | The worker's retry loop does what the specification says. |
| `SendOnce.Worker.Try` | src/im/telegram/worker.rs:191-217 | One attempt builds a client when there is none and drops one that failed. |
| `ChunkedBody.AcceptedForEverySplit` | src/im/telegram/http.rs:306-375 | A stream that carries at most 24 KiB is accepted for every split into reads, however much of it came with the headers, if and only if every size line ends within 129 bytes, the trailers within 2049, and no chunk of exactly 24 KiB is followed by so much that one read can overfill the buffer. |
| `ChunkedBody.FullChunkRefused` | src/im/telegram/http.rs:306-375 | The last case occurs: a single chunk of 24 KiB followed by 1018 bytes or more behind the message carries its body, and some split refuses it. |
| `ChunkedBody.AcceptedIsCarried` | src/im/telegram/http.rs:331-375 | A body that is accepted is the one the whole stream carries and at most 24 KiB, whatever came with the headers and however the rest was split. |
| `ChunkedBody.ReadChunkedBody` | src/im/telegram/http.rs:331-375 | The reading loops do what the specification says; what they accept is what the stream carries. |
| `ChunkedBody.WireCarriesChunks` | src/im/telegram/http.rs:331-375 | The stream of a chunked message carries its chunks joined, whatever they contain and whatever follows. |
| `ChunkedBody.SizeExactly` | src/im/telegram/http.rs:347-349 | A size line is accepted exactly in its forms: hex digits, a plus before them and an extension behind a semicolon allowed, with a size the machine can hold. |
| `ChunkedBody.CaseIgnored` | src/im/telegram/http.rs:347-349 | Hex digits of either case mean the same size. |
| `ChunkedBody.ReadMore` | src/im/telegram/http.rs:306-329 | One read extends the buffer by what it took from the stream, within the limit. |

## Left out

- MultipartLoopback: starts from the user-data field (DCS, header flag, length and octets). The rest of the PDU, phone numbers and the hex form are not modelled; the encoder writes SMS-SUBMIT and the parser reads SMS-DELIVER, so only this field is common to both.
- MultipartLoopback: its conditions are those of `AnyOrderDelivers`: everything arrives within the day after which a group expires, no group with the same sender, reference and total is open before, no part of another message takes the place of this message's group, and the parts' slots are at most 64, one fingerprint for each place.
- CutBeforeLastByteUnreadable: cuts between the checksum and the last payload byte rest on the assumption about checksums; the code gives no guarantee there.
- AppendOk: sequence numbers after a wrap at 2^32 - 1 are not covered; the code's order by number is meaningless there.
- PageIsSlice: the saturating addition of offset and limit is modelled with the largest machine word as a parameter.
- FlashLogRing.Append: storage errors other than a refused erase and a failed or cut write are not modelled.
- SendAtOwn: lines arrive normalised (trimmed, blank ones dropped); overlong lines do not occur while a reply is collected; the command itself can be written.
- SendPduOwn: no line before the prompt holds the prompt's character. A message that could not be written ends the session `SessionOwn` speaks of; `FailedWriteInStep` says when the port is in step after it.
- InsertNewestHeader: among equal sequence numbers, where the original's search may stop at any, the first is modelled; no reachable log has any (`ReachableHolds`, `SortedReads`).
- ReadMore: a read is given the number of bytes it brings; deadlines are where those numbers end.
- LineDelivered: the effect of an overlong line on a waiting +CMT header is the event `Overlong` of `UrcQueue`.
- TimestampsElapse: timestamps are values; their text form, and parsing of the modem's clock answer, are not modelled. Years are unbounded integers until they are stored in 16 bits.
- AtMostOneBody: the number of retries before the restart deadline is a parameter instead of a clock; JSON and response headers are one answer per request.
- NothingIsLost: the log entries, reply map and notification texts written along the way are not modelled; neither is the queue of announced slots, which only decides when a slot is read.
- PartsLife: starts from an idle state and reads nothing but this message; what other traffic can do meanwhile is in `AnyOrderDelivers` and `AcknowledgedIsErased`.
- DueIsErased: an attempt works when its retry time has come and the modem answers the read and the delete; how long that takes is not modelled.
- EveryUpdateHandled: between two boots. A reboot gives up the messages that wait in RAM, as the design accepts; `AtMostOnce` covers reboots.
- ESP-IDF, WiFi, TLS, the UART driver, non-volatile storage and the watchdog: foreign code, modelled only as arbitrary results.
- Text formatting, configuration, status display, command parsing, OTA, the reply router, the SMS send queue and the MMS parser: not modelled.
