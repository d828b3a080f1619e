# Proofs about libtgvoip and the SIP gateway

This project models the protocol core of a Telegram-to-SIP gateway and of the VoIP library it
carries, and proves what that core is meant to guarantee: over every run of its protocols, in
every interleaving of its threads, for every input of its parsers.  `dafny verify dfyconfig.toml`
checks all of it.

The code that changes state is modelled by classes whose methods have the loops and branches of
the code and are proved equal to functions on the abstract state; the guarantees are then
theorems about those functions, over all runs.

| part | modules |
|---|---|
| Sequence numbers, acknowledgements, repeated extras | `SequenceNumbers`, `PacketProtocol`, `VoIPControllerModel`, `TwoPeers`, `TwoPeersLimits`, `TwoPeersMasks` |
| Packet headers and byte streams | `WireHeader`, `BufferStreams` |
| JSON printer and parser | `Json`, `JsonParserModel`, `JsonRoundTrip` |
| Jitter buffer, buffer pool, measurement history | `BufferPoolModel`, `HistoricBufferModel`, `JitterStorage`, `JitterModel`, `JitterBufferModel`, `JitterRuns` |
| Producer and consumer threads | `BlockingQueueModel`, `Pipeline`, `OpusEncoder` |
| SIP/Telegram bridges | `BridgeModel`, `GatewayModel`, `GatewayLoop` |
| Timer queue | `TimerQueue`, `MessageThreadModel` |
| Video frames | `VideoFrames`, `PacketReassemblerModel` |
| Congestion accounting | `CongestionControlModel` |
| Obfuscated TCP | `ObfuscatedTcp` |
| Shared | `Bytes`, `Sets`, `Options` |

Time is a positive number that does not decrease.  Answers of the Telegram and SIP clients, the
keystream, arrival order, the clock and thread scheduling are inputs of the theorems, which hold
for every choice of them.

Where a natural promise is not what the code does, the model follows the code and a lemma names
the input that breaks the promise, beside the exact condition under which it holds:

- An extra can be dropped undelivered when a parked packet gets its header late, exactly in the
  states `StampedTooLate` describes (`OutOfOrderStampLosesExtra`).  The timing condition of the
  delivery theorem is needed besides: 2^31 numbers ahead of the last acknowledgement an extra is
  lost with every header in order (`TooFarAheadLosesExtra`).
- A number brought in by a jump of more than 31 is accepted twice (`JumpIsAcceptedTwice`).
- The acknowledgement mask is read one place off the number it was written for: packet m is marked
  exactly when the peer recorded m + 1 (`MaskIsReadOnePlaceOff`), also if m never arrived
  (`LostPacketIsMarked`).
- A tick that wants more raises the jitter buffer's wanted delay exactly if no tick before it wanted
  more and no reset after too many losses has come, in the whole call (`DelayIsRaisedAtMostOnce`);
  refused raises are in `SecondRaiseIsRefused` and `LossesForbidRaising`.  The delay keeps its
  limits exactly if the settings put them around 6 (`DelayStaysWithin`) and what is configured is
  not above the greatest (`DelayIsWithinAsConfigured`).
- Every put into the jitter buffer finds room exactly if two slots may be used
  (`EveryPutFindsRoom`).
- An encoder overflows its queue in some run exactly if it is stopped more than once
  (`SafeForOneStop`), and its next stop can do so exactly while an earlier NULL is queued
  (`AbortNeedsLeftOverNull`).
- A failed user lookup stops the gateway with a call left open (`HaltingLeaksACall`).
- A cancelled timer message is still delivered exactly if it was already taken out with its
  batch, or is the repeating message being delivered, which even its own call of `Cancel` does
  not stop (`LateCancelStillDelivers`).
- A fragmented video frame with number 0 is lost after a complete one (`NumberZeroIsLost`), and one of
  more than 255 segments always (`FramesUpTo255Arrive`).
  With nothing left over from earlier frames, a frame comes exactly if its first arrivals, as many
  as it has fragments, are distinct, so a fragment repeated among them loses it
  (`FirstPassGivesFrame`); with something left over in every part that has not arrived by then, and
  only so, old and new fragments are joined (`RepeatsOverLeftovers`).
- More than 255 extras, string lengths from 2^24, and TCP packets that are not whole words below
  2^26 do not come back from the wire.

## Model

| member | source | states |
|---|---|---|
| `SequenceNumbers.SeqGtMeansAhead` | libtgvoip/PrivateDefines.h:120-124 | The comparison holds exactly when the first number is ahead on the circle of 32-bit residues by less than half a turn, or by half a turn and numerically smaller |
| `SequenceNumbers.SeqGtIsTotalChoice` | libtgvoip/PrivateDefines.h:120-124 | Exactly one direction holds between distinct numbers, also at distance 2^31, which section 3.2 of RFC 1982 leaves open |
| `SequenceNumbers.SeqGtIsNotTransitive` | libtgvoip/PrivateDefines.h:120-124 | The comparison is no order: three numbers can each be ahead of the next |
| `SequenceNumbers.SeqGtAgreesWithCounters` | libtgvoip/PrivateDefines.h:118-124 | On residues of unbounded counters less than 2^31 apart it is the true order, across any number of wraps |
| `SequenceNumbers.SeqGtReversesBeyondHalf` | libtgvoip/PrivateDefines.h:120-124 | Beyond 2^31 it says the opposite of the true order |
| `PacketProtocol.MaskReportsWindow` | libtgvoip/VoIPController.cpp:1346-1353 | Bit 31-i of a written mask says whether window entry i is set |
| `PacketProtocol.JumpIsAcceptedTwice` | libtgvoip/VoIPController.cpp:2076-2084 | A number first accepted by a jump of more than 31 leaves entry 0 clear and is accepted again when repeated |
| `PacketProtocol.AddExtraKeepsKindsDistinct` | libtgvoip/VoIPController.cpp:3191-3203 | An extra replaces the pending one of its type, so no type is pending twice, and it starts unstamped |
| `PacketProtocol.AckMaskIsShiftedByOne` | libtgvoip/VoIPController.cpp:2121-2129 | The sender marks ackId-k acknowledged exactly when the receiver's window entry k-1 was set: one place off the number the entry stands for |
| `PacketProtocol.MaskMarksExactly` | libtgvoip/VoIPController.cpp:2121-2129 | Of the recent packets a received mask marks exactly those without a time yet that are 1 to 31 behind ackId with the receiver's entry for the next number set; every other packet stays as it was |
| `PacketProtocol.AcknowledgementSplitsExtras` | libtgvoip/VoIPController.cpp:2166-2174 | Extras whose first containing number is covered are reported and leave the pending list, all others stay; none is lost or doubled |
| `PacketProtocol.AcknowledgementKeepsOrder` | libtgvoip/VoIPController.cpp:2166-2174 | What stays pending is the uncovered positions of the list in increasing order, and what is reported is the covered ones in increasing order |
| `VoIPControllerModel.VoIPController.GenerateOutSeq` | libtgvoip/VoIPController.cpp:1341-1343 | Numbers are handed out in order and wrap at 2^32 |
| `VoIPControllerModel.VoIPController.ComputeAcks` | libtgvoip/VoIPController.cpp:1346-1353 | The mask loop writes the mask of the window |
| `VoIPControllerModel.VoIPController.WriteExtras` | libtgvoip/VoIPController.cpp:1365-1374 | Every pending extra is written in order and stamped once, with the number of the first header that carries it |
| `VoIPControllerModel.VoIPController.WritePacketHeader` | libtgvoip/VoIPController.cpp:1345-1374 | The header carries the peer's newest number, the mask and all pending extras, and the sender remembers the packet |
| `VoIPControllerModel.VoIPController.RememberSent` | libtgvoip/VoIPController.cpp:1460-1469 | The newest 128 sent packets are remembered |
| `VoIPControllerModel.VoIPController.SendExtra` | libtgvoip/VoIPController.cpp:3191-3203 | Appends the extra or replaces the one of its type, unstamped |
| `VoIPControllerModel.VoIPController.AcceptSeq` | libtgvoip/VoIPController.cpp:2074-2097 | The window slides in place exactly as the window step says |
| `VoIPControllerModel.VoIPController.MarkRecent` | libtgvoip/VoIPController.cpp:2121-2129 | The two nested loops mark exactly the recent packets the mask reports |
| `VoIPControllerModel.VoIPController.DropAcknowledgedExtras` | libtgvoip/VoIPController.cpp:2166-2174 | The erase loop splits the extras into acknowledged and still pending |
| `VoIPControllerModel.VoIPController.ProcessIncomingHeader` | libtgvoip/VoIPController.cpp:2074-2174 | A duplicate or late packet changes nothing; otherwise window, acknowledgements and extras change together |
| `TwoPeers.DroppedExtrasWereDelivered` | libtgvoip/VoIPController.cpp:1360-1374 | Over every run of two peers and a losing, reordering, repeating network, with numbers written late, several times or never, and headers that first carry an extra written in increasing order, an extra is dropped only after the other side accepted a packet carrying exactly it |
| `TwoPeers.AcceptanceIsExact` | libtgvoip/VoIPController.cpp:2074-2097 | Over every timely run a packet is accepted exactly when it is newer than all accepted ones, or less than 32 behind and not accepted yet, or accepted only by the jump that introduced it |
| `TwoPeers.AcceptedAtMostOnceUnlessJumped` | libtgvoip/VoIPController.cpp:2074-2097 | A set window entry means its number was accepted; a number is accepted at most once, or twice if a jump of more than 31 introduced it |
| `TwoPeers.TimelyRunsAreConsistent` | libtgvoip/VoIPController.cpp:2074-2174 | Every timely run keeps the residues each peer holds those of the true counters, and every header truthful about what its writer had accepted |
| `TwoPeers.ComparisonsAreTrue` | libtgvoip/VoIPController.cpp:2074-2097 | In a timely run each wrapped comparison of a received header decides as the true numbers would |
| `TwoPeers.DropMeansDelivered` | libtgvoip/VoIPController.cpp:2166-2174 | The inductive step: an acknowledgement that covers an extra's stamp names an accepted packet that carries the extra |
| `TwoPeersMasks.MaskIsReadOnePlaceOff` | libtgvoip/VoIPController.cpp:2121-2129 | Over every timely run an arriving header marks the remembered packet m exactly if it is accepted, acknowledges more than any before, is 1 to 31 past m, and its writer had recorded number m + 1 (not m) when it wrote the header |
| `TwoPeersMasks.RecordedIsExact` | libtgvoip/VoIPController.cpp:2074-2097 | Over every timely run the window holds an entry for exactly those of the last 32 numbers that were accepted otherwise than by the jump that brought them in |
| `TwoPeersMasks.LostPacketIsMarked` | libtgvoip/VoIPController.cpp:2121-2129 | A run that marks a packet the peer never accepted, and not the one after it that the peer did accept |
| `TwoPeers.StepKeepsExtras` | libtgvoip/VoIPController.cpp:1360-1374 | Each action keeps every header at or past an extra's stamp carrying that extra |
| `TwoPeersLimits.OutOfOrderStampLosesExtra` | libtgvoip/VoIPController.cpp:1360-1374 | For a header about to be the first to carry an extra: some timely run, with later stamps in order, drops the extra although the peer never accepted it, if and only if the peer has accepted nothing carrying it and either has accepted a number from that header's on that it may still acknowledge, or may still accept as its newest a written header from that number on without the extra |
| `TwoPeersLimits.OutOfOrderStampIsReachable` | libtgvoip/VoIPController.cpp:2808-2813 | Both cases are reached by parking one packet in the send queue: the overtaking header on its way, or accepted already |
| `TwoPeersLimits.RunKeepsGuard` | libtgvoip/VoIPController.cpp:2166-2174 | The other half over whole runs: an extra stamped in time is not dropped as acknowledged before the peer has accepted it (another extra of its type may replace it) |
| `TwoPeersLimits.TooFarAheadLosesExtra` | libtgvoip/PrivateDefines.h:118-124 | A run with numbers in order, but 2^31 ahead of the last acknowledgement, loses an extra as well |
| `WireHeader.Le32RoundTrip` | libtgvoip/Buffers.cpp:60-68 | A 32-bit number comes back from its four bytes |
| `WireHeader.TlLengthRoundTrip` | libtgvoip/Buffers.cpp:92-103 | A length comes back exactly if it is below 2^24 |
| `WireHeader.Pad4` | libtgvoip/VoIPController.cpp:34-39 | The padding fills a string and its length up to a multiple of four |
| `WireHeader.ExtrasRoundTrip` | libtgvoip/VoIPController.cpp:1361-1375 | The extras of a header come back, type and data in order, exactly if there are at most 255 of them |
| `WireHeader.HeaderRoundTrip` | libtgvoip/VoIPController.cpp:1355-1377 | Two sides that agree on the short format, or without it on the flags: whichever form the sender's version, layer and state choose, the reader gets back exactly what that form carries, if and only if it carries at most 255 extras |
| `WireHeader.ShortFormRoundTrip` | libtgvoip/VoIPController.cpp:1355-1375 | Parsing a short header gives back type, numbers, mask and all extras, and leaves the payload, exactly if there are at most 255 extras |
| `WireHeader.DecryptedBlockRoundTrip` | libtgvoip/VoIPController.cpp:1377-1413 | The set-up form comes back without extras, with the data length modulo 2^24 |
| `WireHeader.SimpleBlockRoundTrip` | libtgvoip/VoIPController.cpp:1415-1455 | The ordinary older form comes back with the length of data and header modulo 2^24, for peers of version 6 or more with the extras exactly if there are at most 255, for others without them |
| `WireHeader.InitFlagsAreRead` | libtgvoip/VoIPController.cpp:1386-1393 | The packet type and every flag are read from the flags word as they were put in |
| `BufferStreams.BufferOutputStream.ExpandBufferIfNeeded` | libtgvoip/Buffers.cpp:208-221 | A stream over its own buffer always makes room and keeps its contents; one over a given buffer fails exactly when it would overflow |
| `BufferStreams.BufferOutputStream.WriteBytes` | libtgvoip/Buffers.cpp:184-188 | Appends the bytes or changes nothing |
| `BufferStreams.BufferOutputStream.WriteByte` | libtgvoip/Buffers.cpp:150-153 | Appends the byte or changes nothing |
| `BufferStreams.BufferOutputStream.WriteInt32` | libtgvoip/Buffers.cpp:155-162 | Appends the number's four bytes, least significant first |
| `BufferStreams.BufferInputStream.ReadByte` | libtgvoip/Buffers.cpp:55-58 | Takes the next byte, or fails at the end |
| `BufferStreams.BufferInputStream.ReadInt32` | libtgvoip/Buffers.cpp:60-68 | Takes the next four bytes as a number, or fails |
| `BufferStreams.BufferInputStream.ReadBytes` | libtgvoip/Buffers.cpp:105-109 | Takes the next bytes, or fails |
| `BufferStreams.BufferInputStream.ReadTlLength` | libtgvoip/Buffers.cpp:92-103 | Takes a one-byte or a four-byte length, or fails |
| `BufferStreams.WriteExtrasPart` | libtgvoip/VoIPController.cpp:1361-1375 | The loop writes flags, number and extras one after another |
| `BufferStreams.WriteShortHeader` | libtgvoip/VoIPController.cpp:1355-1375 | The writer appends the short form |
| `BufferStreams.WriteDecryptedBlock` | libtgvoip/VoIPController.cpp:1377-1413 | The writer appends the set-up form, with its flags |
| `BufferStreams.WriteSimpleBlock` | libtgvoip/VoIPController.cpp:1415-1455 | The writer appends the ordinary older form |
| `BufferStreams.WritePacketHeader` | libtgvoip/VoIPController.cpp:1345-1457 | The stream afterwards ends in exactly the header of the form that the peer's version, the connection's layer and the state choose |
| `BufferStreams.ReadExtras` | libtgvoip/VoIPController.cpp:2225-2233 | The loop reads exactly as many extras as announced, or fails |
| `BufferStreams.ReadShortHeader` | libtgvoip/VoIPController.cpp:2002-2008 | The reader parses the short form, or fails |
| `BufferStreams.ReadDecrypted` | libtgvoip/VoIPController.cpp:2011-2053 | The reader checks flags, call id and protocol, skips an old extra, and parses the set-up form |
| `BufferStreams.ReadSimple` | libtgvoip/VoIPController.cpp:2054-2066 | The reader parses the ordinary older form |
| `BufferStreams.ReadPacketHeader` | libtgvoip/VoIPController.cpp:1999-2072 | The reader chooses the format by version and layer and gives the header the functions define, or the first reason to refuse it |
| `JsonRoundTrip.ParseUndoesDump` | libtgvoip/json11.cpp:651-751 | Parsing what was dumped gives back an equal value for every value nested at most 200 deep, and is refused as too deep for every other |
| `JsonRoundTrip.StringRoundTrip` | libtgvoip/json11.cpp:80-115 | Every byte string comes back from its quoted form: control escapes, U+2028, U+2029 and the pending code point included |
| `JsonRoundTrip.NumberRoundTrip` | libtgvoip/json11.cpp:576-630 | Every 32-bit integer comes back, as an integer if its text has at most nine characters and as a floating-point number of the same value otherwise |
| `JsonRoundTrip.ArrayRoundTrip` | libtgvoip/json11.cpp:117-127 | An array comes back item by item |
| `JsonRoundTrip.ObjectRoundTrip` | libtgvoip/json11.cpp:129-141 | An object comes back entry by entry, in key order |
| `JsonRoundTrip.RereadIsEqual` | libtgvoip/json11.cpp:305-312 | What is read back equals the value as the code compares values |
| `JsonParserModel.ParseDocument` | libtgvoip/json11.cpp:739-751 | The recursive-descent parser computes the document the functions define: a value, or the first error |
| `JsonParserModel.JsonParser.ParseStringLiteral` | libtgvoip/json11.cpp:483-570 | The string loop, with its pending escaped code point, reads the string the functions define |
| `JsonParserModel.JsonParser.ParseNumberLiteral` | libtgvoip/json11.cpp:576-630 | The number scanner accepts and rejects as the functions define |
| `JsonParserModel.JsonParser.ParseJson` | libtgvoip/json11.cpp:651-735 | One value, or the first error, with the depth limit of 200 |
| `JsonParserModel.JsonParser.ParseObjectEntries` | libtgvoip/json11.cpp:683-708 | The loop over entries keeps the last value of a repeated key |
| `JsonParserModel.JsonParser.ParseListItems` | libtgvoip/json11.cpp:716-731 | The loop over items reads them in order |
| `JsonParserModel.JsonParser.GetNextToken` | libtgvoip/json11.cpp:445-452 | The next byte after white space, or an error at the end |
| `JsonParserModel.JsonParser.ConsumeWhitespace` | libtgvoip/json11.cpp:380-383 | Skips blanks, tabs, carriage returns and line feeds |
| `BufferPoolModel.SetBitSets` | libtgvoip/Buffers.cpp:257 | Setting a mask bit changes that bit alone |
| `BufferPoolModel.ClearBitClears` | libtgvoip/Buffers.cpp:269 | Clearing a mask bit changes that bit alone |
| `BufferPoolModel.LowestFree` | libtgvoip/Buffers.cpp:252-262 | The free buffer with the lowest number, none only when all are used |
| `BufferPoolModel.BufferPool.Get` | libtgvoip/Buffers.cpp:252-262 | Hands out a buffer nobody owns and marks it, or nothing when all are owned |
| `BufferPoolModel.BufferPool.Reuse` | libtgvoip/Buffers.cpp:264-275 | Takes back exactly that buffer |
| `HistoricBufferModel.HistoricBuffer.Add` | libtgvoip/Buffers.h:232-235 | The new measurement becomes the newest and the oldest is forgotten |
| `HistoricBufferModel.HistoricBuffer.Average` | libtgvoip/Buffers.h:210-216 | The average of the newest measurements |
| `HistoricBufferModel.HistoricBuffer.Max` | libtgvoip/Buffers.h:246-253 | The largest measurement kept |
| `JitterStorage.StorageCounts` | libtgvoip/JitterBuffer.cpp:329-337 | Occupied slots, stored packets and owned buffers are equally many |
| `JitterStorage.FreeingTakesThePacket` | libtgvoip/JitterBuffer.cpp:187-188 | Freeing a slot removes exactly its packet and gives back exactly its buffer |
| `JitterStorage.FillingStoresThePacket` | libtgvoip/JitterBuffer.cpp:308-314 | Filling a slot adds exactly that packet, and no other packet's bytes change |
| `JitterModel.EveryPutFindsRoom` | libtgvoip/JitterBuffer.cpp:294-305 | A buffer that starts empty has a packet to evict at every put of every sequence of puts, exactly when at least two slots may be used; with one slot, a packet of the largest timestamp followed by any other fails |
| `JitterModel.EvictionNeedsTwoSlots` | libtgvoip/JitterBuffer.cpp:294-305 | The same for arbitrary contents |
| `JitterBufferModel.JitterBuffer.GetCurrentDelay` | libtgvoip/JitterBuffer.cpp:329-337 | Counts the packets stored |
| `JitterBufferModel.JitterBuffer.Reset` | libtgvoip/JitterBuffer.cpp:85-105 | Frees every packet and clears the ledger and the histories |
| `JitterBufferModel.JitterBuffer.Purge` | libtgvoip/JitterBuffer.cpp:250-257 | Frees exactly the packets more than one unit behind the cursor |
| `JitterBufferModel.JitterBuffer.FindOldest` | libtgvoip/JitterBuffer.cpp:295-302 | Finds the stored packet with the smallest timestamp; it always exists when eviction is due |
| `JitterBufferModel.JitterBuffer.MakeRoom` | libtgvoip/JitterBuffer.cpp:290-307 | Gives an empty slot, evicting the oldest packet exactly when the buffer is full |
| `JitterBufferModel.JitterBuffer.Fill` | libtgvoip/JitterBuffer.cpp:308-316 | The pool always has a buffer for the new packet |
| `JitterBufferModel.JitterBuffer.Overwrite` | libtgvoip/JitterBuffer.cpp:231-239 | A stored packet is replaced in its own slot and buffer |
| `JitterBufferModel.JitterBuffer.PutInternal` | libtgvoip/JitterBuffer.cpp:223-321 | The slot array stores a packet as the bounded map does: oversize, repeated, late and evicting packets included |
| `JitterBufferModel.JitterBuffer.GetInternal` | libtgvoip/JitterBuffer.cpp:158-221 | Reading refines the map: found, missing with loss counting and reset, or buffering |
| `JitterBufferModel.JitterBuffer.DropAtStart` | libtgvoip/JitterBuffer.cpp:113-132 | The first output drops exactly the packets the cursor passes whose timestamp is not shadowed by an empty slot |
| `JitterBufferModel.JitterBuffer.HandleOutput` | libtgvoip/JitterBuffer.cpp:108-155 | An output refines the map and the delay ledger |
| `JitterBufferModel.JitterBuffer.AdjustDelay` | libtgvoip/JitterBuffer.cpp:374-396 | The wanted delay and its guards change as the model's tick says |
| `JitterBufferModel.JitterBuffer.AdjustPlayout` | libtgvoip/JitterBuffer.cpp:400-408 | The correction of the playout changes the ledger as the model's tick says |
| `JitterBufferModel.JitterBuffer.Measure` | libtgvoip/JitterBuffer.cpp:343-360 | Late packets and the delay are recorded, and a resync is asked for when too many were late |
| `JitterBufferModel.JitterBuffer.Tick` | libtgvoip/JitterBuffer.cpp:339-410 | A tick refines the model's tick |
| `JitterBufferModel.JitterBuffer.HandleInput` | libtgvoip/JitterBuffer.cpp:73-83 | A redundant packet is put without the right to overwrite |
| `JitterBufferModel.JitterBuffer.GetAndResetLostPacketCount` | libtgvoip/JitterBuffer.cpp:446-451 | Returns the count of lost packets, which can be negative, and starts it anew |
| `JitterRuns.BoundsAreKept` | libtgvoip/JitterBuffer.cpp:290-307 | Whatever is done, at most 64 and at most the allowed number of slots are used |
| `JitterRuns.FramesComeInOrder` | libtgvoip/JitterBuffer.cpp:113-133 | Over every run, between two placements of the cursor the frames taken at offset 0 have strictly increasing timestamps |
| `JitterRuns.FramesAreGenuine` | libtgvoip/JitterBuffer.cpp:170-193 | Whatever is handed out was put under exactly the timestamp it is played for |
| `JitterRuns.RedundantNeverReplaces` | libtgvoip/JitterBuffer.cpp:229-240 | A redundant packet never changes one that is stored |
| `JitterRuns.LedgerBalances` | libtgvoip/JitterBuffer.cpp:134-142 | Over every run the outstanding delay change is a multiple of 20 and equals what ticks asked for less what outputs paid |
| `JitterRuns.TickRequests` | libtgvoip/JitterBuffer.cpp:374-407 | A tick asks for 60 for each step of the delay and for one correction of -60, -20, 0 or 20 |
| `JitterRuns.LossesAreCounted` | libtgvoip/JitterBuffer.cpp:201-216 | Over every run the lost packets reported and still to be reported are the misses at the cursor less the packets that came late after all, and fewer misses in a row than the limit go by without a reset |
| `JitterRuns.DebtDrains` | libtgvoip/JitterBuffer.cpp:134-142 | Outputs alone bring the outstanding change to zero in a twentieth of its size |
| `JitterRuns.DelayMovesSlowly` | libtgvoip/JitterBuffer.cpp:369-396 | A tick moves the wanted delay by at most one, raises it exactly if the guard against raising is 0 and the target is above it, lowers it exactly if the other guard, once counted down, is 0 and the target is below it, and does not take it out of its limits |
| `JitterRuns.DelayStaysWithin` | libtgvoip/JitterBuffer.cpp:20-31 | Over all runs that configure no count above the greatest delay, the wanted delay stays within its limits if and only if the settings put them around 6, the delay a buffer starts with |
| `JitterRuns.DelayIsWithinAsConfigured` | libtgvoip/JitterBuffer.cpp:53-57 | After any run in which a count was configured, the wanted delay is within its limits if and only if the count configured last is not above the greatest delay |
| `JitterRuns.DelayIsRaisedAtMostOnce` | libtgvoip/JitterBuffer.cpp:383-394 | After any run a tick raises the wanted delay if and only if it wants more and no earlier action blocked, a block being a tick that wanted more or the reset after too many losses; so ticks raise it at most once in a call |
| `JitterRuns.GuardIsExact` | libtgvoip/JitterBuffer.cpp:207-211 | Over every run the guard is up exactly if something has blocked, and ticks have raised the delay once if the first that blocked was a tick and never otherwise |
| `JitterRuns.SecondRaiseIsRefused` | libtgvoip/JitterBuffer.cpp:383-394 | A run of one tick after which the same tick wants more and is refused |
| `JitterRuns.LossesForbidRaising` | libtgvoip/JitterBuffer.cpp:207-211 | In every configuration some run without any tick ends in the reset after losses with the delay still 6, and after it no tick of any continuation raises the delay |
| `JitterRuns.FirstPacketWaits` | libtgvoip/JitterBuffer.cpp:242-247 | A packet put into a cleared buffer is played by the output after exactly the wanted delay, and every output before it buffers |
| `BlockingQueueModel.PutInto` | libtgvoip/BlockingQueue.h:32-47 | A put is stored exactly when there is room; an overflow loses nothing but what the callback is handed |
| `BlockingQueueModel.BlockingQueue.Put` | libtgvoip/BlockingQueue.h:32-47 | The loop stores, hands back from the front, or aborts, and releases the semaphore exactly when it stored |
| `BlockingQueueModel.BlockingQueue.GetBlocking` | libtgvoip/BlockingQueue.h:49-53 | Takes the front exactly when the semaphore lets it through |
| `Pipeline.NeverAbortsIffRoomForAll` | libtgvoip/BlockingQueue.h:32-44 | In every interleaving of any number of threads no put aborts, exactly if the queue can hold the whole pool and every NULL |
| `Pipeline.RunKeepsInvariant` | libtgvoip/BlockingQueue.h:32-53 | In every interleaving each buffer is in one place, the semaphore counts the queue but for threads in between, frames leave in the order and with the content they were put, and an empty list is never popped |
| `Pipeline.NoLostWakeup` | libtgvoip/BlockingQueue.h:49-53 | While something is queued and the semaphore is 0, some thread is between semaphore and list |
| `Pipeline.EveryPipelineIsSafe` | libtgvoip/OpusDecoder.cpp:43-45 | Encoder (stopped once), decoder, mixer and echo canceller never overflow their queues |
| `OpusEncoder.SafeForOneStop` | libtgvoip/OpusEncoder.cpp:61-78 | With callback, encoder thread and control thread interleaved in any way, and Stop joining the thread, no put aborts in any run if and only if the encoder is stopped at most once; started again and stopped a second time it can |
| `OpusEncoder.EncoderRunsAreRuns` | libtgvoip/OpusEncoder.cpp:110-201 | For pool and queue every run of the encoder is a run of the pipeline, so what holds over those holds for it |
| `OpusEncoder.AbortNeedsLeftOverNull` | libtgvoip/OpusEncoder.cpp:71-78 | From every reachable state in which the encoder runs, however often it was stopped before, the next stop can abort in some run if and only if the NULL of an earlier stop is still queued |
| `Pipeline.StepConserves` | libtgvoip/OpusEncoder.cpp:110-124 | Every step keeps each buffer handed out with one thread or once in the queue |
| `Pipeline.RoomForOne` | libtgvoip/EchoCanceller.cpp:115-118 | A thread that holds a buffer finds room for it |
| `BridgeModel.ReactsLedger` | tg2sip/gateway.cpp:672-708 | Every event keeps both legs of a bridge open with the call it holds, or closes them with each call over in exactly one way |
| `BridgeModel.ReactsShaped` | tg2sip/gateway.cpp:636-708 | The ids a bridge holds and its controller follow from its state in the transition tables |
| `BridgeModel.TerminateCounts` | tg2sip/gateway.cpp:105-141 | Entering the terminal state issues one discard for a Telegram call still held, one hangup for a SIP call still held, and nothing else |
| `GatewayModel.NoCallLeaks` | tg2sip/gateway.cpp:96-141 | Over every run that goes on, a call a bridge ever held is, once the bridge left the list, ended by the other side or released once by the bridge, never both and never neither |
| `GatewayModel.HaltingLeaksACall` | tg2sip/gateway.cpp:151-155 | A run that ends by the exception for an unknown user leaves a Telegram call that nobody ended or discarded |
| `GatewayModel.ListedCallsAreOpen` | tg2sip/gateway.cpp:840-852 | A listed bridge is started and not terminated, and the calls it holds are exactly those not over |
| `GatewayModel.LameBridgesEnd` | tg2sip/gateway.cpp:200-210 | A started bridge that lacks a leg it should have always has its internal error queued |
| `GatewayModel.AudioIsBridgedInOrder` | tg2sip/gateway.cpp:643-666 | Audio is bridged only after the caller was answered, the controller was started and SIP media was reported for that bridge |
| `GatewayModel.StrayEventsChangeNothing` | tg2sip/gateway.cpp:680-689 | An event no bridge is there for changes the list exactly if it starts a bridge, and the loop stops exactly for a new Telegram call of an unknown user |
| `GatewayModel.InternalErrorsAreForOne` | tg2sip/gateway.cpp:878-894 | An internal error ends exactly the bridge it was raised for; a stale one changes nothing else |
| `GatewayModel.NoTwoShareACall` | tg2sip/gateway.cpp:819-838 | If the clients give out fresh numbers, no two listed bridges hold the same SIP or Telegram call |
| `GatewayModel.Find` | tg2sip/gateway.cpp:819-820 | The first bridge an event matches |
| `GatewayModel.RunKeepsInvariant` | tg2sip/gateway.cpp:840-909 | Every run keeps contexts distinct, listed bridges good and every other context closed |
| `GatewayLoop.Gateway.SearchCall` | tg2sip/gateway.cpp:819-838 | Finds the bridge of an event or appends a new one |
| `GatewayLoop.Gateway.Dispatch` | tg2sip/gateway.cpp:846-851 | Hands the event to one bridge and erases it from the list when it has terminated |
| `GatewayLoop.Gateway.ProcessEvent` | tg2sip/gateway.cpp:896-909 | Processing an event is one step of the model |
| `GatewayLoop.Gateway.ProcessInternalEvents` | tg2sip/gateway.cpp:878-894 | Processing an internal error is one step of the model |
| `TimerQueue.InsertKeepsSorted` | libtgvoip/MessageThread.cpp:143-160 | Inserting behind every message due no later keeps the queue sorted |
| `TimerQueue.InsertAdds` | libtgvoip/MessageThread.cpp:143-160 | Inserting adds that message and loses none |
| `TimerQueue.DueIsAPrefix` | libtgvoip/MessageThread.cpp:96-103 | What a pass takes out is a prefix of the queue, and everything left is due later |
| `TimerQueue.CollectTakesTheDue` | libtgvoip/MessageThread.cpp:96-103 | In every reachable state a pass takes exactly what is due, in the order of the deadlines |
| `TimerQueue.WaitEndsInTime` | libtgvoip/MessageThread.cpp:60-63 | The wait ends no later than any queued deadline |
| `TimerQueue.TimerIsSound` | libtgvoip/MessageThread.cpp:57-119 | Over every run the queue is sorted, each id is live at most once, and nothing is delivered before its deadline |
| `TimerQueue.DeadlinesAreExact` | libtgvoip/MessageThread.cpp:107-116 | The deadlines of a message are an exact arithmetic progression from the time it was posted for |
| `TimerQueue.NoMessageIsLost` | libtgvoip/MessageThread.cpp:113-116 | A posted message is live until it is cancelled, or delivered the one time it asked for |
| `TimerQueue.CancelledNeverComes` | libtgvoip/MessageThread.cpp:162-178 | A message cancelled while queued is never delivered again, whatever follows |
| `TimerQueue.LateCancelStillDelivers` | libtgvoip/MessageThread.cpp:95-119 | In every state with the invariant and the mutex free or held by a running message: after Cancel(id) some run delivers the message again if and only if it is not queued and was taken out with the batch, or is the running repeating message and has not called CancelSelf; and Cancel of a message that is not queued changes nothing |
| `MessageThreadModel.MessageThread.InsertMessageInternal` | libtgvoip/MessageThread.cpp:143-160 | The scan inserts at the stable sorted place |
| `MessageThreadModel.MessageThread.Post` | libtgvoip/MessageThread.cpp:123-141 | Posts under the next id |
| `MessageThreadModel.MessageThread.Cancel` | libtgvoip/MessageThread.cpp:162-178 | The erase loop drops exactly the queued messages with that id |
| `MessageThreadModel.MessageThread.CollectDue` | libtgvoip/MessageThread.cpp:95-103 | The scan moves exactly the due messages to the batch, in order |
| `MessageThreadModel.MessageThread.TakeUp` | libtgvoip/MessageThread.cpp:105-109 | The next message of the batch is taken up, with its deadline |
| `MessageThreadModel.MessageThread.Return` | libtgvoip/MessageThread.cpp:113-116 | A repeating message that did not cancel itself is queued one interval later |
| `VideoFrames.FrameArrives` | libtgvoip/PacketReassembler.cpp:24-70 | The segments of a frame, each at most once and in any order, give exactly that frame once if all arrive and nothing otherwise, whatever parts were left over |
| `VideoFrames.StreamArrives` | libtgvoip/PacketReassembler.cpp:24-70 | Over a whole stream the callback gets exactly the completely arrived frames, in order and as sent, between any frames given up |
| `VideoFrames.NumberZeroIsLost` | libtgvoip/PacketReassembler.cpp:26-36 | After a complete fragmented frame, the next one arrives exactly if its number is not 0 |
| `VideoFrames.FirstPassGivesFrame` | libtgvoip/PacketReassembler.cpp:24-70 | With nothing left over, as many arrivals as the frame has segments give the frame if and only if they are distinct, and nothing otherwise |
| `VideoFrames.RepeatsGiveCopies` | libtgvoip/PacketReassembler.cpp:24-70 | With nothing left over, any arrivals at all, repeated or not, give the frame once for each successive complete run of distinct segments, until a run with a repeated one; number 0 gives a fragmented frame once only |
| `VideoFrames.RepeatsOverLeftovers` | libtgvoip/PacketReassembler.cpp:24-70 | Whatever earlier frames left: a first frame comes if and only if every part has arrived or holds something left over, and it is then the new and old parts joined; after it only true copies, and without it nothing ever |
| `VideoFrames.DuplicateMixesFrames` | libtgvoip/PacketReassembler.cpp:48-66 | An instance: one segment that arrives twice completes a frame with a part of an older one |
| `VideoFrames.FramesUpTo255Arrive` | libtgvoip/VoIPController.cpp:3351-3390 | All segments of a frame, once each and in any order, give it if and only if there are at most 255; of a longer frame nothing that arrives ever gives it |
| `VideoFrames.TooLongIsCut` | libtgvoip/VoIPController.cpp:3351-3390 | A frame of more than 255 segments whose truncated count is 2 or more, sent in order, is given out cut off after that many segments |
| `VideoFrames.TooLongComesInPieces` | libtgvoip/PacketReassembler.cpp:37-41 | A frame of more than 255 segments whose truncated count is 0 or 1 is given out as one frame for each segment |
| `VideoFrames.SegmentsCover` | libtgvoip/VoIPController.cpp:3351-3360 | The segments tile the frame, 1024 bytes each but for the last |
| `PacketReassemblerModel.PacketReassembler.AddFragment` | libtgvoip/PacketReassembler.cpp:24-70 | The parts array is filled, counted and emptied as the functions say |
| `PacketReassemblerModel.PacketReassembler.TakeParts` | libtgvoip/PacketReassembler.cpp:60-64 | The loop joins the parts in order and lets go of them |
| `PacketReassemblerModel.SendVideoFrame` | libtgvoip/VoIPController.cpp:3351-3390 | The loop sends every segment of the frame, in order, with its index and count |
| `CongestionControlModel.EveryRunConserves` | libtgvoip/CongestionControl.cpp:54-119 | In every reachable state the bytes in flight are the sizes of the live packets, and accepted sends are acknowledged, lost or live |
| `CongestionControlModel.EvictionTakesTheOldest` | libtgvoip/CongestionControl.cpp:75-93 | A send gives up a live packet only when every slot is taken, and then one sent earliest |
| `CongestionControlModel.ChoiceIsFreeOrOldest` | libtgvoip/CongestionControl.cpp:75-87 | The scan picks a free slot or one with the smallest send time |
| `CongestionControlModel.TickedConserves` | libtgvoip/CongestionControl.cpp:109-117 | After a tick no live packet is older than two seconds, and the balance is kept |
| `CongestionControlModel.Find` | libtgvoip/CongestionControl.cpp:57-58 | The first live slot with that number |
| `CongestionControlModel.CongestionControl.PacketSent` | libtgvoip/CongestionControl.cpp:68-98 | A new number takes the chosen slot; the subtraction never underflows |
| `CongestionControlModel.CongestionControl.PacketAcknowledged` | libtgvoip/CongestionControl.cpp:54-66 | An acknowledgement frees the first live packet with that number, if any |
| `CongestionControlModel.CongestionControl.Tick` | libtgvoip/CongestionControl.cpp:101-119 | The loop gives up exactly the expired packets |
| `ObfuscatedTcp.StreamRoundTrip` | libtgvoip/NetworkSocket.cpp:272-346 | Any sequence of packets with lengths that are multiples of 4 below 2^26 comes through, with both cipher positions in step at the end |
| `ObfuscatedTcp.PacketRoundTrip` | libtgvoip/NetworkSocket.cpp:272-346 | A packet comes back and the two ends stay in step exactly if its length is a multiple of 4 below 2^26 |
| `ObfuscatedTcp.SentIsReceived` | libtgvoip/NetworkSocket.cpp:300-346 | Of any other packet the receiver gets the part its prefix carries and finds the rest on the wire |
| `ObfuscatedTcp.CryptTwice` | libtgvoip/NetworkSocket.cpp:98-100 | Encrypting twice at the same keystream position gives the bytes back |
| `ObfuscatedTcp.Sender.Send` | libtgvoip/NetworkSocket.cpp:272-287 | The prefix and the packet are sent encrypted at the sender's position |
| `ObfuscatedTcp.Receiver.ReadBody` | libtgvoip/NetworkSocket.cpp:331-338 | However the body arrives in pieces, it is read whole, or the connection ended |
| `ObfuscatedTcp.Receiver.Receive` | libtgvoip/NetworkSocket.cpp:300-346 | A receive gives what the functions say, whatever the pieces |

## Left out

- Encryption, hashing and key derivation are not modelled; only the TCP framing uses a keystream, which is arbitrary.
- Sockets, the SOCKS5 proxy, TDLib and pjsip calls, audio devices, the Opus codec and the WebRTC filters are outside the model.
- Endpoint selection, bitrate limits, signal bars and round-trip-time averages are floating-point thresholds around simple branches.
- The `go/` port, settings, logging and contact caches are not modelled; a cached or looked-up user is part of the reply to dialling.
- DTMF messages (tg2sip/gateway.cpp:854-876) are not routed in the model: the sender check there returns for every user.
- The user id and the extension a bridge remembers only choose whom to dial and where DTMF goes; both are part of the replies.
- Bridges are values in the gateway's list, so aliasing of a bridge object is not captured; the timer's callbacks are the actions between taking a message up and returning from it.
- The gateway's event loop is modelled one event at a time; the order in which it alternates between its three queues is left to the run.
- JSON floating-point numbers are not printed: the printer keeps six significant digits, so they do not come back; comments and rounding to doubles are left out.
- Message ids, contexts and all counters other than packet numbers are unbounded; their wrap-around after 2^32 steps is not modelled.
- The wanted delay measured from arrival times (a standard deviation) is an arbitrary number given to each tick of the jitter buffer, and the result for a packet larger than the caller's memory is only that it was consumed.
- `BlockingQueue::Get` and the extra release in the queue's destructor are not used by the pipelines.
- `MessageThread::Stop` and the platform's waiting primitives are left out; a wake-up may come at any time.
- The two-peer runs are those of the forms that carry extras; headers of the set-up form, and of the older form before version 6, carry none and stamp none, and a change between forms within a call is not part of a run.
- The encoder thread's work on a packet between taking it and giving its buffer back is one arbitrary change of the samples.
- A TCP length prefix of which only one or two of three bytes have arrived is treated as an ended connection.
- Buffer moves and resizes (libtgvoip/Buffers.h:110-195) are plain copies of the memory manager and are left out.
- WireHeader.SimpleBlockRoundTrip: the length covers thirteen bytes of header but not the extras, as the code writes it; lengths near 2^32 wrap.
