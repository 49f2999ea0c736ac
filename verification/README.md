# SinkVITA49: verification model

SinkVITA49 takes BULKIO pushes of any length, cuts them into VITA 49 IF data packets of one payload size, stamps and
counts the packets, and hands them through a queue to a transmitter thread; IF context packets are put into the same
queue. Samples that do not fill a packet wait in a spare buffer for the next push and go out in a short packet at end
of stream. A TCP server class with per-session write queues stands beside it.

The model follows that structure.

| file | what it holds |
|---|---|
| `Arithmetic.dfy`, `ByteStrings.dfy` | repeated addition, quotient and remainder; bytes put end to end |
| `Timestamps.dfy` | `calcNextTimeStamp` assignment by assignment, and the back-dating offset as written, modulo 2^32 |
| `PayloadSizing.dfy`, `PayloadLife.dfy` | `createPayload` and the settings around it; the payload over the life of a component against the buffer allocated once |
| `Repacketiser.dfy` | the class `SinkVITA49`: `singleService` from its size computation to its end, the spare buffer an array changed in place |
| `StreamRun.dfy` | whole streams of pushes against the reference `Cut` ("all samples end to end, cut every P bytes, last piece short") |
| `StreamTimes.dfy` | time stamps and packet counts over whole streams |
| `ModeSwitch.dfy` | the push whose SRI changes between scalar and complex |
| `SpareBuffer.dfy` | when the copies stay inside the spare buffer, for one push and for all after it |
| `ServiceRun.dfy` | the class called for every push of a stream, in one format or in several, proved against `StreamRun` |
| `SriMerge.dfy` | the current SRI: comparing, merging, setting keywords |
| `Lifecycle.dfy` | stream setup and teardown, the threads' existence, what is put into the queue, as a transition system with its invariant |
| `Effects.dfy` | what each step of it puts out, starts, ends and keeps, counted |
| `Isolation.dfy`, `ContextOrder.dfy`, `Attachment.dfy` | over all runs of it: packets of one stream, context before data, attachment |
| `Component.dfy` | the same functions as methods of a class, and any sequence of calls to them |
| `TxQueue.dfy` | the queue between service, timer and transmitter threads, with interleaved steps |
| `TcpServer.dfy`, `TcpObjects.dfy` | the TCP server's queues, fan-out and receive buffer; as transition systems and as classes proved against them |
| `TcpLocks.dfy` | the order in which the TCP server takes its two locks |

A method's contract ties the object's new state to a function of the old one (`PushOutcome`, `RunOf`, `Merged`,
`Lifecycle.SingleService`, `HubStep`, ...). The lemmas then prove what that function means for all inputs and all runs.

## What the code does where its intent is different

Each of these is a theorem below; the model keeps the code's behaviour.

- A non-empty push that meets carried bytes and does not complete a packet with them writes over them (lines 1211-1214 of
  `cpp/SinkVITA49.cpp`), and what is saved runs past the push's own data; and a scalar that is half a complex sample at
  the end of a push is dropped. `StreamRun.RefinesRawIff` has the exact condition for a stream to come out as pushed.
- The sizes of a push and the test of the packet loop use the multiplier from before the push's SRI is merged.
  `ModeSwitch.ModeSwitchIff` has the exact condition under which a mode change does no harm, with or without carried bytes.
- After a change from complex to scalar a push can leave up to almost two packets: more than the spare buffer holds
  (`SpareBuffer.CopiesCanOverrun`), or more than the packet the next push completes with it, so that the unsigned length of
  that copy wraps around (`SpareBuffer.SavedCanExceedPacket`). `SpareBuffer.CopiesFitIff` has the exact condition for one push,
  `SpareBuffer.SwitchRunIff` for one push and all after it.
- The back-dating offset is negated as an unsigned number. For complex data the stamp of a packet that begins with carried samples
  is 2^31 sample periods late (`Timestamps.BackOffsetValue`, `StreamTimes.RunTimes`, `StreamTimes.TimesRightIff`).
- The short last packet is not back-dated when the last push does not complete a packet with the bytes it meets, as an
  empty one does not (`StreamTimes.FlushRightIff`).
- The clamp in `createPayload` leaves a too large packet too large (`PayloadSizing.LimitMetIff`, `PayloadSizing.LimitMissed`).
- The spare buffer is allocated once, for the payload size of that moment. When encapsulation and sample size change between
  calls a packet can outgrow it (`PayloadSizing.EncapsulationCanOutgrow`), exactly for sizes from 65448 to 65491
  (`PayloadLife.StreamFitsIff`); and since a teardown puts the size back to 1428, also for sizes below 1400 from the second
  stream on (`PayloadLife.StreamsFitIff`). With new settings in between only 65492 and more is enough
  (`PayloadLife.AnythingFitsIff`).
- `compareSRI` sees neither keyword ids nor `yunits` nor `blocking` (`SriMerge.SriHolder.CompareSRI`), and `subsize` is compared
  but never merged (`SriMerge.AlwaysReportsIff`).
- The private keywords added at setup make every later merge of an unchanged SRI report a change, unless the sender
  carries both (`SriMerge.StreamAlwaysReportsIff`).
- `TRANSMITTER` never counts its packets, so with a burst of one or more it never pauses (`TxQueue.EveryRun`).
- Refreshing the transmit thread clears the attachment; until the next setup no SRI of the stream is merged
  (`Attachment.AttachedIff`, `Attachment.DetachedStreamIsFrozen`, `Attachment.RefreshDetaches`).
- `force_transmit` skips the stream check. A push of another stream can then share a packet with the active one, and its SRI
  can configure the active stream without a context packet. `Isolation.StepIsolatedIff` and
  `ContextOrder.StepContextFirstIff` say exactly which pushes do it.
- The time kept for the timer's context packets divides picoseconds by 10e9 (`Timestamps.TimerContextTime`).
- The TCP server deadlocks when the completion of a write fails at a session it is about to write to
  (`TcpLocks.StuckIff`, `TcpLocks.OnlyFailureDeadlocks`).

## Model

| member | source | states |
|---|---|---|
| Timestamps.CalcNextTimeStamp | cpp/SinkVITA49.h:190-229 | for a normal time the result is exactly T + n * xdelta with a fraction in [0, 1), for offsets of either sign; the branch that borrows a second is dead; the packet's stamp is its picosecond form |
| Timestamps.AdvanceExactIff | cpp/SinkVITA49.h:198-225 | for every input, normal or not: always normalised, and exact if and only if the fractions do not add up to a negative number with a fraction of its own |
| Timestamps.AdvanceCompose | cpp/SinkVITA49.h:190-229 | moving by a and then by b is moving by a + b |
| Timestamps.StampIsQuantise | cpp/SinkVITA49.h:194-227 | a normal time with whole seconds is stamped as the one real instant it denotes, cut to picoseconds, whichever branches were taken |
| Timestamps.QuantiseLoss | cpp/SinkVITA49.h:227 | picoseconds stay below 10^12, and less than one picosecond is lost |
| Timestamps.BackOffsetValue | cpp/SinkVITA49.cpp:1178 | the modular offset is minus the carried samples for scalar data and 2^31 minus them for complex data; it is the intended one if and only if the data is scalar |
| Timestamps.TimerContextTime | cpp/SinkVITA49.cpp:1191-1192 | the timer's context time is ahead of its data packet by 99 times the fraction, so right if and only if that is zero |
| PayloadSizing.PayloadSettings.constructor | cpp/SinkVITA49.cpp:206 | the payload size starts at 1428 with the spare buffer still to be allocated |
| PayloadSizing.PayloadSettings.Configure | cpp/SinkVITA49.cpp:356-360 | the requested payload size, capped at 65503 |
| PayloadSizing.PayloadSettings.MemoryManagement | cpp/SinkVITA49.cpp:236-243 | the spare buffer has 28 bytes more than the payload size in force |
| PayloadSizing.PayloadSettings.InitializeValues | cpp/SinkVITA49.cpp:187-208 | a teardown puts the payload size back to 1428 and the samples per packet to zero, and leaves the buffer as it is |
| PayloadSizing.PayloadSettings.AddUp | cpp/SinkVITA49.cpp:579-623 | the parts of a packet add up to its size |
| PayloadSizing.PayloadSettings.CreatePayload | cpp/SinkVITA49.cpp:577-676 | the sum of the parts, the report and the remainder formula come out as the clamp and the truncated number of samples |
| PayloadSizing.ClampLeaves | cpp/SinkVITA49.cpp:625-629 | the clamp moves the payload by whole frames F and leaves an excess between F + 1 and 2F; a packet within the limit is left alone |
| PayloadSizing.LimitMetIff | cpp/SinkVITA49.cpp:672-676 | the limit of 65515 is met after createPayload if and only if it was met before, even counting only whole frames of the payload |
| PayloadSizing.LimitMissed | cpp/SinkVITA49.cpp:672-676 | the largest payload with 56 bytes around it is cut by 36 of the 44 bytes it is over the limit, and stays over it |
| PayloadSizing.ClampIdempotent | cpp/SinkVITA49.cpp:672-676 | a second createPayload with the same settings changes nothing |
| PayloadSizing.PayloadRunExcess | cpp/SinkVITA49.cpp:672-676 | over any sequence of calls in either mode the payload keeps its residue and its excess stays within four scalars |
| PayloadSizing.SpareBufferSuffices | cpp/SinkVITA49.cpp:236-243 | over any number of calls under one encapsulation and scalar size, in either mode, the payload grows by at most 24 bytes, so a packet's payload always fits the buffer allocated for it |
| PayloadSizing.PayloadStableIff | cpp/SinkVITA49.cpp:577-676 | no encapsulation and sample size makes createPayload change the payload if and only if it is at most 65447 bytes |
| PayloadSizing.EncapsulationCanOutgrow | cpp/SinkVITA49.cpp:672-676 | an input for the failing sizes of `PayloadLife.StreamFitsIff`: three calls with ever less around the payload |
| PayloadLife.Do | cpp/SinkVITA49.cpp:577-676 | a call, a teardown or new settings change the payload size as the life says and never the buffer |
| PayloadLife.Live | cpp/SinkVITA49.cpp:1030-1034 | settings, allocation and any acts after it: payload and buffer size, and the packet of the last call inside the buffer whenever `FitsAfter` holds |
| PayloadLife.LastCallBound | cpp/SinkVITA49.cpp:672-676 | whole samples are at most 65520 bytes after any call, whatever the payload was |
| PayloadLife.StreamFitsIff | cpp/SinkVITA49.cpp:236-243 | for a reserved size from 0 to 65503, after every sequence of calls with any encapsulations and sample sizes the packet fits the buffer if and only if the size is at most 65447 or at least 65492 |
| PayloadLife.StreamsFitIff | cpp/SinkVITA49.cpp:187-243 | over any number of streams, each torn down, this holds if and only if the size requested at first is from 1400 to 65447 or at least 65492 |
| PayloadLife.SecondStreamOverruns | cpp/SinkVITA49.cpp:205-206 | below 1400 the second stream's packet of 1428 bytes does not fit |
| PayloadLife.AnythingFitsIff | cpp/SinkVITA49.cpp:339-360 | with new settings in between it holds if and only if the size requested at first is at least 65492 |
| Repacketiser.SinkVITA49.constructor | cpp/SinkVITA49.cpp:187-208 | nothing carried, nothing queued, a spare buffer of 28 bytes more than the payload |
| Repacketiser.SinkVITA49.CreatePacket | cpp/SinkVITA49.cpp:708-741 | the packet has its time and its count modulo 16, and the counter moves on |
| Repacketiser.SinkVITA49.TearDown | cpp/SinkVITA49.cpp:187-208 | nothing is carried and the counters are zero |
| Repacketiser.SinkVITA49.CarriedTurn | cpp/SinkVITA49.cpp:1175-1182 | the carried bytes completed by the push's first bytes make one packet, back-dated by the offset as written |
| Repacketiser.SinkVITA49.PlainTurn | cpp/SinkVITA49.cpp:1183-1188 | the packet is the next slice of the push, stamped with its element index |
| Repacketiser.SinkVITA49.PacketLoop | cpp/SinkVITA49.cpp:1162-1201 | the loop appends exactly the packets of the carried bytes and the push laid end to end, and leaves index, countdown and carried size as the number of packets says |
| Repacketiser.SinkVITA49.SaveRemainder | cpp/SinkVITA49.cpp:1203-1215 | the bytes carried on are those the code leaves at the front of the spare buffer, overwritten ones included |
| Repacketiser.SinkVITA49.EndOfStream | cpp/SinkVITA49.cpp:1217-1238 | the remainder goes out as one short packet and the stream's state is reset |
| Repacketiser.SinkVITA49.SingleService | cpp/SinkVITA49.cpp:1121-1246 | for every push, carried remainder, merge and content of memory behind the push whose copies stay inside the spare buffer: exact queue, spare buffer and counters, with sizes taken before the merge; what is carried is whole scalars again; nothing is queued while samplesPerPacket < 1 |
| Repacketiser.Reach | cpp/SinkVITA49.cpp:1162-1215 | how far one call reads: its packets and remainder end within the carried bytes, the push and one packet behind it; the remainder is less than the tested size |
| Repacketiser.WholeIsSampleCount | cpp/SinkVITA49.cpp:1123-1125 | counting in samples and back drops exactly the scalars that are no whole sample |
| Repacketiser.SizeComputation | cpp/SinkVITA49.cpp:1121-1125 | the code's byte count is the whole samples carried plus the whole samples of the push |
| Repacketiser.OutcomeAligned | cpp/SinkVITA49.cpp:1203-1215 | one call carries whole scalars on, whatever the two multipliers |
| StreamRun.PushQuotient | cpp/SinkVITA49.cpp:1155-1215 | with D bytes carried and new, one call emits D / P packets and leaves D mod P bytes |
| StreamRun.PushContents | cpp/SinkVITA49.cpp:1155-1215 | a push that is empty, meets nothing carried or completes a packet is cut with the carried bytes as one piece: nothing lost, doubled or moved |
| StreamRun.RunLengths | cpp/SinkVITA49.cpp:1121-1246 | for every stream, even one that loses content, packets and carried bytes are quotient and remainder of the whole input and the remainder is less than a packet |
| StreamRun.RunContents | cpp/SinkVITA49.cpp:1121-1246 | at every point of a stream of ample pushes, packets in order and then carried bytes are the input so far, all packets full |
| StreamRun.RunRefinesCut | cpp/SinkVITA49.cpp:1121-1238 | at end of stream the payloads are the reference cut of the stream's whole samples, the last one short |
| StreamRun.SplitDoesNotMatter | cpp/SinkVITA49.cpp:1121-1246 | two ways of splitting the same input into ample pushes give the same payloads and carry |
| StreamRun.BadRun | cpp/SinkVITA49.cpp:1203-1215 | if one push is not ample, some content of memory makes the stream's bytes come out wrong, whatever follows |
| StreamRun.RefinesIff | cpp/SinkVITA49.cpp:1203-1238 | the whole samples of a stream come out as their reference cut for every content of memory if and only if each push is ample: empty, meeting nothing carried, or completing a packet |
| StreamRun.InputIsRaw | cpp/SinkVITA49.cpp:1121-1125 | the whole samples are all bytes pushed if and only if no push ends in half a complex sample |
| StreamRun.RefinesRawIff | cpp/SinkVITA49.cpp:1121-1238 | a stream comes out as all bytes pushed, cut into packets, for every content of memory if and only if each push is ample and a whole number of samples |
| StreamTimes.OffsetValue | cpp/SinkVITA49.cpp:1169-1178 | each packet's offset is its distance in samples from the push's first sample, off by 2^31 when complex data is back-dated |
| StreamTimes.RunTimes | cpp/SinkVITA49.cpp:1169-1187 | in a gapless stream packet k is stamped T0 + k * samplesPerPacket * xdelta and counted k mod 16, carried samples or not, except for the jump of complex back-dated packets |
| StreamTimes.TimesRightIff | cpp/SinkVITA49.cpp:1178 | all stamps of a gapless stream are right if and only if the data is scalar or no packet begins with carried samples |
| StreamTimes.FlushTime | cpp/SinkVITA49.cpp:1221-1226 | for every stream, ample or not, the short last packet is stamped with its first sample's instant, or later by the samples carried into a last push that completes no packet with them |
| StreamTimes.FlushRightIff | cpp/SinkVITA49.cpp:1221-1226 | with sample periods of a picosecond or more its stamp is right if and only if the last push meets nothing carried or completes a packet with it |
| ModeSwitch.SameTurns | cpp/SinkVITA49.cpp:1162 | a loop that tests for half or double a packet takes the right number of turns if and only if the remainder is small or there is no full packet |
| ModeSwitch.ModeSwitchIff | cpp/SinkVITA49.cpp:1121-1238 | a push that changes the mode, meeting any carried bytes up to a packet, has the outcome it should have if and only if its length, the carried length and its end-of-stream flag make it harmless |
| SpareBuffer.DoubleTest | cpp/SinkVITA49.cpp:1162 | a loop that goes on only while two packets are there leaves a packet and the remainder |
| SpareBuffer.CopiesFitIff | cpp/SinkVITA49.cpp:1177-1215 | with room for a packet, both copies of a push stay inside the spare buffer if and only if at most a packet is carried or none is cut, and the push is empty, does not go from complex to scalar, does not reach a packet, or leaves a packet and a remainder that fit |
| SpareBuffer.CopiesCanOverrun | cpp/SinkVITA49.cpp:1211-1214 | 2000 octets of a scalar stream after a complex one are all to be saved in a buffer of 1456 |
| SpareBuffer.SavedCanExceedPacket | cpp/SinkVITA49.cpp:1177 | 1430 octets fit and stay carried although a packet holds 1428, and no later push of any length stays inside |
| SpareBuffer.HarmlessFitsIff | cpp/SinkVITA49.cpp:1177-1215 | a push whose mode change does no harm stays inside if and only if at most a packet was carried |
| SpareBuffer.OutcomeCarries | cpp/SinkVITA49.cpp:1203-1215 | how many bytes one call carries on |
| SpareBuffer.LeavesLess | cpp/SinkVITA49.cpp:1162-1215 | in an unchanged format a push stays inside if and only if at most a packet is carried, and then leaves less than one |
| SpareBuffer.LaterFitIff | cpp/SinkVITA49.cpp:1177-1215 | in an unchanged format all copies of all pushes of any lengths stay inside if and only if at most a packet is carried into the first |
| SpareBuffer.SwitchRunIff | cpp/SinkVITA49.cpp:1121-1215 | all copies of a push that may change the mode and of any pushes after it stay inside if and only if at most a packet is carried into a packet and, from complex to scalar, the accepted bytes do not reach a packet or are whole packets |
| ServiceRun.ServeOne | cpp/SinkVITA49.cpp:1110-1246 | one call of the class is one step of the run, with or without a merge, the first one possibly changing the mode |
| ServiceRun.ServeNext | cpp/SinkVITA49.cpp:1110-1246 | the i-th push of a format takes the class from the run's i-th to its next state |
| ServiceRun.ServePiece | cpp/SinkVITA49.cpp:1030-1056 | called for all pushes of one format, the class appends exactly the run's packets and holds what the run carries, or is reset at end of stream |
| ServiceRun.Serve | cpp/SinkVITA49.cpp:1030-1056 | called for every push of a stream in one format, the class appends exactly the run's packets to the queue and ends with nothing carried; with ample pushes the payloads are the reference cut of the whole samples, and with whole pushes too, of all bytes |
| ServiceRun.PiecesRefine | cpp/SinkVITA49.cpp:1121-1246 | when the format changes only between full packets, the payloads are the cuts of the pieces, each by its own packet size, in order |
| ServiceRun.ServePieces | cpp/SinkVITA49.cpp:1030-1056 | called for every push of such a stream, the class appends the packets of all pieces, and with ample whole pushes their payloads are these cuts |
| ServiceRun.PacketFitsBuffer | cpp/SinkVITA49.cpp:236-243 | a packet in the format createPayload computes, after any number of calls in either mode, fits the spare buffer, which is all that `Serve` asks of it |
| ServiceRun.PacketFitsIff | cpp/SinkVITA49.cpp:236-243 | after any calls, teardowns and new settings the packet fits the buffer if and only if `PayloadLife.FitsAfter` says so |
| SriMerge.SriHolder.CompareSRI | cpp/SinkVITA49.cpp:1390-1423 | true if and only if nine fields agree and the keyword values agree place by place |
| SriMerge.CompareIsBlind | cpp/SinkVITA49.cpp:1390-1423 | SRIs that differ in keyword ids, yunits and blocking only are the same to compareSRI |
| SriMerge.CompareSees | cpp/SinkVITA49.cpp:1390-1423 | every other difference is seen |
| SriMerge.SriHolder.MergeOne | cpp/SinkVITA49.cpp:1451-1459 | one received keyword changes every stored keyword with its id among those stored at the start, and nothing else |
| SriMerge.SriHolder.MergeRecSRI | cpp/SinkVITA49.cpp:1425-1473 | reports a change if and only if compareSRI finds one; then the SRI has every received field but keywords, subsize and blocking, which are its own, its keywords are the stored ones overridden by the received ones, and it is pushed once; otherwise nothing changes, and a received SRI that is not the stored one differs in keyword ids, yunits or blocking |
| SriMerge.SriHolder.AddModifyKeyword | cpp/SinkVITA49.h:166-185 | the first keyword with the id gets the value, or a new one is appended; only the keyword list changes |
| SriMerge.MergeIsOverride | cpp/SinkVITA49.cpp:1446-1466 | read as a map, the merged list is the stored one overridden by the received one, for all lists, ids repeated or not |
| SriMerge.NewKeywordsFresh | cpp/SinkVITA49.cpp:1461-1466 | what is appended was received and has no stored id |
| SriMerge.NewKeywordsInOrder | cpp/SinkVITA49.cpp:1446-1466 | what is appended is every received keyword with a new id, in received order |
| SriMerge.MergeKeepsUnique | cpp/SinkVITA49.cpp:1446-1466 | unique ids stay unique, stored ids keep their places |
| SriMerge.MergedHasAll | cpp/SinkVITA49.cpp:1446-1466 | the merged ids are the stored and the received ones |
| SriMerge.RemergeIff | cpp/SinkVITA49.cpp:1446-1466 | merging the same list again changes nothing if and only if each keyword it added has the last value received for its id; always so for unique ids |
| SriMerge.SetKeywordKeeps | cpp/SinkVITA49.h:166-185 | no id is lost, the id set is there, the list grows by at most one |
| SriMerge.SetKeywordSets | cpp/SinkVITA49.h:166-185 | with unique ids, or when a keyword is added, exactly the given id has the given value |
| SriMerge.ApplyAllGrows | cpp/SinkVITA49.cpp:1425-1473 | over any merges and settings the keyword list never shrinks and subsize never changes |
| SriMerge.AlwaysReportsChange | cpp/SinkVITA49.cpp:1390-1473 | after one merge of a uniquely keyed SRI lacking a stored id, or with another subsize, every later merge of it reports a change, whatever happened in between |
| SriMerge.MergedLengthIff | cpp/SinkVITA49.cpp:1446-1466 | the merged list is as long as the received one if and only if every stored id was received |
| SriMerge.RepeatSilentIff | cpp/SinkVITA49.cpp:1390-1473 | a second merge of the same SRI reports no change if and only if the subsizes agree, every stored id was received and the received values stand in the order of the merged ids |
| SriMerge.AlwaysReportsIff | cpp/SinkVITA49.cpp:1390-1473 | further merges of the same SRI report a change whatever happened in between, if and only if a stored id was not received or the subsizes differ |
| SriMerge.PreparedIds | cpp/SinkVITA49.cpp:1256-1257 | after setup both private ids are there, no other is new, and with unique ids before they stay unique and exactly these two have the given values |
| SriMerge.StreamAlwaysReportsChange | cpp/SinkVITA49.cpp:1256-1257 | after setupOutputStream every later merge of an SRI that lacks either private keyword reports a change |
| SriMerge.StreamAlwaysReportsIff | cpp/SinkVITA49.cpp:1256-1257 | the reports never end if and only if the sender's SRI lacks a private keyword or a stored id, or has another subsize |
| Component.SinkVITA49Component.constructor | cpp/SinkVITA49.cpp:78-125 | the component starts in the initial state of the transition system |
| Component.SinkVITA49Component.DestroyTxThread | cpp/SinkVITA49.cpp:374-390 | both threads gone and detached; runThread is false if there was either, else as it was; nothing else changes |
| Component.SinkVITA49Component.LaunchTxThread | cpp/SinkVITA49.cpp:392-452 | destroys first; a failed launch leaves no thread; otherwise transmitter and, with a time-out, timer |
| Component.SinkVITA49Component.TearDownOutputStream | cpp/SinkVITA49.cpp:1265-1274 | no stream, no threads, nothing carried, waiting for an SRI; nothing at all when removeStream throws |
| Component.SinkVITA49Component.SetupOutputStream | cpp/SinkVITA49.cpp:1248-1263 | the stream is active under its hash and attached; nothing else changes |
| Component.SinkVITA49Component.PrepareService | cpp/SinkVITA49.cpp:1030-1041 | memory, refresh and launch as the transition system does them |
| Component.SinkVITA49Component.ReadyToProcessPacket | cpp/SinkVITA49.cpp:1081-1108 | forced, no listeners (with teardown), other stream, or ready |
| Component.SinkVITA49Component.CreateIFContextPacket | cpp/SinkVITA49.cpp:743-751 | a context packet only with a running thread and when the current SRI is the active stream's |
| Component.SinkVITA49Component.HandleSri | cpp/SinkVITA49.cpp:1140-1152 | merge, sizing and context packet only when attached and due, and only when the SRI's stream id or something else in it differs |
| Component.SinkVITA49Component.PushData | cpp/SinkVITA49.cpp:1161-1215 | the packets of a push, the first with the carried origins, and the remainder's origins |
| Component.SinkVITA49Component.SingleServiceCall | cpp/SinkVITA49.cpp:1127-1238 | one service call is one step of the transition system |
| Component.SinkVITA49Component.TimerTurn | cpp/SinkVITA49.cpp:456-469 | the timer puts out a context packet while it runs and no SRI is awaited |
| Component.SinkVITA49Component.Call | cpp/SinkVITA49.cpp:1030-1056 | every call or turn is one step of the transition system |
| Component.SinkVITA49Component.Execute | cpp/SinkVITA49.cpp:1030-1238 | any sequence of calls is a run and ends in the lifecycle invariant; unless one of its pushes mixes or uncovers a stream, every packet is of one stream and none lacks its context |
| Effects.DestroyEffect | cpp/SinkVITA49.cpp:374-390 | threads that agree with runThread are gone with it and the stream is untouched |
| Effects.LaunchEffect | cpp/SinkVITA49.cpp:392-452 | afterwards there is a transmitter, with runThread, if and only if the launch succeeded, and a timer if there is a time-out too |
| Effects.PrepareEffect | cpp/SinkVITA49.cpp:1030-1041 | threads are renewed when memory or settings ask for it, started when wanted and missing, and otherwise nothing happens; the stream, its samples and its packets stay |
| Effects.SettingsEffect | cpp/SinkVITA49.cpp:278-301 | new settings ask for a refresh and do nothing else |
| Effects.TearDownEffect | cpp/SinkVITA49.cpp:1265-1274 | no stream, no threads, nothing carried, no packet size, an SRI awaited; the queue as it was; nothing at all when removeStream throws |
| Effects.StopEffect | cpp/SinkVITA49.cpp:250-266 | stopping ends the stream |
| Effects.NoListenersEffect | cpp/SinkVITA49.cpp:1090-1097 | without listeners and without force_transmit a push is dropped and an active stream ends at once |
| Effects.OtherStreamEffect | cpp/SinkVITA49.cpp:1100-1104 | a push of another stream changes nothing |
| Effects.ServedPutsOut | cpp/SinkVITA49.cpp:1134-1238 | a served push puts out exactly the packets it completes, one for what remains at end of stream, one context packet for a reported SRI of the active stream while runThread holds, and sets up its stream if there was none |
| Effects.ServedLeaves | cpp/SinkVITA49.cpp:1134-1238 | end of stream ends the stream; otherwise it goes on with its packet size, its SRI merged, its threads and attachment as they were |
| Effects.ServedCarries | cpp/SinkVITA49.cpp:1203-1215 | samples are carried on if and only if some remain, or some were carried and no packet was completed |
| Effects.TimerEffect | cpp/SinkVITA49.cpp:456-469 | a turn of the timer puts out exactly one context packet while it runs, no SRI is awaited and the current SRI is the active stream's |
| Lifecycle.RunKeepsInv | cpp/SinkVITA49.cpp:374-452 | in every run: attached implies an active stream; without one nothing is carried or configured and an SRI is awaited; a timer implies a transmitter, and there is a transmitter if and only if runThread is set |
| Isolation.StepIsolatedIff | cpp/SinkVITA49.cpp:1081-1108 | a step keeps packets and carried samples to the one stream of their setup if and only if it is not a push of another stream, let in by force_transmit, that puts out a packet or leaves samples |
| Isolation.RunIsolated | cpp/SinkVITA49.cpp:1081-1108 | in every run without such a push, with force_transmit on or off, every packet has the hash of its setup's stream and every data packet samples of that setup and that stream only |
| Isolation.RunIsolatedIff | cpp/SinkVITA49.cpp:1081-1108 | a run is isolated throughout if and only if it has no such push |
| Isolation.ForceMixesStreams | cpp/SinkVITA49.cpp:1082-1085 | a run with such a push |
| ContextOrder.StepContextFirstIff | cpp/SinkVITA49.cpp:1140-1159 | a step keeps context before data if and only if it is not a foreign push whose SRI gives a running stream without a context packet its packet size, and does not end it empty |
| ContextOrder.RunContextFirst | cpp/SinkVITA49.cpp:1140-1159 | in every run without such a push, every data packet of a stream configured while runThread held comes after a context packet of the same setup |
| ContextOrder.RunContextFirstIff | cpp/SinkVITA49.cpp:1140-1159 | a run keeps the order throughout if and only if it has no such push |
| ContextOrder.ForceLosesContext | cpp/SinkVITA49.cpp:747-751 | a run with such a push: a stream restarted with an SRI that reports no change |
| Attachment.AttachedIff | cpp/SinkVITA49.cpp:374-390 | in every run an active stream is attached if and only if no step since its setup refreshed the threads |
| Attachment.DetachedStreamIsFrozen | cpp/SinkVITA49.cpp:1140-1152 | once detached, a stream stays detached and its SRI and packet size fixed until another setup |
| Attachment.RefreshDetaches | cpp/SinkVITA49.cpp:1034-1041 | changing the network settings while a stream is served leads there |
| TxQueue.NextKeepsInv | cpp/SinkVITA49.cpp:471-575 | each step of each thread keeps the queue's books |
| TxQueue.EveryRun | cpp/SinkVITA49.cpp:374-575 | in every interleaving: pushed is sent followed by queued; front() is never called on an empty queue; one transmitter at most, and every sent packet was sent by one; at most one packet after the stop; sends = burst * sleeps + pCount with pCount at most the burst; frame counts k mod 4096 |
| TxQueue.OwnStepMoves | cpp/SinkVITA49.cpp:516-568 | while anything is queued the running transmitter's next own step moves it: a test lets it past, a send takes exactly the front packet and counts its frame |
| TxQueue.FairDelivery | cpp/SinkVITA49.cpp:471-575 | in every interleaving without a destroy, two own steps for each packet queued are enough to send all of them, in order |
| TxQueue.DrainsAlone | cpp/SinkVITA49.cpp:471-575 | from every reachable running state the transmitter's own steps alone send exactly what is queued and leave the queue empty |
| TxQueue.PushesArrive | cpp/SinkVITA49.cpp:456-469 | what the service thread or the timer pushes is queued behind the rest |
| TxQueue.LaunchRuns | cpp/SinkVITA49.cpp:436-447 | a launch after a destroy leaves a running transmitter and the queue as it was, and a timer if and only if context packets are timed |
| TxQueue.TwoTransmittersFail | cpp/SinkVITA49.cpp:518-540 | with a second transmitter the test without the lock would lead to front() on an empty queue |
| TxQueue.DestroyCompletes | cpp/SinkVITA49.cpp:374-390 | from every reachable point of a destroy at most seven steps of the threads themselves end it, with no thread left |
| TxQueue.LaunchNeedsDestroy | cpp/SinkVITA49.cpp:392-394 | launching twice without the destroy that begins launch_tx_thread leads to front() on an empty queue |
| TxQueue.DestroyNearer | cpp/SinkVITA49.cpp:374-390 | during a destroy every step of any thread that does anything brings its end nearer |
| TxQueue.DestroyEnds | cpp/SinkVITA49.cpp:374-390 | in every interleaving a destroy is over after at most seven such steps, and until then one of the threads concerned has one |
| TcpServer.LinkStepKeepsInv | cpp/boost_tcp_server.h:79-95 | a write or a completion keeps the write queue's invariant |
| TcpServer.WriteQueueInOrder | cpp/boost_tcp_server.cpp:71-88 | in every interleaving without an error: a write is under way if and only if the deque is not empty, it is for the front entry, and completed and then queued bytes are all bytes accepted |
| TcpServer.AcceptsAllWrites | cpp/boost_tcp_server.h:79-95 | a session accepts all it is given, in order |
| TcpServer.CompletionAdvances | cpp/boost_tcp_server.cpp:71-88 | a successful completion takes exactly the front entry off the deque, counts it as completed and starts the next one |
| TcpServer.FairCompletion | cpp/boost_tcp_server.cpp:71-88 | in every interleaving of writes with as many successful completions as entries were queued, these are completed, in order |
| TcpServer.CompletionsDrain | cpp/boost_tcp_server.cpp:71-88 | as many successful completions as entries are queued complete all that was accepted and leave no write under way |
| TcpServer.HubStepKeepsInv | cpp/boost_tcp_server.cpp:135-174 | accepting, writing, completing and closing keep the slices |
| TcpServer.FanOutInOrder | cpp/boost_tcp_server.h:155-167 | in every run each session, open or closed, was handed exactly the contiguous part of the server's writes between its acceptance and its closing, and has completed a prefix of it |
| TcpServer.HubCounts | cpp/boost_tcp_server.cpp:162-174 | in every run each accepted session is there or closed, and the write log is what was written to the server |
| TcpServer.SessionIsLink | cpp/boost_tcp_server.h:155-167 | a session that does not fail lives exactly through the writes to the server and its own completions, whatever happens to the others |
| TcpServer.FanOutDelivers | cpp/boost_tcp_server.h:155-167 | with as many own successful completions as entries it had queued, all a session had accepted is completed, whatever else happens |
| TcpServer.FailureCloses | cpp/boost_tcp_server.cpp:71-80 | a failed completion takes its entry off and closes its own session, and no other |
| TcpServer.ReadTakes | cpp/boost_tcp_server.cpp:102-115 | a read takes the oldest pending bytes: all of them, or as many as there is room for |
| TcpServer.ReceiveIsFifo | cpp/boost_tcp_server.cpp:102-134 | in every run the bytes returned and then pendingData_ are the bytes received, all of them |
| TcpObjects.Session.constructor | cpp/boost_tcp_server.h:41-48 | a new session has an empty deque and no write under way |
| TcpObjects.Session.WriteData | cpp/boost_tcp_server.h:79-95 | the call is the write step of the session's transition system: the entry is queued if the socket is open, and its write started if it is the only one |
| TcpObjects.Session.HandleWrite | cpp/boost_tcp_server.cpp:71-88 | the callback is the completion step: the front entry leaves, counts as completed without an error, and then the next one is started if there is one |
| TcpObjects.Server.constructor | cpp/boost_tcp_server.h:121-131 | no session, nothing received, one session waiting to be accepted |
| TcpObjects.Server.HandleAccept | cpp/boost_tcp_server.cpp:149-174 | the waiting session joins the list unless there was an error, and another one waits |
| TcpObjects.Server.WriteToAll | cpp/boost_tcp_server.h:155-167 | the loop over the sessions is the broadcast step, each session written once |
| TcpObjects.Server.CloseSession | cpp/boost_tcp_server.cpp:135-146 | exactly the given session leaves the list |
| TcpObjects.Server.WriteEnded | cpp/boost_tcp_server.cpp:71-88 | a completion moves one session's queue on, or closes that session on an error, and touches no other |
| TcpObjects.Server.NewSessionData | cpp/boost_tcp_server.cpp:121-134 | the copying loop appends the received bytes |
| TcpObjects.Server.Read | cpp/boost_tcp_server.cpp:102-115 | the caller keeps its first index bytes, filled up with zeros, and gets the oldest pending bytes after them: all of them, or exactly as many as the unsigned room; these and no others leave the buffer |
| TcpLocks.StuckIff | cpp/boost_tcp_server.cpp:71-88 | in every run no thread can move if and only if a completion failed at the session the writer is about to write to |
| TcpLocks.DeadlockIsReached | cpp/boost_tcp_server.h:155-167 | with any number of sessions such a state is reached |
| TcpLocks.OnlyFailureDeadlocks | cpp/boost_tcp_server.cpp:135-146 | without a failed completion some thread can always move |
| TcpLocks.DoomedDeadlocks | cpp/boost_tcp_server.h:155-167 | once a completion has failed at a session the writer has not passed, every move that does anything brings the deadlock nearer |
| TcpLocks.CompletionEnds | cpp/boost_tcp_server.cpp:71-80 | with its locks free a completion ends, a failed one with its session off the list |
| TcpLocks.WriterPasses | cpp/boost_tcp_server.h:155-167 | undisturbed, the writer goes through every session and lets go |

## Left out

- Sockets, multicast and unicast set-up, and the blocking TCP accept at the top of `TRANSMITTER`: sending is an entry in a log.
- TxQueue.DestroyCompletes: for the UDP and multicast transmitters; a TCP transmitter still waiting in accept is not at its loop and cannot be joined.
- TxQueue.EveryRun: the two threads and the queue are modelled on values, a step being what a thread does between two points where another may come in; burst and throttle time stay constant while a transmitter runs, and pointers and the moment of deletion are not modelled.
- Lifecycle.RunKeepsInv: assumes non-zero hashes; a step is one whole service call or one turn of the timer, so the timer reading the stream map during a teardown is not modelled.
- Component.SinkVITA49Component.constructor: the code leaves runThread unset until the first launch; here it starts false.
- Component.SinkVITA49Component.LaunchTxThread: the reset of packetCount is not part of it; packet counts are those of `Repacketiser` within one launch.
- Component.SinkVITA49Component.SetupOutputStream: the stream definition is left out, the two keywords are in `SriMerge.Prepared`.
- Component.SinkVITA49Component.HandleSri: whether the SRI differs in more than its stream id, and the packet size that follows, are inputs; `SriMerge` and `PayloadSizing` compute them. The SRI delivered with a push is taken to name the push's stream.
- Component.SinkVITA49Component.PushData: samples are followed by their origins and packets by their number, so how many packets a push completes and whether bytes remain are inputs; contents, times and sizes are those of `Repacketiser`.
- Component.SinkVITA49Component.SingleServiceCall: takes the same inputs.
- Component.SinkVITA49Component.Execute: takes the same inputs, and starts from a new component.
- Isolation.RunIsolated: two streams with the same hash have packets with the same identifier.
- Repacketiser.SinkVITA49.SingleService: for calls whose copies stay inside the spare buffer (`SpareBuffer` says when); what a copy past it, or one with a wrapped length, would overwrite is not modelled. Sizes and counters are unbounded integers, memory behind the push's buffer is a parameter as long as a packet and as the carried bytes, and no library call throws inside the loop. Carried bytes are whole scalars of the push's size, so a push on a port with another scalar size while bytes are carried is not covered.
- Repacketiser.SinkVITA49.CarriedTurn: for at most a packet of carried bytes; with more the length of its copy wraps around.
- Repacketiser.SinkVITA49.PacketLoop: likewise, when it cuts a packet.
- Repacketiser.SinkVITA49.constructor: takes in the allocation that memoryManagement makes later, and none of the other fields of initialize_values.
- Repacketiser.SinkVITA49.CreatePacket: the packet is a record; the vector-pointer assignment, class identifier, stream identifier (see `Lifecycle`) and the trailer's context count are not part of it, and the time-stamp option is on.
- Repacketiser.SinkVITA49.TearDown: the fields `singleService` works on; the SRI wait is in `Component`, payload size and context time are not reset here.
- Repacketiser.SinkVITA49.EndOfStream: removeStream throwing and the end of the threads are in `Component`.
- StreamRun.RunRefinesCut: the reference is the whole samples; against the bytes pushed see `StreamRun.RefinesRawIff`.
- StreamRun.RefinesIff: likewise.
- ServiceRun.Serve: one format, set by the stream's first push and kept.
- ServiceRun.ServePieces: formats change while nothing is carried; a change that meets carried bytes is covered for one push, by `SingleService`, `ModeSwitch` and `SpareBuffer`.
- Timestamps.CalcNextTimeStamp: over exact reals; the rounding of doubles is not modelled, and `abs` is the one for doubles.
- StreamTimes.RunTimes: pushes follow each other without gaps and with whole seconds in `twsec`; a packet has at most 2^31 scalars.
- PayloadSizing.PayloadSettings.MemoryManagement: the call of destroy_tx_thread is in `Component.PrepareService`.
- PayloadSizing.PayloadSettings.CreatePayload: the payload format and data type handed to the library are left out.
- PayloadSizing.SpareBufferSuffices: for one encapsulation and scalar size; `PayloadLife` has the exact conditions for all.
- PayloadSizing.EncapsulationCanOutgrow: one input; the condition is that of `PayloadLife.StreamFitsIff`.
- PayloadLife.Live: sizes below -28, for which nothing could be allocated, are left out, as are calls with data packets disabled.
- TcpObjects.Server.Read: loop counters are unbounded where the code's are 32 bits wide.
- TcpObjects.Server.WriteEnded: a session closed by its peer while its socket object stays open is not modelled.
- TcpLocks.StuckIff: two threads, the one that writes to all sessions and the one that runs the callbacks; other users of the list's lock only wait for it.
- The rh.VITA49 library: bit layout, CRC, class identifiers, endian conversion, frame contents.
- The keyword-to-setter chain that fills a context packet: one library call per keyword.
- The context packet's own count and time offset: the counter is updated by two threads without a lock.
- Property structs and their conversions, logging, stream definitions, `numBuffers` and `Bank2`, and the destructor's draining of the queue.
