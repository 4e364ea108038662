# OSS Core: verified models

Dafny models of the self-contained stateful cores of the OSS Core library, a SIP back-to-back user
agent and session border controller, with proofs about whole runs of them.

Every component is written the same way. What the code computes or changes is a specification
function on values; a class or method works the way the C++ works, with its fields, branches and
loops, and is proved equal to that function; the laws are lemmas about the functions, over every
input, every history of operations, or every interleaving of threads at lock granularity.

| files | component |
|---|---|
| `RtpResizingQueue`, `RtpResizingRuns`, `RtpResizingStream`, `RtpReframing`, `RtpPassing`, `RtpSequenceNumbers` | RTP re-packetization queue |
| `Base64`, `Base64RoundTrip` | Base64 codec, against section 4 of RFC 4648 and section 6.8 of RFC 2045 |
| `PrefixSearch`, `ChannelLimits`, `ChannelLimitsLaws` | dial-prefix channel limits |
| `DomainLimits`, `CdrManager`, `CdrLifeCycle`, `CdrHistory`, `CdrChannelCount`, `CdrDomainCount` | domain limits, call detail records and the calls they keep counted |
| `JsTimers`, `JsTimerLaws`, `JsTimerQueue`, `JsTimerHistory`, `JsEvents` | hand-over of timers and events to the script event loop |
| `FloodControl`, `FloodControlLaws`, `FloodControlRuns` | packet-rate window and bans |
| `RtpTimer` | drift-free wait of the RTP resizer thread |
| `PortAllocator`, `SessionTable` | media ports and media sessions |
| `FileEncryptor` | encrypted file format |
| `Argv`, `ArgvGrammar` | command line splitting |
| `DialogState`, `DialogStateLaws` | dialog table, dialog store and search |
| `Wrappers`, `Containers`, `Division` | optional values and results, facts about sets, sequences and remainders |

`dafny verify dfyconfig.toml` checks the whole project.

## What the code does not meet

Where an expected property is false of the code, the code is modelled as it is, a lemma gives an
input on which it fails, and another states exactly when it holds.

- Emitted RTP sequence numbers are not always consecutive: the counter uses 0 for "unset", so a
  stream that starts at 0 is seeded twice (`StartingAtZeroSkips`, `ConsecutiveIffNoReseed`).
- Base64 encoding of one to three bytes is empty, and a byte above 127 takes the encoder out of its
  table because `char` is signed (`LostTexts`, `HighByteFails`, `RoundTripIff`).
- The prefix search misses keys after an empty prefix or alias was registered and followed by a
  non-empty one (`EmptyPrefixHidesOthers`, `SearchExactIff`).
- A registration during a call can leave that call counted for good (`ShorterPrefixStrandsCall`,
  `RegisterKeepsTarget`, `StrandedIff`).
- Adding a call that is already counted and removing it again does not restore the limiter
  (`AddThenRemove`).
- A prefix limit is enforced only beside a domain limit that differs from it (`LoneLimitIgnored`,
  `CdrDomainCount.RefusedIff`).
- The end of a call takes the caller's host out of the channel limits, not out of the domain
  limits, so the count of a domain never falls (`EndedCallCounted`, `DomainCallsStay`).
- Sweeping a stale record does not take the call out of the channel count (`SweepLeaksCall`,
  `LeakedIff`).
- A timer that expires before its object knows its identifier is lost, or runs another timer's
  callback before its time (`EarlyReadLosesTimer`, `ExpiryAlwaysQueued`; `EarlyReadRunsAnother`,
  `PrematureIff`).
- An expiry handler can read a timer object that is gone (`CancelledTooLate`, `FreedIff`).
- The comment on packet logging says every address above the rate is banned; the scan bans only
  addresses that exceed all counts before them (`SecondViolatorEscapes`, `DocumentedRuleIff`).
- The tick duration is not that of the samples for negative or large numbers (`MicrosIff`).
- The port allocator leaves its range for some bounds (`WrapsBelowBase`, `LeavesRange`, `CyclesIff`).
- A session counted on an empty address is never uncounted (`EmptyAddressCount`; `CountersAgree` for
  every other address).
- The session limit lets one session too many in (`OneSessionTooMany`, `StaysWithinIff`).
- File encryption is an identity only for ciphers with eight-byte blocks (`OtherSizesFail`,
  `RoundTripsIffEight`) and for an empty output buffer (`FullBufferFails`, `EmptyBufferIff`).
- A backslash that ends a command line was meant to be an error; the end-of-file test before the
  error cannot succeed there, and the backslash is taken literally (`DanglingAccepted`,
  `DanglingRefusedIff`).
- A search without a session identifier finds no dialog of a call but the first and the last
  (`MiddleNeverFound`, `ReachableIff`).
- The load of stored dialogs at thread start lists dialogs a second time (`LoadListsTwice`,
  `LoadAgain`).

## Model

| member | source | states |
|---|---|---|
| `RtpResizingQueue.ResizingQueue.constructor` | src/rtp/RTPResizingQueue.cpp:42-59 | a new queue is empty, with sequence and time unset |
| `RtpResizingQueue.ResizingQueue.SetPacketizationTargetTime` | include/OSS/RTP/RTPResizingQueue.h:147-150 | only the target time changes |
| `RtpResizingQueue.ResizingQueue.Enqueue` | src/rtp/RTPResizingQueue.cpp:65-131 | the new queue and the verdict in every branch: a foreign payload type is refused, or sent at once while resizing; an empty payload is swallowed while resizing; the counter is seeded when it holds 0; payloads of the target size or of no whole number of base samples are ready at once, all others wait |
| `RtpResizingQueue.ResizingQueue.PopReady` | src/rtp/RTPResizingQueue.cpp:136-153 | the front of the ready queue leaves with the next sequence number, nothing else moves |
| `RtpResizingQueue.ResizingQueue.DropLate` | src/rtp/RTPResizingQueue.cpp:158-172 | exactly the longest run of packets at the front that are older than the last one sent is dropped |
| `RtpResizingQueue.LateCount` | src/rtp/RTPResizingQueue.cpp:158-172 | everything before the count is late and what stands at it is not |
| `RtpResizingQueue.ResizingQueue.PushSamples` | src/rtp/RTPResizingQueue.cpp:217-243 | the sample loop appends exactly the samples the packet is cut into, payloads and time stamps |
| `RtpResizingQueue.ResizingQueue.SplitFront` | src/rtp/RTPResizingQueue.cpp:217-243 | the front packet is replaced by its target-sized samples |
| `RtpResizingQueue.ResizingQueue.MergeFront` | src/rtp/RTPResizingQueue.cpp:244-273 | the first packets are replaced by one that carries all their payloads through the fixed buffer |
| `RtpResizingQueue.ResizingQueue.Shrink` | src/rtp/RTPResizingQueue.cpp:192-243 | resizing down: a packet that is no multiple of the target leaves as it is, others are split and the first sample leaves, unless the payload overruns the buffer |
| `RtpResizingQueue.ResizingQueue.Grow` | src/rtp/RTPResizingQueue.cpp:244-291 | resizing up: nothing until there are enough packets, then they are merged and the result leaves, unless the payloads overrun the buffer |
| `RtpResizingQueue.ResizingQueue.Dequeue` | src/rtp/RTPResizingQueue.cpp:133-294 | the packet yielded and the whole new queue, in every branch, or an overrun if and only if the payloads about to be copied do not fit the stack buffer |
| `RtpResizingQueue.ResizingQueue.DrainOne` | src/rtp/RTPProxy.cpp:750-789 | one round of the drain loop, and that a round that sends something shrinks (waiting, ready) lexicographically |
| `RtpResizingQueue.ResizingQueue.Drain` | src/rtp/RTPProxy.cpp:750-789 | the drain loop terminates and sends exactly what repeated dequeues yield, or overruns if and only if one of them does |
| `RtpResizingQueue.DequeueProgress` | src/rtp/RTPResizingQueue.cpp:133-294 | every successful dequeue decreases (waiting, ready); a failed one leaves nothing ready |
| `RtpResizingQueue.SamplesPayload` | src/rtp/RTPResizingQueue.cpp:217-243 | cutting a payload loses, adds and reorders no byte and gives exactly target-sized samples |
| `RtpResizingRuns.DequeueKeepsOrder` | src/rtp/RTPResizingQueue.cpp:133-294 | discarded, yielded, ready and waiting bytes are together the old contents in the old order, for any queue |
| `RtpResizingRuns.ResizedKeepsOrder` | src/rtp/RTPResizingQueue.cpp:174-291 | the same for the size decision alone: unsizable front, pass-through, split, merge, or nothing yet |
| `RtpResizingRuns.BytesConserved` | src/rtp/RTPResizingQueue.cpp:65-294 | over every run of enqueue and dequeue, with any mix of packets and configurations, accepted bytes = emitted + ready + waiting + discarded |
| `RtpResizingRuns.OnlyLateBytesDiscarded` | src/rtp/RTPResizingQueue.cpp:158-190 | with a non-zero target a packet with bytes is discarded if and only if nothing was ready and it and all before it are older than the last packet sent |
| `RtpResizingStream.UniformDequeue` | src/rtp/RTPResizingQueue.cpp:133-294 | a dequeue of an equal-packet stream drops nothing, yields target-sized packets and keeps the stream's shape |
| `RtpResizingStream.SamplesAt` | src/rtp/RTPResizingQueue.cpp:217-243 | sample i of n is the i-th stretch of the bytes, stamped n-1-i times the given rate before its packet, modulo 2^32 |
| `RtpResizingStream.StreamPreserved` | src/rtp/RTPResizingQueue.cpp:65-294 | for every interleaving over a stream of equal packets whose size and target divide one another, nothing is refused or dropped, every emitted packet has the target size, and emitted ++ ready ++ waiting is the enqueued byte stream; split time stamps may wrap |
| `RtpResizingStream.DrainedResidue` | src/rtp/RTPProxy.cpp:750-789 | draining such a stream sends whole target-sized packets in order until less than one target's worth is left |
| `RtpResizingStream.StuckIsShort` | src/rtp/RTPResizingQueue.cpp:244-273 | a dequeue of such a stream yields nothing only if less than one target's worth waits |
| `RtpResizingStream.DrainAlwaysFits` | src/rtp/RTPResizingQueue.cpp:217-272 | for such a stream the fixed buffers suffice in every dequeue of a drain |
| `RtpReframing.StreamReframed` | src/rtp/RTPResizingQueue.cpp:65-294 | over every interleaving of such a stream, what was sent and is ready are the frames of the offered packets, group after group, but for the numbers, and the rest is waiting |
| `RtpReframing.SentSlices` | src/rtp/RTPResizingQueue.cpp:217-243 | resizing down by m, packet g·m+i sent is the i-th slice of offered packet g, consecutive slices stamped as many clock ticks apart as their base samples take, the last like the packet |
| `RtpReframing.SentJoined` | src/rtp/RTPResizingQueue.cpp:244-273 | resizing up by n, packet g sent carries the bytes of the g-th n offered packets in order, the header of the first and the time stamp of the last |
| `RtpReframing.SplitAt` | src/rtp/RTPResizingQueue.cpp:217-243 | the same for the slices of one packet of any size the target divides |
| `RtpReframing.DequeueFrames` | src/rtp/RTPResizingQueue.cpp:133-294 | one dequeue hands out what is ready, frames exactly the next group, or finds too few waiting |
| `RtpReframing.TargetSizeIs` | include/OSS/RTP/RTPResizingQueue.h:163-166 | the target size is that of as many base samples as fit in the target time, in 32 bits |
| `RtpPassing.RefusedIff` | src/rtp/RTPResizingQueue.cpp:69-82 | in every run a packet is refused if and only if it is of another codec and no dequeue has sent from the ready list yet |
| `RtpPassing.SentAsIs` | src/rtp/RTPResizingQueue.cpp:69-127 | a packet of another codec, of no whole number of base samples, or of the target size is sent after those ready, with nothing but its number changed |
| `RtpPassing.ResizingIff` | src/rtp/RTPResizingQueue.cpp:136-153 | the resizing flag is set if and only if some dequeue of the run sent from the ready list |
| `RtpPassing.OverrunIff` | src/rtp/RTPResizingQueue.cpp:217-272 | a dequeue overruns its buffer if and only if it cuts or joins more than 4098 bytes at once |
| `RtpPassing.LastTimeIs` | src/rtp/RTPResizingQueue.cpp:136-214 | in every run the last time sent is the time stamp of the last packet sent, by whatever route it left |
| `RtpSequenceNumbers.DequeueNumbers` | src/rtp/RTPResizingQueue.cpp:136-153 | a packet that leaves by any route carries the next number modulo 2^16; otherwise the counter stands still |
| `RtpSequenceNumbers.Numbering` | src/rtp/RTPResizingQueue.cpp:94-95 | in every run the counter is the last number sent unless it was reseeded since |
| `RtpSequenceNumbers.ConsecutiveIffNoReseed` | src/rtp/RTPResizingQueue.cpp:65-294 | emitted numbers are consecutive modulo 2^16 if and only if no packet left after an enqueue that found the counter at 0 and moved it |
| `RtpSequenceNumbers.StartingAtZeroSkips` | src/rtp/RTPResizingQueue.cpp:94-95 | packets 0,1,2,3 merged in pairs leave as 0 and 2 |
| `Base64.Encode` | src/crypto/Crypto.cpp:83-166 | for every input, the characters the unrolled encoder produces, or the fault of reading outside its data or its table; the length it asserts is the length it produced |
| `Base64.EncodeFrames` | src/crypto/Crypto.cpp:120-163 | the loop over triples with its running length and line count fails if and only if a byte is above 127 |
| `Base64.EncodeTriple` | src/crypto/Crypto.cpp:124-127 | the four table accesses with signed shifts give the intended symbols, and leave the table if and only if one of the three bytes is above 127 |
| `Base64.EncodeOne` | src/crypto/Crypto.cpp:146-153 | the same for one byte left |
| `Base64.EncodeTwo` | src/crypto/Crypto.cpp:154-162 | the same for two bytes left |
| `Base64.FirstIndexed` | src/crypto/Crypto.cpp:124 | the signed first index is the intended one below 128 and outside the table from there on |
| `Base64.SecondIndexed` | src/crypto/Crypto.cpp:125 | the second index, by the second byte |
| `Base64.ThirdIndexed` | src/crypto/Crypto.cpp:126 | the third index, by the third byte |
| `Base64.EncodedSize` | src/crypto/Crypto.cpp:83-166 | four characters per started triple and one line feed per 19 whole ones |
| `Base64.BodySize` | src/crypto/Crypto.cpp:120-163 | the same from any position within a line |
| `Base64.Quad` | src/crypto/Crypto.cpp:102-105 | four table symbols per triple |
| `Base64.Decoder.Put` | src/crypto/Crypto.cpp:202-225 | the decoder's vector stays long enough and zero beyond what was assembled |
| `Base64.Assemble` | src/crypto/Crypto.cpp:202-225 | the in-place shifts of each of the four positions |
| `Base64.Decode` | src/crypto/Crypto.cpp:168-229 | the decoder loop: line ends, foreign characters and misplaced padding are skipped, and it stops at padding or the end of the text |
| `Base64RoundTrip.QuadDecodes` | src/crypto/Crypto.cpp:83-229 | decoding the four characters of a triple gives the triple, in any context |
| `Base64RoundTrip.TailDecodes` | src/crypto/Crypto.cpp:143-163 | either padding decodes to exactly the one or two bytes left over |
| `Base64RoundTrip.BodyDecodes` | src/crypto/Crypto.cpp:83-229 | decoding undoes the loop's output, from any line position and after anything decoded |
| `Base64RoundTrip.OthersIgnored` | src/crypto/Crypto.cpp:168-229 | in a text without padding and zeros, characters other than letters, digits, plus and slash change nothing in what is decoded |
| `Base64RoundTrip.ZeroEnds` | src/crypto/Crypto.cpp:168-229 | decoding ends at the first zero |
| `Base64RoundTrip.RoundTrip` | src/crypto/Crypto.cpp:83-229 | for every seven-bit text of four bytes or more, encoding succeeds, decoding gives the text followed only by zeros, and reports true exactly when the length is no multiple of three |
| `Base64RoundTrip.RoundTripIff` | src/crypto/Crypto.cpp:83-229 | a text survives if and only if it has at least four bytes and none is above 127 |
| `Base64RoundTrip.HighByteFails` | src/crypto/Crypto.cpp:102-127 | one byte above 127 anywhere in four bytes or more takes the encoder out of its table |
| `Base64RoundTrip.LostTexts` | src/crypto/Crypto.cpp:90-105 | four bytes with a high one, and three bytes, are lost |
| `Base64RoundTrip.EncodedIsRfc4648` | src/crypto/Crypto.cpp:83-166 | the output without its line feeds is the encoding of section 4 of RFC 4648, defined by 24-bit groups, for exactly the texts that survive |
| `Base64RoundTrip.BodyIsRfc` | src/crypto/Crypto.cpp:120-163 | the same for the loop from any line position |
| `Base64RoundTrip.LineLength` | src/crypto/Crypto.cpp:108-141 | a line feed stands in every 77th place and nowhere else |
| `PrefixSearch.LowerBound` | src/sbc/SBCChannelLimits.cpp:190-204 | the first key not less than the bound in lexicographic order |
| `PrefixSearch.Insert` | src/sbc/SBCChannelLimits.cpp:122-139 | the ordered map keeps its keys in order and adds exactly the new one |
| `PrefixSearch.Scan` | src/sbc/SBCChannelLimits.cpp:190-204 | the scan from the lower bound finds the shortest key, of at least that length, that begins the dial string, and none if there is none |
| `PrefixSearch.Shortest` | src/sbc/SBCChannelLimits.cpp:190-204 | the reference: a key, a prefix of the dial string, and no shorter one of the admitted lengths |
| `PrefixSearch.FirstHit` | src/sbc/SBCChannelLimits.cpp:190-204 | the first matching key in order is the shortest matching key |
| `PrefixSearch.NoHit` | src/sbc/SBCChannelLimits.cpp:190-204 | a scan without a match means no key of the admitted lengths begins the dial string |
| `PrefixSearch.LateStartIsSafe` | src/sbc/SBCChannelLimits.cpp:190-204 | for every dial string the late start finds what a scan of the whole map finds, if and only if no key is shorter than the start |
| `PrefixSearch.MissedKey` | src/sbc/SBCChannelLimits.cpp:190-204 | a shorter key is missed for a dial string one character longer |
| `PrefixSearch.ShortestIsSafe` | src/sbc/SBCChannelLimits.cpp:127-137 | the length kept over registrations suits all keys if and only if none is empty or the last one is |
| `ChannelLimits.Limits.constructor` | src/sbc/SBCChannelLimits.cpp:50-55 | a new limiter has no prefixes |
| `ChannelLimits.Limits.NoteLength` | src/sbc/SBCChannelLimits.cpp:127-130 | the shortest length is lowered, or set where it was unset |
| `ChannelLimits.Limits.RegisterAlias` | src/sbc/SBCChannelLimits.cpp:122-130 | one alias entered, shortest length updated |
| `ChannelLimits.Limits.RegisterDialPrefix` | src/sbc/SBCChannelLimits.cpp:108-158 | aliases, then the prefix with an empty cache, its limit and a zero counter |
| `ChannelLimits.Limits.InstallPrefix` | src/sbc/SBCChannelLimits.cpp:134-155 | the prefix part of a registration |
| `ChannelLimits.Limits.StoreCache` | src/sbc/SBCChannelLimits.cpp:216-235 | a cache stored with its size published beside its limit |
| `ChannelLimits.Limits.ResolveAliasPrefix` | src/sbc/SBCChannelLimits.cpp:160-179 | the prefix of the alias found, or the empty string |
| `ChannelLimits.Limits.MatchPrefix` | src/sbc/SBCChannelLimits.cpp:183-209 | aliases win, then the prefix scan |
| `ChannelLimits.Limits.AddCall` | src/sbc/SBCChannelLimits.cpp:181-251 | new caches and counter, count and limit reported, nothing for an unmatched dial string |
| `ChannelLimits.Limits.RemoveCall` | src/sbc/SBCChannelLimits.cpp:275-331 | new caches and counter, and the count reported |
| `ChannelLimits.Limits.GetCallCount` | src/sbc/SBCChannelLimits.cpp:253-273 | the count given is the active count published for the prefix, 0 for an unknown one |
| `ChannelLimits.CacheHoldsLiveCalls` | src/sbc/SBCChannelLimits.cpp:108-331 | over every history a cache holds exactly the sessions added under its prefix since its last registration and not removed, and the published counter is its size |
| `ChannelLimits.CacheStep` | src/sbc/SBCChannelLimits.cpp:108-331 | who enters and leaves each cache in one event |
| `ChannelLimits.ReportedLive` | src/sbc/SBCChannelLimits.cpp:181-251 | over every history the count reported on a set-up is the number of live sessions of the prefix, the new one included, beside the limit registered last |
| `ChannelLimits.LeftLive` | src/sbc/SBCChannelLimits.cpp:275-331 | the count reported on a removal is the number of live sessions left |
| `ChannelLimits.AddedReports` | src/sbc/SBCChannelLimits.cpp:214-221 | on any limiter a set-up is told the limit of its prefix and the size of the cache with the new session in it, or nothing |
| `ChannelLimits.RemovedReports` | src/sbc/SBCChannelLimits.cpp:275-331 | a removal is told the size of the cache without the session, or 0 |
| `ChannelLimits.LimitsAre` | src/sbc/SBCChannelLimits.cpp:108-178 | the limit kept is the one registered last |
| `ChannelLimitsLaws.AddThenRemove` | src/sbc/SBCChannelLimits.cpp:181-331 | add then remove, even through an alias, restores the limiter if and only if nothing matched or the session was not counted |
| `ChannelLimitsLaws.ShortestTracksKeys` | src/sbc/SBCChannelLimits.cpp:108-158 | in every history the kept length is that of all registered keys in order, and those keys are exactly the prefixes and aliases |
| `ChannelLimitsLaws.SearchExactIff` | src/sbc/SBCChannelLimits.cpp:108-204 | after any history both late-started searches are exact for every dial string if and only if no empty key was registered or the last one was empty |
| `ChannelLimitsLaws.EmptyPrefixHidesOthers` | src/sbc/SBCChannelLimits.cpp:127-137 | an empty registration between a prefix and a longer one hides the former |
| `ChannelLimitsLaws.RegisterKeepsTarget` | src/sbc/SBCChannelLimits.cpp:108-204 | a registration leaves a dial string counted where it was if and only if a stated condition on the old aliases and prefixes and the new ones holds before it |
| `ChannelLimitsLaws.StrandedIff` | src/sbc/SBCChannelLimits.cpp:108-331 | a call is still counted after a registration and its own removal if and only if the registration moved its dial string and did not empty its prefix |
| `ChannelLimitsLaws.SoundRuns` | src/sbc/SBCChannelLimits.cpp:108-331 | every history of non-empty registrations keeps the limiter in the state these laws speak of |
| `ChannelLimitsLaws.TargetIs` | src/sbc/SBCChannelLimits.cpp:160-209 | in that state a dial string goes to the prefix of the shortest matching alias, or else to the shortest matching prefix |
| `ChannelLimitsLaws.AliasWinner` | src/sbc/SBCChannelLimits.cpp:160-179 | which alias a dial string finds after a registration |
| `ChannelLimitsLaws.PrefixWinner` | src/sbc/SBCChannelLimits.cpp:190-204 | when it finds another prefix than before |
| `ChannelLimitsLaws.ShorterPrefixStrandsCall` | src/sbc/SBCChannelLimits.cpp:275-331 | a call added, then a shorter prefix registered: removal no longer finds the call |
| `DomainLimits.Limits.constructor` | src/sbc/SBCDomainLimits.cpp:50-54 | no domains |
| `DomainLimits.Limits.RegisterDomain` | src/sbc/SBCDomainLimits.cpp:106-129 | an empty cache, the limit and a zero counter |
| `DomainLimits.Limits.AddCall` | src/sbc/SBCDomainLimits.cpp:131-168 | new cache and counter, count and limit reported, nothing for an unknown domain |
| `DomainLimits.AddReports` | src/sbc/SBCDomainLimits.cpp:131-168 | a set-up is told the limit of its domain and the number of calls there with the new one, or nothing |
| `DomainLimits.DomainsAre` | src/sbc/SBCDomainLimits.cpp:106-168 | over every history the table holds exactly the registered domains, each with the limit registered last, the sessions added since, and their number published |
| `DomainLimits.Limits.GetCallCount` | src/sbc/SBCDomainLimits.cpp:170-190 | the count given is the active count published for the domain, 0 for an unknown one |
| `CdrManager.Manager.constructor` | src/sbc/SBCCDRManager.cpp:217-223 | no records |
| `CdrManager.Manager.FlushStaleRecords` | src/sbc/SBCCDRManager.cpp:51-72 | the loop drops exactly the old unconnected records, at most once an interval unless forced |
| `CdrManager.Manager.RemoveFromChannels` | src/sbc/SBCCDRManager.cpp:110-113 | user and host are both taken out of the channel limits |
| `CdrManager.Manager.FlushRecord` | src/sbc/SBCCDRManager.cpp:74-87 | the record is logged and leaves the workspace |
| `CdrManager.Manager.OnCallSetup` | src/sbc/SBCCDRManager.cpp:267-368 | a record with its set-up time, the call counted under its dialled prefix and under its caller's domain, and which of the two counts and limits is reported |
| `CdrManager.Manager.OnHandleFinal` | src/sbc/SBCCDRManager.cpp:89-163 | success connects, a challenge drops the record unlogged, a failure logs it, and either takes the call out of the count |
| `CdrManager.Manager.OnHandleTerminated` | src/sbc/SBCCDRManager.cpp:172-214 | a record is closed, logged and taken out of the count |
| `CdrLifeCycle.SetupsBalance` | src/sbc/SBCCDRManager.cpp:51-214 | in every run the set-ups of each session are exactly the records in the workspace, in the log, and those dropped on a challenge, swept or overwritten; so the log holds at most one record per set-up |
| `CdrLifeCycle.LoggedOnce` | src/sbc/SBCCDRManager.cpp:74-87 | a session set up once is in the log at most once |
| `CdrLifeCycle.ConnectedStays` | src/sbc/SBCCDRManager.cpp:51-214 | in every run the record of a connected call is untouched by sweeps and by other sessions, however long: it leaves only by an event of its own session |
| `CdrLifeCycle.LoggedTimesOrdered` | src/sbc/SBCCDRManager.cpp:89-214 | with a clock that does not go back, every logged call has set-up at most connect at most disconnect time |
| `CdrHistory.RecordsAre` | src/sbc/SBCCDRManager.cpp:51-368 | in every run the workspace holds exactly the sessions set up and since then neither closed nor dismissed nor, at any sweep, unanswered for more than five minutes; each record has its last set-up's data and the time of the last answer since, 0 if none; the log holds one such record for each session closed while kept, in order, with the time it was closed |
| `CdrHistory.SweptRecords` | src/sbc/SBCCDRManager.cpp:51-72 | a sweep, forced or more than ten minutes after the last, drops exactly the records unanswered for more than five minutes |
| `CdrChannelCount.CountedCalls` | src/sbc/SBCCDRManager.cpp:51-214 | in every run with distinct sessions and calls, a call is counted under a prefix if and only if its record is in the workspace or was swept away |
| `CdrChannelCount.LeakedIff` | src/sbc/SBCCDRManager.cpp:51-72 | a call whose record is gone is still counted if and only if the record was swept away |
| `CdrChannelCount.SweepLeaksCall` | src/sbc/SBCCDRManager.cpp:51-72 | such a run: a call set up, unanswered and swept |
| `CdrChannelCount.LoggedCallsNotCounted` | src/sbc/SBCCDRManager.cpp:74-214 | a logged call is counted under no prefix |
| `CdrDomainCount.RefusedIff` | src/sbc/SBCCDRManager.cpp:343-367 | a call is refused if and only if a prefix and a domain both match, their limits differ, and the number of calls under the one with the lower limit, this one included, exceeds it |
| `CdrDomainCount.VerdictIs` | src/sbc/SBCCDRManager.cpp:343-367 | what is reported is the lower of two differing limits beside the number of calls under it, this one included, and otherwise nothing |
| `CdrDomainCount.LoneLimitIgnored` | src/sbc/SBCCDRManager.cpp:354-365 | a prefix limit alone refuses nothing |
| `CdrDomainCount.DomainCallsStay` | src/sbc/SBCCDRManager.cpp:89-352 | a call is counted under a registered domain if and only if it was ever set up from there |
| `CdrDomainCount.EndedCallCounted` | src/sbc/SBCCDRManager.cpp:172-214 | a call set up and terminated is still counted under its domain |
| `CdrDomainCount.DomainCountGrows` | src/sbc/SBCCDRManager.cpp:89-352 | the published count of a domain never falls, whatever ends |
| `JsTimers.TimerManager.constructor` | src/js/JSTimerManager.cpp:30-34 | no timers |
| `JsTimers.TimerManager.ArmTimer` | src/js/JSTimer.cpp:28-32 | the counter is taken and the I/O timer armed while the identifier is unset |
| `JsTimers.TimerManager.SetId` | src/js/JSTimer.cpp:33 | the identifier is stored in the object |
| `JsTimers.TimerManager.Insert` | src/js/JSTimerManager.cpp:40-47 | the timer is entered and the lock released |
| `JsTimers.TimerManager.ScheduleTimer` | src/js/JSTimerManager.cpp:40-56 | the composition of the three parts: the next identifier, one entry more |
| `JsTimers.TimerManager.RemoveTimer` | src/js/JSTimerManager.cpp:67-78 | the entry is erased and returned, if there |
| `JsTimers.TimerManager.CancelTimer` | src/js/JSTimerManager.cpp:58-65 | the entry is erased; only then is the I/O timer cancelled |
| `JsTimers.TimerManager.Execute` | src/js/JSFunctionCallbackQueue.cpp:54-57 | the callback is queued unless the queue is full |
| `JsTimers.TimerManager.OnTimerExpire` | src/js/JSTimer.cpp:48-60 | an expiry queues the timer under the identifier it read, only if one was still entered |
| `JsTimers.TimerManager.DoOneWork` | src/js/JSFunctionCallbackQueue.cpp:59-69 | the oldest queued callback is taken to run |
| `JsTimerLaws.Invariant` | src/js/JSTimerManager.cpp:40-78 | the inductive invariant of all interleavings, handlers that read a wrong identifier included |
| `JsTimerLaws.ExactlyOnePlace` | src/js/JSTimerManager.cpp:40-78 | in every interleaving a scheduled timer is in exactly one of under construction, pending, held by a handler, queued, executed, cancelled, refused by a full queue |
| `JsTimerLaws.RunsOnceInOrder` | src/js/JSFunctionCallbackQueue.cpp:54-69 | callbacks run in queue order, each at most once and the one scheduled |
| `JsTimerLaws.CancelWins` | src/js/JSTimerManager.cpp:58-78 | a timer that a cancel removed never runs, whatever follows |
| `JsTimerHistory.ExpiryAlwaysQueued` | src/js/JSTimer.cpp:28-60 | when nothing is under way, a timer neither cancelled nor refused has been queued, and with an empty queue has run, if and only if its handler did not read the identifier before it was set or another timer's handler took it out; the refusal need not be excluded when the queue has no bound or room for every timer |
| `JsTimerQueue.RefusesIff` | include/OSS/UTL/BlockingQueue.h:59-80 | in every interleaving a step refuses a timer if and only if the queue has a bound and as many callbacks are queued and not yet run; otherwise it queues it |
| `JsTimerQueue.NeverRefused` | include/OSS/UTL/BlockingQueue.h:59-80 | without a bound, or with one no smaller than the number of timers scheduled, none is ever refused |
| `JsTimerQueue.QueueBounded` | include/OSS/UTL/BlockingQueue.h:59-80 | never more callbacks wait than the bound |
| `JsTimerLaws.ExpiryComesIff` | src/js/JSTimer.cpp:28-60 | the expiry of a pending timer is still to come if and only if its handler was not too early |
| `JsTimerLaws.EarlyReadLosesTimer` | src/js/JSTimer.cpp:28-60 | an interleaving that loses a timer: the handler runs between arming and the assignment |
| `JsTimerLaws.StaysLost` | src/js/JSTimer.cpp:28-60 | a lost timer stays lost until cancelled, or until another handler reads its identifier by chance |
| `JsTimerHistory.RunsAfterExpiry` | src/js/JSTimer.cpp:48-60 | while no handler read a wrong identifier, a callback is queued only after its own expiry was handled |
| `JsTimerHistory.PrematureIff` | src/js/JSTimer.cpp:48-60 | in every interleaving a callback is taken out to run before its own expiry was handled if and only if another timer's handler, with this one's identifier in hand, takes it |
| `JsTimerHistory.PrematureStep` | src/js/JSTimer.cpp:48-60 | the same for one step from any state that satisfies the invariant |
| `JsTimerHistory.StolenByMisreader` | src/js/JSTimer.cpp:48-60 | only a handler that read a wrong identifier does that |
| `JsTimerHistory.TakenOut` | src/js/JSTimerManager.cpp:67-78 | a timer taken out by another handler is never pending again |
| `JsTimerHistory.RescuedByTaking` | src/js/JSTimer.cpp:48-60 | a timer whose handler was too early and that is neither pending nor cancelled was taken out by another handler |
| `JsTimerHistory.FreedIff` | src/js/JSTimer.cpp:48-60 | a handler about to read its identifier finds its timer object gone if and only if a cancellation is complete, or the timer already ran or was refused |
| `JsTimerHistory.CancelledTooLate` | src/js/JSTimerManager.cpp:58-65 | an interleaving in which a handler finds it gone |
| `JsTimerHistory.CancelDisarms` | src/js/JSTimerManager.cpp:58-65 | in every interleaving, once a cancellation is complete the timer's expiry can no longer fire |
| `JsTimerLaws.EarlyReadRunsAnother` | src/js/JSTimer.cpp:28-60 | an interleaving in which a wrong identifier runs another timer's callback before its time |
| `JsEvents.TaskManager.constructor` | src/js/JSTaskManager.cpp:30-33 | no tasks |
| `JsEvents.TaskManager.QueueTask` | src/js/JSTaskManager.cpp:50-56 | one task is appended |
| `JsEvents.TaskManager.DoOneWork` | src/js/JSTaskManager.cpp:58-71 | the oldest task is taken |
| `JsEvents.EventEmitter.constructor` | src/js/JSEventEmitter.cpp:30-33 | no events |
| `JsEvents.EventEmitter.Emit` | src/js/JSEventEmitter.cpp:39-44 | one event and one task are appended |
| `JsEvents.EventEmitter.OnEmitEvent` | src/js/JSEventEmitter.cpp:46-65 | the oldest event is taken, if any |
| `JsEvents.Invariant` | src/js/JSEventEmitter.cpp:39-65 | the inductive invariant of all interleavings |
| `JsEvents.OneTaskPerEvent` | src/js/JSEventEmitter.cpp:39-65 | pending tasks equal undelivered events at every point, and no task finds the queue empty |
| `JsEvents.DeliveredInOrder` | src/js/JSEventEmitter.cpp:39-65 | what was handed over is a prefix of what was emitted, and of exactly the length left after what is pending and in hand |
| `JsEvents.NothingStranded` | src/js/JSTaskManager.cpp:50-71 | with nothing in progress and no task left, every emitted event was handed over |
| `JsEvents.NeverBlocked` | src/js/JSTaskManager.cpp:50-71 | while an event is undelivered some step can be taken |
| `JsEvents.ComesToRest` | src/js/JSTaskManager.cpp:50-71 | without new emits every run of the loop ends, and at rest everything emitted has been delivered |
| `JsEvents.TasksInOrder` | src/js/JSTaskManager.cpp:40-71 | tasks of all components are taken in the order they were queued, none lost |
| `JsEvents.SerialDelivers` | src/js/JSEventEmitter.cpp:39-65 | for every sequence of events there is an interleaving, with tasks of other components between them, that delivers exactly it |
| `FloodControl.AccessControl.constructor` | src/net/AccessControl.cpp:35-47 | disabled, with empty lists |
| `FloodControl.AccessControl.IsWhiteListed` | src/net/AccessControl.cpp:284-297 | listed by address or by network |
| `FloodControl.AccessControl.BanAddress` | src/net/AccessControl.cpp:210-222 | a ban is entered with its time, if enabled |
| `FloodControl.AccessControl.LogPacket` | src/net/AccessControl.cpp:53-140 | the whole new window, verdict and bans of one packet |
| `FloodControl.AccessControl.Count` | src/net/AccessControl.cpp:71-75 | one packet more for its source, entries in address order |
| `FloodControl.AccessControl.ScanCounters` | src/net/AccessControl.cpp:93-129 | the watermark loop bans exactly the specified sources |
| `FloodControl.AccessControl.IsBannedAddress` | src/net/AccessControl.cpp:142-201 | expired bans are released and the answer given by trust, deny-all, bans and black list in that order |
| `FloodControl.AccessControl.ReleaseExpired` | src/net/AccessControl.cpp:150-170 | the loop releases exactly the bans that outlived their time |
| `FloodControl.BumpedOrder` | src/net/AccessControl.cpp:71-75 | counting keeps entries in order and positive |
| `FloodControl.BumpedCounts` | src/net/AccessControl.cpp:71-75 | one packet more in all, and for that source only |
| `FloodControlLaws.CountsAddUp` | src/net/AccessControl.cpp:69-136 | after any packets the counts sum to the iteration count, which is below the threshold |
| `FloodControlLaws.BannedMeans` | src/net/AccessControl.cpp:93-129 | a source is banned if and only if it set a strict new maximum in address order, reached the rate and is not trusted |
| `FloodControlLaws.FirstMaximumBanned` | src/net/AccessControl.cpp:93-129 | the first source with the highest count is banned if it reaches the rate and is not trusted |
| `FloodControlRuns.ReportedIff` | src/net/AccessControl.cpp:75-84 | in every run a packet is reported if and only if its number is a multiple of the threshold and the window it closes took at most 1000 whole milliseconds |
| `FloodControlRuns.BannedIff` | src/net/AccessControl.cpp:70-135 | a packet gets a source banned if and only if it is reported, bans are automatic, and in the window it closes the source sent at least the rate, more than every source before it in the order, and is not trusted |
| `FloodControlRuns.WindowIs` | src/net/AccessControl.cpp:70-135 | iteration count, last time and every counter are those of the packets since the last closing |
| `FloodControlRuns.BanAllMeans` | src/net/AccessControl.cpp:93-129 | banning enters exactly the sources given, with the time of the ban |
| `FloodControlLaws.BansNeedPackets` | src/net/AccessControl.cpp:93-129 | k bans need k*b + k(k-1)/2 packets, b the least count the first can have |
| `FloodControlLaws.BansAreFew` | src/net/AccessControl.cpp:69-136 | the k sources one packet gets banned satisfy k*rate + k(k-1)/2 <= threshold |
| `FloodControlLaws.DocumentedRuleIff` | src/net/AccessControl.cpp:55-136 | every violator is banned in every full window if and only if no window has room for two |
| `FloodControlLaws.LoneViolatorBanned` | src/net/AccessControl.cpp:55-136 | with room for one violator only, it is banned |
| `FloodControlLaws.SecondViolatorEscapes` | src/net/AccessControl.cpp:55-136 | two sources at or above the rate of which one goes free |
| `FloodControlLaws.BanLasts` | src/net/AccessControl.cpp:142-201 | over any queries, a ban is in force exactly while its age in whole milliseconds is at most its lifetime in seconds, and for good without a lifetime |
| `RtpTimer.Resizer.constructor` | src/rtp/RTPResizer.cpp:29-41 | nothing set |
| `RtpTimer.Resizer.SetSamples` | src/rtp/RTPResizer.cpp:48-53 | for every argument, the tick duration by 32-bit multiplication and widening, and the queue's target time; the duration is the intended one exactly from 0 to 2147483 |
| `RtpTimer.MicrosIff` | src/rtp/RTPResizer.cpp:48-53 | when the product is what was meant |
| `RtpTimer.Resizer.Reset` | src/rtp/RTPResizer.cpp:129-132 | the last tick is unset |
| `RtpTimer.Resizer.Wait` | src/rtp/RTPResizer.cpp:69-127 | new tick and sleep in every branch, in unsigned 64-bit arithmetic |
| `RtpTimer.TickStaysOnGrid` | src/rtp/RTPResizer.cpp:69-127 | for any clock reading the tick moves by one duration, or two on an overrun |
| `RtpTimer.SleepEndsOnGrid` | src/rtp/RTPResizer.cpp:69-127 | outside an overrun the sleep ends on the next grid point |
| `RtpTimer.NoDrift` | src/rtp/RTPResizer.cpp:69-127 | in every run with tolerable sleeps, tick k is exactly the first reading plus k-1 durations and one more per overrun, and the sleep ends on the next grid point |
| `RtpTimer.NeverWraps` | src/rtp/RTPResizer.cpp:69-127 | in such a run no clock reading is before the last tick, so the subtraction does not wrap |
| `RtpTimer.NeverSleeps` | src/rtp/RTPResizer.cpp:69-127 | without a duration no wait sleeps or moves the last tick, whatever the clock reads |
| `PortAllocator.Allocator.constructor` | src/rtp/RTPProxyManager.cpp:28-45 | the counter starts unset |
| `PortAllocator.Allocator.GetNextAvailablePortTuple` | src/rtp/RTPProxyManager.cpp:514-529 | port and counter in 16-bit arithmetic |
| `PortAllocator.CyclesIff` | src/rtp/RTPProxyManager.cpp:514-529 | the k-th port is base + 2*(k mod slots) for all k if and only if the bounds meet a stated condition |
| `PortAllocator.PortInCycle` | src/rtp/RTPProxyManager.cpp:514-529 | under that condition, the k-th port |
| `PortAllocator.WrapsBelowBase` | src/rtp/RTPProxyManager.cpp:514-529 | an odd base with maximum 65535 goes below its base |
| `PortAllocator.LeavesRange` | src/rtp/RTPProxyManager.cpp:514-529 | a range of one slot is left |
| `PortAllocator.Open` | src/rtp/RTPProxyTuple.cpp:46-69 | the attempts made, in order, stop at the first success or after half the range |
| `PortAllocator.FourPortsPerAttempt` | src/rtp/RTPProxyTuple.cpp:53-68 | each attempt uses four different ports, even data and odd control ports for an even base |
| `PortAllocator.FailsOnlyAfterAll` | src/rtp/RTPProxyTuple.cpp:53-68 | a failing open has tried every data port of the range |
| `SessionTable.Manager.constructor` | src/rtp/RTPProxyManager.cpp:28-45 | no sessions |
| `SessionTable.Manager.HandleSdp` | src/rtp/RTPProxyManager.cpp:222-285 | which session is used, created or refused, and the new table and counters |
| `SessionTable.Manager.RemoveSession` | src/rtp/RTPProxyManager.cpp:455-471 | the session and its count are gone |
| `SessionTable.Manager.CollectInactiveSessions` | src/rtp/RTPProxyManager.cpp:487-512 | the erasing walk releases exactly the inactive sessions |
| `SessionTable.Manager.IncrementSessionCount` | src/rtp/RTPProxyManager.cpp:531-539 | one more for the address |
| `SessionTable.Manager.DecrementSessionCount` | src/rtp/RTPProxyManager.cpp:541-547 | one less for a known address, in unsigned arithmetic |
| `SessionTable.Manager.GetSessionCount` | src/rtp/RTPProxyManager.cpp:549-556 | the number of live sessions monitored on the address |
| `SessionTable.HandledConsistent` | src/rtp/RTPProxyManager.cpp:222-285 | handling an SDP keeps counters in agreement and the table within maximum + 1 |
| `SessionTable.ReleasedConsistent` | src/rtp/RTPProxyManager.cpp:455-471 | so does a removal, and the counter is decremented only from above zero |
| `SessionTable.ReleasedAllConsistent` | src/rtp/RTPProxyManager.cpp:487-512 | so does a collection |
| `SessionTable.ReleasedAllSessions` | src/rtp/RTPProxyManager.cpp:487-512 | a collection takes exactly the named sessions and changes no other |
| `SessionTable.CountersAgree` | src/rtp/RTPProxyManager.cpp:222-556 | in every run each address's counter is the number of live sessions monitored on it, and at most maximum + 1 sessions exist |
| `SessionTable.OutcomeIs` | src/rtp/RTPProxyManager.cpp:222-285 | in every run a live session is found; another is created by an INVITE while fewer than one more than the maximum are live, refused when not, and unknown to any other request |
| `SessionTable.SessionsAre` | src/rtp/RTPProxyManager.cpp:222-512 | the table holds a session, and the address it is monitored on, by that session's own creations and removals |
| `SessionTable.EmptyAddressCount` | src/rtp/RTPProxyManager.cpp:256-261 | the counter of the empty address holds every session ever created to be counted on it, because its end does not take it down |
| `SessionTable.OneSessionTooMany` | src/rtp/RTPProxyManager.cpp:242-247 | of any number of invitations for different sessions all get in up to the maximum, and one more than the maximum when there are more |
| `SessionTable.StaysWithinIff` | src/rtp/RTPProxyManager.cpp:222-512 | a run never holds more than the maximum if and only if no INVITE for an unknown session arrives while exactly that many are live |
| `SessionTable.StepWithinIff` | src/rtp/RTPProxyManager.cpp:222-512 | the same for one operation on any table within the maximum |
| `FileEncryptor.Padded` | src/crypto/BlockCipher.cpp:86-97 | the block begins with the data and has the block size |
| `FileEncryptor.ProcessBlocks` | src/crypto/FileEncryptor.cpp:111-137 | the loop processes every eight-byte piece on its own and stops at the first refused one |
| `FileEncryptor.Encrypt` | src/crypto/FileEncryptor.cpp:89-138 | the caller's buffer, then length field and processed contents, or the cipher's error |
| `FileEncryptor.Decrypt` | src/crypto/FileEncryptor.cpp:242-293 | the caller's buffer and the deciphered contents together, cut to the recorded length, or one of the two size errors |
| `FileEncryptor.LittleEndianInverse` | src/crypto/FileEncryptor.cpp:93-101 | the length field is read back as written |
| `FileEncryptor.SmallLength` | src/crypto/FileEncryptor.cpp:93-101 | a length below 256 is its first byte, followed by zeros |
| `FileEncryptor.BlocksInverse` | src/crypto/FileEncryptor.cpp:111-137 | with eight-byte blocks enciphering never fails, fills whole blocks, and deciphering gives the contents padded to whole blocks |
| `FileEncryptor.RoundTrip` | src/crypto/FileEncryptor.cpp:89-293 | for any cipher on eight-byte blocks and any contents, encryption succeeds with 8 + 8*max(1, ceil(n/8)) bytes and decryption into an empty buffer returns exactly the contents |
| `FileEncryptor.RoundTripInto` | src/crypto/FileEncryptor.cpp:242-293 | decryption into any buffer returns the first bytes of the buffer and the padded contents together |
| `FileEncryptor.EmptyBufferIff` | src/crypto/FileEncryptor.cpp:242-293 | all contents come back if and only if the buffer was empty |
| `FileEncryptor.FullBufferFails` | src/crypto/FileEncryptor.cpp:242-293 | contents that do not come back through a buffer that holds something |
| `FileEncryptor.RoundTripsIffEight` | src/crypto/FileEncryptor.cpp:89-293 | all ciphers of a block size get their files back if and only if that size is eight |
| `FileEncryptor.RefusedIff` | src/crypto/FileEncryptor.cpp:242-293 | with eight-byte blocks a file is refused if and only if what follows the length is not whole blocks, or with the buffer is shorter than that length; otherwise as many bytes come back as the length says |
| `FileEncryptor.OtherSizesFail` | src/crypto/FileEncryptor.cpp:111-137 | a file that is lost for any other size |
| `Argv.Parse` | src/exec/stringtoargcargv.cpp:68-180 | the state machine loop computes the arguments or the quote error for every text |
| `ArgvGrammar.TokensOfSpelled` | src/exec/stringtoargcargv.cpp:123-157 | tokens are read back from their spelling |
| `ArgvGrammar.SpelledOfTokens` | src/exec/stringtoargcargv.cpp:123-157 | a text is the spelling of its tokens, a dangling backslash read as an escaped one |
| `ArgvGrammar.LineParsed` | src/exec/stringtoargcargv.cpp:68-180 | every line of the grammar (blanks, and words of bare, escaped and quoted pieces) is parsed into the meanings of its words |
| `ArgvGrammar.Derivation` | src/exec/stringtoargcargv.cpp:68-180 | every token sequence has a derivation, cut short inside a word or quote, that stands where the scanner stands |
| `ArgvGrammar.ParsedIff` | src/exec/stringtoargcargv.cpp:68-180 | a text is parsed into given arguments if and only if a line of the grammar with those arguments spells it; it fails if and only if none does |
| `ArgvGrammar.RefusedIff` | src/exec/stringtoargcargv.cpp:172-177 | a text is refused if and only if a derivation that stops inside a quote spells it |
| `ArgvGrammar.DanglingRefusedIff` | src/exec/stringtoargcargv.cpp:123-157 | a text that ends in a backslash is read as if it ended in two, and refused if and only if a quote is open at its end |
| `ArgvGrammar.DanglingAccepted` | src/exec/stringtoargcargv.cpp:130-138 | a lone backslash is accepted as an argument |
| `ArgvGrammar.CharacterBetween` | src/exec/stringtoargcargv.cpp:68-209 | what every character does between two letters: blank and tab separate, either quote stays open, a backslash is gone, any other stands for itself |
| `ArgvGrammar.QuotesPair` | src/exec/stringtoargcargv.cpp:91-108 | a quote is closed by its own kind only |
| `ArgvGrammar.QuotingRoundTrip` | src/exec/stringtoargcargv.cpp:68-180 | any arguments, double-quoted, backslash-escaped and joined by spaces, are parsed back exactly |
| `DialogState.IndexOf` | src/b2bua/SIPB2BDialogStateManager.cpp:369-388 | the first dialog of a session, or none |
| `DialogState.Manager.constructor` | src/b2bua/SIPB2BDialogStateManager.cpp:233-243 | nothing held |
| `DialogState.Manager.AddDialog` | src/b2bua/SIPB2BDialogStateManager.cpp:333-358 | the dialog is appended to its call's list |
| `DialogState.Manager.FindSession` | src/b2bua/SIPB2BDialogStateManager.cpp:369-388 | the loop shared by updates and removal finds the first dialog of the session |
| `DialogState.Manager.UpdateLeg` | src/b2bua/SIPB2BDialogStateManager.cpp:360-395 | one leg of the session's first dialog is replaced |
| `DialogState.Manager.Update` | src/b2bua/SIPB2BDialogStateManager.cpp:397-424 | both legs are replaced |
| `DialogState.Manager.RemoveDialog` | src/b2bua/SIPB2BDialogStateManager.cpp:426-454 | the session's first dialog, an emptied list and the session's record are gone |
| `DialogState.Manager.Persist` | src/b2bua/SIPB2BDialogStateManager.cpp:36-50 | the record is filed under its session |
| `DialogState.Manager.FindDialog` | src/b2bua/SIPB2BDialogStateManager.cpp:507-606 | the verdict in every branch, and what the output argument holds afterwards, after a failed search too |
| `DialogState.Manager.PopulateFromStore` | src/b2bua/SIPB2BDialogStateManager.cpp:282-294 | the loop admits young records and drops the others |
| `DialogStateLaws.StepActsOnLists` | src/b2bua/SIPB2BDialogStateManager.cpp:333-454 | an operation acts on each call's list apart from all others and leaves none empty |
| `DialogStateLaws.Invariant` | src/b2bua/SIPB2BDialogStateManager.cpp:333-454 | after any run no Call-ID has an empty list and every record is under its own session |
| `DialogStateLaws.SessionsKept` | src/b2bua/SIPB2BDialogStateManager.cpp:333-454 | after any run a call's list names its sessions as additions and removals alone give them, in order, and the call is present exactly while one is left |
| `DialogStateLaws.RemovedSession` | src/b2bua/SIPB2BDialogStateManager.cpp:426-454 | a removal takes one dialog of the session and no other; the session is still listed if and only if it was there twice, and its record is gone |
| `DialogStateLaws.RemovedForGood` | src/b2bua/SIPB2BDialogStateManager.cpp:426-606 | a session removed for the last time is found by no search, whatever follows, until added again |
| `DialogStateLaws.FirstAnswerMeans` | src/b2bua/SIPB2BDialogStateManager.cpp:543-557 | the session search finds the first dialog of that session one of whose legs has the message's To tag, and fails only if there is none |
| `DialogStateLaws.FilledIff` | src/b2bua/SIPB2BDialogStateManager.cpp:507-606 | the output argument is what was found, except that a call's only dialog is left there when it is of another session |
| `DialogStateLaws.FoundIsListed` | src/b2bua/SIPB2BDialogStateManager.cpp:507-606 | any dialog found is in the call's list and of the session asked for |
| `DialogStateLaws.FoundWithoutSession` | src/b2bua/SIPB2BDialogStateManager.cpp:531-590 | a message without a session finds a dialog if and only if it is the only one, or the first by its caller's tag, or the last by its other leg's tag while the first does not carry that tag |
| `DialogStateLaws.ReachableIff` | src/b2bua/SIPB2BDialogStateManager.cpp:559-590 | some message finds a dialog that way if and only if it is the first of its call or the last with a tag of its own |
| `DialogStateLaws.MiddleNeverFound` | src/b2bua/SIPB2BDialogStateManager.cpp:559-590 | of three dialogs no message finds the second |
| `DialogStateLaws.RecordsKept` | src/b2bua/SIPB2BDialogStateManager.cpp:36-81 | after any run the store holds the last dialog saved for each session and not removed since |
| `DialogStateLaws.DialogsKept` | src/b2bua/SIPB2BDialogStateManager.cpp:333-454 | after any run a session's dialogs in a call are exactly what its own additions, updates and removals make, in order, whatever happens in other sessions and calls |
| `DialogStateLaws.OfRelegged` | src/b2bua/SIPB2BDialogStateManager.cpp:360-424 | an update changes the session's first dialog and no other session |
| `DialogStateLaws.OfWithout` | src/b2bua/SIPB2BDialogStateManager.cpp:426-454 | a removal takes the session's first dialog and no other |
| `DialogStateLaws.SearchedSession` | src/b2bua/SIPB2BDialogStateManager.cpp:507-606 | after any run a search for a session depends on the session's own history alone: the first of its dialogs with the message's To tag, or the one there is if the call has no other session |
| `DialogStateLaws.YoungIff` | src/b2bua/SIPB2BDialogStateManager.cpp:282-294 | a record is admitted if and only if it is less than sixty seconds old by the 64-bit clock |
| `DialogStateLaws.PopulatedLists` | src/b2bua/SIPB2BDialogStateManager.cpp:282-294 | loading appends to each call's list its young records in store order and drops exactly the old records |
| `DialogStateLaws.LoadAdds` | src/b2bua/SIPB2BDialogStateManager.cpp:282-294 | loading the store an earlier run left, into any table, adds for each session exactly the record last saved, under the Call-ID of its first leg, unless it is a minute old |
| `DialogStateLaws.RestartRestores` | src/b2bua/SIPB2BDialogStateManager.cpp:36-294 | a manager started over that store has exactly those records |
| `DialogStateLaws.LoadAgain` | src/b2bua/SIPB2BDialogStateManager.cpp:270-294 | the load at thread start, over a table in use, leaves a session listed as often as before if and only if there is nothing to load for it |
| `DialogStateLaws.LoadListsTwice` | src/b2bua/SIPB2BDialogStateManager.cpp:270-294 | a dialog added and saved before that is listed twice |

## Left out

- SIP message parsing and the ABNF combinators; tags, Call-IDs, addresses and payload types are taken as given values.
- Sockets, DTLS, WebSockets, ZMQ, ESL, DNS, Redis, libconfig, V8 handles and plugins: foreign libraries.
- RTP packet parsing, frame relay and XOR obfuscation; a packet is its header fields and payload.
- SIP header rewriting, routing, SDP and contact building, `findReplacesTarget`, the registration half of the dialog store.
- Cache and workspace expiry: entries leave only by the operations modelled.
- JSON forms of records and of stored dialogs: a record read back is taken to be the one written.
- Logging, module notifications, null routes, file access, thread start and stop.
- The workspace database that counters are published to is taken to be present.
- Dial prefix configuration strings are taken already split at commas and trimmed.
- Event queue of the CDR manager: its handlers are atomic steps, in any order.
- Removal from the domain limits, which nothing calls.
- Signed 32-bit overflow, signed characters and uninitialised or freed memory are given the meaning they have on the usual platforms: two's complement, sign extension, and an arbitrary value. A handler whose timer object is gone still finds the manager through it.
- RtpResizingRuns.BytesConserved: its runs go on past a dequeue that overruns the stack buffer; what it and the other laws over runs of the queue state holds of the code as long as every dequeue returns without an overrun.
- Alias resolution and the prefix scan of one call to the channel limits are one step.
- Timer identifiers, packet counters of flood control and its ban lifetime in milliseconds are unbounded; the code has 32-bit integers.
- Matching an address against a listed network is an arbitrary predicate; threshold and rate do not change within a run.
- RTPResizer's thread, its queue length bookkeeping and the resizer's own lock.
- Media session internals, state files, and the switch that disables the proxy.
- The second buffer-building `encrypt` overload has the same body as the first and is not repeated; the length field is that of a little-endian host.
- Windows branches of command line splitting, and the copy of the arguments into C strings.
- RtpResizingQueue.ResizingQueue.Enqueue: does not model a queue whose base time or sample size is zero, on which the code divides by zero; the same holds for the other operations of the queue.
- CdrChannelCount.CountedCalls: speaks of runs in which session and call identifiers are not reused and registrations do not change; re-registration is in `CacheHoldsLiveCalls` and `RegisterKeepsTarget`.
