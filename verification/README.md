# A verified model of EZK's protocol engines

EZK is a collection of SIP, SDP, RTP, STUN and ICE crates for Rust. Its engines do no input or output of their
own: bytes, messages and times go in, and messages and events come out. This project models ten of them in Dafny
and proves what they promise, or exactly when they keep the promise.

| module | what it models |
|---|---|
| `Crc32` | the table-driven CRC-32 of the STUN fingerprint against the bit-serial one |
| `StunMessage`, `StunParser`, `StunRoundTrip` | the STUN builder, which patches its own header while it signs, the parser, which patches it again to verify, and the way from one to the other |
| `SipFraming`, `StreamingDecoder` | the resumable line scanner for SIP heads, and the two-pass decoder for SIP over streams |
| `JitterBuffer`, `Counters` | the RTP jitter buffer, a deque that stands for a sorted map, and the extension of truncated counters |
| `IcePriority`, `IceChecklist`, `IceState`, `IceAgent` | the ICE agent: candidates, checklist, checks, nomination, role switches, connection state |
| `IceRuns`, `IceChecks`, `IceCheckRuns`, `IceNomination`, `IceWitnesses` | its laws over whole runs: the invariant, the life of a check, what a controlled agent can nominate, and runs that break what comments promise |
| `StunTimer`, `IceRoles` | retransmission of STUN requests; two agents that settle their roles over a network |
| `TransactionKey`, `InviteTransaction` | matching messages to transactions; the INVITE client and server over a lossy, duplicating network |
| `SdpExchange`, `SdpSession` | SDP offers: media, transports and use counts across renegotiations |
| `SrtpCrypto` | the parser and printer of the SDES crypto attribute |
| `DigestAuth` | digest authentication: stored responses and nonce counts |

`Bytes`, `Powers` and `Wrappers` hold what several of them share. Where the source changes an object step by step, a class
does the same with loops, each method proved equal to a function of the old state; the laws are lemmas about
these functions. Where the modelled code would panic on what it receives, the model has an outcome that says so,
and its contract or a lemma says exactly when it comes to that.

## What the proofs found

The model follows the code where it differs from its comments or from a standard:

- Pairs are sorted in ascending order, so that the waiting pair of lowest priority is checked first and pruning
  drops the highest ones (`IceRuns.LowestWaitingIsChecked`, `IceChecklist.FormPairsKeeps`).
- Of two controlled ICE agents the smaller tie-breaker takes control; section 7.3.1.1 of RFC 8445 says the larger
  (`IceRoles.SmallerTakesControl`). The conflict reply has the success class and is signed with the wrong
  password, so that it is dropped (`IceRoles.RoleErrorIsDiscarded`).
- A response counts as symmetric if either its source or its destination fits, where the comment asks for both:
  a pair succeeds on responses from an address that nothing was sent to (`IceChecks.BothAddressesFitExactly`,
  `IceWitnesses.OneAddressIsEnough`).
- A controlled agent leaves out nomination once any pair is nominated, so that it never connects while RTCP has a
  component of its own (`IceNomination.TwoComponentsNeverConnect`, `IceWitnesses.RtcpIsLeftOut`). A request from a known address can make it
  panic (`IceRuns.PanicsExactly`, `IceWitnesses.KnownAddressPanics`).
- Above 31 bits the order of pairs is not always the lexicographic one (`IcePriority.OrderIsKeptExactly`).
- The jitter buffer's assertion fails when the earliest packet is not due but a later one is
  (`JitterBuffer.PopFailsExactly`), and a gap can exceed its limit (`JitterBuffer.LimitIsKeptExactly`).
- The end of a SIP head is exact only for CRLFCRLF and LFLF; a mixed ending can make the second pass panic
  (`StreamingDecoder.MixedEndingFails`). A call resumed inside a head forgets a content length read before
  (`StreamingDecoder.ResumedCall`, `StreamingDecoder.LengthIsForgotten`), and clearing an oversized stream keeps
  the old progress, which the caller is spared because it stops at that error
  (`StreamingDecoder.NextCallIsSafeExactly`, `StreamingDecoder.ClearedStreamFails`, `StreamingDecoder.ProgressStaysInside`).
- An offer that fails drops the media it had matched or added, with their uses (`SdpExchange.FailureLosesMediaExactly`,
  `SdpExchange.IdIsLost`), and an m-line rejected for its transport leaks a use of its local media
  (`SdpExchange.LineLeaksExactly`, `SdpExchange.UsesAreLost`). Payload type 127 is never given out
  (`SdpExchange.PtsAreConsecutive`).
- Counters are extended modulo max instead of max + 1 (`Counters.RecoveredExactly`).
- A digest header with integrity protection is hashed as plain authentication from its second use on
  (`DigestAuth.HashIsRightExactly`, `DigestAuth.IntegrityIsLost`), and all headers go on naming the request that
  was rejected (`DigestAuth.HeadersStem`, `DigestAuth.HeaderFitsExactly`, `DigestAuth.PlainHeaderFitsExactly`,
  `DigestAuth.OtherAddressDoesNotFit`).

## Model

| member | source | states |
|---|---|---|
| `Crc32.Crc32Table` | media/stun-types/src/attributes/fingerprint.rs:15-41 | every table entry is the remainder that eight clocks of the bit-serial CRC leave of its index |
| `Crc32.Remainder` | media/stun-types/src/attributes/fingerprint.rs:18-36 | the inner loop computes that remainder |
| `Crc32.LookupIsFeed` | media/stun-types/src/attributes/fingerprint.rs:43-54 | one table lookup and shift does what feeding the eight bits of a byte does, from any state |
| `Crc32.UpdateCrc32` | media/stun-types/src/attributes/fingerprint.rs:43-54 | the table-driven update equals the bit-by-bit CRC for every byte string and every starting value |
| `Crc32.UpdateAppend` | media/stun-types/src/attributes/fingerprint.rs:43-54 | updating over a and then over b equals updating over both, from any starting value |
| `StunMessage.Padding` | media/stun-types/src/lib.rs:40-59 | padding fills an attribute up to a multiple of four with less than four bytes |
| `StunMessage.AddItemKeeps` | media/stun-types/src/builder.rs:65-84 | adding an attribute keeps all bytes behind the length field and grows the buffer by its wire length |
| `StunMessage.MessageBuilder.SetLen` | media/stun-types/src/builder.rs:45-55 | only the length in the first four bytes changes, in the head and in the buffer alike |
| `StunMessage.MessageBuilder.AddAttribute` | media/stun-types/src/builder.rs:65-84 | the buffer is that of the attribute list with one more attribute |
| `StunMessage.MessageBuilder.EncodeSeal` | media/stun-types/src/attributes/integrity.rs:118-139 | the hash is taken over the buffer with the length that the receiver will patch in, and appended |
| `StunMessage.MessageBuilder.Finish` | media/stun-types/src/builder.rs:98-101 | the result is the buffer with its real length in the header |
| `StunMessage.Build` | media/stun-types/src/builder.rs:18-101 | for any class, method, attribute list and way of padding the builder makes the message that the functional description of the wire format says |
| `StunParser.ParsedTiles` | media/stun-types/src/parse.rs:82-112 | attribute spans of a parsed message follow each other without gap or overlap, from behind the header to the end of the buffer |
| `StunParser.Message.SetMsgLen` | media/stun-types/src/parse.rs:164-173 | patching the length leaves every other byte of the buffer alone |
| `StunParser.Message.Attribute` | media/stun-types/src/parse.rs:136-162 | the span found is the first of its type that is not hidden behind an integrity attribute; None exactly if there is none |
| `StunParser.Message.VerifySeal` | media/stun-types/src/attributes/integrity.rs:81-116 | the verdict is that of the hash over the patched prefix, and the buffer is unchanged afterwards |
| `StunParser.Parse` | media/stun-types/src/parse.rs:60-125 | the loop gives the spans, or the error, of the functional description of the format |
| `StunParser.LayoutParsed` | media/stun-types/src/parse.rs:82-112 | a buffer laid out as attributes one after the other parses to exactly their spans |
| `StunParser.GrowsFar` | media/stun-types/src/builder.rs:65-84 | what has been written stays in place however many attributes are added later |
| `StunRoundTrip.TypeRoundTrip` | media/stun-types/src/header.rs:38-124 | class and method are read back from the type bits for every class and method |
| `StunRoundTrip.ItemInPlace` | media/stun-types/src/attributes/integrity.rs:118-139 | an attribute of a finished message has its header, its value, and the hash that was valid when it was added |
| `StunRoundTrip.AttributesParsed` | media/stun-types/src/parse.rs:82-112 | parsing a finished message gives one span for each attribute, which recovers it |
| `StunRoundTrip.BuiltMessageParses` | media/stun-types/src/parse.rs:60-125 | every built message parses, with its class, method, transaction id and attributes, and spans that tile the buffer from byte 20 to its end |
| `StunRoundTrip.BuiltIsFramed` | media/stun-types/src/lib.rs:99-128 | for any received part of a built message, the missing bytes are counted exactly, and for any continuation its end is found |
| `StunRoundTrip.SignedChecks` | media/stun-types/src/attributes/integrity.rs:81-116 | integrity and fingerprint of a signed message both hold for the parser's patched buffer, for every key and every hash |
| `StunRoundTrip.SignedLookup` | media/stun-types/src/parse.rs:136-162 | each attribute that is the first of its type is the one found, with its value |
| `StunRoundTrip.SignAndCheck` | media/stun-types/src/attributes/integrity.rs:81-139 | signing, finishing, parsing and both checks with the same key succeed, and the buffer is unchanged |
| `SipFraming.PullParser.Next` | sip/sip-types/src/msg.rs:312-367 | the next line, its end and the new progress are those of the scan; progress moves only past complete lines |
| `SipFraming.ScanExtended` | sip/sip-types/src/msg.rs:312-367 | a line or end of head found on a prefix is found identically on every extension |
| `SipFraming.RunExtended` | sip/sip-types/src/msg.rs:293-367 | lines of a prefix and lines from the saved progress are together the lines of the whole input |
| `SipFraming.ChunksDoNotMatter` | sip/sip-types/src/msg.rs:293-367 | however the input is cut into chunks, lines, progress and completeness are those of one parse |
| `SipFraming.HeadEndStays` | sip/sip-types/src/msg.rs:283-289 | the end of a complete head does not depend on later bytes |
| `SipFraming.RunTruncated` | sip/sip-types/src/msg.rs:312-367 | a truncated input still shows a complete head exactly if the lookahead behind it was not cut off |
| `SipFraming.HeadEndExact` | sip/sip-types/src/msg.rs:283-289 | the reported end is behind the empty line exactly if the last two terminators are alike (CRLFCRLF or LFLF) |
| `StreamingDecoder.StreamingDecoder.Decode` | sip/sip-core/src/transport/streaming/decode.rs:56-179 | for any stream and any saved progress one call does what the function says, in outcome, remaining bytes and new progress; a progress beyond the stream is a panic |
| `StreamingDecoder.StreamingDecoder.FirstPass` | sip/sip-core/src/transport/streaming/decode.rs:79-118 | the loop finds the announced body length and whether the head is complete |
| `StreamingDecoder.StreamingDecoder.SecondPass` | sip/sip-core/src/transport/streaming/decode.rs:141-178 | the loop accepts or rejects the cut-off message as the function says |
| `StreamingDecoder.NothingIsLost` | sip/sip-core/src/transport/streaming/decode.rs:56-179 | message bytes and remaining bytes together are the stream behind its leading white space, and all of it remains until a message is cut off or the stream fails |
| `StreamingDecoder.NextCallIsSafeExactly` | sip/sip-core/src/transport/streaming/decode.rs:72-79 | the saved progress lies in the next buffer, whatever arrives, unless an oversized stream was cleared in the middle of a head |
| `StreamingDecoder.ProgressStaysInside` | sip/sip-core/src/transport/streaming/mod.rs:336-360 | over every sequence of chunks, up to the first error, at which the caller stops, the saved progress lies in the buffer of the next call |
| `StreamingDecoder.ClearedStreamFails` | sip/sip-core/src/transport/streaming/decode.rs:66-79 | a head that has begun, a stream that grows beyond the limit, and one byte more: the third call panics, for a caller that goes on after the error of the second |
| `StreamingDecoder.SecondPassAgrees` | sip/sip-core/src/transport/streaming/decode.rs:141-171 | the second pass fails exactly if truncation cut off its lookahead; otherwise it has the lines of the first pass and a body of the announced length |
| `StreamingDecoder.DoubleNewlineIsNeeded` | sip/sip-types/src/msg.rs:283-289 | the reported end of the head covers the lookahead exactly for CRLFCRLF and LFLF |
| `StreamingDecoder.WholeMessage` | sip/sip-core/src/transport/streaming/decode.rs:79-178 | a whole message that ends its head in CRLFCRLF or LFLF is decoded in one call; for other endings the exact condition of failure |
| `StreamingDecoder.MixedEndingFails` | sip/sip-core/src/transport/streaming/decode.rs:141-150 | a head that ends in CRLF LF without a body makes the second pass panic, whatever its line says |
| `StreamingDecoder.ResumedCall` | sip/sip-core/src/transport/streaming/decode.rs:79-118 | a call resumed inside the head agrees with a single call exactly if the length comes in the resumed part or no body was announced before |
| `StreamingDecoder.LengthIsForgotten` | sip/sip-core/src/transport/streaming/decode.rs:79-118 | a length read in the first call and a head completed in the second: the body is left in the stream |
| `JitterBuffer.JitterBuffer.PushPacket` | media/rtp/src/session/jitter_buffer.rs:86-161 | the loops do what the function on queue, counters and last number says |
| `JitterBuffer.JitterBuffer.PopPacket` | media/rtp/src/session/jitter_buffer.rs:163-189 | the loops do what the function says, with the assertion as an outcome |
| `JitterBuffer.JitterBuffer.TimestampOfEarliestPacket` | media/rtp/src/session/jitter_buffer.rs:191-196 | the timestamp of the first occupied entry, if there is one |
| `JitterBuffer.PushRefines` | media/rtp/src/session/jitter_buffer.rs:86-161 | a push keeps the numbers contiguous and the back occupied, and as a map adds the packet exactly if it is not late, not a duplicate and not before the front |
| `JitterBuffer.LimitIsKeptExactly` | media/rtp/src/session/jitter_buffer.rs:140-160 | the limit of entries is kept exactly if the new gap does not exceed it by more than one entry |
| `JitterBuffer.LimitIsExceeded` | media/rtp/src/session/jitter_buffer.rs:140-160 | two packets 1002 numbers apart make a buffer of 1002 entries |
| `JitterBuffer.PopRefines` | media/rtp/src/session/jitter_buffer.rs:163-189 | a pop takes the least stored number exactly if its time has come, and counts the skipped numbers as lost |
| `JitterBuffer.PopFailsExactly` | media/rtp/src/session/jitter_buffer.rs:163-178 | the assertion fails exactly if the earliest packet is not due but a later one is |
| `JitterBuffer.DeliveryIsOrdered` | media/rtp/src/session/jitter_buffer.rs:86-189 | over every run with timestamps in order no assertion fails, delivered numbers strictly increase, and only pushed packets are stored |
| `JitterBuffer.PushKeeps` | media/rtp/src/session/jitter_buffer.rs:86-161 | a push keeps what runs keep, wherever its timestamp lies |
| `JitterBuffer.LossesAreBounded` | media/rtp/src/session/jitter_buffer.rs:169-189 | over every such run delivered and lost numbers together never exceed the numbers passed |
| `JitterBuffer.OutOfOrderFails` | media/rtp/src/session/jitter_buffer.rs:163-178 | timestamps that go back make the assertion fail |
| `Counters.IsNearerCandidate` | media/rtp/src/lib.rs:68-79 | the result is congruent to the counter modulo max and the nearer of the two candidates |
| `Counters.NearestExactly` | media/rtp/src/lib.rs:68-79 | it is the nearest of all representatives exactly for a reference in the first cycle or at most half a cycle ahead of the counter |
| `Counters.FirstCycleIsRecovered` | media/rtp/src/lib.rs:35-41 | feeding results back recovers every first-cycle sequence whose steps back stay below half the range |
| `Counters.OneStep` | media/rtp/src/lib.rs:68-79 | a first-cycle value is recovered exactly if it is less than half the range behind the reference |
| `Counters.RecoveredExactly` | media/rtp/src/lib.rs:35-79 | because the modulus is max and not max + 1, some reference recovers a value exactly if the number of its cycles is a multiple of max |
| `Counters.LaterCyclesAreNotRecovered` | media/rtp/src/lib.rs:35-41 | so no value of the max - 1 cycles after the first is recovered from any reference |
| `Counters.WrapIsOffByOne` | media/rtp/src/lib.rs:35-41 | after a 16-bit wrap the first value is extended to the number of the last one |
| `IcePriority.FitsExactly` | media/ice/src/lib.rs:1290-1309 | the priority of two 32-bit candidates fits 64 bits unless both are the largest; below 31 bits it fits 63 |
| `IcePriority.IsLexicographic` | media/ice/src/lib.rs:1290-1309 | below 31 bits pairs are ordered by minimum, then maximum, then who has it, and different pairs differ |
| `IcePriority.PeersAgree` | media/ice/src/lib.rs:1290-1309 | both agents, in opposite roles, give a pair the same priority |
| `IcePriority.OrderIsKeptExactly` | media/ice/src/lib.rs:1290-1309 | for any 32-bit priorities two pairs are in that order exactly if neither runs over into the other: its minimum is one less, and the low part at least 2^32 larger |
| `IcePriority.OverflowsAbove31Bits` | media/ice/src/lib.rs:1308-1308 | one pair of pairs that does run over |
| `IceState.KindDecidesPriority` | media/ice/src/lib.rs:368-386 | local priorities have 31 bits, are ordered by kind and differ, while a kind has at most 16384 candidates |
| `StunTimer.ScheduleIsExact` | media/ice/src/stun.rs:37-45 | after any polls at any times the timer runs to the deadline of the number of due polls, and the request was sent once more than that, at most 1 + max_retransmits times |
| `StunTimer.NotGivenUpEarly` | media/ice/src/lib.rs:1014-1047 | a check does not fail before its last deadline |
| `StunTimer.GivenUpInTheEnd` | media/ice/src/lib.rs:1014-1047 | it fails after at most max_retransmits + 1 polls that come after it |
| `StunTimer.DefaultLastDeadline` | media/ice/src/stun.rs:24-35 | with the defaults the last deadline is 15.75 s after the start |
| `StunTimer.StunServerBinding.PollBinding` | media/ice/src/stun.rs:243-316 | a transaction follows its timer; when that gives up the binding fails and its mapped address is gone |
| `StunTimer.StunServerBinding.ReceiveResponse` | media/ice/src/stun.rs:318-338 | only the answer to the request in progress, with an address, completes the binding and replaces the address; one without an address changes nothing, one that is not decodable panics |
| `IceChecklist.SortKeeps` | media/ice/src/lib.rs:492-492 | whatever sorts by priority makes a checklist of the same pairs |
| `IceChecklist.AddPairKeeps` | media/ice/src/lib.rs:497-532 | adding a pair keeps the others and has the new one once |
| `IceChecklist.FormPairsKeeps` | media/ice/src/lib.rs:442-495 | after forming pairs every eligible pair is there, unless the limit is exceeded: then those with the highest priorities are dropped |
| `IceChecklist.RecomputeKeeps` | media/ice/src/lib.rs:534-544 | after a change of role the same pairs form a checklist with the new priorities |
| `IceChecklist.PeersRankAlike` | media/ice/src/lib.rs:534-544 | two agents in opposite roles rank any two shared pairs alike |
| `IceState.AddLocal` | media/ice/src/lib.rs:348-398 | the checklist with the new candidate is valid, and connection state, last check and earlier events stay as they were |
| `IceState.Best` | media/ice/src/lib.rs:1168-1174 | no pair that may be nominated has a higher priority than the one found, and one is found exactly if there is any |
| `IceState.NothingToDangle` | media/ice/src/lib.rs:288-293 | before there are remote candidates no pair can lose its local candidate |
| `IceRuns.OneNomination` | media/ice/src/lib.rs:1154-1231 | at most one pair of a component is nominated |
| `IceRuns.BestIsNominated` | media/ice/src/lib.rs:1154-1231 | nomination marks exactly one pair, with the highest priority among those it may choose |
| `IceRuns.PollConnectsExactly` | media/ice/src/lib.rs:919-1132 | after a whole poll, with its retransmits, failures and nominations, the agent is connected exactly if before it every needed component had a nominated pair that succeeded |
| `IceRuns.LowestWaitingIsChecked` | media/ice/src/lib.rs:966-968 | without triggered checks the waiting pair of lowest priority is checked next |
| `IceRuns.AtMostOneNewCheck` | media/ice/src/lib.rs:919-1011 | a poll starts at most one new check; its request tells role, tie-breaker and nomination, goes to the remote candidate, and no other pair changes |
| `IceRuns.RolesAreThoseOfTwoAgents` | media/ice/src/lib.rs:742-831 | whatever the agent receives, its role afterwards is the one of the two-agent model, so that the laws of that model are laws of the agent |
| `IceRuns.PanicsExactly` | media/ice/src/lib.rs:767-888 | a request makes the agent panic exactly if it is authentic and has no priority, or reaches a host candidate from a known address that is not paired with it |
| `IceWitnesses.KnownAddressPanics` | media/ice/src/lib.rs:833-888 | a run from the creation of the agent that ends in this panic |
| `IceChecks.ChecksFollowTheirTimer` | media/ice/src/lib.rs:1014-1047 | over every run of polls, at any times, a check without an answer is where the STUN schedule says, and was sent exactly as often as that says |
| `IceCheckRuns.ChecksFollowTheirTimerAmongAll` | media/ice/src/lib.rs:222-1238 | over every run of any operations, answers, role changes, new candidates and triggered checks among them: while a check runs it is where the schedule of the polls says and was sent exactly as often; once it has ended, for whatever reason, it was sent no more often than that, and eight times at most |
| `IceChecks.EightSendsThenFailed` | media/ice/src/lib.rs:919-1047 | a check that a poll starts and nobody answers is sent eight times at most over any further polls; its pair fails after enough polls past the last deadline, and never before one |
| `IceChecks.SucceedsExactly` | media/ice/src/lib.rs:624-711 | whatever the agent receives, a pair has succeeded afterwards exactly if it had before, or the packet is an authentic answer to its check of which one address fits |
| `IceChecks.BothAddressesFitExactly` | media/ice/src/lib.rs:637-697 | that a pair succeeds only if both addresses of the response fit, as the comment demands, holds of an answer exactly if the two tests agree on it |
| `IceWitnesses.OneAddressIsEnough` | media/ice/src/lib.rs:658-682 | a run from the creation of the agent in which all responses come from a strange address: the pair succeeds, is nominated, and its address is used |
| `IceRuns.PollAnnouncesNominated` | media/ice/src/lib.rs:1193-1231 | every address announced while polling is the remote address of a pair nominated for that component |
| `IceRuns.ReceiveAnnouncesNominated` | media/ice/src/lib.rs:668-679 | every address announced while receiving is the remote address of a pair nominated for that component, before or after |
| `IceRuns.StepKeeps` | media/ice/src/lib.rs:277-1143 | every operation keeps the invariant of runs |
| `IceRuns.RunsKeepTheInvariant` | media/ice/src/lib.rs:222-1238 | over every run without panics: no pair twice, only live ids, priorities under the present role in ascending order, one nomination per component, connection events on one path from New, new checks 50 ms apart, and every address announced is that of a pair that was nominated for its component in some state, also while waiting messages are handled |
| `IceNomination.TwoComponentsNeverConnect` | media/ice/src/lib.rs:1193-1231 | over every run in which the agent stays controlled and RTCP has a component of its own, it nominates one pair at most and is never connected |
| `IceNomination.RtcpIsNominatedExactly` | media/ice/src/lib.rs:1145-1231 | a controlled agent has a pair for RTCP nominated exactly if it had one, or had none for any component, can choose none for RTP, and can choose one for RTCP |
| `IceWitnesses.RtcpIsLeftOut` | media/ice/src/lib.rs:1193-1231 | two pairs that succeeded and that the peer has asked for, one of each component: only the one for RTP is nominated, now and later |
| `IceAgent.IceAgent.FormAllPairs` | media/ice/src/lib.rs:442-495 | the nested loops form the pairs that the function says |
| `IceAgent.IceAgent.PrunePairs` | media/ice/src/lib.rs:547-561 | the loop keeps the first pairs up to the limit |
| `IceAgent.IceAgent.RecomputePairPriorities` | media/ice/src/lib.rs:534-544 | every priority is recomputed and the list sorted again |
| `IceAgent.IceAgent.AddLocalCandidate` | media/ice/src/lib.rs:348-398 | the object does what the function on its state says, and stays valid |
| `IceAgent.IceAgent.AddRemoteCandidate` | media/ice/src/lib.rs:401-440 | the object does what the function on its state says, and stays valid; a usable candidate with a priority above 32 bits is a panic |
| `IceAgent.IceAgent.NominateComponent` | media/ice/src/lib.rs:1154-1231 | the search for the best pair and its nomination do what the function says |
| `IceAgent.IceAgent.PollRetransmit` | media/ice/src/lib.rs:1014-1047 | the loop retransmits, fails or leaves each pair as the function says |
| `IceAgent.IceAgent.PollState` | media/ice/src/lib.rs:1075-1132 | the scan over the pairs gives the connection state that the function says |
| `IceAgent.IceAgent.Poll` | media/ice/src/lib.rs:919-1011 | the parts of a poll come in this order, and at most one check starts |
| `IceAgent.IceAgent.ReceiveSuccess` | media/ice/src/lib.rs:624-711 | the answered pair succeeds or fails, and a new reflexive address becomes a candidate |
| `IceAgent.IceAgent.ReceiveError` | media/ice/src/lib.rs:714-765 | a role conflict takes the told role, recomputes priorities and triggers the pair again |
| `IceAgent.IceAgent.ReceiveRequest` | media/ice/src/lib.rs:767-916 | role conflict, peer-reflexive candidate, response and nomination as the function says; a missing priority and an unpaired known candidate are panics |
| `IceAgent.IceAgent.SetRemoteData` | media/ice/src/lib.rs:277-302 | RTCP candidates go with rtcp-mux, remote candidates are added and waiting messages handled, in every state; that pairs are left without their candidate is an outcome |
| `IceAgent.IceAgent.PopEvent` | media/ice/src/lib.rs:1236-1238 | events are taken in order |
| `IceRoles.ConflictIsResolved` | media/ice/src/lib.rs:781-831 | two agents in the same role with different tie-breakers, over every run of lost, repeated and reordered messages: only the smaller one ever switches, at most once, and the roles are opposite exactly from when it has processed a request |
| `IceRoles.StaysResolved` | media/ice/src/lib.rs:742-831 | opposite roles stay opposite for ever |
| `IceRoles.NobodySwitches` | media/ice/src/lib.rs:781-831 | agents that start in opposite roles, or with equal tie-breakers, never switch |
| `IceRoles.ResolvableExactly` | media/ice/src/lib.rs:781-831 | a conflict can be resolved at all exactly if the tie-breakers differ |
| `IceRoles.SmallerTakesControl` | media/ice/src/lib.rs:807-829 | of two controlled agents the one with the smaller tie-breaker becomes controlling |
| `IceRoles.RoleErrorIsDiscarded` | media/ice/src/stun.rs:101-133 | a conflict reply passes the receiver's integrity check exactly if both agents have the same password |
| `InviteTransaction.ClientInvTsx.Receive` | sip/sip-core/src/transaction/client_inv.rs:100-145 | the waiting loop does what the function of its wake-ups says |
| `InviteTransaction.ClientInvTsx.Handle` | sip/sip-core/src/transaction/client_inv.rs:147-191 | state, time limit and ACK after a response are those of the function |
| `InviteTransaction.EachIntervalDoubles` | sip/sip-core/src/transaction/client_inv.rs:110-127 | while nobody answers the request is sent again whenever the client's own interval has passed, and doubles it |
| `InviteTransaction.SevenSendsAtMost` | sip/sip-core/src/transaction/client_inv.rs:110-127 | a client whose every wake comes after its own interval and before its own time limit has sent the INVITE seven times at most |
| `InviteTransaction.SevenAreSent` | sip/sip-core/src/transaction/client_inv.rs:110-127 | and seven times if every wake comes exactly on time |
| `InviteTransaction.ServerInvTsx.Respond` | sip/sip-core/src/transaction/server_inv.rs:86-152 | the waiting loop of the server does what the function of its wake-ups says |
| `InviteTransaction.RetransmitsAreBounded` | sip/sip-core/src/transaction/server_inv.rs:106-149 | however late timers fire, the failure is repeated by the timer at most ten times, with deltas doubling from T1 to T2 |
| `InviteTransaction.GivesUpOnlyLate` | sip/sip-core/src/transaction/server_inv.rs:130-136 | the server gives up only after 64 T1 |
| `InviteTransaction.AtMostOneFailure` | sip/sip-core/src/transaction/client_inv.rs:147-191 | over every run with a failing server and a lossy, duplicating network that also carries messages of other transactions: at most one failure is delivered, ACKs are sent only after it, and the server ends well only if the client had received its response |
| `InviteTransaction.LateCopiesOnlyReAck` | sip/sip-core/src/transaction/client_inv.rs:172-184 | after the failure every further copy changes nothing but repeats the ACK, and only on unreliable transports |
| `InviteTransaction.OnlyItsOwnMessagesArrive` | sip/sip-core/src/transaction/key.rs:66-142 | over every such run, among messages of other transactions: exactly the INVITE and its ACK have the key of the server, and exactly the server's responses that of the client |
| `SdpExchange.LineInv` | media/session/src/sdp.rs:47-136 | every m-line of an offer keeps the session's invariant, whatever becomes of it |
| `SdpExchange.FinishInv` | media/session/src/sdp.rs:138-144 | removing what is left of the old state makes the session valid again; use counts cannot underflow |
| `SdpExchange.CleanedReports` | media/session/src/sdp.rs:152-173 | each removed transport is reported once |
| `SdpExchange.BundledIsBuilt` | media/session/src/sdp.rs:233-253 | a bundled m-line gets a transport that exists and is built |
| `SdpExchange.EveryLineIsAnswered` | media/session/src/sdp.rs:256-275 | after a successful offer the answer can be made, with one m-line for each offered one, in order and of the same media type, that sends only where the offer receives and receives only where it sends |
| `SdpExchange.CodecIsShared` | media/session/src/local_media.rs:34-84 | the chosen codec is the first that the offer has too, and some direction is left |
| `SdpExchange.PayloadIsOffered` | media/session/src/local_media.rs:36-55 | its payload type is the one under which the offer has this very codec |
| `SdpExchange.OfferFailsExactly` | media/session/src/sdp.rs:66-98 | an offer fails exactly at an m-line with local media whose transport can be neither shared nor created |
| `SdpExchange.FailureLosesMediaExactly` | media/session/src/sdp.rs:40-98 | a failing offer keeps the ids of the media those that were added and not removed exactly if no m-line before had matched media, or local media with a transport |
| `SdpExchange.FailureLosesUsesExactly` | media/session/src/sdp.rs:40-98 | and exactly then no use is lost beside those that m-lines leak |
| `SdpExchange.IdIsLost` | media/session/src/sdp.rs:40-98 | an offer of two m-lines whose second transport fails: the first media is announced, never removed, and gone, with both uses counted |
| `SdpExchange.LineLeaksExactly` | media/session/src/sdp.rs:66-98 | the use count of a local media leaks exactly if an m-line that chose it is rejected for its transport |
| `SdpExchange.OfferLeaksExactly` | media/session/src/sdp.rs:40-147 | a whole offer that can be answered leaks one use for each such m-line and no other |
| `SdpExchange.UsesAreLost` | media/session/src/sdp.rs:66-98 | two m-lines without a supported transport use a local media up without any media, so that a good offer is rejected |
| `SdpExchange.FinishLeaksNothing` | media/session/src/sdp.rs:138-144 | removal gives back exactly the uses of the removed media |
| `SdpExchange.OkRunsConserve` | media/session/src/sdp.rs:40-173 | over every run of successful offers: added minus removed ids are those of the media, which are distinct and have built transports; transports left are needed, those gone were reported once; counts cover uses and keep their limit |
| `SdpExchange.PtsAreConsecutive` | media/session/src/lib.rs:311-335 | codecs without a payload type get consecutive ones below 127; it fails exactly if there are not enough |
| `SdpExchange.PendingInv` | media/session/src/lib.rs:344-430 | media to be offered, removed or changed later keep the invariant |
| `SdpSession.SdpSession.ReceiveSdpOffer` | media/session/src/sdp.rs:40-147 | the loop over the m-lines and the removal of old media do what the function says |
| `SdpSession.SdpSession.ReceiveLine` | media/session/src/sdp.rs:47-135 | one m-line does what the function says |
| `SdpSession.SdpSession.Release` | media/session/src/sdp.rs:141-144 | each removed media gives back its use and is announced |
| `SdpSession.SdpSession.RemoveUnusedTransports` | media/session/src/sdp.rs:152-173 | the loop removes and reports what nothing uses |
| `SdpSession.SdpSession.UpdateActiveMedia` | media/session/src/sdp.rs:175-191 | the direction changes, with an event exactly if it was another one |
| `SdpSession.SdpSession.AddLocalMedia` | media/session/src/lib.rs:311-341 | the loop numbers the codecs, or leaves the session as it was |
| `SrtpCrypto.NumberParses` | media/sdp-types/src/attributes/crypto.rs:360-362 | a printed 32-bit number parses to itself |
| `SrtpCrypto.LifetimeParses` | media/sdp-types/src/attributes/crypto.rs:277-316 | a printed lifetime, power of two or not, parses to itself, and a key index is not taken for one |
| `SrtpCrypto.KeyParses` | media/sdp-types/src/attributes/crypto.rs:277-335 | printed keying material parses to itself |
| `SrtpCrypto.KeysParse` | media/sdp-types/src/attributes/crypto.rs:337-346 | a printed list of keys parses to itself |
| `SrtpCrypto.NamedLocal` | media/sdp-types/src/attributes/crypto.rs:193-222 | whether text is taken for a named param does not depend on what follows its run of visible characters |
| `SrtpCrypto.ParamParses` | media/sdp-types/src/attributes/crypto.rs:193-262 | every param that the parser can give is parsed back from its printed form |
| `SrtpCrypto.OneSuite` | media/sdp-types/src/attributes/crypto.rs:86-138 | no known suite begins with the name of another |
| `SrtpCrypto.SuiteParses` | media/sdp-types/src/attributes/crypto.rs:96-125 | a printed suite parses to itself unless its name begins with a known one |
| `SrtpCrypto.RoundTrip` | media/sdp-types/src/attributes/crypto.rs:32-84 | printing and parsing gives the value back, with nothing left |
| `SrtpCrypto.ParsedSurvives` | media/sdp-types/src/attributes/crypto.rs:32-84 | whatever parses, from any text, survives printing and parsing |
| `SrtpCrypto.RoundTripsExactly` | media/sdp-types/src/attributes/crypto.rs:32-84 | a value survives printing and parsing exactly if it is one the parser can give |
| `SrtpCrypto.Display` | media/sdp-types/src/attributes/crypto.rs:60-84 | the printer's text is that of the round trip |
| `DigestAuth.AuthorizedKeeps` | sip/sip-auth/src/digest.rs:134-181 | authorizing a request keeps one response per realm, each with its entry, count and hash |
| `DigestAuth.StoreKeeps` | sip/sip-auth/src/digest.rs:213-232 | storing an answer keeps that too |
| `DigestAuth.RejectionKeeps` | sip/sip-auth/src/digest.rs:183-242 | and so does handling a rejection |
| `DigestAuth.SavedIsFound` | sip/sip-auth/src/digest.rs:503-522 | saving an entry replaces that of its realm and no other |
| `DigestAuth.RejectionUses` | sip/sip-auth/src/digest.rs:183-242 | exactly the realms that were challenged and did not fail have a new, unused response |
| `DigestAuth.UsesAreCounted` | sip/sip-auth/src/digest.rs:134-242 | over every run the stored response has been used once by each request since the realm was last renewed |
| `DigestAuth.NonceCountsAreConsecutive` | sip/sip-auth/src/digest.rs:134-181 | over every run the nonce counts sent since a realm was renewed are 1, 2, 3 and so on, with the hash of the stored parts |
| `DigestAuth.HashIsRightExactly` | sip/sip-auth/src/digest.rs:151-170 | what is sent is what the quality of protection asks for exactly for plain authentication, for the first use, or if the hashes of these two texts are equal |
| `DigestAuth.IntegrityIsLost` | sip/sip-auth/src/digest.rs:151-170 | a run of two uses with integrity protection: the second header says auth-int and carries the hash for auth, which is right only if the two hashes are equal |
| `DigestAuth.HeadersStem` | sip/sip-auth/src/digest.rs:134-242 | over every run each header of a realm has the address of the rejected request for which the realm was last renewed, and the stored hash, or the whole answer, is the one made for that |
| `DigestAuth.HeaderFitsExactly` | sip/sip-auth/src/digest.rs:134-242 | over every run a header for plain authentication fits the request it is sent with exactly if that has address and method of the rejected request for which the realm was last renewed, or if texts collide |
| `DigestAuth.PlainHeaderFitsExactly` | sip/sip-auth/src/digest.rs:134-242 | the same for headers without a quality of protection |
| `DigestAuth.OtherAddressDoesNotFit` | sip/sip-auth/src/digest.rs:134-181 | a run in which a request carries the header of an earlier one with another address |
| `DigestAuth.DigestAuthenticator.AuthorizeRequest` | sip/sip-auth/src/digest.rs:134-181 | the loop renews and sends every stored response |
| `DigestAuth.DigestAuthenticator.Renewal` | sip/sip-auth/src/digest.rs:144-174 | the renewed header has the next count and its hash |
| `DigestAuth.DigestAuthenticator.ReadChallenges` | sip/sip-auth/src/digest.rs:257-297 | the loop groups challenges by realm |
| `DigestAuth.DigestAuthenticator.AnswerRealm` | sip/sip-auth/src/digest.rs:196-236 | the loop answers the first challenge of a realm that it can |
| `DigestAuth.DigestAuthenticator.Handle` | sip/sip-auth/src/digest.rs:183-242 | the loop over the realms gives the state and the verdict that the function says |

## Left out

- Sockets, tasks, TLS, DTLS, DNS and logging: time is a parameter, the network a set of messages that stay available.
- Hashes and keyed hashes are arbitrary functions: nothing is said about how they are computed or how hard they are to forge.
- Ids and counts that grow by one (media ids, nonce counts, extended sequence numbers) are unbounded; overflow of pair priorities is treated in IcePriority.
- Random values (transaction ids, client nonces, tie-breakers) are parameters.
- StreamingDecoder.StreamingDecoder.Decode: UTF-8 checks, number parsing and the parser of the first line are arbitrary functions of the line, because they are the work of other components; malformed header lines are skipped by the source and not kept by the model.
- IceAgent.IceAgent.ReceiveRequest: whether a message passes its integrity check is given with the message.
- IceAgent.IceAgent.Poll: gathering through STUN servers is not a part of the agent's state; the binding to a server is modelled on its own (StunTimer.StunServerBinding), and its candidates enter by AddLocalCandidate.
- IceAgent.IceAgent.FormAllPairs: ids are positions in the order of insertion, so that the order in which the slot map of the source reuses free slots is not captured.
- IceAgent.IceAgent.AddLocalCandidate: foundations, the check of host addresses and the list of candidates for SDP are left out.
- IceAgent.IceAgent.AddRemoteCandidate: foundations are left out.
- IceAgent.IceAgent.SetRemoteData: where pairs are left without their local candidate (rtcp-mux that arrives while there are pairs for RTCP) the model ends with the outcome Dangling; the source goes on until it comes to such a pair, and panics there.
- IceAgent.IceAgent.ReceiveSuccess: answers to the requests of STUN server bindings are not handled by the agent but by StunTimer.StunServerBinding.
- IceChecks.EightSendsThenFailed: a check whose pair is queued for a triggered check as well starts anew under another transaction id, and is not counted together with the first one; the bound on each of them is that of IceCheckRuns.ChecksFollowTheirTimerAmongAll.
- InviteTransaction.ClientInvTsx.Receive: messages wait in a channel in the source and arrive when they are received in the model; as the network repeats and reorders them, this adds no behaviour. Success responses of forked requests are delivered but no property of them is stated.
- InviteTransaction.AtMostOneFailure: an INVITE that arrives after the server has finished would start a new server transaction, which is not part of the system.
- SrtpCrypto.LifetimeParses: a power of two above 31 wraps to zero, as in a release build; a debug build panics.
- DigestAuth.HeaderFitsExactly: for integrity protection, from the second use on, only the hash is compared (DigestAuth.HashIsRightExactly), and the body that it covers is a part of the request.
- SdpSession.SdpSession.ReceiveSdpOffer: codecs, RTP sessions and intervals of a media are not kept; the creation of a transport is given with the m-line.
- Received SDP answers are not modelled.
- Header and address parsers of SIP and SDP, RTP header extensions, RTCP reports, statistics in floating point, dialogs and the sharing of transports are not modelled.
