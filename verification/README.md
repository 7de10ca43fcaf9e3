# A verified model of ICE negotiation, STUN messages and their text exchange

This project models the protocol core of a Go implementation of ICE (RFC 5245), STUN (RFC 5389) and
SDP (RFC 4566), and proves what that core promises. `dafny verify dfyconfig.toml` checks it.

**ICE negotiation.** `ice_spec.dfy` is the session as a state machine: one transition for each event
of the loop and each iteration of the start-up passes. `ice_session.dfy` is the session itself, a
class whose methods change check objects, the check list, the map of open result channels, the valid
list and the two chosen pairs in place; each method is proved to make the transition of the same
name. `ice_effects.dfy` describes a second time, by relations on the states before and after, what
every event does, and proves that a step has that effect and no other is possible. `ice_board.dfy`
and `ice_invariants.dfy` prove one invariant for every step, and `ice_theorems.dfy` draws the
results about whole runs from it. A panic of the source ends a run: the transition returns it,
`IceTheorems.OnlyToleratedPanics` says which can occur, and `ice_panics.dfy` exactly which panic a
step ends in. `ice_success.dfy` is a run that succeeds. `check_list.dfy` covers how the list is
formed, `role_conflict.dfy` the conflict of roles between two agents over a network that loses,
repeats and reorders datagrams, `prune_keys.dfy` what pruning loses, and `ice_outcome.dfy` and
`ice_late.dfy` what can still happen to a session that has failed.

**STUN.** `stun_wire.dfy` gives the pure encoding and parsing of messages. `stun_message.dfy` is the
message in its reused buffer, whose capacity, length and stale bytes are all modelled; the invariant
`Built` says that the used part of the buffer is exactly the encoding of type, id and attributes.
`stun_auth.dfy` adds integrity and fingerprint for an arbitrary hash and checksum, `xor.dfy` and
`xor_addr.dfy` masking, `stun_build.dfy` building as a fold of setters, and `stun_agent.dfy` the
table of transactions under any interleaving of callers. Their arithmetic and that of the `z=` field
rests on `division.dfy`.

**Text.** `sdp_lines.dfy` is the line scanner, `candidate_text.dfy` the printer and the offset parser
of candidates, `ice_exchange.dfy` the description two agents exchange, `time_zones.dfy` the
`z=` field. `candidate_round_trip.dfy` and `exchange_round_trip.dfy` prove that they undo each other.

Where a promised property does not hold of the code, the code was kept, an exact condition proved
and the failing input shown or named:

- The check list is pruned by foundation and address written one behind the other
  (`ice/icesession.go:305`), so different pairs can share a key and the list can lose one of them.
  `PruneKeys.PruneKeysCoincideIff` and `PruneKeys.PruneKeepsKindsIff` say exactly when,
  `PruneKeys.PruneLosesPair` shows a list.
- The role-conflict response carries no role attribute (`ice/icesession.go:1091-1108`), although the
  receiver looks for one. `RoleConflict.ConflictResponseSettlesIff` says exactly when it still helps.
- A session that has failed can still get a nominated pair, because the replay of early requests
  (`ice/icesession.go:911-917`) does not look at the level: `IceLate.FailedSessionCanStillNominate`
  is such a run, `IceOutcome.FailedRunNominatesIff` the exact condition for all runs.
- The level of completion is set again when nothing has changed, which panics
  (`ice/icesession.go:752-756`): `IceLate.SecondRequestCrashes` is a run on which an ordinary request
  does it, `IceTheorems.StepPanicsExactly` the exact condition for every step of every run.
- A final value of one character is lost by the candidate parser (`ice/candidate.go:511-530`):
  `CandidateRoundTrip.RelatedAddressRecovered`. A sign is skipped by `parseInt`:
  `CandidateText.ParseIntOfItoa`. A base address with a space can change the type:
  `CandidateRoundTrip.BaseGivesType`, with the exact condition in `ParseUndoesPrintIff`.
- A time zone that starts with the year 1900 is printed as 0 and read as the zero time:
  `TimeZones.NTPRoundTrip`.
- An empty interval field crashes the decoder, which the model reports as the failure `Crash`:
  `TimeZones.DoubleSpaceCrashes` shows a text, `TimeZones.ZonesCrashIff` the exact condition.
- The pair priority is the formula of section 5.7.2 of RFC 5245 only for priorities below 2^31:
  `PairPriority.PairPriorityIsFormula`.

## Model

| member | source | states |
|---|---|---|
| PairPriority.CandidatePriorityInRange | ice/candidate.go:598-615 | A computed candidate priority is never negative and stays below 2^31, for every type, preference and component, negative ones included |
| PairPriority.CandidatePriorityOrdersByType | ice/candidate.go:598-615 | A higher type preference beats every local preference and component id |
| PairPriority.CandidatePriorityIsFormula | ice/candidate.go:598-615 | For every type and every preference and component id that RFC 5245 allows the masked sum is its formula, with 126, 110, 100 and 0 for the types |
| PairPriority.CandidatePriorityOrders | ice/candidate.go:598-615 | Priorities order host before peer reflexive before server reflexive before relay, then by local preference, then by component id, if and only if |
| PairPriority.PairPriorityIsFormula | ice/icesession.go:1498-1523 | For 32-bit priorities the shifted sum equals 2^32*min + 2*max + tie bit if and only if both priorities are below 2^31; otherwise the shift loses its top bit |
| PairPriority.PairPriorityIdentifiesPair | ice/icesession.go:1498-1523 | Pair priorities are equal only for equal priorities at both ends, and the two agents compute the same value from their opposite ends |
| PairPriority.RoleSwitchMovesByAtMostOne | ice/icesession.go:1052-1055 | A change of role moves the priority of a pair by at most one |
| PairPriority.RoleSwitchKeepsOrder | ice/icesession.go:1052-1055 | Hence the order of pairs with different minimum or maximum survives changeRole, which sorts nothing again |
| CheckList.SortStable | ice/checklist.go:103-115 | Sorting by the list's Less and swapping neighbours yields the stable sort: falling priority, the pairs of each priority in their old order |
| CheckList.StableSortUnique | ice/icesession.go:286 | Stable sorting has only one result, so the result does not depend on how it is computed |
| CheckList.StableSortPermutes | ice/icesession.go:286 | The stable sort is a permutation of what was sorted |
| CheckList.ProductIs | ice/icesession.go:270-284 | The product has one pair for each local and each remote candidate, each at its place, with its key and its priority |
| CheckList.PruneCheckList | ice/icesession.go:301-313 | The loop with its map of seen keys keeps exactly the first pair with each prune key |
| CheckList.PruneKeepsRepresentative | ice/icesession.go:301-313 | Every pair that is dropped has an earlier kept pair with the same prune key and no lower priority |
| CheckList.CheckListFormed | ice/icesession.go:256-313 | The check list is a subsequence of the stable sort of the full product, sorted by falling priority, with pairwise different prune keys, and empty only if the product is |
| CheckList.CheckListPairsDistinct | ice/icesession.go:256-313 | With distinct addresses no two pairs of the list are for the same two candidates, and their channel keys differ |
| PruneKeys.PruneKeysCoincideIff | ice/icesession.go:305 | For all pairs: prune keys are equal if and only if the pairs agree in foundation and remote address, or one foundation begins the other and its remaining digits run into the address |
| PruneKeys.PruneKeepsKindsIff | ice/icesession.go:301-313 | Pruning keeps exactly the first pair of every foundation and remote address if and only if no foundation of the list runs into an address of it |
| PruneKeys.PruneKeepsKindsOfPlainAddresses | ice/icesession.go:301-313 | So it does wherever no remote address is another one with digits in front |
| PruneKeys.PruneLosesPair | ice/icesession.go:301-313 | Foundations 1 and 11 with addresses a and 1a: the check list loses a pair that no other pair stands for |
| IceTypes.KeyInjective | ice/icesession.go:275 | The key of a check identifies both addresses if local addresses hold no dash |
| IceSession.Session.CreateCheckList | ice/icesession.go:256-289 | Refuses answers that are too long and leaves the session as it was; otherwise keeps exactly the candidates of component 1 in the order of the answer, and the list is the pruned stable sort of the product, every check Frozen, not nominated and without error |
| IceSession.Session.ChangeCheckState | ice/icesession.go:878-890 | States only rise; reaching Succeeded or Failed closes the channel |
| IceSession.Session.UnfreezeFoundation | ice/icesession.go:603-610 | Frozen checks with the foundation wait, all others are as they were |
| IceSession.Session.CancelLowerChecks | ice/icesession.go:633-650 | Frozen and Waiting checks and those in progress with no higher priority fail |
| IceSession.Session.SettleBoard | ice/icesession.go:603-650 | Both updates of the list, in order, only for a check without error, the second only for a nominated one |
| IceSession.Session.Conclude | ice/icesession.go:694-750 | Which outcome the list and the two chosen pairs lead to, by role |
| IceSession.Session.TryCompleteCheck | ice/icesession.go:590-751 | The two parts together are the transition TryCompleteCheck |
| IceSession.Session.IceComplete | ice/icesession.go:775-844 | Success and failure, their levels, the binding of a relayed channel, and the one notice to the upper layer |
| IceSession.Session.NominateValid | ice/icesession.go:1326-1333 | Every valid pair with the remote candidate becomes nominated, the best of them is chosen |
| IceSession.Session.ConstructValidPair | ice/icesession.go:537-560 | A pair that is valid already takes over the flag, a new one is added and the list sorted again |
| IceSession.SortValid | ice/icesession.go:557 | Sorting gives a permutation by falling priority |
| IceSession.Session.CheckSucceeded | ice/icesession.go:494-571 | Valid pair, choices, state change and completion in this order |
| IceSession.Session.ProcessBindingResponse | ice/icesession.go:1370-1386 | Responses to finished checks or sessions change nothing; each error branch and the success branch make the transition of the specification |
| IceSession.Session.TriggerListed | ice/icesession.go:1309-1340 | A request for a listed pair: the flag, and what happens in each state of the check |
| IceSession.Session.HandleIncomingCheck | ice/icesession.go:1240-1363 | Both cases together, and the crash on an unknown local address |
| IceSession.Session.ProcessBindingRequest | ice/icesession.go:1155-1233 | Role conflict first, then completion, then early or triggered check |
| IceSession.Session.SettleRole | ice/icesession.go:1155-1194 | The in-place role comparison is the rule JudgeRequest |
| IceSession.Session.FirstPass | ice/icesession.go:904-910 | The first check of each foundation waits |
| IceSession.Session.Handle | ice/icesession.go:1396-1428 | Every event is handled by a method that makes exactly the transition of the specification, so results about its runs are results about the object |
| IceBoard.ChangeKeeps | ice/icesession.go:878-890 | A state change keeps the open channels equal to those of the unfinished checks and never closes a channel twice |
| IceBoard.SucceededToFailedPanics | ice/icesession.go:878-890 | The guard alone would let a succeeded check fail, and that would close a missing channel |
| IceBoard.UnfreezeKeeps | ice/icesession.go:603-610 | Unfreezing keeps the invariant of the list and thaws exactly the checks of the foundation |
| IceBoard.CancelLowerKeeps | ice/icesession.go:633-650 | Canceling keeps the invariant of the list and fails exactly the cancelable checks |
| IceBoard.SettleLeavesOnlyHigher | ice/icesession.go:603-650 | After the updates for a nominated check nothing is Frozen or Waiting and what is in progress has higher priority |
| IceBoard.NoneIdleStays | ice/icesession.go:1348-1358 | Once nothing is Frozen or Waiting nothing ever is, as new checks start in progress |
| IceInvariants.TryCompleteOk | ice/icesession.go:590-751 | tryCompleteCheck keeps the session invariant, and only the admitted crashes can happen in it |
| IceInvariants.ConstructValidPairOk | ice/icesession.go:537-560 | The valid list stays sorted and both choices stay best |
| IceInvariants.TriggerListedOk | ice/icesession.go:1309-1340 | A triggered check keeps the invariant; the guard on the channel never fires |
| IceInvariants.IncomingOk | ice/icesession.go:1240-1363 | A request keeps the invariant and leaves its pair on the list, in progress or beyond |
| IceInvariants.UserCandidateNominates | ice/icesession.go:1325-1340 | A nominating request for a pair that has succeeded always yields a nominated pair |
| IceInvariants.NextOk | ice/icesession.go:1396-1428 | Every step of the session keeps the whole invariant |
| IceInvariants.RunOk | ice/icesession.go:1396-1428 | So does every run, in which the session only grows |
| IceEffects.NextHasEffect | ice/icesession.go:590-1428 | For every state with the invariant and every event, the step has the effect that is described on checks, valid pairs, choices, candidates, role, level and notices without the transition functions |
| IceEffects.EffectDetermines | ice/icesession.go:590-1428 | The description leaves nothing open: two states it allows after one step are equal but for the count of changes |
| IceTheorems.EveryStepHasItsEffect | ice/icesession.go:590-1428 | Both hold for every step of every run |
| IceTheorems.LevelsMean | ice/icesession.go:694-844 | When a step of a run reaches a level: all complete means that every check is done and a pair nominated, success that one is not done, waiting and failure that none is nominated and why; and completion follows whenever a check is done |
| IceTheorems.NominationOnStart | ice/icesession.go:1022-1024 | The start of a check nominates it if and only if the agent is controlling, and changes nothing else |
| IceTheorems.NominatedStartSucceeds | ice/icesession.go:537-571 | In every run a success response to a check that a controlling agent has started to nominate gives a nominated pair and a session that has succeeded |
| IceSuccess.ControllingAgentSucceeds | ice/icesession.go:849-939 | Such a run: start, first pass, launch, nomination and response end with all complete and the transport running |
| IceTheorems.OpenChannelsAreUnfinishedChecks | ice/icesession.go:849-939 | In every reachable state after the start the open channels are exactly those of the checks neither Succeeded nor Failed, no pair is listed twice, and there are at most nine remote candidates |
| IceTheorems.OnlyToleratedPanics | ice/icesession.go:802-804 | In no run is a channel closed twice or used after closing, is completion reached with a channel open, is the guard of a triggered check hit, or the upper layer notified twice |
| IceTheorems.UpperLayerNotifiedOnce | ice/icesession.go:775-844 | Notified at most once; in every run in which relayed channels can be bound, exactly from completion on; success implies a nominated pair; a failed session has one if and only if its run holds, after the failure, the replay of an early nominating request for a pair whose check has succeeded |
| IceTheorems.OutcomeIsFinal | ice/icestreamtransport.go:266-284 | The level never falls and a session never reports both outcomes |
| IceTheorems.ChoicesAreBest | ice/icesession.go:537-585 | In every reachable state the valid list is sorted, validCheck is its best pair, nominatedCheck at least as good as every nominated pair, and neither ever gets worse |
| IceTheorems.ChecksOnlyAdvance | ice/icesession.go:878-890 | In every run Succeeded and Failed are absorbing, states only rise, pairs stay in place |
| IceTheorems.NominatedSuccessSettles | ice/icesession.go:603-650 | Wherever tryCompleteCheck runs for a nominated success nothing is Frozen or Waiting afterwards and what is in progress has strictly higher priority |
| IceTheorems.NominationSettlesTheList | ice/icesession.go:560-571 | So it is for every response that completes a nominated check in a run, and nothing Frozen or Waiting reappears in the rest of it |
| IceTheorems.AcceptedRequestIsListed | ice/icesession.go:1228-1363 | In every run an accepted request after the start leaves its pair on the list, in progress or beyond |
| IceTheorems.StateChangesBounded | ice/icesession.go:1256-1268 | In every run at most 27 state changes per initial local candidate are accepted |
| IceOutcome.FailedSessionNominatesIff | ice/icesession.go:911-917 | For every state and event: a step of a failed session without a nominated pair yields one if and only if it is such a replay |
| IceOutcome.FailedRunNominatesIff | ice/icesession.go:911-917 | The same for every run, from the failure on |
| IceOutcome.BoundRunIsNotSilent | ice/icesession.go:821-832 | Only a channel that cannot be bound keeps completion from the upper layer |
| IcePanics.NextPanicsExactly | ice/icesession.go:590-844 | For every state with the invariant and every event: which panic the step ends in, if any, read off the state before it: a level that does not rise, a missing socket, nothing to do, or an unknown local address |
| IceTheorems.StepPanicsExactly | ice/icesession.go:590-844 | So it is in every reachable state |
| IceLate.SecondRequestCrashes | ice/icesession.go:1321-1340 | A run in the order of allcheck after which an ordinary second request crashes a controlled agent that waits for its nomination |
| IceLate.FailedSessionCanStillNominate | ice/icesession.go:904-917 | A run in the order of allcheck that does it: start, first pass, a request and its response, the timer, and the replay of two early requests |
| Roles.RequestJudged | ice/icesession.go:1155-1189 | The whole decision by role, tie-breaker and attributes: a request is accepted exactly in the opposite role or with the larger tie-breaker, and ties refuse |
| RoleConflict.StrongNeverSwitchesFromStart | ice/icesession.go:1155-1189 | Under any loss, repetition and reordering the agent with the larger tie-breaker never changes its role |
| RoleConflict.StrongNeverSwitches | ice/icesession.go:1155-1189 | The same from every state that keeps what the start established, and it is never sent a conflict response |
| RoleConflict.StrongRequestSettles | ice/icesession.go:1159-1172 | Whenever the other agent processes one of its requests, however old, the roles are opposite |
| RoleConflict.SettledForEver | ice/icesession.go:1155-1189 | Opposite roles without conflict responses or stale conflicting requests in flight are closed under every move |
| RoleConflict.SettlesAfterLossAndOneRequest | ice/icesession.go:1155-1189 | From every such state a settled one is reached when stale datagrams are lost and one request of the stronger agent is processed |
| RoleConflict.ConflictResponseSettlesIff | ice/icesession.go:432-444 | For every network in which the weaker agent is refused: the conflict response, which carries no role attribute, leads it to the unknown role, and its next request is accepted if and only if the stronger agent is controlling |
| RoleConflict.RefusedIff | ice/icesession.go:1155-1189 | The weaker agent is refused exactly if it sends in the role of the stronger one, or that one has none |
| StunWire.TypeRoundTrip | stun/message.go:606-654 | Reading undoes writing of the interleaved type field for 12-bit methods and 2-bit classes |
| StunWire.TypeRoundTripBack | stun/message.go:606-654 | Writing undoes reading for all 14-bit values |
| StunWire.TypeBits | stun/message.go:587-637 | The type field holds every bit of the method and of the class at the place figure 3 of RFC 5389 gives it |
| StunWire.PaddedLength | stun/attributes.go:201-207 | The padded length is the least multiple of four that is not smaller |
| StunWire.MessageLayout | stun/message.go:288-306 | Every byte of an encoded message, in the order of figure 2 of RFC 5389 |
| StunWire.AttributeLayout | stun/message.go:203-239 | Every byte of an encoded attribute, its padding included |
| StunWire.ParseAttributesOfBody | stun/message.go:437-474 | The attribute loop recovers every attribute of an encoded body |
| StunWire.ParseOfHeader | stun/message.go:388-436 | What decoding makes of a header and any body, whatever follows them |
| StunWire.DecodeOfEncode | stun/message.go:388-476 | Decoding undoes encoding: the same type, id, length and attribute sequence |
| StunWire.ParsedAttributesTile | stun/message.go:437-474 | Accepted attributes tile the body exactly, its length is a multiple of four, and encoding them again gives the body but for its padding |
| StunWire.BodyReadsAsIff | stun/message.go:437-474 | For all bytes and attributes: a body reads as a list if and only if the list tiles it and encodes to it but for padding |
| StunWire.ParseRefuses | stun/message.go:437-474 | Where a body is refused behind accepted attributes, and with which error |
| StunWire.MessageReadsAs | stun/message.go:388-476 | The decision on every buffer in numbers: channel data, each error of the header, and what the fields of an accepted message are |
| StunWire.DecodedIsFixedPoint | stun/message.go:388-476 | For every accepted buffer the rebuilt message is the buffer but for padding and trailing bytes, and decoding it changes nothing |
| StunMessage.Message.Grow | stun/message.go:178-187 | The slice gets longer by the given number of bytes of unknown content, and its old bytes are kept |
| StunMessage.Message.WriteHeader | stun/message.go:294-306 | The header is written in full, even into a slice that was too short |
| StunMessage.Message.AddPadding | stun/message.go:224-239 | Exactly the padding of the value is appended, as zeros |
| StunMessage.Message.Add | stun/message.go:193-242 | The attribute stands behind the body and the length field covers it, whatever the buffer held there |
| StunMessage.AddKeepsEncoding | stun/message.go:193-242 | Adding to the encoding of a list gives the encoding of the longer list |
| StunMessage.Message.DecodeAttributes | stun/message.go:438-474 | The offset loop computes the recursive parse, and leaves the attributes before an error |
| StunMessage.Message.Decode | stun/message.go:388-476 | Every field after decoding, for success, channel data and each kind of error |
| StunMessage.Message.Write | stun/message.go:481-484 | The message holds the received bytes and what decoding them gives |
| StunMessage.ReadBeforeError | stun/message.go:438-474 | An error in the body leaves exactly the attributes in front of it |
| StunAuth.FirstOf | stun/attributes.go:15-22 | The first attribute of the type, or none at all |
| StunAuth.AddIntegrity | stun/integrity.go:60-79 | Hashes the message with a length that includes the attribute, then adds it; refused after a fingerprint without any change |
| StunAuth.SizeAfterIntegrity | stun/integrity.go:110-123 | The accumulating loop sums the space behind the first integrity attribute |
| StunAuth.CheckIntegrity | stun/integrity.go:102-139 | For any message the verdict, an index out of bounds included, and the length field left behind; where the attributes tile the body, as in built and decoded messages, the buffer is as before and the verdict is that of the standard |
| StunAuth.IntegrityHolds | stun/integrity.go:60-79 | Whatever is added after the integrity attribute and whatever follows the message, the check succeeds, for any hash |
| StunAuth.IntegrityVerdictIff | stun/integrity.go:102-139 | For every buffer that its attributes tile the check passes if and only if the value is the hash of all bytes in front of the attribute with a length field that counts to its end; any other value is a mismatch |
| StunAuth.IntegrityDecidedIff | stun/integrity.go:102-139 | For every message with integrity at any place and any trailing bytes: it passes if and only if the value is the hash of the encoding so far |
| StunAuth.IntegrityIs | stun/integrity.go:60-79 | What is added: type 8, twenty bytes, the hash with a length of 24 more |
| StunAuth.AddFingerprint | stun/fingerprint.go:50-61 | Sums the message with a length that includes the attribute, then adds it |
| StunAuth.CheckFingerprint | stun/fingerprint.go:65-84 | The verdict on the first fingerprint, each error case included; nothing changes |
| StunAuth.FingerprintHolds | stun/fingerprint.go:50-84 | A fingerprint added last is found correct, for any checksum |
| StunAuth.FingerprintVerdictIff | stun/fingerprint.go:65-84 | For every buffer and every list of attributes: missing, wrong size, and passed if and only if the four bytes are the checksum of all but the last eight bytes, turned over by 0x5354554e |
| StunAuth.FingerprintDecidedIff | stun/fingerprint.go:65-84 | A message with any four bytes as its last fingerprint passes if and only if they are its checksum |
| StunAuth.FingerprintIs | stun/fingerprint.go:50-61 | What is added: type 0x8028, four bytes, the checksum with a length of 8 more, turned over by 0x5354554e |
| StunAuth.SealedMessageVerifies | stun/integrity.go:102-139 | Integrity, further attributes and perhaps a fingerprint: both checks succeed on the built bytes, and decoding the bytes gives back all of it |
| StunBuild.ApplyTo | stun/helpers.go:38-42 | Each setter keeps the buffer equal to the encoding of type, id and attributes |
| StunBuild.Build | stun/helpers.go:35-44 | Whatever was in the message, afterwards it is the pure encoding of what the setters describe, up to the first that fails |
| StunBuild.BuildForgets | stun/helpers.go:35-44 | If type and id are set before they are needed, the result does not depend on the message that was reused |
| StunBuild.BuiltInOrder | stun/helpers.go:35-44 | The built message has the last type, the last id, and one attribute for each setter that adds one, in order |
| StunBuild.DecodeUndoesBuild | stun/message.go:388-476 | For all setters whose message fits the receiver gets type, id, length and attributes back |
| StunBuild.DeliverSealed | stun/helpers.go:35-54 | Built with integrity, more attributes and a fingerprint, sent and decoded: six checks at both ends succeed, before and after one another, and both ends still hold the built message |
| XorBytes.WordXorIsByteXor | stun/xor.go:21-42 | The exclusive or of two words is that of their bytes |
| XorBytes.XorWords | stun/xor.go:27-35 | The word loop writes the prefix of the bytewise result, also over its operands |
| XorBytes.FastXorBytes | stun/xor.go:21-42 | All bytes of the shorter operand and no others are written, the destination distinct or an operand |
| XorBytes.SafeXorBytes | stun/xor.go:44-53 | The byte loop has the same contract |
| Bytes.XorSplits | stun/xor.go:21-42 | Exclusive or works on low bits and the rest independently |
| Bytes.XorBits | stun/xor.go:21-53 | Bit by bit the result is one exactly where the operands differ |
| Bytes.XorSeqCancels | stun/xoraddr.go:66-121 | Masking twice gives the bytes back |
| XorAddress.AddAddress | stun/xoraddr.go:48-72 | The attribute that is added, and the refusal of other lengths without any change |
| XorAddress.XorMappedAddress.ClearIP | stun/xoraddr.go:97-107 | The reused buffer holds exactly the wanted number of zeros |
| XorAddress.XorMappedAddress.GetFromAs | stun/xoraddr.go:82-124 | Address and error for every value of two bytes or more, the partial changes of each error included |
| XorAddress.AddressRoundTrip | stun/xoraddr.go:48-124 | An address reads back under the same id, IPv4 in four bytes whatever its form, the port modulo 2^16 |
| XorAddress.AddressUnchangedIff | stun/xoraddr.go:48-124 | It reads back unchanged if and only if the port has 16 bits and the address four bytes or proper IPv6 |
| XorAddress.PortMasked | stun/xoraddr.go:48-72 | The masked port differs from the port modulo 2^16 exactly in the bits of 0x2112 |
| XorAddress.AddressLayout | stun/xoraddr.go:48-72 | Every byte of the attribute: zero, family, masked port, and the address against cookie and transaction id, for all addresses of both lengths |
| XorAddress.AddressReadsAs | stun/xoraddr.go:82-124 | What every value of two bytes or more is read as: each error with its partial changes, and short values |
| StunAgent.Agent.Start | stun/agent.go:115-131 | Registers the transaction, or refuses with its error and changes nothing |
| StunAgent.Agent.StopWithError | stun/agent.go:83-99 | Takes one transaction out and calls its handler once |
| StunAgent.Agent.Process | stun/agent.go:188-206 | Takes the transaction of the message, else turns to the default handler if there is one |
| StunAgent.Agent.ExpiredTransactions | stun/agent.go:156-165 | The walk over the table lists each expired transaction once |
| StunAgent.Agent.Collect | stun/agent.go:145-182 | Removes exactly the expired transactions and calls their handlers |
| StunAgent.Agent.Close | stun/agent.go:210-227 | Calls all handlers and leaves an empty closed table |
| StunAgent.NextKeeps | stun/agent.go:83-227 | Every step under the lock and every handler call of any caller keeps each start in exactly one place |
| StunAgent.HandlersRunExactlyOnce | stun/agent.go:83-227 | In every interleaving each successful start is pending, in one caller's hand or fired, exactly one of them; no start fires twice; once closed with nothing in hand every start has fired once |
| StunAgent.CollectTakesExpired | stun/agent.go:145-182 | Collect takes a pending transaction if and only if its deadline is before the given time |
| StunAgent.LogGrows | stun/agent.go:210-227 | Calls made are never unmade, and a closed agent stays closed and starts nothing |
| StunAgent.NextHasEffect | stun/agent.go:83-227 | Each step said of the states before and after it: which handlers are called, with which event, and what stays in the table |
| StunAgent.EveryCallHasItsStep | stun/agent.go:83-227 | In every interleaving each call in hand or made was caused by one step that decides its event: a message comes only to the handler of its id, a timeout only after the deadline |
| StunAgent.DefaultsHearMessages | stun/agent.go:188-206 | The default handler hears of messages only |
| SdpLines.SliceScanner.Scan | sdp/sdp.go:240-263 | Yields exactly the next non-empty trimmed piece of the newline split and strictly advances; at the end none is left |
| SdpLines.DecodeLine | sdp/sdp.go:57-76 | Splits at the first delimiter, appends the value to what is there; without a delimiter nothing changes |
| SdpLines.AppendSession | sdp/sdp.go:170-180 | The lines with newlines between them and none at the end |
| SdpLines.DecodeSession | sdp/sdp.go:270-292 | The lines of all pieces, up to the first without a delimiter |
| SdpLines.RoundTripIffGood | sdp/sdp.go:170-292 | Decoding undoes printing if and only if no line has a blank or delimiter as type, a newline in its value or a blank at its end |
| SdpLines.DecodeIsIdempotent | sdp/sdp.go:270-292 | For any text, accepted or not, printing the decoded lines and decoding again changes nothing |
| SdpLines.LineReadsAs | sdp/sdp.go:57-76 | The type is the first character in front of the first delimiter, or the replacement character; without a delimiter nothing is read |
| SdpLines.PiecesAre | sdp/sdp.go:240-263 | The pieces of any text, line by line: trimmed, and dropped when nothing is left |
| SdpLines.ReadUpToBad | sdp/sdp.go:270-292 | Exactly the pieces in front of the first without a delimiter are read |
| Text.SplitOfJoin | sdp/decoder.go:710-712 | Splitting undoes joining |
| Text.JoinOfSplit | sdp/decoder.go:710-712 | Joining undoes splitting |
| Text.TrimIs | sdp/sdp.go:257 | What trimming takes off is white space at both ends |
| CandidateText.ParseIntLoop | ice/candidate.go:334-353 | The skipping loop, decimal and then hexadecimal reading |
| CandidateText.ParseIntOfItoa | ice/candidate.go:334-353 | A printed integer reads back if and only if it is not negative |
| CandidateText.IntReads | ice/candidate.go:334-353 | Everything in front of the first digit is skipped, and what then is no decimal number is read as hexadecimal |
| CandidateText.HexReads | ice/candidate.go:334-353 | Hexadecimal digits of either case up to the first other character, within 64 bits |
| CandidateText.HostPortSplitsIff | ice/candidate.go:189-204 | For all texts: an address splits into a host and a port if and only if it is one of the two forms |
| CandidateText.TypeWords | ice/candidate.go:84-120 | The four words for the types, and no others |
| CandidateText.CandidateParser.ParseMandatory | ice/candidate.go:470-489 | The index loop reads the fields that a space ends, six at most |
| CandidateText.CandidateParser.ParseAttributes | ice/candidate.go:494-549 | The loop over three offsets applies the words two by two, a last word of one character lost |
| CandidateText.CandidateParser.ParseAll | ice/candidate.go:446-551 | The whole parser, for every text |
| CandidateRoundTrip.HostPortJoins | ice/candidate.go:189-204 | An address is restored from its printed host and port if and only if it has one colon and no bracket |
| CandidateRoundTrip.PrintLayout | ice/candidate.go:189-204 | Every character of a printed candidate, by its type |
| CandidateRoundTrip.TypeIsRead | ice/candidate.go:446-551 | Which type is read from a text with any word in its place, and that others are refused |
| CandidateRoundTrip.ParseUndoesPrintIff | ice/candidate.go:446-551 | For every candidate with machine numbers: parsing undoes printing up to Equal if and only if type and transport are known, the numbers not negative, the address is plain and the words of the base address are read and give no other type |
| CandidateRoundTrip.PlainCandidateRecovered | ice/candidate.go:446-551 | With a base address that holds no space the whole parsed candidate is known, and the type is kept |
| CandidateRoundTrip.BaseGivesType | ice/candidate.go:511-551 | A base address with a space whose words change the type |
| CandidateRoundTrip.RelatedAddressRecovered | ice/candidate.go:511-534 | The related address is the base if and only if the port of the base has more than one character |
| IceExchange.EncodeSession | ice/icestreamtransport.go:225-240 | The text is the fixed lines and one line for each candidate; without a session an error |
| IceExchange.GatheredIs | ice/icestreamtransport.go:359-372 | What GetCandidates sets in every candidate, and that the last one is the default |
| IceExchange.ScansAre | ice/icestreamtransport.go:301-331 | Which port and which address are scanned, whatever white space stands between the words |
| IceExchange.DecodeLines | ice/icestreamtransport.go:301-331 | The loop over the lines, up to the first error |
| IceExchange.DecodeSession | ice/icestreamtransport.go:294-350 | The description and the error for every text |
| ExchangeRoundTrip.TerminatedParses | sdp/sdp.go:270-292 | Lines with a newline behind each are read as lines |
| ExchangeRoundTrip.OfferText | ice/icestreamtransport.go:225-240 | Every character of an encoded session: the eight fixed lines and a line for each candidate |
| ExchangeRoundTrip.PreambleRead | ice/icestreamtransport.go:231-235 | User fragment, password, port and address are read from the fixed lines |
| ExchangeRoundTrip.CandidatesRead | ice/icestreamtransport.go:236-238 | Every candidate line adds its candidate, in order |
| ExchangeRoundTrip.DecodeUndoesEncode | ice/icestreamtransport.go:225-350 | The other side recovers user fragment, password, every candidate in order up to Equal and a default with the default address |
| ExchangeRoundTrip.GatheredOfferIsRead | ice/icestreamtransport.go:359-372 | For candidates as they are gathered this needs only plain addresses, known types and foundations that are not negative, and the default has the last candidate's address |
| TimeZones.NTPRoundTrip | sdp/fields.go:328-342 | The shift modulo 2^64 is undone except for the start of 1900, which becomes the zero time |
| TimeZones.NTPIs | sdp/fields.go:328-342 | Seconds since 1900 instead of 1970, modulo 2^64, and zero for the zero time |
| TimeZones.AppendUint | sdp/fields.go:27-45 | The backward loop writes the decimal digits and never overruns its twenty characters |
| TimeZones.AppendIntervalCompact | sdp/fields.go:418-428 | The loop over the units prints the largest unit that divides the interval, or its rounded seconds |
| TimeZones.IntervalRoundTrip | sdp/decoder.go:755-790 | However floating point rounds to seconds, a printed interval, negative ones included, reads back as the seconds it was rounded to |
| TimeZones.IntervalPrintsAs | sdp/fields.go:418-428 | The text of every interval: the value in the largest of day, hour and minute that divides it, else its rounded seconds |
| TimeZones.IntervalReadsAs | sdp/decoder.go:755-790 | What every text is read as: a number in the unit of its last letter, seconds without one, and each failure |
| TimeZones.AddTimeZones | sdp/fields.go:532-541 | The loop joins all fields with single spaces |
| TimeZones.Message.DecodeTimeZoneAdjustments | sdp/decoder.go:825-849 | Appends the pairs before the first error to what is there |
| TimeZones.ZonesRoundTrip | sdp/decoder.go:825-849 | Decoding the printed value of any non-empty list gives its canonical zones, for every way of rounding |
| TimeZones.ZonesUnchangedIff | sdp/decoder.go:825-849 | The list comes back unchanged if and only if it is not empty, no zone starts at the start of 1900 and all offsets are whole seconds |
| TimeZones.ZonesCrashIff | sdp/decoder.go:755-849 | Decoding crashes if and only if the fields are even in number and some start that parses, behind pairs that all parse, is followed by an empty interval |
| TimeZones.DoubleSpaceCrashes | sdp/decoder.go:764 | Two spaces in a row are such a text |
| Decimal.AtoiOfItoa | sdp/fields.go:23 | Reading undoes printing for all 64-bit integers |
| Decimal.AtoiReads | sdp/decoder.go:755-790 | Which texts are numbers: a sign or none, digits only, within 64 bits |
| Decimal.ParseUintOfDigits | sdp/decoder.go:653-655 | Reading undoes printing for all unsigned 64-bit integers |

## Left out

- Sockets, gathering, TURN and STUN clients, keep-alive, logging and timing: whether a sender socket is found, whether a channel can be bound and how foundations are computed are parameters of each step.
- Channels: only whether one is open is modelled, not its capacity. Sending on a missing channel, which blocks for ever in the source, counts as a crash, and is proved not to happen.
- Stop, which closes channels without emptying the map, is not an event; so the test for it when the nomination timer fires is left out.
- IceSession.Session.CreateCheckList: does not model the user names and credentials that are set with it, which only authentication uses.
- IceSession.Session.IceComplete: does not model which sockets are closed and in which mode the chosen one goes on.
- IceSession.Session.ProcessBindingResponse: does not model the controlling agent's failed integrity check (ice/icesession.go:451-461), which marks the check failed and goes on; responses are taken to pass it, or the agent to be controlled. Which check a response belongs to is an input.
- IceSession.Session.ProcessBindingRequest: does not model authentication, which comes before the part that is modelled, nor the contents of the success response, nor the user name kept for an early request.
- IceTheorems.OnlyToleratedPanics: does not exclude the crash on a level that does not rise, the "not implemented" branch, a missing sender socket and a request on an unknown local address, because the code does not; `IceTheorems.StepPanicsExactly` says exactly when each of them happens.
- IceTheorems.StateChangesBounded: asks that requests arrive on the addresses of the initial local candidates.
- The events for the start-up passes may come in any order and more than once, and the start of a check may nominate at any time; results about all such runs hold of the source's runs, and the run in `ice_late.dfy` is in the source's order.
- Candidates are values, as no session changes one it owns. The objects of pruned checks are not allocated.
- Whether every check eventually starts.
- Attribute values are values: in the source they share the buffer of their message and hold only until it is reused.
- StunMessage.Message.Add: asks that the slice holds header and body, and that the message stays below 2^32 bytes, so the wrap-around of the 32-bit length is not modelled.
- StunMessage.Message.Decode: asks for a first byte, and for four bytes of channel data, as the source indexes them unasked.
- StunAuth.CheckIntegrity: does not say what the buffer holds after an index out of bounds, which crashes the source.
- XorAddress.XorMappedAddress.GetFromAs: asks for two bytes of value, as the source slices them unasked, and for a buffer that is not the message's.
- XorBytes.FastXorBytes: words of eight bytes; destination and operands start at the first byte of their arrays.
- Message.Encode, WriteAttributes, CloneTo, Equal and ReadFrom of STUN messages; error codes, text and other fixed attributes, which the model adds as attributes with given values.
- StunAgent.Agent.Process: does not model the two reads of the default handler without the lock as two; handler calls are atomic.
- Texts are sequences of Unicode code points. For text outside ASCII the byte lengths in the candidate parser differ from the source's, and invalid UTF-8 is not modelled.
- Reuse of line values and slices by the line decoder.
- IPv6 hosts in candidate text: bracketed addresses are split as the net package does, but do not survive printing.
- ExchangeRoundTrip.DecodeUndoesEncode: asks that the net package prints the default IP address as it was written, and that the texts hold no newline or colon; how it prints addresses is a parameter.
- The part of fmt.Sscanf and strconv that is used is modelled, their error texts are not.
- TimeZones.IntervalRoundTrip: how floating point rounds an interval to seconds is a parameter, exact on whole seconds and otherwise dropping the fraction unless a whole second is within a microsecond.
- TimeZones.NTPRoundTrip: times are whole seconds of 64 bits.
- SDP messages above lines and time zones: sections, ordering, and the other fields.
