# qmi-go: a verified model of its protocols

qmi-go talks QMI to cellular modems: it frames and parses a byte stream, matches responses to requests,
keeps a SIM identity cache, serialises card access, and owns kernel and modem resources for packet data
sessions. This project models the parts of it whose correctness is not visible in any single function, and
proves what they promise for every input, every interleaving and every reachable state.

How the model is laid out:

- Pure wire code (`Frame`, `Envelope`, `ControlService`, `SmsTrim`) is functions with lemmas; the loops of the source are
  methods proved equal to those functions. `WireFormat` and `StreamLayout` say what the octets mean without using the
  codec, and prove it equal.
- An object that the source changes under a lock is a class (`CardAccess`, `TransactionTable`, `Store`,
  `QrtrTransport`, `ProbeSlot`, `DeviceSnapshot`, `Controller`, `PdnManager`), one method per critical section,
  each tied to a function of the old state or to its exact new state. Critical sections without a row below
  (`Release`, `PollBarrier`, `Enter`, `Block` and the like) only link the in-place code to the step functions that the
  protocol theorems are about.
- Each concurrency protocol is in addition a state machine (`System`, `Step`, `Enabled`, `Apply`, `Run`) whose steps are
  the atomic critical sections and channel operations of all parties. Contexts, modem answers and kernel
  calls are nondeterministic steps or parameters. Theorems named over `steps` hold after every schedule
  from the initial state.
- `notifyCh` of the card access gate is an epoch counter: a waiter records the epoch it saw and can be woken
  only once the epoch has moved on.

`dafny verify dfyconfig.toml` checks everything.

What the code does that its comments or an ideal reading do not say:

- A transaction ID can be the reserved value zero. The second atomic addition, made when the first one masks
  to zero, is a separate step; the retry yields zero exactly when the number of additions made by other
  senders in between, plus one, is a multiple of the ID range (`TransactionIds.TxCounters.Next`,
  `TransactionIds.RetryYields`, `TransactionIds.OvertakenRetryIsZero`). Distinctness does not suffer: it holds in
  every interleaving (`RequestProtocol.KeysDistinctInEveryRun`).
- Two live requests under one key disturb each other: the later registration replaces the earlier entry, and
  completing the earlier request removes the later one's entry. A request registered after the read loop has
  exited is not answered either. The channels stay safe, but a waiting request becomes unanswerable exactly
  when one of these steps happens (`Transactions.StepOrphansIff`, `Transactions.CollisionOrphansRequest`,
  `Transactions.LateRequestIsOrphaned`). Such a request still returns through its context or, after Close,
  through the close channel.
- `Close` of a secondary session samples ownership before it leaves the lock. A convergence that makes the
  session's mux the new default in between loses that default mux, and nothing else does
  (`PdnProtocol.DefaultMuxLostIff`, `PdnProtocol.PublishedMuxStaysIff`,
  `PdnRefinement.DefaultMuxLostToConcurrentClose`); registered sessions' muxes are never affected.
- Convergence is not idempotent for native framing declared with a nonzero mux, nor for a degraded plane:
  each call publishes a new generation (`DataPlane.RepeatIsNoopIff`, `DataPlane.NativeWithMuxRepublishes`,
  `DataPlane.DegradedPlaneRepublishes`).
- A data call whose handle is zero is stopped by the rollback of a failed open, but never by `Close`
  (`PdnProtocol.ResourcesConserved`, `PdnRefinement.ZeroHandleCallIsNeverStopped`).

## Model

| member | source | states |
|---|---|---|
| Frame.ParseTlvs | pkg/qmi/frame.go:485-509 | the offset loop with its zero scan computes the recursive parse, including the entries decoded before a fault |
| Frame.TlvLanguage | pkg/qmi/frame.go:461-509 | parsing returns a list exactly when the region is that list serialised followed by zero to two zero octets |
| Frame.TlvRegionUnique | pkg/qmi/frame.go:461-509 | the decomposition of a region into entries and padding is unique |
| Frame.MalformedPrefix | pkg/qmi/frame.go:485-509 | a malformed region is the reported entries serialised, followed by octets that are neither padding nor a complete entry |
| Frame.EntryRoundTrip | pkg/qmi/frame.go:461-482 | re-encoding a decoded entry restores the octets it was read from |
| Frame.FrameHeaderRoundTrip | pkg/qmi/frame.go:295-363 | either envelope decodes to its service and client, and its length field is the size after the marker modulo 65536 |
| Frame.InnerHeaderRoundTrip | pkg/qmi/frame.go:383-441 | control and service headers decode to the message and length they were built with, control transaction IDs reduced to eight bits |
| Frame.MarshalPacket | pkg/qmi/frame.go:536-571 | the appending loop produces both headers around the serialised entries |
| Frame.EnvelopeDecodes | pkg/qmi/frame.go:574-644 | a frame within the 16-bit limit decodes to exactly what its body decodes to |
| Frame.RoundTripIffFits | pkg/qmi/frame.go:536-644 | a marshalled packet decodes to itself, indication flag cleared and control ID in eight bits, if and only if it fits the outer length field |
| Frame.DecodedPacketFits | pkg/qmi/frame.go:574-644 | everything that decodes is small enough to be marshalled again |
| Frame.DecodeIsStable | pkg/qmi/frame.go:536-644 | marshalling a decoded packet and decoding it again changes only the indication flag |
| WireFormat.TlvsSpelledIff | pkg/qmi/frame.go:469-509 | the parser returns a list exactly for the octets that spell it: type, low length octet, high length octet, value, and at most two trailing zeros |
| WireFormat.DecodesIffSpelled | pkg/qmi/frame.go:574-644 | decoding yields a packet exactly when marker, lengths, service, client, flags, IDs and entries spell it position by position; every other string is refused |
| WireFormat.IndicationBit | pkg/qmi/frame.go:608-631 | a decoded packet is an indication exactly when bit 0x02 of its flags is set on the control service, bit 0x04 on any other, whatever the other bits |
| WireFormat.MarshalledPacketSpelled | pkg/qmi/frame.go:536-571 | marshalling writes the one-octet envelope exactly for services up to 0xFF, a length that counts everything after the marker, no flags, and octets that spell the packet |
| WireFormat.MarshalledTlvsSpelled | pkg/qmi/frame.go:461-467 | serialised entries spell their list and no other |
| Deframer.ScanAppend | pkg/qmi/client.go:595-628 | one-shot deframing may stop after any octet and resume on its leftover |
| Deframer.DrainPending | pkg/qmi/client.go:597-628 | the inner loop terminates, takes out exactly the frames of one-shot deframing, and leaves the specified leftover, fewer than 65536 octets; only in front of fewer than three octets may garbage remain |
| Deframer.ReadLoop | pkg/qmi/client.go:576-635 | for every way of cutting a stream into reads, packets and parse errors are those of one-shot deframing of the whole stream |
| Deframer.EveryFrameCounts | pkg/qmi/client.go:630-635 | every frame is a packet or a parse error, and there is none of the latter exactly when all frames decode |
| Deframer.StreamRoundTrip | pkg/qmi/client.go:576-635 | for marshalled packets with any octets but 0x01 and 0x02 between them, cut arbitrarily, whatever the read loop can return is exactly those packets in order, no parse error, and at most two octets of garbage held |
| Deframer.NormalizeAllAt | pkg/qmi/frame.go:536-571 | packet by packet only the indication flag and the high octet of a control transaction ID are lost on the way |
| StreamLayout.LayoutDeterminesScan | pkg/qmi/client.go:597-628 | every layout of a stream is the one deframing finds |
| StreamLayout.ScanIffLayout | pkg/qmi/client.go:597-628 | deframing yields given frames and leftover exactly when they are disjoint self-sized stretches in order, every other octet before the leftover is one no frame can start at, and the leftover is an unfinished frame or empty |
| Envelope.RebuildRestoresMarshalled | pkg/qmi/qrtr_transport_linux.go:213-242 | stripping a marshalled data packet and re-enveloping its body restores the same octets, for packets of any size |
| Envelope.EnvelopeTransparency | pkg/qmi/qrtr_transport_linux.go:213-242 | every data frame, in either envelope and of any size, has its body sent whole; re-enveloped within the length limit it decodes to the same packet if the frame decoded, and with the same error too if it was exactly as long as announced |
| Envelope.ControlStaysLocal | pkg/qmi/qrtr_transport_linux.go:230-237 | a frame goes to the local control simulation exactly when it addresses service 0, and with its whole body |
| Envelope.RebuiltFrameIsReadable | pkg/qmi/qrtr_transport_linux.go:606-636 | every datagram that fits the reader buffer becomes one frame that passes `Read`, is deframed whole and decodes to its body |
| Envelope.HeadroomIsNeeded | pkg/qmi/qrtr_transport_linux.go:197-206 | `Read` takes a rebuilt frame into 16384 octets exactly when the datagram leaves six or seven octets for its header |
| ControlService.ControlReplyDecodes | pkg/qmi/qrtr_transport_linux.go:668-695 | a locally synthesised control reply decodes to its transaction, message and entries and is no indication |
| ControlService.ReplyIsMarked | pkg/qmi/qrtr_transport_linux.go:684-694 | the synthesised frame is flagged as a response in its control header and as nothing in its envelope |
| ControlService.ServiceOnTheWire | pkg/qmi/frame.go:730-769 | services up to 0xFF take one octet, others two with the low one first, and both forms decode back |
| ControlService.ResultTlvsRead | pkg/qmi/frame.go:647-656 | the synthesised result entries read as result 0 for success and as result 1 with their code for an error |
| ControlService.RequestArrives | pkg/qmi/qrtr_transport_linux.go:213-290 | a control request the client marshals is routed to the simulation and decodes there to what was sent |
| ControlService.RequestsNameTheirService | pkg/qmi/client.go:1055-1100 | the entries of allocation and release requests name the service, and the client, they were built for |
| ControlService.AllocationAnswered | pkg/qmi/qrtr_transport_linux.go:345-401 | every allocation request is answered under its transaction, in a frame the client decodes, with success, the requested service and the new client ID, or with device not ready |
| ControlService.ReleaseAndSyncAnswered | pkg/qmi/qrtr_transport_linux.go:292-425 | releases that name service and client, and sync requests, are answered under their transaction with success |
| ControlService.MalformedRequestRefused | pkg/qmi/qrtr_transport_linux.go:345-411 | an allocation or release request without a service entry of a known width is answered with malformed message |
| CardAccessGate.SkipFacts | pkg/manager/card_access_gate.go:44-53 | skipping stops at the first ticket not cancelled, drops exactly the cancelled tickets it passed, and is idempotent |
| CardAccessGate.CardAccess.SkipCanceledLocked | pkg/manager/card_access_gate.go:44-53 | the in-place loop computes the recursive skip |
| CardAccessGate.CardAccess.TryAcquire | pkg/manager/card_access_gate.go:55-71 | one round of acquire: admitted exactly when no barrier is held and no ticket is undecided, else the current epoch is recorded |
| CardAccessGate.CardAccess.EnterBegin | pkg/manager/card_access_gate.go:120-147 | drawing a ticket and the first try happen in one critical section; success is the barrier going up |
| CardAccessGate.CardAccess.TryBegin | pkg/manager/card_access_gate.go:130-161 | a woken begin skips and is admitted exactly at the head of an idle gate |
| CardAccessGate.CardAccess.CancelBegin | pkg/manager/card_access_gate.go:148-155 | a cancelled ticket is marked, skipped when at the head, and signalled |
| GateProtocol.HeadIsLive | pkg/manager/card_access_gate.go:44-53 | after skipping, the head is a live waiter, or nobody waits and the gate is ungated |
| GateProtocol.StepKeepsInv | pkg/manager/card_access_gate.go:55-163 | every critical section keeps the queue, holder, grant-order and no-lost-wakeup invariants |
| GateProtocol.EveryRunIsSafe | pkg/manager/card_access_gate.go:28-163 | in every reachable state: undecided tickets are the disjoint union of live and cancelled ones, the barrier excludes holders, grants are in ticket order, and whoever sleeps on the current epoch would not be admitted |
| GateProtocol.MutualExclusion | pkg/manager/card_access_gate.go:55-163 | after every schedule a held barrier means no shared holder |
| GateProtocol.SignalWakesEveryone | pkg/manager/card_access_gate.go:28-32 | after a step that closes and replaces the channel, no acquirer, ticket or idle waiter is left asleep |
| GateProtocol.LastHolderSignals | pkg/manager/card_access_gate.go:80-89 | the active count is the number of holders and never passes zero, and exactly the last holder to leave signals |
| GateProtocol.NoOvertaking | pkg/manager/card_access_gate.go:64-67 | a step that admits an acquirer happens only with no waiting ticket and no barrier |
| GateProtocol.OnlyTheOwnerReleases | pkg/manager/card_access_gate.go:135-143 | only the closure of the latest grant can lower the barrier, and calling it again changes nothing |
| GateProtocol.FreeGateGrantsHead | pkg/manager/card_access_gate.go:130-161 | with the gate free and tickets waiting, the lowest waiting ticket is awake and its next step is granted |
| GateProtocol.FreeGateAdmitsAcquirers | pkg/manager/card_access_gate.go:59-77 | with no barrier and no ticket, every sleeping acquirer is awake and its next step is admitted |
| GateProtocol.FreeBarrierWakesIdlers | pkg/manager/card_access_gate.go:98-118 | with the barrier down every waitBarrierIdle sleeper is awake and returns |
| GateProtocol.AdmittedOnArrivalIff | pkg/manager/card_access_gate.go:59-71 | a new acquirer gets in at once exactly when no barrier is held and no ticket waits, and otherwise sleeps on the current epoch |
| GateProtocol.GrantedOnArrivalIff | pkg/manager/card_access_gate.go:124-147 | a new ticket is granted at once exactly on an idle gate without other tickets, and otherwise waits |
| GateProtocol.HolderCanRelease | pkg/manager/card_access_gate.go:136-143 | while the barrier is held the latest grant's closure is unspent, and calling it lowers the barrier and signals |
| GateProtocol.IdleReturnsIffDown | pkg/manager/card_access_gate.go:98-118 | waitBarrierIdle returns exactly when the barrier is down |
| GateProtocol.GivingUpLeavesNoTrace | pkg/manager/card_access_gate.go:72-76 | an acquirer or idle waiter whose context ended is gone and nobody else notices |
| GateProtocol.TicketsAreConsecutive | pkg/manager/card_access_gate.go:34-38 | tickets are consecutive and start at 1, and the one drawn waits or is granted |
| GateProtocol.CancelledIsNeverGranted | pkg/manager/card_access_gate.go:148-155 | a ticket that left the queue without a grant is not granted in any later schedule |
| GateProtocol.CancelCleansQueue | pkg/manager/card_access_gate.go:149-154 | after a cancellation a live ticket heads the queue, or the queue is empty and no cancelled ticket is remembered |
| TransactionIds.TxCounters.Next | pkg/qmi/client.go:936-948 | one allocation with any number of foreign additions between its two atomic ones: the identifier, the new counter, and that the identifier is zero exactly when a retry is overtaken up to the next multiple of the range |
| TransactionIds.EqualIdsAreACycleApart | pkg/qmi/client.go:936-948 | in every interleaving of all senders' additions, across counter wrap, two allocations with the same identifier have at least 255 (control) or 65535 allocations, the first included, between them |
| TransactionIds.CycleBoundIsAttained | pkg/qmi/client.go:936-948 | the bound is exact: the identifier comes again after that many allocations |
| TransactionIds.KeyInjective | pkg/qmi/client.go:952-952 | service and ID are recovered from the packed key |
| TransactionIds.KeysDistinctInWindow | pkg/qmi/client.go:936-964 | fewer than one cycle of allocations apart, two requests never share a table key, however their additions interleave |
| TransactionIds.RetryYields | pkg/qmi/client.go:939-947 | with k foreign additions between the two atomic steps the retry yields k+1 modulo the range, so zero exactly when k+1 is a multiple of it |
| TransactionIds.OvertakenRetryIsZero | pkg/qmi/client.go:939-942 | an interleaving in which a control request gets the ID zero |
| Transactions.TransactionTable.Register | pkg/qmi/client.go:951-964 | a fresh channel enters the table, silently replacing an entry of the same key |
| Transactions.TransactionTable.Complete | pkg/qmi/client.go:454-461 | whatever entry the key names now is removed and no channel is closed |
| Transactions.TransactionTable.FailPending | pkg/qmi/client.go:725-732 | the table empties and exactly its channels are closed, each once |
| Transactions.StepKeepsInv | pkg/qmi/client.go:424-434 | every step of senders, read loop, read failure and Close keeps table channels open, live and filed under their own key |
| Transactions.ChannelSafety | pkg/qmi/client.go:576-648 | after every schedule, key collisions included, no channel was closed twice or sent on after closing, and a buffered response carries the key of its request |
| Transactions.ResponseAnswersRequest | pkg/qmi/client.go:637-648 | a response under the key of a waiting request that owns its entry goes into that request's channel, ends its wait, and changes nothing else |
| Transactions.UnmatchedReachesNobody | pkg/qmi/client.go:642-648 | a response under an unknown key, and an indication under any key, reaches no request |
| Transactions.LookedUpReachesOwner | pkg/qmi/client.go:637-648 | whatever happens between lookup and send, the response reaches the request that owned the entry at the lookup, without a panic |
| Transactions.CompletionEndsRequest | pkg/qmi/client.go:454-461 | completion removes the key's entry, ends the request and touches no channel |
| Transactions.FailureReachesEveryone | pkg/qmi/client.go:725-732 | after a read failure or the end of Close the table is empty and every waiting request has its answer or a closed channel |
| Transactions.CloseDrains | pkg/qmi/client.go:424-434 | an undisturbed Close ends the read loop, empties the table and closes exactly the channels in it |
| Transactions.StepOrphansIff | pkg/qmi/client.go:951-968 | a step leaves a waiting request without answer, failure or a served entry exactly when it takes away an entry such a request needs, or registers when neither the read loop nor a begun Close will look at the table again |
| Transactions.AnswerableIffNeverOrphans | pkg/qmi/client.go:424-434 | throughout a schedule every waiting request was failed, has its answer, or owns an entry that will be looked at, exactly when the schedule has no such step |
| Transactions.CollisionNeedsEqualKeys | pkg/qmi/client.go:951-968 | a step can take away a needed entry only with two live requests under one key |
| Transactions.CollisionOrphansRequest | pkg/qmi/client.go:454-461 | a colliding pair after which a live request has no entry |
| Transactions.LateRequestIsOrphaned | pkg/qmi/client.go:576-589 | a schedule without collision in which a request owns its entry and is not answerable: it registers after a read failure and a finished Close |
| Transactions.NothingArrivesAfterReaderExit | pkg/qmi/client.go:576-589 | once the read loop is gone no schedule brings a request its answer, and only the end of a Close still to come closes its channel |
| RequestProtocol.StepKeepsInv | pkg/qmi/client.go:936-968 | every step from the first addition to completion keeps counters, addition logs, claimed identifiers and table keys in agreement |
| RequestProtocol.RequestReachesTable | pkg/qmi/client.go:936-964 | a request makes one addition, a second exactly if the first masks to zero, and then waits with its entry under the masked value of the last one |
| RequestProtocol.PeerEchoes | pkg/qmi/frame.go:536-644 | a peer that answers with the service and transaction ID it read off the wire answers with what was sent, a control ID in eight bits |
| RequestProtocol.ResponseKeyMatches | pkg/qmi/client.go:637-637 | such a response has the key of the request, for control requests too |
| RequestProtocol.ResponseEndsWait | pkg/qmi/client.go:637-648 | such a response ends that request's wait, and as an indication it changes nothing |
| RequestProtocol.NoCollisionInWindow | pkg/qmi/client.go:936-968 | while no living request has seen a full cycle of allocations, no step takes away an entry that a request needs |
| RequestProtocol.KeysDistinctInEveryRun | pkg/qmi/client.go:936-968 | after every run from any counter values, with all senders' atomic additions interleaved, fewer allocations than a cycle during each living request's life keep live keys distinct and the next step free of collisions |
| RequestProtocol.EveryRequestAnswerable | pkg/qmi/client.go:936-1012 | over every such run in which no request registers too late, every waiting request is answerable at the end |
| CoalescingStore.Store.StoreEvent | pkg/qmi/client.go:771-779 | the order list stays duplicate-free and equal to the key set; the contents become an ordered-map update |
| CoalescingStore.Store.PopEvent | pkg/qmi/client.go:781-795 | on a valid store the first-stored key with its value comes out and the rest stays; the skip loop is correct on any store |
| CoalescingStore.LatestValueFirstStoredOrder | pkg/qmi/client.go:771-795 | after every history of stores and pops, each pending key carries its latest value and keys are ordered by when their current stay began |
| CoalescingStore.NoKeyLost | pkg/qmi/client.go:771-795 | a key stored and not handed out since is still pending |
| Identities.DeviceSnapshot.UpdateIdentitiesIfGeneration | pkg/manager/snapshot.go:541-589 | the guarded in-place assignments compute the generation-guarded update |
| Identities.UpdateFieldByField | pkg/manager/snapshot.go:541-589 | a stale generation changes nothing; a current one replaces each of the ten fields by its own new value if it has one, and both flags say what is stored |
| Identities.ResetFieldByField | pkg/manager/snapshot.go:591-607 | a reset takes the next generation and clears the four SIM fields; only a full one clears the six static fields |
| Identities.ResetShutsOutQueriesInFlight | pkg/manager/snapshot.go:579-607 | a reset shuts out every query in flight for good: whenever and after whatever it writes, nothing changes |
| Identities.DeviceSnapshot.Reset | pkg/manager/snapshot.go:630-670 | a full reset acts on identities as a SIM reset does |
| Identities.NoStaleSimIdentity | pkg/manager/snapshot.go:541-607 | after every interleaving of queries and resets, each stored SIM field was obtained as that field by a query that captured its generation after the latest reset, static fields hold what was obtained as them, and both flags agree with the fields |
| SmsTrim.DeclaredLength | pkg/manager/sms_trim.go:24-63 | the walking index finds the declared extent, or nothing when any field is missing |
| SmsTrim.TrimToDeclaredLength | pkg/manager/sms_trim.go:5-22 | the copied and masked buffer is the trim of the declared extent; without one the input comes back unchanged |
| SmsTrim.ExtentOfDeliver | pkg/manager/sms_trim.go:24-63 | built from its fields, a TPDU has an extent exactly when it is a deliver message whose coding scheme octet has an alphabet and whose user data holds what is declared, and the extent starts right after the length octet |
| SmsTrim.ExtentMeansDeliver | pkg/manager/sms_trim.go:24-63 | conversely, every TPDU with an extent is built from such fields |
| SmsTrim.TrimOfDeliver | pkg/manager/sms_trim.go:5-22 | trimming keeps the header and the fewest octets that hold the declared user data, every declared character unchanged |
| SmsTrim.HeaderUntouched | pkg/manager/sms_trim.go:11-20 | octets before the user data, and all octets in other alphabets, are unchanged |
| SmsTrim.SeptetsKeptPaddingCleared | pkg/manager/sms_trim.go:13-20 | a bit of the trimmed user data is set exactly when it belongs to a declared septet and was set |
| SmsTrim.SeptetsReadTheSame | pkg/manager/sms_trim.go:13-20 | every declared character reads the same before and after |
| SmsTrim.TrailingJunkIgnored | pkg/manager/sms_trim.go:5-22 | octets after the declared extent do not influence the result |
| SmsTrim.TrimIsCanonical | pkg/manager/sms_trim.go:5-22 | TPDUs with equal headers and equal declared septets trim to equal octets |
| SmsTrim.TrimIsIdempotent | pkg/manager/sms_trim.go:5-22 | trimming a trimmed TPDU changes nothing |
| Provisioning.Normalize | pkg/manager/uim_provisioning.go:21-41 | each unusable option becomes its default (slot 1, 10 attempts, backstop 3, 2 activations) and each usable one is kept, independently |
| Provisioning.ReloadSlot | pkg/manager/device_query.go:526-534 | a known nonzero active slot, else a nonzero default, else slot 1 |
| Provisioning.EnsureProvisioned | pkg/manager/uim_provisioning.go:62-129 | for every sequence of answers: at most MaxAttempts queries, MaxActivations rebinds and MaxAttempts-1 sleeps, every call the one that must follow the trace before it, every answer the environment's, and an outcome the trace justifies |
| Provisioning.Activate | pkg/manager/uim_provisioning.go:96-120 | the activation block adds nothing, a failed AID read, or an AID read and a rebind, exactly as the observation and the budget demand |
| Provisioning.ActivatesIff | pkg/manager/uim_provisioning.go:84-104 | an activation follows an observation if and only if it is neither ready nor final, asks for provisioning or completes the backstop, and budget is left; an AID found is used |
| Provisioning.EndIsLast | pkg/manager/uim_provisioning.go:69-82 | nothing follows an error, a ready or final observation, an unsupported rebind or an interrupted sleep |
| Provisioning.RebindIsJustified | pkg/manager/uim_provisioning.go:84-108 | every rebind follows an observation neither ready nor terminal that asks for provisioning or completes the backstop count of unknown observations since the last such request or successful rebind, and goes to that observation's slot |
| ImsProbe.StepKeepsInv | pkg/manager/ims_probe.go:197-300 | every step keeps token, wait group, cancel function and flag in agreement with the one probe past the slot |
| ImsProbe.TokenConserved | pkg/manager/ims_probe.go:215-287 | after every schedule token count plus holders is one, so at most one probe runs, and the token is back when all probes have left |
| ImsProbe.QuietUntilUnblocked | pkg/manager/ims_probe.go:291-300 | once blockIMSProbes has returned no probe is between start and release, and none can start before the flag is cleared |
| ImsProbe.BlockReachesRunningProbe | pkg/manager/ims_probe.go:291-298 | a block that finds a probe running cancels that probe |
| ImsProbe.ProbeArrivesAndMayGiveUp | pkg/manager/ims_probe.go:215-245 | a probe that arrives waits for the one token, and leaves without a trace if its context ends |
| ImsProbe.ProbeStartsIff | pkg/manager/ims_probe.go:240-273 | with the token free a waiting probe gets it, and starts exactly if not blocked and allowed; otherwise the token is back and the probe gone |
| ImsProbe.RunningProbeLeaves | pkg/manager/ims_probe.go:275-285 | a running probe is the one in the group with its cancel function installed, and its release undoes all of it |
| ImsProbe.BlockShutsUnblockOpens | pkg/manager/ims_probe.go:202-206 | a block refuses new probes and clearing the flag admits them |
| QrtrSockets.QrtrTransport.AllocateCid | pkg/qmi/qrtr_transport_linux.go:427-435 | the next client ID, never zero |
| QrtrSockets.CidsRepeatExactly | pkg/qmi/qrtr_transport_linux.go:427-435 | two client IDs agree exactly when whole cycles of 255 allocations separate them |
| QrtrSockets.QrtrTransport.Register | pkg/qmi/qrtr_transport_linux.go:378-396 | refused exactly when closed; otherwise registered, closing a stale socket once |
| QrtrSockets.QrtrTransport.Detach | pkg/qmi/qrtr_transport_linux.go:413-418 | a release removes its service's socket from the table and takes it along |
| QrtrSockets.QrtrTransport.MarkClosed | pkg/qmi/qrtr_transport_linux.go:254-263 | the closing loop closes every registered socket once and empties the table |
| QrtrSockets.StepKeepsInv | pkg/qmi/qrtr_transport_linux.go:251-425 | every step of allocations, releases, readers and Close keeps each socket in exactly one place |
| QrtrSockets.SocketsConserved | pkg/qmi/qrtr_transport_linux.go:361-425 | after every schedule each opened socket is held, refused, registered, detached or closed, in exactly one of these, so none is closed twice |
| QrtrSockets.NothingLeftOpen | pkg/qmi/qrtr_transport_linux.go:251-272 | after Close has returned and no write is in flight, every socket ever opened is closed and no reader is left |
| QrtrSockets.ReadersDrain | pkg/qmi/qrtr_transport_linux.go:379-396 | after the mark no reader joins the wait group, and every reader in it reads a closed socket or one about to be closed |
| QrtrSockets.CloseReturns | pkg/qmi/qrtr_transport_linux.go:606-607 | an exiting reader leaves the wait group alone, and with the group empty Close returns |
| QrtrSockets.AllocationTakesEffect | pkg/qmi/qrtr_transport_linux.go:378-398 | on an open transport the new socket becomes the service's and gets a reader, a stale one is closed once, other services are untouched; on a closed one it is only dropped |
| QrtrSockets.ReleaseTakesEffect | pkg/qmi/qrtr_transport_linux.go:413-422 | a release takes exactly its service's socket, which is then closed once |
| QrtrSockets.ServiceKeepsItsSocket | pkg/qmi/qrtr_transport_linux.go:592-603 | over every schedule a service keeps the open socket of its latest allocation until it is released, reallocated or the transport closed |
| DataPlane.Controller.Converge | pkg/manager/data_plane.go:153-208 | the two-rung ladder in place computes the specified new plane and result |
| DataPlane.Controller.ConvergeQmap | pkg/manager/data_plane.go:272-318 | a known master skips discovery, an existing default mux is reused, and a failure leaves the master unchanged |
| DataPlane.Controller.ActiveMuxIds | pkg/manager/data_plane.go:221-240 | the list holds exactly the published default, the declared default and every session's mux, without zero and without repetition |
| DataPlane.ConvergencePublishes | pkg/manager/data_plane.go:153-208 | failure publishes nothing; success keeps a satisfying publication or publishes the next generation of what was asked, degraded native only for QMAP |
| DataPlane.LadderOutcome | pkg/manager/data_plane.go:175-207 | QMAP is published exactly when it is asked for and reachable, on the found or added interface under the known or discovered master; otherwise native on the network interface, marked degraded exactly if QMAP was asked for; otherwise nothing |
| DataPlane.GenerationMonotone | pkg/manager/data_plane.go:262-263 | over any sequence of convergences generations never decrease, and an equal generation means an unchanged snapshot |
| DataPlane.RepeatIsNoopIff | pkg/manager/data_plane.go:171-174 | repeating a successful convergence is a no-op exactly when the plane already satisfied the specification, native framing was asked for without a mux, or QMAP was asked for and reachable; otherwise it publishes again |
| DataPlane.NativeWithMuxRepublishes | pkg/manager/data_plane.go:171-191 | native framing declared with a mux publishes generation one and then two |
| DataPlane.DegradedPlaneRepublishes | pkg/manager/data_plane.go:193-207 | a degraded plane publishes anew on the next call, and recovers to QMAP once that works |
| PdnSessions.PdnManager.MuxTaken | pkg/manager/pdn_session.go:213-217 | the registry loop finds whether a session owns the mux |
| PdnSessions.PdnManager.Rollback | pkg/manager/pdn_session.go:253-263 | exactly the call, lease and mux handed in are stopped, released and deleted, in an order in which each step is legal |
| PdnSessions.PdnManager.OpenOnMux | pkg/manager/pdn_session.go:249-304 | after the mux exists, each failure point gives back the client and the call and deletes the mux; success owns one of each, or no client if the lease handed out none |
| PdnSessions.PdnManager.OpenOnCall | pkg/manager/pdn_session.go:281-304 | after the call was started, each failure stops it, releases the client and deletes the mux |
| PdnSessions.PdnManager.Refuse | pkg/manager/pdn_session.go:187-223 | the checks before an ID is drawn refuse for the first reason that applies; a mux is free exactly when no session owns it |
| PdnSessions.RefusedIff | pkg/manager/pdn_session.go:187-223 | an open is refused exactly while stopping, without a QMAP topology, or for a mux that is zero, the default or a session's, and with the error of the first of these |
| PdnSessions.FaultIsFirstMissing | pkg/manager/pdn_session.go:230-300 | an admissible open fails at the first of eleven answers that is missing, with that answer's error, and succeeds when none is |
| PdnSessions.PdnManager.OpenReserved | pkg/manager/pdn_session.go:230-304 | under the reservation, the first failing check or call decides the error, and only failures after the mux was added delete it |
| PdnSessions.PdnManager.OpenAdmitted | pkg/manager/pdn_session.go:225-311 | a fresh ID is drawn, the reservation is gone afterwards, and the registry gains the session exactly on success |
| PdnSessions.PdnManager.OpenPdn | pkg/manager/pdn_session.go:180-311 | the first failing check or call decides the error and nothing acquired stays; success registers one session under a fresh ID with one mux, lease and call; session ownership stays disjoint |
| PdnSessions.PdnManager.Teardown | pkg/manager/pdn_session.go:333-353 | a call with a handle is stopped, the lease released, and the mux deleted only when owned |
| PdnSessions.PdnManager.CloseSession | pkg/manager/pdn_session.go:313-364 | the first close changes exactly the registry, the call if its handle is nonzero, the client, and the mux while its generation is current; further closes change nothing |
| PdnSessions.PdnManager.CloseAllSessions | pkg/manager/pdn_session.go:366-376 | afterwards no session is registered and every lease, handled call and current mux of theirs is gone |
| PdnProtocol.KeepSpares | pkg/manager/manager.go:1327-1336 | the keep set of reconciliation contains every registered mux and both default muxes |
| PdnProtocol.ReconcileLeavesTheKept | pkg/manager/manager.go:1327-1336 | residual cleanup may delete every other mux, and exactly the kept ones that were there remain |
| PdnProtocol.StepKeepsInv | pkg/manager/pdn_session.go:180-364 | every step of opens, rollbacks, closes, convergence and reconciliation keeps mux, topology and ledger invariants |
| PdnProtocol.RegisteredMuxesAreSafe | pkg/manager/pdn_session.go:199-228 | after every schedule registered sessions hold distinct nonzero muxes, each present until its own close deletes it |
| PdnProtocol.ResourcesConserved | pkg/manager/pdn_session.go:241-364 | after every schedule no client is shared, released twice or left over, no call stopped twice; with nothing open, a started call was stopped exactly once if its open was aborted or its handle is nonzero, and never otherwise |
| PdnProtocol.DefaultMuxLostIff | pkg/manager/pdn_session.go:328-353 | a step removes the published default mux exactly when it is the delete of an owned-sampled close whose session has that mux, which then belongs to an older generation |
| PdnProtocol.PublishedMuxStaysIff | pkg/manager/pdn_session.go:328-353 | a default mux published now stays in the kernel until the next publication, whatever happens, exactly when no close in progress on that mux saw its session current |
| PdnRefinement.OpenIsARun | pkg/manager/pdn_session.go:180-311 | the call-by-call open, on success and at every failure point, is an undisturbed run of the protocol that leaves the same registry and ledger |
| PdnRefinement.CloseIsARun | pkg/manager/pdn_session.go:313-364 | so is the first close of a session |
| PdnRefinement.ConvergeIsARun | pkg/manager/data_plane.go:153-208 | every convergence is a declaration and at most one publication of the protocol, and touches nothing else |
| PdnRefinement.TakeOver | pkg/manager/pdn_session.go:328-353 | from any state, closing a current session while converging onto its mux can end with the published default mux deleted |
| PdnRefinement.DefaultMuxLostToConcurrentClose | pkg/manager/pdn_session.go:328-353 | a run from the initial state that ends so |
| PdnRefinement.ZeroHandleCallIsNeverStopped | pkg/manager/pdn_session.go:335-337 | a run from the initial state that opens with handle zero, closes, and leaves the call unstopped |

## Left out

- PdnProtocol.StepKeepsInv: runs lie between two full cleanups; the delete-everything reconciliation of `cleanup` and the restart of generations after it are outside the step relation.
- PdnSessions.PdnManager.OpenPdn: a WDS client handed out is taken to be one not handed out before (object identity); the flush and bring-down calls on the interface are not modelled.
- DataPlane.Controller.Converge: the manager's cached interface names (`masterIface`, `muxIface`) and the redial after a generation change are not modelled.
- GateProtocol.EveryRunIsSafe: tickets and epochs are unbounded naturals, so wrap-around of the 64-bit ticket counter is not modelled; the same holds for session IDs, identity generations and topology generations.
- RequestProtocol.EveryRequestAnswerable: a request that gives up between drawing its identifier and storing its entry does not exist in the source and is not a step.
- Identities.NoStaleSimIdentity: covers the generation-guarded writers; the unconditional `UpdateIdentities` bypasses the guard and is not a step.
- SmsTrim.DeclaredLength: the mapping from the data coding scheme to an alphabet belongs to an external library and is a parameter.
- Provisioning.EnsureProvisioned: durations of the sleeps are not modelled, only which of the two kinds happens.
- ControlService.AllocationAnswered: the service lookup of the QRTR transport (control socket, enumeration waits, version query) is not modelled; its outcome is whether an allocation gets a client ID.
- Liveness beyond "enabled and successful": no fairness of the Go scheduler is assumed, so nothing says that an enabled step eventually runs.
- Delivery order between the indication channel and the coalescing store, which the source deliberately leaves open.
- The memory of recently expired transactions and the classification of late responses, which only affect logging.
- Operating system I/O (network configuration, device discovery, raw, proxy and QRTR sockets) and the command-line tools: represented by nondeterministic answers.
- Per-message service wrappers (NAS, DMS, IMS, WDA and others): flat field extraction that would only add easy members.
- Modem reset deduplication and timeout-storm recovery: they depend on wall-clock windows that drop events on purpose.
- Logging, event cloning, error texts, modem pool selection, timers and jitter.
