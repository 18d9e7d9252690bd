# MME application layer, verified

A Dafny 4.11 model of the OpenAir-CN MME and of what it guarantees. Five parts:

**UE contexts and their life.** The MME keeps a context per UE (3GPP TS 23.401 section 5.7.2) in a
primary table, with four indexes that lead to it by IMSI, S11 TEID, eNB key and GUTI. `UeModel`,
`Registry` and `Handlers` give the state as a value and every message handler as a function of it.
`Invariant`, `HandlerProofs` and `Runs` prove what every handler keeps, for every order of messages;
`StepFrames` that every step touches one context only, `StepLaws` and `StepLawProofs` what every step
sends, counts, starts, stops and writes, `RunLaws` what follows for registration, implicit detach and
tunnels, `StaleEntries` which index entries outlive the
identities they were made for, `GutiHistories` who has a GUTI and who is found by it, `Confluence` that the two answers which end a connection may come in
either order (section 5.3.5); `RunTheorems` states what follows for every state of every run.
`UeContexts`, `MmeTask` and `MmeTaskRuns` are the application as it runs, objects changed in place by
one method per message with the loops of the handlers, each proved to do exactly what the function
says.

**Bearers.** `Bearers` and `BearerProofs` hold the EPS bearer table and the PDN table, which refer to
each other (section 11.2.3.1.5 of 3GPP TS 24.007 numbers the bearers), `BearerEffects` what each operation
leaves in every slot, `CreateBearerFanIn` the
procedure that turns one S11 create-bearer request into one NAS procedure per bearer and answers once
(sections 7.2.3 and 7.2.4 of 3GPP TS 29.274), `CreateBearerResponses` which steps send a create-bearer
response at all, `CreateBearerRuns` the whole exchange inside a run. `ExampleRuns` holds runs that show
what the conditions of the theorems shut out.

**Served tracking areas.** `ServedTai`: the sort of the configured list over parallel arrays, and the
type of the TAI list (section 9.9.3.33 of 3GPP TS 24.301).

**Information elements** of 3GPP TS 24.008: `AccessPointName` (section 10.5.6.1),
`ProtocolConfigurationOptions` (10.5.6.3), `PacketFilter`, `PacketFilterRoundTrip`,
`TrafficFlowTemplate` and `TftCode` (10.5.6.12), `PlmnList` (10.5.1.13), `MobileIdentity` (10.5.1.4),
over `Octets`; `FilterWire` and `ElementLayouts` say octet by octet what stands where. Encoders write into a buffer in place; decoders are total, and say so when the code
would read behind the end of the buffer.

**Bits.** `Bits`, `EnbKey` and `BitString`: shifts and masks, the key of a UE at its eNB, ASN.1 bit
strings.

`dafny verify dfyconfig.toml` checks everything.

## How to read it

A run starts with the empty MME and is any sequence of the 27 kinds of event in `Runs.Event`; a
handler that ends the process (a failed assertion, a NULL dereference) ends the run. What the MME
relies on is in `Runs.Admissible`: IMSIs, TEIDs and eNB identities handed out by others are not in use
by another UE, eNB UE identities have 24 bits, and the timer service numbers no timer -1. Of GUTIs
nothing is asked; what it takes for their owners to be found is in `RunGutisFoundIff`. Every handler
is one atomic step. Keys that mean "none" (IMSI 0, TEID 0, the all-ones eNB key, a GUTI with M-TMSI
0xFFFFFFFF or all zero) identify nobody: the tables may hold entries under them. The TEID of a new
tunnel, the result of starting a timer and the contents of messages are parameters of the events;
messages sent are collected in order.

`Covered` says that every context is found under its key, `Indexed` that besides nothing else is,
`Stale` that an entry leads to a context without that key, `SearchFinds` is the plain search a lookup
is compared with, `Inv` the invariant, `Watch` a fact followed along a run.
`Written(b, b0, at, s)` says that buffer b is b0 with s written at `at`.

## Where the code does not do what it is for

Each of these is kept as it is and has its exact condition in the table below.

- NAS writes the IMSI of a context before the registry is told, and clears IMSI and GUTI on detach
  without telling it at all: entries stay behind, also after the context has gone
  (`SetValidImsiKeepsIndexIff`, `ClearIdentitiesKeepsIndexIff`, `RunStaleIff`, `RunStaleGutiIff`,
  `RunGutisExactIff`, `StaleImsiExample`). Both may happen at any point of a run.
- The registry leaves the MNC out when it compares GUTIs, NAS then writes the new one into the context
  all the same: its owner is not found by it (`NewGutiKeepsFoundIff`, `RunGutisFoundIff`,
  `LostGutiExample`).
- A release-complete message for an idle UE uncounts a connection (`ReleaseCompleteExactIff`).
- Going idle twice overwrites the number of a running reachability timer (`EitherOrderRemoves`,
  `LostTimerExample`).
- The create-bearer response never counts rejected bearers and fills one bearer only
  (`CauseRightIffNoneFailed`, `DescribesAllIffSingle`). It is never sent when two bearers were given the
  same EBI (`RequestAnsweredOnceIffDistinct`).
- An E-RAB setup response may send a create-bearer response of its own, also when NAS has answered the
  request or will do so (`OnlyAnswersAndErabsRespond`, `RunRequestAnsweredOnce`, `TwoResponsesExample`).
  It carries no transaction, on which the assertion at line 667 of
  src/gtpv2-c/nwgtpv2c-0.11/src/NwGtpv2c.c fails, and calls the bearers that were set up rejected
  (`ErabRespondsIffDue`, `ErabResponseRejects`).
- The TAI sort does not move the MNC lengths (`LengthsLeftBehind`, `LengthsStayIff`,
  `SortSafeIffUniform`).
- Configuration protocols other than 0 are written one bit away from where they are read, and the
  element must end the buffer (`ProtocolConfigurationOptions.RoundTripIff`).
- 24-bit values are written as 32 bits of which three octets count, so a flow label arrives divided
  by 256; addresses in packet filters move the encoder too far; a second filter is never decoded; the
  identifier of a template is checked against that of another element (`FilterRoundTripIff`,
  `TrafficFlowTemplate.RoundTripIff`, `TrafficFlowTemplate.IeRoundTripIff`). The macros are those of
  src/common/common_defs.h, lines 88 to 128, taken as they are written.
- Even-length IMSIs, odd IMEISVs with a last digit, every TMGI and the missing identity do not survive
  (`MobileIdentity.RoundTripIff`).

## Model

| member | source | states |
|---|---|---|
| RunTheorems.RunLookupsAreSearches | src/mme_app/mme_app_context.c:214-299 | In every state of every run, the lookups by identifier, S11 TEID and eNB key on a valid key return exactly what a search through all live contexts finds. That by IMSI does if and only if no live context lost the key to NAS behind the back of the index with nobody having taken it since; that by GUTI if and only if no live context lost the GUTI to NAS that way and no step lost a live context that has it: gave it out with another MNC while it had no entry, or replaced or took out the entry for another context. |
| RunTheorems.RunGutiLookupsExact | src/mme_app/mme_app_context.c:286-299 | In every state of every run in which all GUTIs were given out well and none was cleared so far, a lookup by a valid GUTI finds exactly what a search finds, and no valid GUTI leads to an identifier without a context. |
| RunTheorems.RunOwnersAreFound | src/mme_app/mme_app_context.c:214-299 | In every state of every run whoever has a valid IMSI is found by it. Whoever has a valid GUTI is if and only if the context was entered under it and the entry was neither replaced nor taken out since, which is if no step has lost it; that is always so when every GUTI before was given out well. |
| StaleEntries.RunStaleIff | src/nas/emm/Detach.c:90-135 | In every run an IMSI leads to a context that does not have it if and only if an earlier step took it from that context without telling the index (NAS cleared it, or wrote another one over it) and no step since has entered a context under it. |
| StaleEntries.StepFollows | src/nas/emm/emm_data_ctx.c:88-171 | Of all 27 kinds of step only the clearing of identities and the writing of another IMSI create stale IMSI entries, and only entering a context under the IMSI takes one away; removing a context does neither. |
| StaleEntries.StepEntries | src/mme_app/mme_app_context.c:440-464 | Of all 27 kinds of step only a new GUTI and a UE that comes back with another than it has make an entry in the GUTI index, and only they and the removal of a context take one out, that of the GUTI the context had. |
| StaleEntries.RunGutiEntryIff | src/mme_app/mme_app_context.c:440-464 | In every run a valid GUTI leads to a context if and only if some step entered the context under it and no step since has entered another one or taken the entry out. |
| StaleEntries.RunGutisFoundIff | src/nas/emm/Attach.c:1341-1351 | Along a run every owner of a valid GUTI has been found by it so far if and only if every GUTI so far was given out well: to a UE when no other had it and, where it differs from the last in the MNC only, with the index leading to the UE already. No other step ever loses an owner. |
| GutiHistories.StepOwners | src/nas/emm/emm_data_ctx.c:88-101 | Of all 27 kinds of step only a new GUTI and a UE that comes back with another than it has give a valid GUTI to a context, and only they, the clearing by NAS and the removal of the context take one from it. |
| GutiHistories.StepLeavesStale | src/nas/emm/Detach.c:128-130 | Of all 27 kinds of step only the clearing of identities and a new GUTI that differs in the MNC only create a stale GUTI entry, the one the context had, and only entering a context under the GUTI, taking the entry out or giving the GUTI back takes one away. |
| GutiHistories.StepLoses | src/nas/emm/Attach.c:1348-1350 | Of all 27 kinds of step only a new GUTI that differs in the MNC only and has no entry, and a step about another context that replaces or takes out the entry, make a context be not found by the GUTI it has; only taking the GUTI from the context ends that. |
| GutiHistories.RunStaleGutiIff | src/nas/emm/Detach.c:90-135 | In every run a valid GUTI leads to a context that does not have it if and only if NAS took it from the context, by clearing or by changing the MNC only, while the index led there, and no step since has entered a context under it, taken the entry out or given it back. A context that has a valid GUTI is not found by it if and only if it was given it with another MNC while there was no such entry, or a step about another context replaced the entry or took it out, and it has kept the GUTI since. |
| GutiHistories.RunGutisExactIff | src/nas/emm/Attach.c:1341-1351 | Along a run the GUTI index has agreed with the contexts in every state so far if and only if every GUTI so far was given out well and NAS cleared no context that had one. |
| GutiHistories.StepExact | src/mme_app/mme_app_context.c:440-464 | The same of one step, for all 27 kinds: from an index that agrees to one that agrees. |
| HandlerProofs.NewGutiKeepsFoundIff | src/nas/emm/Attach.c:1341-1351 | The same of one new GUTI: the registry is told and does nothing if only the MNC differs, then NAS writes the field in any case. |
| ExampleRuns.LostGutiExample | src/nas/emm/emm_data_ctx.c:96-101 | A run in which a UE gets a GUTI and then the same with another MNC: it has the second, is found by the first and not by the second. |
| ExampleRuns.StaleImsiExample | src/nas/emm/Detach.c:311-314 | A run of four messages (attach, IMSI, clearing, detach request) after which IMSI 7 leads first to a context without IMSI and then to none. |
| RunTheorems.RunEnbPairFindsOwner | src/common/common_types.h:59-81 | A context registered under a pair of eNB and 24-bit eNB UE identity is found by that pair and by no other pair. |
| RunTheorems.RunRemovedForGood | src/mme_app/mme_app_context.c:600-655 | Along every run contexts are only ever added to the removed ones; each is removed once, with S11 TEID 0, and is never live again. |
| RunTheorems.RunRemovedEntries | src/mme_app/mme_app_context.c:600-655 | The entries that still name an identifier without a context: none of the TEID and eNB indexes, of the IMSI and GUTI indexes exactly the keys taken from it behind their back and not entered again, taken out or given back since. |
| RunTheorems.RunClosedTunnelIgnored | src/mme_app/mme_app_bearer.c:412-448 | After a delete-session response on a TEID, every S11 message on that TEID leaves the state as it is, until the number is given out again. |
| RunTheorems.RunOldTeidIgnored | src/mme_app/mme_app_bearer.c:403-460 | S11 messages on a TEID that a removed context had at any earlier point of the run change nothing, until the number is given out again. |
| RunTheorems.RunCounters | src/mme_app/mme_app_statistics.c:94-170 | In every run the connected counter is at most the number of connected contexts; the attached counter is the number of registered contexts plus those removed while registered. |
| RunTheorems.RunConnectedExact | src/mme_app/mme_app_context.c:939-970 | The connected counter equals the number of connected contexts as long as release-complete messages remove connected contexts only, or nobody is connected. |
| RunTheorems.ReleaseCompleteExactIff | src/mme_app/mme_app_context.c:1208-1216 | That condition is exact: a removal by release-complete keeps an exact counter exact if and only if the UE is connected or no UE is. |
| RunTheorems.RunOtherRemovalsAreIdle | src/mme_app/mme_app_detach.c:102-124 | Every context that anything but a release-complete message removes is ECM idle when it goes. |
| RunTheorems.RunConnectedFits | src/mme_app/mme_app_statistics.c:94-110 | There are fewer than 2^32 live contexts in every run, so the 32-bit connected counter never wraps. |
| RunTheorems.RunConnectedHasNoIdleTimer | src/mme_app/mme_app_main.c:245-272 | A connected UE never has a reachability or implicit-detach timer recorded, so no expiry but that of its context-setup timer changes anything. |
| RunTheorems.UnmatchedExpiryIgnored | src/mme_app/mme_app_main.c:245-272 | An expiry whose number matches no recorded timer, or that names an unknown UE, changes nothing. |
| RunTheorems.IdleTimerExpires | src/mme_app/mme_app_bearer.c:936-969 | When an idle timer expires the UE is idle. The first one sends nothing, is no longer recorded, and the second one is started and recorded, or recorded as none if it cannot be started; the second one is no longer recorded and sends exactly one detach indication for that UE. |
| RunTheorems.RunImplicitDetachIsIdle | src/mme_app/mme_app_bearer.c:954-969 | The same along every run, with every other context untouched. |
| RunTheorems.RunBearers | src/mme_app/mme_app_bearer_context.c:82-172 | In every run, for every UE, slot i holds a bearer if and only if exactly one PDN connection lists it, with EBI i+5 and that connection as its own; a bearer whose radio side is up has its gateway and MME sides up. |
| RunTheorems.RunErabList | src/mme_app/mme_app_bearer.c:137-162 | Every connection establishment sends exactly the bearers the gateway has created, at most 11, in strictly increasing EBI order with their own QoS and TEID; the NAS PDU goes along if and only if the list is not empty. |
| Runs.StepKeeps | src/mme_app/mme_app_main.c:61-285 | Each of the 27 kinds of step, the clearing of identities by NAS included, keeps the invariant of the MME, and with it every fact being watched along the run. |
| StepLawProofs.StepObeys | src/mme_app/mme_app_main.c:61-285 | For each of the 27 kinds of step, by tables that name no handler: exactly which messages are sent, with their contents and order; how each of the four counters moves; which timers are started and stopped; which context comes or goes; and what every field of the context is afterwards, everything else of it being as before. |
| StepLawProofs.StepDiesIff | src/mme_app/mme_app_main.c:61-285 | A step ends the process if and only if it is a downlink message for an unknown UE, a new UE whose eNB key or number is taken, or an operation on bearer tables that dereferences NULL or fails an assertion. |
| RunLaws.RunObeys | src/mme_app/mme_app_main.c:61-285 | Every step of every run obeys these tables and leaves all contexts but its own alone. |
| RunLaws.RunRegisteredIff | src/mme_app/mme_app_context.c:1239-1267 | In every state of every run a context is registered if and only if NAS has reported so and since then has neither reported the opposite nor has the context been removed. |
| RunLaws.RunEmmState | src/mme_app/mme_app_context.c:1252-1265 | Whatever EMM state NAS reports for a live UE is its state afterwards; nothing else of it and no other context changes; the attached counter moves by one with the change, not below 0, and not at all without one. |
| RunLaws.RunImplicitDetach | src/mme_app/mme_app_bearer.c:936-969 | The chain of the two idle timers along every run: the expiry of the first starts and records the second, and if nothing is done about the UE until the notice of that, it sends exactly one implicit-detach indication for the UE, the only one since the first expiry. |
| RunLaws.RunSessionTunnels | src/mme_app/mme_app_bearer.c:518-559 | Along every run: after an accepted create-session response that names no EBI twice, the next connection establishment, with nothing done about the UE in between, gives the eNB for every bearer of the response the S1-U TEID and the QoS the gateway has named for it. |
| RunLaws.RunSessionGateway | src/mme_app/mme_app_bearer.c:538-546 | Along every run: from then on, as long as nothing is done about the UE, the PDN connection of the first bearer has the S11 TEID of the gateway. |
| RunLaws.RunReleaseTarget | src/mme_app/mme_app_context.c:1284-1300 | A release request is about the context it names, if that is live, and otherwise about the one registered under its eNB and eNB UE identity. |
| Runs.WatchFrom | src/mme_app/mme_app_main.c:61-285 | A watched fact (exact counter, owner of a TEID, removed contexts, idle removals) that holds at one state of a run holds at every later one, as long as the steps in between respect it. |
| Runs.RunInv | src/mme_app/mme_app_main.c:61-285 | Every state of every run satisfies the invariant. |
| Confluence.EitherOrderRemoves | src/mme_app/mme_app_bearer.c:403-460 | For an unregistered UE with a live TEID, its identities cleared or not, delete-session response and release-complete in either order end with the context gone, the entries of its keys gone from the four indexes, the same counters and every other context as it was; the same timers are left running if and only if the UE was not idle with a running reachability timer. |
| Confluence.EitherOrderUnreachable | src/mme_app/mme_app_context.c:1188-1236 | In both orders no valid TEID or eNB key leads to the context afterwards, and no valid IMSI or GUTI if and only if no stale entry led to it before. |
| RunTheorems.RunEitherOrderUnreachable | src/mme_app/mme_app_context.c:600-655 | The same race met in any state of any run: afterwards no valid IMSI or GUTI leads to the context if and only if none was taken from it before by NAS and left unclaimed since. |
| RunTheorems.RunEitherOrderNoGuti | src/mme_app/mme_app_context.c:600-655 | After the same race, in a run in which all GUTIs were given out well and none was cleared so far, no valid GUTI leads to the context. |
| StepFrames.StepTouchesOnlyTarget | src/mme_app/mme_app_main.c:61-285 | Every step changes, adds or removes at most the context it names or its key leads to; it takes no bearer from that context, and changes the create-bearer procedures only if it is about them. |
| Confluence.DeleteThenReleaseEnds | src/mme_app/mme_app_bearer.c:403-460 | The state after response and then release, in full: the state before without the context and without its timers. |
| Confluence.ReleaseThenDeleteEnds | src/mme_app/mme_app_context.c:1188-1236 | The state after release and then response, in full, with the timers that are left. |
| ExampleRuns.LostTimerExample | src/mme_app/mme_app_context.c:926-934 | A run of six messages to an idle UE with a session whose reachability timer keeps running after the context is gone when the release comes first, and does not when the response does. |
| Registry.LookupsAreSearches | src/mme_app/mme_app_context.c:214-299 | When every context is found under its keys, the lookups by identifier, TEID and eNB key are searches, also the eNB lookup, which ignores the result of the table access; that by IMSI is if and only if no stale entry leads to a live context, that by GUTI if and only if it leads to exactly the contexts that have it. |
| Registry.IndexedIffNoneStale | src/mme_app/mme_app_context.c:363-466 | An index agrees with the contexts if and only if every context is found under its key and no entry is stale. |
| Registry.Rekey | src/mme_app/mme_app_context.c:412-420 | Replacing the entry of a context keeps everybody findable, and an index in agreement, if and only if no other context has the new key. |
| Registry.CollKeysKeepsIndexIffFresh | src/mme_app/mme_app_context.c:363-466 | Giving a context new keys keeps all contexts findable by IMSI, TEID and eNB key if and only if none of these belongs to another context, findable by GUTI if and only if a GUTI that differs in more than the MNC does not, and all four indexes in agreement if and only if both. |
| Registry.RemoveKeepsIndex | src/mme_app/mme_app_context.c:600-655 | Removing a context keeps all others findable, and all indexes in agreement if they were. |
| Registry.InsertKeepsIndex | src/mme_app/mme_app_context.c:496-585 | Registering a context whose eNB key and identifier are free keeps all contexts findable, and all indexes in agreement if they were. |
| Registry.DeadIsUnreachable | src/mme_app/mme_app_context.c:600-655 | No valid TEID or eNB key leads to an identifier that has no live context. |
| HandlerProofs.SetValidImsiKeepsIndexIff | src/nas/emm/emm_data_ctx.c:160-171 | When NAS sets an IMSI all contexts stay findable if and only if no other one has it; the indexes stay in agreement if and only if, besides, it replaces no other IMSI: the field is written before the registry is told. |
| HandlerProofs.ClearIdentitiesKeepsIndexIff | src/nas/emm/Detach.c:128-130 | When NAS clears the identities of a context all contexts stay findable; the indexes stay in agreement if and only if there was nothing to clear. |
| EnbKey.PackUnpacks | src/common/common_types.h:59-60 | The 64-bit eNB key of 24-bit identities is the eNB identity times 2^24 plus the eNB UE identity, gives both halves back and is never the invalid key. |
| EnbKey.PackInjective | src/common/common_types.h:59-60 | Two pairs have the same key if and only if they are the same pair. |
| Invariant.SigIdleKeeps | src/mme_app/mme_app_context.c:907-944 | Going idle keeps the invariant: indexes, counters, timers, tables and history. |
| Invariant.SigConnectedKeeps | src/mme_app/mme_app_context.c:945-970 | Becoming connected keeps the invariant. |
| Invariant.RemoveKeeps | src/mme_app/mme_app_context.c:600-655 | Removing a context without tunnel keeps the invariant when the connection is counted as gone, or the UE was idle. |
| Invariant.InsertKeeps | src/mme_app/mme_app_context.c:496-585 | A new context keeps the invariant. |
| Invariant.CollKeysKeeps | src/mme_app/mme_app_context.c:363-466 | New unowned keys keep the invariant. |
| HandlerProofs.InitialUeKeeps | src/mme_app/mme_app_bearer.c:215-343 | An initial UE message keeps the whole invariant of the MME. |
| HandlerProofs.SetValidImsiKeeps | src/nas/emm/emm_data_ctx.c:160-171 | An IMSI that no other UE has, replacing another one or not, keeps the whole invariant of the MME. |
| HandlerProofs.ClearIdentitiesKeeps | src/nas/emm/Detach.c:90-135 | The clearing of IMSI and GUTI by NAS keeps the whole invariant of the MME. |
| HandlerProofs.NewGutiKeeps | src/nas/emm/Attach.c:1341-1351 | A new GUTI, whoever has it, keeps the whole invariant of the MME. |
| HandlerProofs.EmmStateKeeps | src/mme_app/mme_app_context.c:1239-1267 | A change of the EMM state keeps the whole invariant of the MME. |
| HandlerProofs.PdnConnectivityKeeps | src/mme_app/mme_app_itti_messaging.c:105-257 | A create-session request, which gives out the TEID, keeps the whole invariant of the MME. |
| HandlerProofs.CreateSessionRspKeeps | src/mme_app/mme_app_bearer.c:465-613 | A create-session response keeps the whole invariant of the MME. |
| HandlerProofs.DeleteSessionRspKeeps | src/mme_app/mme_app_bearer.c:403-460 | A delete-session response keeps the whole invariant of the MME. |
| HandlerProofs.ReleaseAccessBearersRspKeeps | src/mme_app/mme_app_bearer.c:701-730 | A release-access-bearers response keeps the whole invariant of the MME. |
| HandlerProofs.CreateBearerReqKeeps | src/mme_app/mme_app_bearer.c:733-815 | A create-bearer request keeps the whole invariant of the MME. |
| HandlerProofs.DedicatedAnswerKeeps | src/mme_app/mme_app_bearer.c:1127-1190 | The answer of NAS about a dedicated bearer keeps the whole invariant of the MME. |
| HandlerProofs.ErabSetupRspKeeps | src/mme_app/mme_app_bearer.c:818-932 | An E-RAB setup response keeps the whole invariant of the MME. |
| HandlerProofs.ConnEstCnfKeeps | src/mme_app/mme_app_bearer.c:106-212 | A connection establishment keeps the whole invariant of the MME. |
| HandlerProofs.NasDownlinkReqKeeps | src/mme_app/mme_app_transport.c:53-103 | A downlink NAS message keeps the whole invariant of the MME. |
| HandlerProofs.ContextSetupFailureKeeps | src/mme_app/mme_app_bearer.c:1004-1046 | An initial-context-setup failure keeps the whole invariant of the MME. |
| HandlerProofs.ReleaseReqKeeps | src/mme_app/mme_app_context.c:1272-1344 | A release request keeps the whole invariant of the MME. |
| HandlerProofs.ReleaseCompleteKeeps | src/mme_app/mme_app_context.c:1188-1236 | A release-complete message keeps the whole invariant of the MME. |
| HandlerProofs.DetachReqKeeps | src/mme_app/mme_app_detach.c:91-136 | A detach request keeps the whole invariant of the MME. |
| HandlerProofs.TimerExpiredKeeps | src/mme_app/mme_app_main.c:245-272 | The expiry of a timer keeps the whole invariant of the MME. |
| HandlerProofs.LocationAnsKeeps | src/mme_app/mme_app_location.c:171-174 | The arrival of the subscription keeps the whole invariant of the MME. |
| Bearers.FreeEbi | src/mme_app/mme_app_bearer_context.c:164-172 | The free identity is the least EBI whose slot is empty, or unassigned if and only if every slot is taken. |
| BearerProofs.SlotListedOnce | src/mme_app/mme_app_bearer_context.c:141-162 | With cross-linked tables a slot holds a bearer if and only if some PDN connection lists it, and never two. |
| BearerProofs.CreateBearerEffect | src/mme_app/mme_app_bearer_context.c:82-101 | A bearer is taken if and only if its slot is free and its PDN connection exists; then it stands under its EBI, linked to that connection, with every other slot as before; a refused one changes neither table. |
| BearerProofs.AddBearerKeeps | src/mme_app/mme_app_bearer_context.c:141-162 | Adding a bearer keeps the tables cross-linked. |
| BearerProofs.NasCreateEffect | src/nas/esm/esm_ebr_context.c:105-223 | A bearer NAS asks for is taken if and only if its slot is free or holds an inactive bearer; only then are its QCI and, for a default bearer, the default EBI of the PDN connection written; a refused one changes nothing, and no other slot or default EBI ever changes. |
| BearerProofs.NasCreateBearerKeeps | src/nas/esm/esm_ebr_context.c:105-223 | It keeps the tables cross-linked and the bearer states in order. |
| BearerEffects.CreatePdnEffect | src/mme_app/mme_app_pdn_context.c:75-126 | A new PDN connection stands in its place with the identifier and priority of the subscription and without bearers, tunnel and default bearer, if the place was free and the subscription has it; nothing else changes. |
| BearerEffects.EsmStatusEffect | src/nas/esm/esm_ebr.c:535-580 | The status of one bearer is written and nothing else of any slot changes. |
| BearerEffects.S1ReleaseEffect | src/mme_app/mme_app_bearer_context.c:175-182 | One bearer loses its state and its tunnel to the eNB, and nothing else of any slot changes. |
| BearerEffects.StartSessionEffect | src/mme_app/mme_app_itti_messaging.c:105-257 | A session is asked for if and only if the PDN connection and its default bearer exist; then the MME side of exactly that bearer is up and exactly that connection has no gateway TEID. |
| BearerEffects.SessionsEffect | src/mme_app/mme_app_bearer.c:518-559 | A create-session response gives each bearer it names the S1-U TEID named with it and its QoS, if there is one, or leaves the old; the PDN connection of the first bearer gets the S11 TEID of the gateway; every other slot, connection and field stays. |
| BearerEffects.SessionsTakenIff | src/mme_app/mme_app_bearer.c:518-559 | The response is taken, and does not end the process, if and only if every bearer it names exists, was accepted, has an S1-U tunnel and an EBI below 11. |
| BearerEffects.RequestsEffect | src/mme_app/mme_app_bearer.c:767-812 | A create-bearer request fills exactly the free slots of the EBIs given, each with the QoS and the S1-U TEID of the first request for it, both gateway and MME side up, inactive for NAS and without eNB tunnel; no bearer that was there changes. |
| BearerEffects.AnswerEffect | src/mme_app/mme_app_bearer.c:1127-1190 | An answer of NAS, also the last one, which sends the response, changes no bearer and no PDN connection. |
| BearerEffects.DeleteProcEffect | src/mme_app/mme_app_procedures.c:104-117 | Exactly the newest procedure goes, the others keep their order, and no bearer and no PDN connection changes. |
| BearerEffects.OneTaken | src/mme_app/mme_app_bearer.c:832-878 | When the operations on one bearer are carried out at all and do not end the process. |
| CreateBearerResponses.ErabSetupEffect | src/mme_app/mme_app_bearer.c:832-919 | What an E-RAB setup response leaves in every slot: the TEID of the eNB is that of the last entry about a bearer of the gateway, the state is that of both lists and, if the gateway was answered, none for every bearer that was set up; no other field changes. |
| BearerProofs.CreatePdnKeeps | src/mme_app/mme_app_pdn_context.c:75-126 | A new PDN connection keeps the tables cross-linked. |
| BearerProofs.ErabSetupRspKeeps | src/mme_app/mme_app_bearer.c:832-919 | An E-RAB setup response, failed list and response half included, keeps the tables cross-linked and the bearer states in order. |
| BearerProofs.SessionsCreatedKeeps | src/mme_app/mme_app_bearer.c:518-559 | The bearers of a create-session response keep the tables cross-linked and the bearer states in order. |
| BearerProofs.ErabsExact | src/mme_app/mme_app_bearer.c:137-162 | The E-RAB list holds exactly the bearers the gateway has created, each once, in strictly increasing EBI order. |
| CreateBearerFanIn.FanOut | src/mme_app/mme_app_bearer.c:767-812 | After a create-bearer request the procedure announces one bearer per request and marks exactly the EBIs given, each slot holding a bearer; outstanding answers equal the number announced if and only if no EBI was given twice. |
| CreateBearerFanIn.ExplicitEbis | src/mme_app/mme_app_bearer_context.c:82-101 | When every request names an EBI in range, those are the EBIs given. |
| CreateBearerFanIn.UnnamedDistinct | src/mme_app/mme_app_bearer_context.c:164-172 | Requests that name no EBI are given different ones. |
| CreateBearerFanIn.DistinctIffNamedFresh | src/mme_app/mme_app_bearer_context.c:82-101 | For any mix of both, the EBIs given are distinct if and only if no EBI that a request names was given to an earlier one. |
| CreateBearerFanIn.FanIn | src/mme_app/mme_app_bearer.c:1143-1153 | For every order of answers, at most one per outstanding bearer, the received count equals the number of decided bearers at every point; the response is sent when as many have come as were announced and at no other point, with none pending and all bearers counted; older procedures stay. |
| CreateBearerFanIn.RequestAnsweredOnceIffDistinct | src/mme_app/mme_app_procedures.c:127-180 | From request to last answer: if the EBIs given are distinct, exactly one response goes out, with the transaction of the request and as many bearers as it asked for, and the procedure is gone; if two are the same, nothing is ever sent and the procedure stays open. |
| CreateBearerRuns.RunRequestAnsweredOnce | src/mme_app/mme_app_bearer.c:733-932 | The same inside every run, whatever other messages come between request, answers and response, as long as the context stays, its S1 connection does not end and no other request reaches it: the answers send nothing until as many have come as bearers were requested, and that one sends one response with the transaction of the request. All other create-bearer responses about the context carry no transaction and are one for each E-RAB setup response that is due. Once all outstanding bearers are answered, exactly one response has been sent, and it answers the request, if and only if the EBIs given were distinct and no E-RAB setup response was due. While the context keeps its tunnel, these are exactly the create-bearer responses sent on that tunnel. |
| ExampleRuns.TwoResponsesExample | src/mme_app/mme_app_bearer.c:869-932 | A run in which one create-bearer request is answered twice on its tunnel, first by NAS with its transaction, then by an E-RAB setup response without one. |
| CreateBearerResponses.OnlyAnswersAndErabsRespond | src/mme_app/mme_app_bearer.c:881-924 | Of all 27 kinds of step two send create-bearer responses, at most one each, on the tunnel of the context they are about: an answer of NAS, with the transaction of the newest procedure, and an E-RAB setup response, without one, if and only if it is due. |
| CreateBearerResponses.ErabRespondsIffDue | src/mme_app/mme_app_bearer.c:832-878 | An E-RAB setup response sends one if and only if, in the tables before it, an entry that was set up has a bearer the gateway created and NAS has active, or an entry that failed has a bearer the gateway created. |
| CreateBearerResponses.ErabResponseRejects | src/mme_app/mme_app_bearer.c:889-919 | What it sends never accepts a bearer: it names none, with cause 0, or calls the one it names rejected, with a cause of partial acceptance or rejection; every bearer that was set up loses its state. |
| CreateBearerResponses.ResetExact | src/mme_app/mme_app_bearer.c:906-919 | The second pass over the list of set-up bearers takes the state from exactly those that are up at the MME, repeated entries or not. |
| CreateBearerResponses.RunTunnel | src/mme_app/mme_app_bearer.c:881-924 | Along every run, while a context keeps its tunnel, the create-bearer responses on the tunnel are exactly those sent about that context, in order; no other context answers on it. |
| CreateBearerRuns.RunProcAfter | src/mme_app/mme_app_bearer.c:1127-1190 | At every state in between, the procedure is exactly what the answers so far make of it, and every bearer it marked is still there. |
| CreateBearerResponses.FirstPassIs | src/mme_app/mme_app_bearer.c:889-904 | The first pass of the response half leaves an empty response, or an acceptance with the EBI and the tunnel endpoints of the last bearer whose radio side is up. |
| CreateBearerResponses.SecondPassKeeps | src/mme_app/mme_app_bearer.c:906-919 | The second pass keeps the tunnel endpoints of the first and names a bearer of the list that is up at the MME. |
| CreateBearerResponses.SecondPassCause | src/mme_app/mme_app_bearer.c:910-914 | One bearer in the second pass turns an acceptance into a partial one, a second one into a rejection. |
| CreateBearerFanIn.ResponseTells | src/mme_app/mme_app_procedures.c:136-169 | The bearer a response describes is called accepted if and only if the answer of NAS about it was a success, and has the tunnel endpoints of that bearer. |
| CreateBearerFanIn.CauseRightIffNoneFailed | src/mme_app/mme_app_procedures.c:170-176 | The cause is that of section 7.2.4 of 3GPP TS 29.274 if and only if no bearer failed: rejected bearers are never counted. |
| CreateBearerFanIn.DescribesAllIffSingle | src/mme_app/mme_app_procedures.c:136-169 | The response describes all the bearers it announces if and only if it announces one: the place it fills never moves on. It goes to the gateway of the bearer described, the decided one with the highest EBI. |
| UeContexts.UeContext.FreeBearerId | src/mme_app/mme_app_bearer_context.c:164-172 | The search loop returns the least free EBI. |
| UeContexts.UeContext.CreatePdnContext | src/mme_app/mme_app_pdn_context.c:75-126 | In place, with the loop over the bearer indexes: the table of PDN connections as specified, nothing else changed. |
| UeContexts.UeContext.AddBearerContext | src/mme_app/mme_app_bearer_context.c:141-162 | Object against function: afterwards both tables of the object are those of Bearers.AddBearer applied to the tables before; a refused bearer changes nothing. |
| UeContexts.UeContext.CreateBearerContext | src/mme_app/mme_app_bearer_context.c:82-101 | Object against function: the EBI named or the least free one is used, and the tables become those of Bearers.CreateBearer. |
| UeContexts.UeContext.NasCreateBearer | src/nas/esm/esm_ebr_context.c:105-223 | Object against function: the tables become those of Bearers.NasCreateBearer, and it fails exactly where that is None: no such PDN connection or slot. |
| UeContexts.UeContext.SessionsCreated | src/mme_app/mme_app_bearer.c:518-559 | The loop over the bearers of a create-session response leaves the tables of Bearers.SessionsCreated, and fails exactly where that is None. |
| UeContexts.UeContext.CollectErabs | src/mme_app/mme_app_bearer.c:137-162 | The loop that fills the E-RAB list yields the specified list. |
| UeContexts.UeContext.ErabSetupRsp | src/mme_app/mme_app_bearer.c:832-919 | The four loops leave the tables of Bearers.ErabSetupRsp, fail exactly where that is None, and make its create-bearer response, if there is one. |
| UeContexts.UeContext.RequestBearers | src/mme_app/mme_app_bearer.c:767-812 | The loop leaves the tables of Bearers.RequestBearers, fails exactly where that is None, and collects the requests to NAS in order. |
| UeContexts.UeContext.SendResponse | src/mme_app/mme_app_procedures.c:127-180 | The loop over the bearer statuses yields the specified response. |
| UeContexts.UeContext.Answer | src/mme_app/mme_app_bearer.c:1127-1190 | The object becomes that of Bearers.Answer: the newest procedure counts the answer, and is answered and ended by the last one. |
| UeContexts.UeContext.DeleteSessionReqs | src/mme_app/mme_app_detach.c:129-134 | One delete-session request per PDN connection, in order. |
| MmeTask.MmeApp.CollKeys | src/mme_app/mme_app_context.c:363-466 | Object against function: four tables and the fields of the context are updated one by one; the object then stands for Registry.CollKeys of the state before. |
| MmeTask.MmeApp.Remove | src/mme_app/mme_app_context.c:600-655 | The object then stands for Registry.Remove of the state before: entries of its keys and the context gone, its timers stopped. |
| MmeTask.MmeApp.Insert | src/mme_app/mme_app_context.c:496-585 | In place: fails exactly when the eNB key or the identifier is taken or the identifier is 0. |
| MmeTask.MmeApp.SigIdle | src/mme_app/mme_app_context.c:907-944 | Stands for Handlers.SigIdle: eNB key dropped, timer started if configured, connection uncounted if there was one. |
| MmeTask.MmeApp.SigConnected | src/mme_app/mme_app_context.c:945-970 | Stands for Handlers.SigConnected: idle timers stopped and connection counted, unless connected already. |
| MmeTask.MmeApp.InitialUe | src/mme_app/mme_app_bearer.c:215-343 | Stands for Handlers.InitialUe, and fails exactly where that aborts: a UE its GUTI leads to is re-keyed, any other registered under the next number. |
| MmeTask.MmeApp.NewUeId | src/mme_app/mme_app_ue_context.c:153-158 | The generator counts in 32 bits. |
| MmeTask.MmeApp.SetValidImsi | src/nas/emm/emm_data_ctx.c:160-171 | Stands for Handlers.SetValidImsi: the field is written before the table is asked to replace the old entry. |
| MmeTask.MmeApp.ClearIdentities | src/nas/emm/Detach.c:90-135 | Stands for Handlers.ClearIdentities: IMSI and GUTI of the context are cleared and no table is told. |
| MmeTask.MmeApp.NewGuti | src/nas/emm/Attach.c:1348-1350 | Stands for Handlers.NewGuti: the old GUTI leaves the table and the new one enters, unless they differ in the MNC only; the field is written in any case. |
| MmeTask.MmeApp.EmmState | src/mme_app/mme_app_context.c:1239-1267 | Stands for Handlers.EmmState: the attached counter follows the two transitions and nothing else. |
| MmeTask.MmeApp.PdnConnectivity | src/mme_app/mme_app_itti_messaging.c:105-257 | Stands for Handlers.PdnConnectivity, and fails exactly where that aborts: bearer state bit, re-keying with the new TEID, one request to the gateway. |
| MmeTask.MmeApp.CreateSessionRsp | src/mme_app/mme_app_bearer.c:465-613 | Stands for Handlers.CreateSessionRsp, and fails exactly where that aborts: a rejection is passed to NAS, an acceptance fills the bearers and counts them. |
| MmeTask.MmeApp.DeleteSessionRsp | src/mme_app/mme_app_bearer.c:403-460 | Stands for Handlers.DeleteSessionRsp: the tunnel goes; an idle UE is removed, a connected one told to be released. |
| MmeTask.MmeApp.ReleaseAccessBearersRsp | src/mme_app/mme_app_bearer.c:701-730 | Stands for Handlers.ReleaseAccessBearersRsp: one bearer uncounted, one release command sent, and the UE idle at once after an SCTP reset. |
| MmeTask.MmeApp.CreateBearerReq | src/mme_app/mme_app_bearer.c:733-815 | Stands for Handlers.CreateBearerReq, and fails exactly where that aborts: a procedure opened and one request to NAS per bearer. |
| MmeTask.MmeApp.DedicatedAnswer | src/mme_app/mme_app_bearer.c:1127-1190 | Stands for Handlers.DedicatedAnswer, and fails exactly where that aborts: the answer is counted, the last one sends the S11 response. |
| MmeTask.MmeApp.ErabSetupRsp | src/mme_app/mme_app_bearer.c:818-932 | Stands for Handlers.ErabSetupRsp, and fails exactly where that aborts: tables through both lists, and the create-bearer response if one is due, with its contents and without a transaction. |
| MmeTask.MmeApp.ConnEstCnf | src/mme_app/mme_app_bearer.c:106-212 | Stands for Handlers.ConnEstCnf: E-RAB list sent, connection counted, guard timer started. |
| MmeTask.MmeApp.NasDownlinkReq | src/mme_app/mme_app_transport.c:53-103 | Stands for Handlers.NasDownlinkReq, and fails exactly on an unknown UE: message sent, connection counted, release command after a failure. |
| MmeTask.MmeApp.ContextSetupRsp | src/mme_app/mme_app_bearer.c:618-640 | Stands for Handlers.ContextSetupRsp: the guard timer stops. |
| MmeTask.MmeApp.ContextSetupFailure | src/mme_app/mme_app_bearer.c:1004-1046 | Stands for Handlers.ContextSetupFailure: the guard timer stops, and the UE is detached or its bearers are released. |
| MmeTask.MmeApp.ReleaseReq | src/mme_app/mme_app_context.c:1272-1344 | Stands for Handlers.ReleaseReq: the context is found by identifier or by eNB key, and the four branches by state, cause and guard timer are followed. |
| MmeTask.MmeApp.ReleaseComplete | src/mme_app/mme_app_context.c:1188-1236 | Stands for Handlers.ReleaseComplete: the newest procedure goes; then the context does, or its sessions are deleted, or it becomes idle. |
| MmeTask.MmeApp.DetachReq | src/mme_app/mme_app_detach.c:91-136 | Stands for Handlers.DetachReq: with a session the gateway is asked first; without one an idle UE goes and a connected one is told to be released. |
| MmeTask.MmeApp.TimerExpired | src/mme_app/mme_app_main.c:245-272 | Stands for Handlers.TimerExpired: the number decides which of three timers it was. |
| MmeTask.MmeApp.LocationAns | src/mme_app/mme_app_location.c:171-174 | Stands for Handlers.LocationAns: both idle timer numbers are reset in the context the IMSI leads to. |
| MmeTask.MmeApp.ModifyBearerRsp | src/mme_app/mme_app_main.c:160-177 | Stands for Handlers.ModifyBearerRsp: one more S1-U bearer if and only if the TEID is known. |
| MmeTaskRuns.Handle | src/mme_app/mme_app_main.c:61-285 | One round of the message loop: for every message the objects end in exactly the state the step of the run gives, so all theorems about runs hold of the objects; the invariant holds before and after. |
| ServedTai.TaiList.Sort | src/mme_app/mme_config.c:507-542 | The do/while bubble sort over three parallel arrays terminates, leaves the triples lexicographically sorted and permutes them. |
| ServedTai.TaiList.Pass | src/mme_app/mme_config.c:510-540 | One pass over the first n entries leaves everything from the place of the last swap on in its final place, and that place is before n. |
| ServedTai.TaiList.Swap | src/mme_app/mme_config.c:524-539 | Two neighbours change places in all three arrays. |
| ServedTai.TaiList.Classify | src/mme_app/mme_config.c:543-558 | The list type is MANY_PLMNS if and only if the PLMNs differ, CONSECUTIVE if and only if there is one PLMN and tac[i] = tac[0] + i, NON_CONSECUTIVE otherwise; the second PLMN test is dead code. |
| ServedTai.TaiList.Prepare | src/mme_app/mme_config.c:507-558 | Sort and classification together. |
| ServedTai.SortedUnique | src/mme_app/mme_config.c:507-542 | Two sorted lists with the same entries are the same list. |
| ServedTai.SortedIffRanksRise | src/mme_app/mme_config.c:514-523 | A list is sorted if and only if MCC, MNC and TAC, read as one 48-bit number, never fall from one entry to the next. |
| ServedTai.PlmnsStandTogether | src/mme_app/mme_config.c:514-523 | In a sorted list the entries of one PLMN stand together and their tracking area codes rise. |
| ServedTai.ArrangementIrrelevant | src/mme_app/mme_config.c:507-558 | The order in which the entries are configured changes neither the sorted list nor the list type. |
| ServedTai.TaiList.FindMncLength | src/mme_app/mme_config.c:68-100 | The search loop returns the MNC length of the first entry that has the PLMN, 0 if none, and ends the process on bad digits. |
| ServedTai.FirstMatchDecides | src/mme_app/mme_config.c:86-97 | The answer is the configured length of the first entry that has the MCC and, read with as many digits as its own length says, the MNC; it is 0 if and only if there is none. |
| ServedTai.NumberOfDigits | src/mme_app/mme_config.c:76-78 | Three decimal digits give the number they spell; the 16-bit conversion loses nothing. |
| ServedTai.LengthsLeftBehind | src/mme_app/mme_config.c:524-539 | The sort leaves the MNC lengths where they are: a concrete configuration in which an answer changes. |
| ServedTai.SortKeepsUniformLengths | src/mme_app/mme_config.c:68-100 | With one MNC length for all entries the sort changes no answer. |
| ServedTai.LengthsStayIff | src/mme_app/mme_config.c:524-539 | For one configuration without repeated entries: every entry keeps its MNC length through the sort if and only if the length configured with it equals the one configured at the place it will get, which is the number of entries below it. |
| ServedTai.SortSafeIffUniform | src/mme_app/mme_config.c:524-539 | The sort changes no answer of the search, whatever is configured, if and only if all MNC lengths are the same. |
| AccessPointName.RoundTrip | src/common/3gpp_24.008_sm_ies.c:59-161 | For every name up to 253 octets without NUL, whatever the dots, decoding the labels gives the name and takes exactly the octets produced, whatever follows; the empty name decodes to none and leaves its empty label unread. |
| AccessPointName.RoundTripIff | src/common/3gpp_24.008_sm_ies.c:59-161 | A name comes back as it was, from exactly its octets, if and only if it is not empty and has no NUL. |
| AccessPointName.NeverWraps | src/common/3gpp_24.008_sm_ies.c:87-91 | The decoder's 8-bit remaining length never wraps on an encoded name. |
| ElementLayouts.AccessPointNameLayout | src/common/3gpp_24.008_sm_ies.c:107-161 | Octet by octet: identifier 0x28, length, and the name with every dot replaced by the length of the label behind it. |
| ElementLayouts.FirstLabelLayout | src/common/3gpp_24.008_sm_ies.c:134-149 | The first octet of the name is the length of the first label. |
| ElementLayouts.AnyLabelsRead | src/common/3gpp_24.008_sm_ies.c:84-104 | Any labels, with dots in them or without, are decoded into their join with dots, from exactly their octets. |
| ElementLayouts.Refusals | src/common/3gpp_24.008_sm_ies.c:59-82 | A buffer that is too short is refused with -12 by every decoder, another identifier with -2, and a length that goes beyond the buffer with -12. |
| AccessPointName.CollectLabels | src/common/3gpp_24.008_sm_ies.c:134-149 | The loop with back-patched lengths leaves exactly the labels of the name in the array. |
| AccessPointName.Encode | src/common/3gpp_24.008_sm_ies.c:107-161 | In place: the element, or BUFFER_TOO_SHORT exactly when it does not fit. |
| AccessPointName.DecodeIe | src/common/3gpp_24.008_sm_ies.c:59-104 | The cursor loop computes the specified answer, for every buffer. |
| ProtocolConfigurationOptions.RoundTripIff | src/common/3gpp_24.008_sm_ies.c:212-256 | With up to 8 containers, decoding gives the value back from exactly its octets if and only if the configuration protocol is 0, lengths match contents and fewer than three octets follow. |
| ProtocolConfigurationOptions.IeRoundTripIff | src/common/3gpp_24.008_sm_ies.c:259-341 | The same of the whole element, with and without its identifier. |
| ElementLayouts.PcoLayout | src/common/3gpp_24.008_sm_ies.c:287-341 | Octet by octet: identifier 0x27, length, 0x80 plus the configuration protocol, and the containers, each with two octets of identifier, one of length and its contents. |
| ElementLayouts.PcoFirstOctet | src/common/3gpp_24.008_sm_ies.c:212-256 | On any first octet before containers that match: from 0x80 to 0x87 the protocol is what is left without the lowest bit, every other octet is refused with -4. |
| ProtocolConfigurationOptions.LengthOctet | src/common/3gpp_24.008_sm_ies.c:339-340 | The length octet is right if and only if the body fits one octet. |
| ProtocolConfigurationOptions.ReadIsCanonical | src/common/3gpp_24.008_sm_ies.c:231-255 | Whatever is decoded has length fields that match contents. |
| ProtocolConfigurationOptions.Encode | src/common/3gpp_24.008_sm_ies.c:287-313 | In place: the body, or BUFFER_TOO_SHORT exactly when some contents do not fit the announced length. |
| ProtocolConfigurationOptions.EncodeIe | src/common/3gpp_24.008_sm_ies.c:317-341 | In place; a failure comes back with the header length added to its code. |
| ProtocolConfigurationOptions.Decode | src/common/3gpp_24.008_sm_ies.c:212-256 | The cursor loop computes the specified answer, for every buffer. |
| PacketFilterRoundTrip.FilterRoundTripIff | src/common/3gpp_24.008_sm_ies.c:582-749 | A filter written into a zeroed buffer is read back from exactly the octets counted if and only if it has no address component and no flow label other than 0. |
| PacketFilterRoundTrip.FilterReads | src/common/3gpp_24.008_sm_ies.c:582-749 | For every filter without address components, in any buffer, every component comes back, the flow label without its low octet, and the decoder stops at the patched length. |
| PacketFilterRoundTrip.FlowLabelExample | src/common/3gpp_24.008_sm_ies.c:1014-1019 | A filter with the flow label 0x12345, written into any buffer, is read as one with the label 0x123. |
| PacketFilterRoundTrip.AddressFails | src/common/3gpp_24.008_sm_ies.c:935-952 | With an address component the decoder stops with UNEXPECTED_IEI: the encoder moves on too far. |
| PacketFilterRoundTrip.LengthFits | src/common/3gpp_24.008_sm_ies.c:1029-1034 | The length of the contents always fits its octet. |
| PacketFilter.ComponentArrives | src/common/3gpp_24.008_sm_ies.c:626-737 | Each of the ten components, read from its counted octets, is what was written; a flow label loses its low octet. |
| PacketFilter.LabelOctets | src/common/common_defs.h:96-124 | Three octets of a 24-bit value written as 32 bits hold the value divided by 256. |
| FilterWire.FilterOnWire | src/common/3gpp_24.008_sm_ies.c:886-1035 | Octet by octet, in any buffer: direction and identifier, precedence, length, and then exactly the components of the filter in increasing order of their tags 0x10 to 0x80, each laid out as in section 10.5.6.12 of 3GPP TS 24.008, the flow label without its low octet and a gap behind an address. |
| FilterWire.WireIsRead | src/common/3gpp_24.008_sm_ies.c:582-749 | Any buffer that holds a filter in that layout, its components in any order, is decoded into exactly that direction, identifier, precedence and these components, from exactly these octets. |
| FilterWire.TagsAreThese | src/common/3gpp_24.008.h:864-873 | The decoder knows these ten tags and no others. |
| FilterWire.FlagsOfComponents | src/common/3gpp_24.008.h:880-889 | Which component belongs to which of the ten flags. |
| ElementLayouts.TftLayout | src/common/3gpp_24.008_sm_ies.c:1074-1135 | Octet by octet: identifier 0x36, length, an octet with operation, E bit and number, and then the identifiers to delete, or the filters one behind the other. |
| ElementLayouts.TftFirstOctet | src/common/3gpp_24.008_sm_ies.c:795-839 | What the decoder takes from the first octet of any template, and which operations carry what. |
| TrafficFlowTemplate.RoundTripIff | src/common/3gpp_24.008_sm_ies.c:787-839 | A template written into a zeroed buffer is read back, from exactly the octets counted, if and only if it carries no filter (any 0 to 15 identifiers of a delete included) or one filter that survives. |
| TrafficFlowTemplate.SecondFilterFails | src/common/3gpp_24.008_sm_ies.c:740-746 | Two or more filters are never decoded: the first must end where the buffer ends. |
| TrafficFlowTemplate.IdentifierNeverMatches | src/common/3gpp_24.008_sm_ies.c:842-867 | Whatever template the encoder writes with its identifier, the decoder refuses the element: the two use different identifiers. |
| TrafficFlowTemplate.IeRoundTripIff | src/common/3gpp_24.008_sm_ies.c:1111-1135 | An element written into a zeroed buffer comes back if and only if it has no identifier and its template is read back. |
| TftCode.EncodeFilter | src/common/3gpp_24.008_sm_ies.c:886-1035 | In place, flag by flag, with the length patched in at the end: the buffer as specified. |
| TftCode.EncodeTft | src/common/3gpp_24.008_sm_ies.c:1074-1107 | In place, with the loop over filters or identifiers: the buffer as specified. |
| TftCode.EncodeIe | src/common/3gpp_24.008_sm_ies.c:1111-1135 | In place, identifier first and length last: the buffer as specified. |
| TftCode.DecodeFilter | src/common/3gpp_24.008_sm_ies.c:582-749 | The tag-driven loop computes the specified answer, for every buffer. |
| TftCode.Decode | src/common/3gpp_24.008_sm_ies.c:787-839 | The loops over filters and identifiers compute the specified answer, for every buffer. |
| PlmnList.RoundTripIff | src/common/3gpp_24.008_common_ies.c:879-951 | A list of up to 15 PLMNs comes back from exactly its octets if and only if nothing follows it and the result structure held no more PLMNs before. |
| ElementLayouts.PlmnListLayout | src/common/3gpp_24.008_common_ies.c:918-951 | Octet by octet: identifier 0x4A, length, and for each PLMN MCC digits 2 and 1, MNC digit 3 and MCC digit 3, MNC digits 2 and 1. |
| PlmnList.Encode | src/common/3gpp_24.008_common_ies.c:918-951 | In place: the element, or BUFFER_TOO_SHORT exactly when it does not fit. |
| PlmnList.DecodeIe | src/common/3gpp_24.008_common_ies.c:879-915 | The cursor loop computes the specified answer, for every buffer. |
| MobileIdentity.RoundTripIff | src/common/3gpp_24.008_common_ies.c:182-279 | Through the type dispatcher, with and without identifier and whatever follows, an identity comes back from exactly its octets if and only if it survives. |
| ElementLayouts.MobileIdentityHead | src/common/3gpp_24.008_common_ies.c:232-279 | Identifier 0x23 and length; a missing identity alone announces three octets whatever it has. |
| ElementLayouts.ImsiLayout | src/common/3gpp_24.008_common_ies.c:579-638 | The octets of an IMSI with all its digits, two to the octet, the earlier one below, with type 1 and the odd bit; an even indication puts 0xF in place of every second digit from 7 on. |
| ElementLayouts.ImsiEnds | src/common/3gpp_24.008_common_ies.c:590-636 | An IMSI ends before the first of the digits 6, 8, 10, 12 and 14 that is missing. |
| ElementLayouts.ImeiLayout | src/common/3gpp_24.008_common_ies.c:641-672 | The octets of an IMEI. |
| ElementLayouts.ImeisvLayout | src/common/3gpp_24.008_common_ies.c:675-708 | The octets of an IMEISV. |
| ElementLayouts.OtherLayouts | src/common/3gpp_24.008_common_ies.c:711-767 | The octets of a TMSI, a TMGI and a missing identity. |
| ElementLayouts.TmgiRead | src/common/3gpp_24.008_common_ies.c:503-544 | What the decoder of a TMGI makes of any nine octets. |
| ElementLayouts.TypesOfIdentity | src/common/3gpp_24.008_common_ies.c:205-232 | Of any element that is decoded the three low bits of its first octet give the kind of identity and the fourth the odd indication. |
| MobileIdentity.ImsiRoundTripIff | src/common/3gpp_24.008_common_ies.c:579-638 | An IMSI survives if and only if digits 6, 8, 10, 12, 14 are present, digit 5 is missing when digit 4 is, and an even indication comes with end marks in every upper half from octet 3 on. |
| MobileIdentity.ImsiByLength | src/common/3gpp_24.008_common_ies.c:282-352 | A 15-digit IMSI with an odd indication survives; one of digits only with an even indication does not. |
| MobileIdentity.ImeiRoundTripIff | src/common/3gpp_24.008_common_ies.c:641-672 | An IMEI survives if and only if an even indication comes with the end mark. |
| MobileIdentity.ImeisvRoundTripIff | src/common/3gpp_24.008_common_ies.c:675-708 | An IMEISV survives if and only if its last half octet is the end mark when even and 0 when odd. |
| MobileIdentity.TmsiRoundTripIff | src/common/3gpp_24.008_common_ies.c:711-730 | A TMSI survives if and only if its filler is 0xF. |
| MobileIdentity.TmgiNeverSurvives | src/common/3gpp_24.008_common_ies.c:503-544 | A TMGI is always refused: the decoder demands nine octets, the encoder writes eight. |
| MobileIdentity.NoneTakesThree | src/common/3gpp_24.008_common_ies.c:756-767 | A missing identity never comes back from its octets: three are announced, one is written. |
| BitString.ToUint8 | src/common/asn1_conversions.h:49-53 | One octet without its unused bits. |
| BitString.ToUint16 | src/common/asn1_conversions.h:60-79 | For one or two octets the big-endian number divided by 2^unused, so it agrees with the 8-bit form. |
| BitString.ToUint32 | src/common/asn1_conversions.h:86-102 | For one to four octets the shift-and-or loop is the big-endian number divided by 2^unused; every shift in the loop is by 1 to 24. |
| BitString.OrOctet | src/common/asn1_conversions.h:94-97 | Oring a shifted octet below what is there appends it to the number. |
| BitString.OrLast | src/common/asn1_conversions.h:99-99 | The last octet enters without its unused bits. |

## Left out

- ITTI queues, sockets, logging and the dump functions; messages sent are kept as a list of values.
- The recursive lock of a UE context; every handler is one atomic step.
- What the S11 task does with a create-bearer response: the run goes on behind the assertion that fails on one without a transaction.
- eNB deregistration and eNB reset: loops over the release request that is modelled, and an acknowledgement.
- The path management, paging, eDNS and APN selection of the MME, and the HSS side of location updates beyond the idle timers.
- NAS, S1AP, S11 and HSS modules: their calls are events of the run. Of what NAS writes into a bearer only the identity, the QCI, the default EBI and the ESM status are kept; its count of active bearers is not.
- Configuration parsing other than the TAI block and the MNC-length search.
- Fixed-width and unfinished codecs (QoS, DRX, classmarks, timers, time zone, linked TI, emergency numbers, network name): they would only add easy members.
- BIT_STRING_to_uint64 and gtpv1u_new_teid: shifts outside what C defines, and a random source.
- Memory: a context is gone when no table holds it; lifetime and freeing are not modelled.
- The modify-bearer request that follows an initial-context-setup response; only its guard timer is modelled.
- MobileIdentity.RoundTripIff: the encoders are modelled on values, without update in place and without their checks of the buffer length.
- MobileIdentity.NoneTakesThree: the digits a decoder finds for a missing identity are not kept.
- TftCode.EncodeIe: like EncodeTft, for a caller that leaves enough room.
- TftCode.EncodeTft: for a caller that leaves enough room; when the announced length is used up at the start of a filter the code adds an error code to the length, which is not modelled.
- TrafficFlowTemplate.RoundTripIff: the other direction is for zeroed buffers; in other buffers the octets an address leaves out are whatever was there. The parameters list, which the code neither writes nor reads, is not kept.
- ProtocolConfigurationOptions.EncodeIe: the caller's buffer must really hold the whole element, since the code writes identifiers and lengths without asking.
- MmeTask.MmeApp.ContextSetupRsp: without the modify-bearer request that follows.
- ProtocolConfigurationOptions.Encode: for a buffer that really holds what the announced length promises.
- UeContexts.UeContext.AddBearerContext: bearers and PDN connections are values in the tables of a context, so pointers to them from elsewhere are not modelled.
- MmeTask.MmeApp.NewGuti: the source finds the context whose entry it replaces by the IMSI of the caller's context, and fails if there is none. For a valid IMSI that is the caller's own context (RunTheorems.RunOwnersAreFound), which is the one modelled; under IMSI 0, which the index may hold, it can be another one or none, and this is not modelled.
- HandlerProofs.NewGutiKeeps: the same.
