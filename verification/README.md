# Dafny model of the MongoDB HA wrapper

A model, in Dafny, of the control plane of the `mongo-wrapper` process that runs beside each
`mongod` of the high-availability template, with proofs about all its inputs, runs and reachable
states. `dafny verify dfyconfig.toml` checks the whole project.

What is modelled, module by module:

- `AuthPins`: the credential pin on the volume and its two writers, boot credentials, boot-time keyfile
  reconciliation, and the resolver that proves a password before it pins it.
- `Rotation`, `Supervisor`: the two-pass keyfile rotation as a distributed protocol of any number of
  members whose requests may be late, and one member's process as an object that refines a member of it.
- `GoneTrackers`, `Prune`, `Formation`: what counts as a departed peer, the prune round, and the
  initiate-or-join protocol of nodes that poll each other.
- `ReplicaConfig`: config edits by concurrent editors, and the majorities they must not separate.
- `RecoveryPolicies`, `ClientPools`: when a pooled client is rebuilt, and concurrent rebuilds and swaps.
- `Revert`: HA and standalone boots of one volume with a crash at any step, and the oplog replay.
- `FeatureCompatibility`: raising the FCV during a rolling upgrade.
- `ReplicationMonitor`: state dwells, thresholds and one alert per incident.
- `DnsProbe`, `Passthrough`, `KernelCompat`: the DNS question, the flag merge, the kernel workaround.
- `Names`, `Text`, `Decimal`, `Bytes`, `Wrappers`: shared vocabulary.

Objects whose methods update fields are classes; each method is proved equal to a step of a function on
values, and the results over whole runs are lemmas about that function. Probe answers, replies, restarts,
clocks and crashes are parameters or steps chosen by the environment.

Assumptions of the protocols, none of which is a precondition on a single call:

- The key derived from a password determines it, and a keyfile is its list of keys.
- Rotation: the coordinator takes the phases of a direction in order. KeyPrepare and KeyCommit may be
  late by as much as the result says; a Database phase is not, and a member that accepts the new password
  has applied the change of the direction under way. A rotation starts from members that are clean and in
  the middle of no request, which is what Preflight and Verify look at. Nothing is assumed about the
  passwords it takes: whether one may come back while requests are arbitrarily late is a parameter of the
  result. The route's own authentication could only refuse more.
- Formation: whether a node holds data is fixed during a run and reported truthfully; everything else a
  peer answers may be stale, wrong or missing.
- Configs: mongod takes a config only if its version is above the one it holds.
- Revert: a clean exit of the recovery mongod checkpoints everything, and it reports a missing oplog
  only when there is none.
- FCV: binaries only move up, an upgrade restarts the member, and membership is fixed.

Where the code and its documentation disagree, the model follows the code (paths below are under
`mongo-wrapper/src/`):

- `auth_pin.rs:56-58` and `standalone_recovery.rs:57-63` say a standalone boot's proof leaves a pin without
  a keyfile, so a revert replays once. The writer keeps the keyfile (`auth_pin.rs:93-95`):
  `Revert.TheLatchDoesNotHold`, with the exact condition in `Revert.ReplaysAgainExactlyWithAPinnedKeyfile`.
- `mongo.rs:38-40` promises a doubling wait until something is proven. A rebuild of the other kind
  resets it: `RecoveryPolicies.ATransportRebuildResetsTheBackoff`.
- `rs.rs:173-175` calls the proof of a gone name uninterrupted. It is uninterrupted over the looks taken,
  which stop while the node is not primary: `GoneTrackers.TwoLooksSuffice`.
- `rs.rs:760-765` says an alert stays quiet while it remains true. A poll that cannot read the oplog ends it:
  `ReplicationMonitor.SentOnceIffAlwaysRead`, with `ReplicationMonitor.AnUnreadPollReportsTwice`.
- A rotation may be compensated, but a key phase answers OK for a loaded target without a look at the pin
  (`credentials.rs:234-252`), so more than two reversals of one rotation can split the set, and fewer if
  requests can be late: `Rotation.SafeExactlyWithinTheLateness`. For the same reason such an OK can come
  while mongod is being started on another keyfile, also after a pin write that came later than the test
  before it: `Supervisor.OkIsHonestExactlyWhenSettled`, `Supervisor.AnOkAfterALatePinWrite`.
- `dns_probe.rs:158-159` bounds the name at 255; its encoding may take 257 octets:
  `DnsProbe.FitsTheWireUpTo253`.

## Model

| member | source | states |
|---|---|---|
| `AuthPins.KeyfileIntentSurvives` | mongo-wrapper/src/auth_pin.rs:80-103 | under every interleaving of the two pin writers, the keyfile of the last coordinated write is the keyfile on the volume |
| `AuthPins.PinnedKeyfileIsNeverReplacedByABootKeyfile` | mongo-wrapper/src/auth_pin.rs:87-103 | with no coordinated write, a pinned keyfile stays whatever boot-time writers offer; a volume without one takes the first offer |
| `AuthPins.Accepted` | mongo-wrapper/src/credentials.rs:376-393 | the keyfile of the first candidate password a live peer accepts, and none exactly if no peer accepts any |
| `AuthPins.ReconcileKeyfileAtBoot` | mongo-wrapper/src/credentials.rs:364-400 | the boot-time loop over the candidate passwords leaves exactly the reconciled pin |
| `AuthPins.ReconciliationOnlyLeavesDisjointKeys` | mongo-wrapper/src/credentials.rs:354-400 | boot reconciliation keeps the password, changes the keyfile exactly when the first accepting live peer runs a disjoint one, and the two overlap afterwards |
| `AuthPins.EnvironmentEditsChangeNothing` | mongo-wrapper/src/auth_pin.rs:168-206 | once a keyfile is pinned, any sequence of HA boots under any environment resolves the same password and keyfile, as long as no peer it proves itself to is disjoint |
| `AuthPins.OverlappingPeersChangeNothing` | mongo-wrapper/src/credentials.rs:394-400 | a pinned keyfile that overlaps every keyfile a peer hands out is left alone by the boot |
| `AuthPins.TheFirstAcceptedPasswordDecides` | mongo-wrapper/src/credentials.rs:364-400 | whose keyfile counts at boot: that handed out for a pending rotation's new password, else its current one, else the environment's, else the pinned one; only one without a common key replaces the pinned keyfile |
| `AuthPins.AnHaBootResolves` | mongo-wrapper/src/auth_pin.rs:168-206 | an HA boot runs with the pinned keyfile, else the live set's, else the environment's; with the pinned password, else the environment's; and is drifted exactly if a pinned value differs from the environment's |
| `AuthPins.AStandaloneBootResolves` | mongo-wrapper/src/auth_pin.rs:179-189 | a standalone boot with a pin runs without a keyfile |
| `AuthPins.Resolver.TakeStaged` | mongo-wrapper/src/auth_pin.rs:263-274 | a staged rotation password replaces the active one exactly if it differs and works, and is then unproven again |
| `AuthPins.Resolver.ProveActive` | mongo-wrapper/src/auth_pin.rs:275-313 | the active password becomes proven exactly on a `Works` answer; a refusal is reported as drift; nothing is written unproven |
| `AuthPins.Resolver.AdoptEnvironment` | mongo-wrapper/src/auth_pin.rs:315-347 | the environment's password is adopted exactly if it differs from the active one and works |
| `AuthPins.Resolver.Round` | mongo-wrapper/src/auth_pin.rs:255-353 | one turn: what becomes active, proven and finished, with no coordinated write and every write after its own proof |
| `AuthPins.Resolver.Run` | mongo-wrapper/src/auth_pin.rs:245-354 | the loop ends only with the environment's password active and accepted; over all turns each password it writes worked earlier, and it never writes a keyfile intent |
| `AuthPins.WhatIsProvenIsPinned` | mongo-wrapper/src/auth_pin.rs:255-353 | over the whole life of a resolver that can write its volume: the pool authenticates with its active password, and once that counts as proven it is the one on the volume |
| `AuthPins.InterleavingIsProven` | mongo-wrapper/src/auth_pin.rs:80-103 | logs in which every swap and write follows a working probe of its password keep that under every interleaving |
| `AuthPins.EveryPinnedPasswordWorked` | mongo-wrapper/src/credentials.rs:202-251 | any number of resolvers, Member phases and key phases, each cut short anywhere and interleaved in any way: every password written to the volume worked in an earlier probe, so the one on it is the initial one or one that worked |
| `Rotation.StepKeepsInvariant` | mongo-wrapper/src/credentials.rs:168-260 | every step of the protocol (database change and its replication, member confirmation, requests of any direction, the test of the target, the pin write after it, the notification, poll, answer, timeout, restart, refused handoff, crash and reboot, password write, commit, reversal, next rotation) keeps the invariant, for any number of members |
| `Rotation.ConfirmedMembersRefuseTheOtherDirection` | mongo-wrapper/src/credentials.rs:223-233 | a member that confirmed this direction's password refuses every request for another one, however late it comes, because its own mongod does |
| `Rotation.BootKeepsThePin` | mongo-wrapper/src/credentials.rs:354-400 | inside a rotation no live peer is disjoint, so a crashed member, whichever peers answer which of its candidate passwords and whatever its environment says, boots with exactly the keyfile it pinned |
| `Rotation.RotationNeverSplitsTheSet` | mongo-wrapper/src/credentials.rs:144-260 | from the state Preflight checks, over every run with lost, late and repeated requests and crashes: as long as a rotation is reversed no more often than the lateness of requests allows, one key is in every loaded and every pinned keyfile and no two members are disjoint |
| `Rotation.CommitOnlyAfterTheNewKeyIsEverywhere` | test/password-rotation-local.py:50-69 | once every KeyPrepare was answered OK and the commit has begun, every member holds the new key |
| `Rotation.ThreeReversalsCanSplitTheSet` | mongo-wrapper/src/credentials.rs:234-252 | with three reversals of one rotation two members can end up with disjoint keyfiles though no request is late: the OK for an already loaded target does not look at the pin |
| `Rotation.ARequestOfTheFirstDirectionSplitsTheSet` | mongo-wrapper/src/credentials.rs:223-252 | with two reversals they can, when a KeyCommit of the rotation's first direction arrives in its third |
| `Rotation.ARequestOfTheLastRotationSplitsTheSet` | mongo-wrapper/src/credentials.rs:223-252 | with one reversal they can, when a KeyCommit of the rotation before arrives in the reversal |
| `Rotation.AReusedPasswordSplitsTheSet` | test/password-rotation-local.py:50-69 | with no reversal at all they can, when a password is rotated to again and a KeyCommit of its first rotation arrives in the second one |
| `Rotation.SafeExactlyWithinTheLateness` | mongo-wrapper/src/credentials.rs:223-260 | over all runs the protocol keeps the set together if and only if a rotation is reversed at most twice when requests die with their direction, at most once when they die with their rotation, and never when they may come at any time; in that last case only if, besides, every rotation takes a password that no request still under way names as new |
| `Supervisor.Node.constructor` | mongo-wrapper/src/main.rs:191-214 | an HA boot runs on one keyfile, on disk, in `LOADED_KEYFILE` and in mongod: the reconciled pin's, else the live set's, else the environment's |
| `Supervisor.Node.BeginPhase` | mongo-wrapper/src/credentials.rs:223-233 | a key phase takes the lock exactly if its own mongod accepts the new password, and logs that probe |
| `Supervisor.Node.CheckTarget` | mongo-wrapper/src/credentials.rs:234-236 | the first test of the loaded keyfile: with the target loaded the phase goes to its wait, otherwise it asks whether the set is ready |
| `Supervisor.Node.IntendTarget` | mongo-wrapper/src/credentials.rs:237-249 | once the set was found ready the phase pins its target, whatever the restart arm did since the test, and otherwise ends |
| `Supervisor.Node.AnnounceTarget` | mongo-wrapper/src/credentials.rs:250 | then it asks the supervisor for a restart |
| `Supervisor.Node.TimeOut` | mongo-wrapper/src/credentials.rs:135 | a phase out of time lets go of the lock, and leaves no pin without its notification |
| `Supervisor.Node.SeeTarget` | mongo-wrapper/src/credentials.rs:252-254 | the first half of a poll: the loaded keyfile is compared with the target |
| `Supervisor.Node.AnswerPhase` | mongo-wrapper/src/credentials.rs:253-259 | the second half: OK exactly after a poll that saw the target, once the set is ready |
| `Supervisor.Node.MemberPhase` | mongo-wrapper/src/credentials.rs:202-219 | a Member phase writes the password it probed, and keeps a pinned keyfile |
| `Supervisor.APhaseLogsItsPin` | mongo-wrapper/src/credentials.rs:223-250 | the log of a key phase, performed on the pin, is what its steps do to the volume |
| `Supervisor.Node.TakeNotification` | mongo-wrapper/src/process_manager.rs:70-72 | a notification starts a restart exactly if the pinned keyfile differs from the loaded one |
| `Supervisor.Node.WriteKeyfile` | mongo-wrapper/src/process_manager.rs:86 | after the handoff the captured keyfile goes to disk, or the process ends |
| `Supervisor.Node.Respawn` | mongo-wrapper/src/process_manager.rs:87-89 | mongod is started on it, or the process ends |
| `Supervisor.Node.SetLoaded` | mongo-wrapper/src/process_manager.rs:90 | and only then is it reported as loaded |
| `Supervisor.Node.Live` | mongo-wrapper/src/process_manager.rs:68-91 | the object under any interleaving of the steps of phases, polls, timeouts, password writes, restart steps and crashes is the process of the lemmas below |
| `Supervisor.EveryEventIsAProtocolStep` | mongo-wrapper/src/process_manager.rs:68-91 | seen from outside every event of a process is a step of the rotation protocol or none |
| `Supervisor.LoadedIsWhatRuns` | mongo-wrapper/src/process_manager.rs:68-91 | over every run since a boot: at every head of the supervise loop disk, mongod and loaded key agree, and otherwise what is reported as loaded is what mongod runs, but for the moment between the start on another keyfile and its report |
| `Supervisor.OkIsHonestExactlyWhenSettled` | mongo-wrapper/src/credentials.rs:234-259 | at any moment before a phase sees its target: its OK can come while mongod runs another keyfile if and only if at that moment the target is loaded while a restart, or a permit for another pin, is outstanding, or the restart into the target is under way and such a permit is already given |
| `Supervisor.WaitingForItIsHonestExactlyWhenSettled` | mongo-wrapper/src/credentials.rs:252-259 | where a phase enters its wait, whichever branch it took, that is: the target is loaded and a restart, or a permit for another pin, is outstanding |
| `Supervisor.PinningAnUnloadedTargetIsHonest` | mongo-wrapper/src/credentials.rs:243-249 | a phase that writes its pin while its target is not loaded never answers OK before mongod runs the target |
| `Supervisor.AnOkWhileAnotherKeyfileStarts` | mongo-wrapper/src/process_manager.rs:86-90 | a concrete run from a boot in which a KeyCommit finds its target loaded, is about to answer OK, and mongod was started on the overlap |
| `Supervisor.AnOkAfterALatePinWrite` | mongo-wrapper/src/credentials.rs:236-251 | a concrete run from a boot in which a KeyPrepare does not find its target loaded, the restart into it ends while the set is asked, and the OK comes with mongod started on the next overlap |
| `Supervisor.EveryRestartHasItsIntent` | mongo-wrapper/src/process_manager.rs:68-91 | over every run of one member, starts of mongod never outnumber the changes of the pinned keyfile and what was owed |
| `Supervisor.RepeatsCauseNoRestart` | mongo-wrapper/src/credentials.rs:223-260 | any number of phases for the keyfile that is pinned and loaded, notifications and timeouts cause no restart |
| `GoneTrackers.GoneTracker.Observe` | mongo-wrapper/src/rs.rs:187-196 | a gone name keeps its first time, any other answer clears it |
| `GoneTrackers.GoneTracker.ObserveReachable` | mongo-wrapper/src/rs.rs:198-201 | an answer from the peer clears its clock |
| `GoneTrackers.ClockIsTheTrailingRun` | mongo-wrapper/src/rs.rs:176-208 | the clock of a host is the start of its trailing run of gone looks, and absent exactly without one |
| `GoneTrackers.WaivedIffGoneForTheDwell` | mongo-wrapper/src/rs.rs:203-207 | a host is waived exactly if its unbroken run of gone looks began at least the dwell ago |
| `GoneTrackers.TwoLooksSuffice` | mongo-wrapper/src/rs.rs:173-175 | the run is one of looks and not of time: two gone looks a dwell apart waive a host |
| `Prune.Pruner.Round` | mongo-wrapper/src/rs.rs:694-750 | a round removes exactly the first member that is due, readable and accepted, at most one, unless an earlier due one found no config to read; due is a member unreachable, its name gone, in every status since one at least the dwell ago; who was last seen healthy has no clock |
| `Prune.WaivedExactlyWhenGoneForTheDwell` | mongo-wrapper/src/rs.rs:704-721 | the clock a round consults is over exactly if every row of the member since one at least the dwell ago was unreachable and its name gone: one healthy row, or one other verdict, starts it over |
| `Prune.APruneRemovesOnlyItsHost` | mongo-wrapper/src/mongo.rs:1166-1175 | the config handed in lacks exactly that host and is not empty |
| `Formation.SeedsRoundTrip` | mongo-wrapper/src/config.rs:193-201 | hosts written into the seed list with any port and padding come back in order |
| `Formation.RankIsPosition` | mongo-wrapper/src/config.rs:216-220 | the rank of a declared host is its position, and no rank is given to another |
| `Formation.JoinPrefersAKnownPrimary` | mongo-wrapper/src/rs.rs:261-276 | a live set anywhere means joining, through the first known primary if any peer knows one |
| `Formation.VerdictMeans` | mongo-wrapper/src/rs.rs:256-294 | each verdict holds exactly when the standings and ranks say so: join, defer to one that outranks, undecidable, safe |
| `Formation.Orchestrator.CollectPeers` | mongo-wrapper/src/rs.rs:488-505 | the peers counted in a round are those heard less those waived, with the tracker updated in place |
| `Formation.Orchestrator.Take` | mongo-wrapper/src/rs.rs:430-621 | one turn of the loop: its outcome and the whole new local state; it joins exactly if some answer comes from a set, through the primary the first of them to know one names, and initiates or holds only when no peer is silent, in a set or ahead |
| `Formation.JoinsTheSetItHears` | mongo-wrapper/src/rs.rs:234-276 | over the answers heard: a turn joins exactly if some answer is from an active set, through the primary named by the first that names one, and without one if none does |
| `Formation.SafeExactlyWhenClear` | mongo-wrapper/src/rs.rs:277-294 | a round is safe exactly if every peer not waived answered without a set, holds no data this node lacks, and, with data alike, is not declared before it |
| `Formation.ATurnByItsAnswers` | mongo-wrapper/src/rs.rs:430-621 | each status and its answers decide the outcome and the dwell clock: any turn that is not clear starts the dwell over |
| `Formation.StableSinceIsTheSafeRun` | mongo-wrapper/src/rs.rs:509-617 | the dwell clock is the start of the current unbroken run of safe turns, among those evaluated |
| `Formation.InitiatesIffSafeThroughTheDwell` | mongo-wrapper/src/rs.rs:552-596 | a turn initiates if and only if every evaluated turn since one at least the dwell ago was safe, this one included |
| `Formation.InitiatorIsAbove` | mongo-wrapper/src/rs.rs:277-294 | an initiator is above every node it did not waive, in the order of data and seed rank |
| `Formation.WaivesExactlyWhenGoneForTheDwell` | mongo-wrapper/src/rs.rs:488-505 | a node stops waiting for a peer exactly if it does not answer and every look at it since one at least the dwell ago, with no restart between, found its name gone |
| `Formation.TwoInitiatorsNeedAWaiver` | mongo-wrapper/src/rs.rs:256-294 | in every asynchronous run with stale and missing answers, two different nodes initiate only if one of them had waived the other |
| `Formation.ALaterInitiatorOutlivesTheEarlier` | mongo-wrapper/src/rs.rs:256-294 | if waived nodes take no step after their waiver, of two different initiators the later one waived the earlier one, which never acts again: no two live beside each other |
| `Formation.InitiatorHoldsData` | mongo-wrapper/src/rs.rs:277-294 | an initiator holds data if any node does that it did not waive |
| `Formation.TheTopNodeInitiatesUnlessWaived` | mongo-wrapper/src/rs.rs:277-294 | a turn that initiates is one of the node above all others if and only if it did not waive that node |
| `Formation.AWrongWaiverMakesTwoSets` | mongo-wrapper/src/rs.rs:203-207 | a concrete run in which a node waived for its dwell was only away: two nodes initiate, and the first is back as a member of its own set |
| `Formation.CompleteVerdictFollowsTheOrder` | mongo-wrapper/src/rs.rs:277-294 | in a complete truthful round a node is safe exactly if it is above all others, and otherwise defers to one above it |
| `Formation.ExactlyOneWinner` | mongo-wrapper/src/rs.rs:277-294 | in a complete truthful round exactly one node is safe to initiate |
| `ReplicaConfig.AddKeepsWellFormed` | mongo-wrapper/src/mongo.rs:1127-1162 | adding an unnamed host keeps hosts and ids distinct, raises the version by one and adds exactly that host |
| `ReplicaConfig.RemoveKeepsWellFormed` | mongo-wrapper/src/mongo.rs:1127-1175 | removing keeps a config well formed, removes exactly that host and is refused exactly when nobody would be left |
| `ReplicaConfig.AddedIsAFreshVoter` | mongo-wrapper/src/mongo.rs:1147-1162 | whatever the members, the added one comes last, with priority 1, one vote and the next free id |
| `ReplicaConfig.EditsAreRefusedExactly` | mongo-wrapper/src/mongo.rs:1127-1175 | of any config, an edit is refused exactly without a version, without members or when nobody would be left, and every member that is not the removed host stays in order |
| `ReplicaConfig.RemoveUndoesAdd` | mongo-wrapper/src/mongo.rs:1147-1175 | removing an added host gives back the members it was added to |
| `ReplicaConfig.ARemovedIdMayComeBack` | mongo-wrapper/src/mongo.rs:1149-1154 | the largest id is handed out again after its member was removed |
| `ReplicaConfig.StepMovesByOneEdit` | mongo-wrapper/src/rs.rs:377-426 | whatever concurrent editors propose, the config in force moves by at most one host at a time, the version rising by one |
| `ReplicaConfig.EveryReachableConfigIsWellFormed` | mongo-wrapper/src/mongo.rs:1127-1175 | every config reachable from the initiated one by concurrent adds, prunes and reconfigs has members, distinct hosts (ASCII case ignored) and distinct ids |
| `ReplicaConfig.CountIsTheSizeOfReachable` | mongo-wrapper/src/mongo.rs:1211-1217 | the count behind a majority is the number of distinct reachable hosts |
| `ReplicaConfig.MajoritiesMeet` | mongo-wrapper/src/mongo.rs:1211-1217 | majorities of the same config, or of two that differ by one host, share a member |
| `ReplicaConfig.NoEditSplitsTheMajority` | mongo-wrapper/src/mongo.rs:1127-1217 | along every run, a majority of any config meets every majority of that config and of the next |
| `ReplicaConfig.ReadyMeansAWorkingMajority` | mongo-wrapper/src/credentials.rs:48-59 | a set is taken as ready exactly if every member that still exists is a healthy PRIMARY or SECONDARY, exactly one of them is primary, and more than half of the config is reached |
| `RecoveryPolicies.RecoveryPolicy.OnSuccess` | mongo-wrapper/src/mongo.rs:293-313 | the whole new state after a success, authenticated or not |
| `RecoveryPolicies.RecoveryPolicy.OnFailure` | mongo-wrapper/src/mongo.rs:315-341 | the whole new state after a failure, and whether the client is rebuilt |
| `RecoveryPolicies.BackoffStaysInRange` | mongo-wrapper/src/mongo.rs:61-62 | over every trace the backoff stays between 30 s and 300 s and rests at the minimum when nothing is pending |
| `RecoveryPolicies.AuthHeldBackIff` | mongo-wrapper/src/mongo.rs:315-341 | an authentication failure is held back exactly while an authentication rebuild is the last rebuild, unproven, and its window open |
| `RecoveryPolicies.FirstAuthFailureRebuildsAtOnce` | mongo-wrapper/src/mongo.rs:315-341 | the first authentication failure since the last authenticated proof always rebuilds |
| `RecoveryPolicies.TransportRebuildsIff` | mongo-wrapper/src/mongo.rs:322-340 | a transport failure rebuilds exactly if it is at least the fifth since the last proof or rebuild and no transport rebuild is the last one, unproven, with its window open |
| `RecoveryPolicies.TheFifthTimeoutRebuilds` | mongo-wrapper/src/mongo.rs:322-340 | a client that only times out is rebuilt on the fifth failure and not before |
| `RecoveryPolicies.TransportRebuildNeedsFive` | mongo-wrapper/src/mongo.rs:330-339 | a transport rebuild comes only after five transport failures without a proof or a rebuild between them |
| `RecoveryPolicies.RefusedCredentialBacksOff` | mongo-wrapper/src/mongo.rs:293-341 | while a credential stays refused, or the server out of reach, the window after the n-th rebuild is min(30 s * 2^(n-1), 300 s) and the n-th rebuild is no earlier than the sum of the windows before |
| `RecoveryPolicies.ElapsedClosedForm` | mongo-wrapper/src/mongo.rs:61-62 | the sum of the waits before the n-th rebuild in closed form: 30 s * (2^(n-1) - 1) up to the fifth, then 450 s and 300 s more for each |
| `RecoveryPolicies.GapAfterEachRebuild` | mongo-wrapper/src/mongo.rs:315-341 | the next rebuild happens exactly when the window of the last one is over, and for transport at least four failures were counted before |
| `RecoveryPolicies.ATransportRebuildResetsTheBackoff` | mongo-wrapper/src/mongo.rs:38-40 | two authentication rebuilds can follow each other at once, with no success between, when a transport rebuild comes between them |
| `RecoveryPolicies.OnlyThatOrAnAnswerShortensTheWait` | mongo-wrapper/src/mongo.rs:315-341 | without a rebuild or an authenticated answer between, two authentication rebuilds are at least 30 s apart |
| `ClientPools.ClientPool.SwapPassword` | mongo-wrapper/src/mongo.rs:560-570 | a swap stores the password, replaces the client and raises the generation |
| `ClientPools.ClientPool.Rebuild` | mongo-wrapper/src/mongo.rs:582-601 | a rebuild acts only if the observed generation is still the current one |
| `ClientPools.ClientPool.Recovering` | mongo-wrapper/src/mongo.rs:620-652 | a command is tried at most twice, with at most one rebuild, and the policy sees each outcome once |
| `ClientPools.RunKeepsInvariant` | mongo-wrapper/src/mongo.rs:560-652 | under every interleaving of callers, cancelled or not, one caller holds the lock and the client carries the stored password outside a swap |
| `ClientPools.FreePoolCarriesTheLastSwap` | mongo-wrapper/src/mongo.rs:560-601 | whenever the lock is free the client authenticates with the password last swapped in |
| `ClientPools.EachGenerationRebuiltAtMostOnce` | mongo-wrapper/src/mongo.rs:582-601 | generations only grow and each observed one causes at most one rebuild |
| `ClientPools.AnObserverGetsTheClient` | mongo-wrapper/src/mongo.rs:572-576 | a caller that finds the pool free gets its client and its generation |
| `ClientPools.ARebuildGoesThrough` | mongo-wrapper/src/mongo.rs:582-601 | an undisturbed rebuild replaces the client by one with the stored password exactly if the generation it observed is still current |
| `ClientPools.ASwapGoesThrough` | mongo-wrapper/src/mongo.rs:560-570 | an undisturbed swap ends with the new password stored and in the client, one generation on |
| `Revert.ForwardLog` | mongo-wrapper/src/standalone_recovery.rs:268-282 | whether the no-oplog line occurred, and the last fatal line |
| `Revert.ReplayOplogAsStandalone` | mongo-wrapper/src/standalone_recovery.rs:315-412 | replayed exactly if the recovery mongod came up and then exited cleanly in time; no oplog exactly if it exited first and said so |
| `Revert.NothingIsLost` | mongo-wrapper/src/main.rs:191-263 | from a fresh volume or any whose un-checkpointed writes are on record by marker or pinned keyfile, over every sequence of HA and standalone boots with a crash at any step, marker writes succeeding: the standalone mongod never opens a data dir behind its oplog, and what is behind stays on record |
| `Revert.AnInterruptedReplayIsRepeated` | mongo-wrapper/src/main.rs:239-250 | a replay cut short is started over by the next standalone boot |
| `Revert.ReplaysExactlyWithARecord` | mongo-wrapper/src/main.rs:233-250 | a standalone boot replays exactly a data dir with the marker or a pinned keyfile, and clears the marker of an empty one |
| `Revert.AReplayEndsClean` | mongo-wrapper/src/main.rs:239-243 | a replay that comes up and stops cleanly leads to the standalone mongod on a data dir that is not behind, its marker gone |
| `Revert.AMemberLeavesBothRecords` | mongo-wrapper/src/main.rs:202-208 | a member that marked its volume and proved its password leaves the marker and its keyfile, which later proofs keep |
| `Revert.LostOnlyWithoutARecord` | mongo-wrapper/src/main.rs:202-208 | with failing marker writes allowed, writes are lost only through a standalone boot of a volume that is behind and has neither marker nor pinned keyfile |
| `Revert.OpensBehindExactlyWithoutARecord` | mongo-wrapper/src/standalone_recovery.rs:156-158 | at every standalone boot of every run, the data dir is opened behind exactly if it is behind and unrecorded |
| `Revert.AnUnmarkedCrashLosesWrites` | mongo-wrapper/src/main.rs:202-208 | a concrete run in which the marker write fails, the member crashes before its password is proven, and the standalone start loses a write |
| `Revert.StandaloneLifeKeepsThePin` | mongo-wrapper/src/auth_pin.rs:87-103 | standalone boots never take a keyfile out of the pin nor put one in |
| `Revert.ReplaysAgainExactlyWithAPinnedKeyfile` | mongo-wrapper/src/standalone_recovery.rs:57-63 | after a finished replay every later standalone boot replays again if and only if the volume pins a keyfile |
| `Revert.TheLatchDoesNotHold` | mongo-wrapper/src/auth_pin.rs:93-95 | a finished replay, a start and a proof leave the keyfile pinned, against the documented latch |
| `FeatureCompatibility.ReadsTheSeries` | mongo-wrapper/src/fcv.rs:75-85 | the series is read off a release whatever blanks surround it and whatever non-digit follows the minor number |
| `FeatureCompatibility.SeriesExactlyRead` | mongo-wrapper/src/fcv.rs:75-85 | a version has a series exactly if, blanks aside, it is a number, a dot and a number, and then nothing or no digit |
| `FeatureCompatibility.AtMostIsTheOrder` | mongo-wrapper/src/fcv.rs:120-129 | series are ordered by major, then by minor number |
| `FeatureCompatibility.SeriesSurvivesItsName` | mongo-wrapper/src/fcv.rs:87-91 | naming the series of a version and parsing it again loses nothing |
| `FeatureCompatibility.RaisesExactlyWhenAllCaughtUp` | mongo-wrapper/src/fcv.rs:97-167 | a raise exactly when the FCV lags with no transition in flight and, on a set, this is the primary and all others are healthy and no older; up to date exactly on equality |
| `FeatureCompatibility.LaggingWaitsForTheFirst` | mongo-wrapper/src/fcv.rs:139-165 | the wait names the first unhealthy, then silent, then older member |
| `FeatureCompatibility.RefusesExactlyWhatMakesNoSense` | mongo-wrapper/src/fcv.rs:97-129 | a refusal exactly for a version without a series or an FCV above the binary |
| `FeatureCompatibility.ReadPeers` | mongo-wrapper/src/fcv.rs:248-266 | the members read one by one: every other row in order, without a series when unhealthy, silent or unparsable |
| `FeatureCompatibility.PeersAreTheOtherRows` | mongo-wrapper/src/fcv.rs:248-266 | the members decided on are exactly the rows other than its own |
| `FeatureCompatibility.RoundRaisesExactly` | mongo-wrapper/src/fcv.rs:230-268 | over the rows of the status: the primary raises, and to its own series, exactly if the FCV lags, no transition is in flight, and every other row is healthy and answered with a series no older |
| `FeatureCompatibility.AWaitNamesItsRow` | mongo-wrapper/src/fcv.rs:139-165 | a lagging primary that waits names another row of the status: an unhealthy one, else one that gave no series, else one that gave an older one |
| `FeatureCompatibility.RaiseIsSafe` | mongo-wrapper/src/fcv.rs:230-268 | what a finished poll raises to is a series every member runs now, though each was read at another time |
| `FeatureCompatibility.FcvRisesAndStrandsNobody` | mongo-wrapper/src/fcv.rs:182-285 | in every rolling upgrade, with rounds at once and commands that outlive their callers, the FCV never falls and never exceeds any member, nor does the target of a transition |
| `FeatureCompatibility.AFullRoundRaisesTheFcv` | mongo-wrapper/src/fcv.rs:182-285 | whenever the FCV lags behind an idle primary and no member is older, one round in which everybody answers raises it |
| `ReplicationMonitor.DeriveSignals` | mongo-wrapper/src/replication_monitor.rs:245-301 | the loop over the members yields the specified signals in order |
| `ReplicationMonitor.SignalsMean` | mongo-wrapper/src/replication_monitor.rs:245-301 | a signal is raised exactly when its threshold is crossed |
| `ReplicationMonitor.KeysIdentifyIncidents` | mongo-wrapper/src/replication_monitor.rs:178-184 | two signals share a key exactly if they are of one kind and one host |
| `ReplicationMonitor.MemberStateTracker.Observe` | mongo-wrapper/src/replication_monitor.rs:108-117 | the dwell of the state held, zero for a new one |
| `ReplicationMonitor.MemberStateTracker.RetainKnown` | mongo-wrapper/src/replication_monitor.rs:122-124 | hosts outside the view are forgotten, the others kept |
| `ReplicationMonitor.Monitor.Report` | mongo-wrapper/src/rs.rs:819-832 | each new incident is sent once and what has cleared is forgotten |
| `ReplicationMonitor.Monitor.Round` | mongo-wrapper/src/rs.rs:766-833 | after every poll the alerts are that poll's incidents and each was sent once per maximal run of polls that found it; an unreadable status changes nothing |
| `ReplicationMonitor.ClockIsTheCurrentRun` | mongo-wrapper/src/replication_monitor.rs:88-125 | the clock of a host is the poll at which its current unbroken run of one state began; a host outside the last poll has none |
| `ReplicationMonitor.StuckExactlyForTheDwell` | mongo-wrapper/src/replication_monitor.rs:269-275 | a host is reported stuck exactly if it was in one of the two catching-up states at every poll of the last 900 s or more |
| `ReplicationMonitor.LowExactlyWhenRead` | mongo-wrapper/src/replication_monitor.rs:252-260 | the oplog-window incident is under way exactly if the last poll could read a size-bounded oplog and found its window below an hour |
| `ReplicationMonitor.PrimaryOptimeIsTheFirstPrimarys` | mongo-wrapper/src/rs.rs:807-810 | lags are measured from the optime of the first primary row, and not at all exactly without one or without its optime |
| `ReplicationMonitor.FallingOffExactlyWhenRead` | mongo-wrapper/src/replication_monitor.rs:277-297 | a host's falling-off incident is under way exactly if the last poll could, and a healthy secondary row of that host lags three quarters of the window behind the first primary row |
| `ReplicationMonitor.SentOnceIffAlwaysRead` | mongo-wrapper/src/rs.rs:760-832 | an incident that goes on from its first poll to its last is sent once if and only if every poll between could read a size-bounded oplog |
| `ReplicationMonitor.AnUnreadPollReportsTwice` | mongo-wrapper/src/rs.rs:775-790 | one low window with one unread poll in the middle is sent twice |
| `DnsProbe.EncodeQuery` | mongo-wrapper/src/dns_probe.rs:160-183 | a packet exactly for an encodable name, and then the specified one |
| `DnsProbe.EncodableExactly` | mongo-wrapper/src/dns_probe.rs:160-179 | a name can be asked about exactly if it is labels of 1 to 63 octets joined by dots, 255 octets at most, with or without one trailing dot |
| `DnsProbe.DecodingTheQueryGivesTheName` | mongo-wrapper/src/dns_probe.rs:165-182 | read by sections 3.1, 4.1.1 and 4.1.2 of RFC 1035 the packet is one recursive AAAA question about the labels of the name |
| `DnsProbe.QueriesAreInjective` | mongo-wrapper/src/dns_probe.rs:160-183 | two packets are equal exactly if the ids are and the names differ by at most one trailing dot |
| `DnsProbe.QNameLength` | mongo-wrapper/src/dns_probe.rs:165-182 | the packet is 18 octets longer than the stripped name |
| `DnsProbe.FitsTheWireUpTo253` | mongo-wrapper/src/dns_probe.rs:162-164 | the limit of section 2.3.4 of RFC 1035 is met exactly for names of at most 253 characters |
| `DnsProbe.ANameTooLongForTheWire` | mongo-wrapper/src/dns_probe.rs:162-164 | an accepted name of 257 octets on the wire |
| `DnsProbe.DecodeRcode` | mongo-wrapper/src/dns_probe.rs:187-199 | a code exactly for a response that carries the id, and then its low four bits |
| `DnsProbe.AnswersAreResponses` | mongo-wrapper/src/dns_probe.rs:187-199 | of a message the standard can read, an answer is exactly a response with the id of the query |
| `DnsProbe.QueryRcode` | mongo-wrapper/src/dns_probe.rs:138-146 | the code of the first datagram that answers |
| `DnsProbe.ProbeName` | mongo-wrapper/src/dns_probe.rs:86-101 | a name is gone exactly if it is a name, a resolver exists and the first answer says NXDOMAIN |
| `Passthrough.ArgValue` | mongo-wrapper/src/passthrough.rs:33-45 | the value of the first token of that name: after its equals sign, or the next token |
| `Passthrough.NameOfSpelling` | mongo-wrapper/src/passthrough.rs:17-25 | either dash spelling and the equals spelling name the same option |
| `Passthrough.NamesExactly` | mongo-wrapper/src/passthrough.rs:17-25 | a token names an option exactly if one or two dashes precede something that starts with no digit, and the name ends at the first equals sign |
| `Passthrough.MergeOwnFlags` | mongo-wrapper/src/passthrough.rs:52-79 | the peeking loop over the own tokens yields the tokens of exactly the items that are kept, in order |
| `Passthrough.NothingLeftToRefuse` | mongo-wrapper/src/passthrough.rs:67-72 | the output shares no option with the args and no side of the bind pair |
| `Passthrough.MergeKeepsWhatIsNotOverridden` | mongo-wrapper/src/passthrough.rs:52-79 | identity without args, idempotent with fixed args |
| `Passthrough.KeptMeans` | mongo-wrapper/src/passthrough.rs:67-76 | exactly the items that do not yield are kept |
| `Passthrough.KeptExactly` | mongo-wrapper/src/passthrough.rs:52-76 | an own flag stays exactly if no arg names it nor the other side of the bind pair, and any other token stays |
| `Passthrough.KeptInOrder` | mongo-wrapper/src/passthrough.rs:67-76 | the kept items stay in the order of the own flags |
| `Passthrough.MergedFlagsReadAsKept` | mongo-wrapper/src/passthrough.rs:60-66 | the output reads as the kept flags with their values exactly if no bare token came behind a valueless flag |
| `Passthrough.OwnFlagsReadAsKept` | mongo-wrapper/src/passthrough.rs:52-79 | own flags without a bare token always come through as the kept flags with their values |
| `Passthrough.NoOptionTwice` | mongo-wrapper/src/passthrough.rs:52-79 | output and args together repeat no option unless one side did |
| `Decimal.ParseU32Means` | mongo-wrapper/src/fcv.rs:75-85 | a number is read exactly off its digits, with or without one plus sign, when it fits 32 bits |
| `Decimal.FormatOfValue` | mongo-wrapper/src/fcv.rs:87-91 | reading then printing gives the digits back, but for zeros in front |
| `Text.TrimMeans` | mongo-wrapper/src/fcv.rs:76-77 | trimming takes the blanks off either end and nothing else |
| `Text.LowerMeans` | mongo-wrapper/src/config.rs:216-220 | two characters are equal up to case exactly if they are the same or the two cases of one ASCII letter |
| `KernelCompat.AffectedExactlyInTheRange` | mongo-wrapper/src/kernel_compat.rs:54-66 | a release is affected exactly if it reads as three numbers with a proper ending and lies in the broken range |
| `KernelCompat.RangeEnds` | mongo-wrapper/src/kernel_compat.rs:64-65 | the range is 6.19.0 up to and including 7.0.13 |
| `KernelCompat.OnlyRseqIsReplaced` | mongo-wrapper/src/kernel_compat.rs:70-79 | between colons, every entry that is not empty and does not start with the key stays, in order, and the fallback alone follows |
| `KernelCompat.RseqIsSpelled` | mongo-wrapper/src/kernel_compat.rs:15-16 | the octets of the key spell `glibc.pthread.rseq=`, and the fallback is the key with a 1 |
| `KernelCompat.OthersKeepTheirOrder` | mongo-wrapper/src/kernel_compat.rs:74-76 | the kept tunables stay in order |
| `KernelCompat.RewritingIsIdempotent` | mongo-wrapper/src/kernel_compat.rs:70-79 | rewriting a rewritten value changes nothing |

## Left out

- HTTP serving, driver calls, sockets, processes and signals appear only as outcomes of steps.
- The insides of mongod: elections, replication, oplog replay and its version check on a reconfig are
  assumed as stated above.
- SHA-256, base64 and JSON: keys and keyfiles are abstract values, log lines come parsed.
- Machine widths of counters: the transport-failure counter, config versions, member ids and generations
  are unbounded; `u32` is kept where text is parsed into it.
- Floating point: the lag ratio is the exact comparison on whole seconds, the oplog fill a real number.
- Times are whole milliseconds or seconds of one clock per node; a saturating difference where the code
  has one.
- A query of a peer that panics would drop that peer from the round; queries are taken not to panic.
- The supervise loop and the wait of a key phase run interleaved; `Node.Live` takes their iterations, and
  everything else the process does, in any order given to it.
- `orchestrate` and `member_duties` are modelled turn by turn: sleeping, logging, role telemetry and the
  return to the caller are not.
- The rotation's Preflight, Prepare and Verify operations beyond the states they check, the pending file's
  format and the route's authentication.
- The log-once bookkeeping of `reconcile` in `fcv.rs`, and the read-back of `raise`, which only reports.
- `switchover`, the demotion on shutdown, `config_with_priority`, the HAProxy template and its monitor,
  telemetry transport, Basic authentication, environment parsing.
- The port and the dbpath read back from the args, and the flags of each mode.
- File modes, ownership, fsync, the volume lock, startup DNS binding, the entrypoint's init server beyond
  its being up or not.
- Prune.Pruner.Round: rows are looked at with one time for the whole round, as the code does; how long the
  probes take is not modelled.
- FeatureCompatibility.FcvRisesAndStrandsNobody: a member that joins on an older binary during a round is
  not modelled, because membership is fixed.
