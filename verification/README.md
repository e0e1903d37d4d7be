# Ephemos: certificate lifecycle, modelled and proved

Ephemos obtains SPIFFE certificates, caches them, rotates them under live
connections, and shuts down in order. This project models the parts of it where
state, time and interleaving meet, and proves what they promise.

* Concurrent parts (connection registry, shutdown coordinator, rotation with
  overlap, source adapter) are step machines: a step is the code between two lock
  operations or waits, a run is any sequence of enabled steps, and the theorems
  hold in every run. Clocks, providers, closes and deadlines are step parameters.
* Beside them stand the objects themselves as classes with the program's fields,
  loops and maps. Each method is tied to a function on the object's value (`View`),
  which the theorems are about.
* Time is an integer count of nanoseconds. A certificate is a record; cryptographic
  checks are parameters.

| file | what it models |
|---|---|
| `CycleFinder.dfy` | the import-cycle search of the architecture tests |
| `Connections.dfy`, `ConnectionRegistry.dfy` | connections and their registry, as values and as objects |
| `RotationProtocol.dfy`, `UndisturbedRotation.dfy` | establish, close and any number of rotation monitors, interleaved; one rotation left alone |
| `RegistryRun.dfy` | the registry object as a run of those steps |
| `ObserverTrace.dfy`, `RotationChain.dfy`, `OverlappingRotations.dfy` | what rotation observers hear |
| `RotationBound.dfy` | how old a certificate in use can get |
| `InvariantStatus.dfy`, `Enforcement.dfy`, `DefaultInvariants.dfy` | the enforcement sweep, the status report, the default invariants |
| `Shutdown.dfy`, `ShutdownErrors.dfy` | the shutdown coordinator as a step machine, and what it reports |
| `Coordinator.dfy`, `ShutdownRun.dfy`, `CoordinatorLife.dfy` | the coordinator as an object, a shutdown and a whole life of it as runs |
| `RotationContinuity.dfy`, `ContinuityService.dfy` | rotation with overlap, as a step machine and as an object |
| `IdentityRotation.dfy` | forced, periodic and external SVID rotation |
| `CacheEntry.dfy`, `SourceAdapter.dfy`, `AdapterObject.dfy` | the doubly checked SVID and bundle cache |
| `CertificateCache.dfy`, `LockedRead.dfy` | the certificate cache of the identity service, and its lock |
| `Dedup.dfy`, `TrustBundle.dfy` | first-wins deduplication, bundle validation and merge |
| `Paths.dfy`, `IdentityNamespaces.dfy` | SPIFFE ID parsing, printing, ancestors |

## Where a promise needs a condition

The naive statement of each of these is false of the code. The model follows the code;
the named theorem gives the case that fails or the exact condition.

* A monitor that still holds a pointer sets a closed, unregistered connection back
  to active. Closing is final exactly when no monitor holds such a pointer
  (`ClosedIsFinalIff`). Registry membership is final either way.
* Completed events of a connection form a chain, for every observer and whatever
  happens, exactly when its id had no monitor before it was established
  (`FreshIdIff`, `EstablishedChainIff`). In a run where rotations of one connection
  do not overlap they do anyway (`CompletionsAreChained`).
* The monitor keeps the age of a certificate in use below the forced interval plus
  k + 1 check gaps while at most k rotations fail in a row, if and only if the forced
  interval is positive (`AgeBoundIff`), and not below less (`AgeBoundIsTight`).
* No connection passes the default invariants, because nothing sets a TLS state
  (`NothingPassesDefaults`); `PassesDefaultsIff` says what would.
* In an invariant status, the totals by invariant and by connection agree unless a
  failing invariant shares its name with a later one (`TotalsAgreeIff`).
* The overlap of a server rotation counts its inherited deadline as completion, so
  a context deadline inside it stops the old server early (`OverlapIsKeptIff`,
  `PromptOverlapIsKeptIff`).
* A rotation that succeeds removes the table entry of its id, whosever it is. The
  latest rotation keeps its entry exactly when no earlier one of the id can still
  succeed (`EntryIsKeptIff`, `EntryIsKeptPromptlyIff`); two rotations from an empty
  table are the least failing case (`OverlappingRotationsLoseEntry`).
* `Start` accepts an SVID older than one installed before a stop; installed SVIDs
  increase over a whole run exactly when no Start does that
  (`IncreasingIffStartsForward`; `RestartMayGoBack` is the least run that does).
  Between starts the current SVID is the newest ever offered (`NewestOfferedIsCurrent`).
  The stop channel is closed once and never remade, so at most one stop succeeds and
  at most two starts install (`OneStopSucceeds`, `AtMostTwoStarts`).
* One cached bundle answers for every trust domain. A caller gets its own domain's
  bundle exactly when the cell is stale or holds that one (`BundleAgreesIff`).
* A miss of `getCertificate` asks for the read lock of the lock it holds for
  writing and so waits for ever, with every later caller (`MissBlocksForever`); as
  the cache starts empty, no call ever returns (`NoCallEverReturns`).
  `CertificateCache` gives the behaviour with that read taken as lock-free.
* A stale cached wrapper without a leaf makes `getCertificate` panic
  (`PanicsIff`, `PanicIsReachable`).
* Bundle merge is associative when both inner merges succeed. A stale certificate
  shadowed by a current one makes the merge to the right fail and not the one to the
  left (`ShadowedExpiryBreaksAssociativity`); `MergesAgreeIff` says exactly when the
  two ways agree.
* A namespace built from parts may have the empty path, although the test of the
  constructor expects an error; it prints like a trust domain and does not survive
  the round trip (`BuiltRoundTripsIff`).

## Model

| member | source | states |
|---|---|---|
| CycleFinder.FindCycles | internal/arch/dep_boundary_test.go:670-719 | for every graph and every key order: each reported list is a simple cycle along edges, every closed walk crosses the closing edge of some reported list, and nothing is reported if and only if the graph has no cycle |
| CycleFinder.Search.Dfs | internal/arch/dep_boundary_test.go:676-710 | terminates, finishes its node, leaves the recursion stack as it found it, only adds to what was finished and reported, and answers true if and only if it reported a cycle |
| CycleFinder.Search.Follow | internal/arch/dep_boundary_test.go:682-706 | after an edge is followed, its target has finished or the edge closes a reported cycle |
| CycleFinder.Search.Reconstruct | internal/arch/dep_boundary_test.go:690-701 | climbing the parent map from the back edge reaches its target, and the rebuilt list is the stack from there on, closed by that edge |
| CycleFinder.Reverse | internal/arch/dep_boundary_test.go:699-701 | the swap loop reverses the list |
| CycleFinder.Search.Run | internal/arch/dep_boundary_test.go:712-716 | every key of the graph ends up finished and no recursion flag stays set |
| CycleFinder.StackClosesCycle | internal/arch/dep_boundary_test.go:690-703 | the stack between the ends of a back edge is a simple cycle |
| CycleFinder.UnreportedWalkDescends | internal/arch/dep_boundary_test.go:676-719 | along edges that were not reported, the finish order strictly decreases |
| CycleFinder.FinishOrderBreaksClosedWalks | internal/arch/dep_boundary_test.go:670-719 | hence every closed walk contains a reported closing edge |
| Connections.DetermineRotationReason | internal/core/services/mtls_connection_registry.go:281-303 | no reason exactly when the connection has not failed, its last rotation is younger than the forced interval, and its certificate, if any, ends after the threshold; an expiring certificate is reported before a forced rotation, and a failure exactly when neither applies |
| ConnectionRegistry.MTLSConnectionRegistry.EstablishConnection | internal/core/services/mtls_connection_registry.go:167-196 | adds one fresh active connection with the given identities and certificate, maps the id to it without closing one it replaces, and touches no other; without a certificate it panics after that |
| ConnectionRegistry.MTLSConnectionRegistry.ListConnections | internal/core/services/mtls_connection_registry.go:207-216 | lists every registered connection exactly once, in any order |
| ConnectionRegistry.MTLSConnectionRegistry.CloseConnection | internal/core/services/mtls_connection_registry.go:219-237 | closes and removes the one connection under the id and leaves every other object alone; an unknown id changes nothing |
| ConnectionRegistry.MTLSConnectionRegistry.CheckAndRotateConnection | internal/core/services/mtls_connection_registry.go:260-278 | rotates exactly when the id is registered and there is a reason, else changes and tells nothing |
| ConnectionRegistry.MTLSConnectionRegistry.RotateConnection | internal/core/services/mtls_connection_registry.go:306-361 | goes through rotating and ends active with the new certificate, or failed with the old one; call by call, every observer hears the start and then every observer the end, with the certificate that was replaced; with none to replace it panics at the very end |
| ConnectionRegistry.MTLSConnectionRegistry.Notify | internal/core/services/mtls_connection_registry.go:364-397 | calls each observer once, in order of registration |
| RotationProtocol.RegistrySafety | internal/core/services/mtls_connection_registry.go:167-361 | in every interleaving: ids match keys, nothing registered is closed, and a rotating connection has a rotation in flight |
| RotationProtocol.StepKeepsInvariant | internal/core/services/mtls_connection_registry.go:167-361 | each step of any goroutine keeps those facts and every held pointer valid |
| RotationProtocol.UnregisteredForGood | internal/core/services/mtls_connection_registry.go:167-237 | an object that has left the registry, closed or replaced, is never registered again |
| RotationProtocol.TlsIsNeverSet | internal/core/services/mtls_connection_registry.go:167-361 | no step of any run gives a connection a TLS state |
| RotationProtocol.MonitorsAreEstablished | internal/core/services/mtls_connection_registry.go:167-196 | in every run the monitors are one for each connection established with a certificate, under its id and in order |
| RotationProtocol.CheckStartsIff | internal/core/services/mtls_connection_registry.go:260-303 | a monitor goes on to rotate exactly when the object it holds is not closed and has failed, or is overdue, or its certificate ends within the threshold |
| RotationProtocol.CloseUnregisters | internal/core/services/mtls_connection_registry.go:219-237 | a close unregisters and closes its object |
| RotationProtocol.HolderRevives | internal/core/services/mtls_connection_registry.go:306-346 | whoever holds a closed object to rotate it has a continuation that makes it not closed |
| RotationProtocol.ClosedIsFinalIff | internal/core/services/mtls_connection_registry.go:219-346 | a closed, unregistered object stays closed in every continuation if and only if no monitor is about to write to it |
| UndisturbedRotation.TellAll | internal/core/services/mtls_connection_registry.go:364-397 | a notification left alone tells every copied observer in order |
| UndisturbedRotation.UndisturbedRotationIsAtomic | internal/core/services/mtls_connection_registry.go:306-361 | the steps of one rotation left alone have the effect of one atomic update, and observers hear its start and its end |
| RegistryRun.CheckIsARun | internal/core/services/mtls_connection_registry.go:240-397 | one check of the registry, due or not, leaves the connections and the observer calls of a run in which one idle monitor looks and, if there is a reason, rotates |
| RegistryRun.Drive | internal/core/services/mtls_connection_registry.go:153-397 | for every sequence of establish, close, observer, policy and check requests up to the first panic, the registry's connections and all its observer calls are those of a run of the step machine, and what each observer heard of each connection is a chain |
| RegistryRun.RotateTwice | internal/core/services/mtls_connection_registry.go:306-397 | of two rotations of a connection in a row, every observer hears the second replace the certificate that the first installed |
| ObserverTrace.ObserverHearsEachRotation | internal/core/services/mtls_connection_registry.go:306-397 | an observer present when a rotation starts hears one Started, then at most one of Completed and Failed; until it heard the end the rotation is at work |
| ObserverTrace.StartedAreCompletedFailedOrOpen | internal/core/services/mtls_connection_registry.go:306-397 | at all times and for every observer, over the rotations that started after it registered: Started = Completed + Failed + those it has not heard the end of |
| RotationChain.OneReachesChains | internal/core/services/mtls_connection_registry.go:306-385 | what observers hear of a connection stays a chain, in every continuation, while at most one monitor holds it or would find it |
| RotationChain.DistinctIdsNeverOverlap | internal/core/services/mtls_connection_registry.go:167-257 | rotations do not overlap when no connection id is established twice |
| OverlappingRotations.TwoMonitorsBreakChain | internal/core/services/mtls_connection_registry.go:240-385 | two monitors of one registered connection, wherever they are, have a run in which a new observer hears one certificate replaced twice |
| OverlappingRotations.EstablishedChainIff | internal/core/services/mtls_connection_registry.go:167-397 | a connection just established, with or without a certificate, is heard as a chain by every observer in every continuation if and only if at most one monitor works under its id |
| OverlappingRotations.FreshIdIff | internal/core/services/mtls_connection_registry.go:167-397 | for a connection established with a certificate in any reachable state: if and only if its id has had no monitor before |
| RotationBound.CheckIsOneTick | internal/core/services/mtls_connection_registry.go:260-278 | a monitor tick changes the registered connection as the age model says, and nothing else |
| RotationBound.AgeBound | internal/core/services/mtls_connection_registry.go:240-303 | with checks at most one gap apart and at most k failed rotations in a row, the age since the last rotation stays below the forced interval plus k + 1 gaps |
| RotationBound.DefaultsKeepRotationInvariant | internal/core/services/mtls_enforcement_service.go:446-452 | with the defaults and at most 29 failures in a row the one-hour clause never fires |
| RotationBound.AgeBoundIff | internal/core/services/mtls_connection_registry.go:240-303 | that bound holds in every run if and only if the forced interval is positive |
| RotationBound.AgeBoundIsTight | internal/core/services/mtls_connection_registry.go:240-303 | for every active connection, with any certificate or none, and every policy with a positive interval, gap and k, some run gets within a nanosecond of the bound |
| Enforcement.MTLSEnforcementService.CheckAllInvariants | internal/core/services/mtls_enforcement_service.go:155-191 | one undisturbed sweep turns the registry into its swept form, whatever the order of connections and violations |
| Enforcement.MTLSEnforcementService.CollectViolations | internal/core/services/mtls_enforcement_service.go:168-187 | collects exactly what every registered connection violates |
| Enforcement.MTLSEnforcementService.HandleViolations | internal/core/services/mtls_enforcement_service.go:194-242 | closes exactly the ids at or over the maximum if the action is to close, otherwise nothing |
| Enforcement.CloseOneMore | internal/core/services/mtls_enforcement_service.go:194-242 | closing ids one by one, in any order, closes them all at once |
| Enforcement.SweepKeepsExactlyTolerated | internal/core/services/mtls_enforcement_service.go:155-242 | a connection stays registered, untouched, if and only if it fails fewer invariants than the maximum (at least one); the others end closed |
| Enforcement.SweepKeepsValid | internal/core/services/mtls_enforcement_service.go:155-242 | a sweep keeps the registry's invariant |
| Enforcement.SweepTwice | internal/core/services/mtls_enforcement_service.go:155-242 | a second sweep at the same instant changes nothing |
| Enforcement.MTLSEnforcementService.ValidateConnection | internal/core/services/mtls_enforcement_service.go:245-272 | passes exactly the registered connections that violate nothing |
| Enforcement.MTLSEnforcementService.CheckInvariant | internal/core/services/mtls_enforcement_service.go:293-315 | passes and failures of an invariant add up to the connections, and each failure is noted under its connection |
| Enforcement.MTLSEnforcementService.GetInvariantStatus | internal/core/services/mtls_enforcement_service.go:275-318 | the report by invariant holds the last result under each name, the report by connection exactly what each violates |
| InvariantStatus.RowsMatchColumns | internal/core/services/mtls_enforcement_service.go:292-315 | counting failed checks by connection or by invariant gives the same number |
| InvariantStatus.TotalsAgreeIff | internal/core/services/mtls_enforcement_service.go:275-318 | the totals of the two reports agree if and only if no failing invariant is overwritten by a later one of its name |
| InvariantStatus.DistinctNamesTotalsAgree | internal/core/services/mtls_enforcement_service.go:275-318 | in particular they agree for distinct names |
| InvariantStatus.FailingPositions | internal/core/services/mtls_enforcement_service.go:168-187 | a connection's violations are all checks it fails, in the order of the invariants, each with its own name and error |
| InvariantStatus.ViolatorsAre | internal/core/services/mtls_enforcement_service.go:293-315 | an invariant's row lists exactly the connections that fail it, by id and error |
| DefaultInvariants.CountDefaults | internal/core/services/mtls_enforcement_service.go:117-123 | a connection has one violation for each of the five checks it fails |
| DefaultInvariants.EachDefaultIff | internal/core/services/mtls_enforcement_service.go:350-489 | for each of the five checks, exactly when it passes, and which of its errors is reported first |
| DefaultInvariants.UriIsNamespace | internal/core/domain/service_identity.go:65-117 | the URI an identity expects, its name being one valid segment, parses to the namespace of its trust domain whose service name is that name |
| DefaultInvariants.PassesDefaultsIff | internal/core/services/mtls_enforcement_service.go:350-489 | exactly which connections satisfy all five: a finished handshake with a peer certificate, the connection's own certificate, valid and not due, young enough, trust domains on both sides |
| DefaultInvariants.NothingPassesDefaults | internal/core/services/mtls_enforcement_service.go:378-381 | no connection in any reachable state of the registry passes the mutual check, hence none the defaults |
| DefaultInvariants.DefaultSweepClosesMonitoredIff | internal/core/services/mtls_enforcement_service.go:350-489 | while the monitor keeps its pace, the default sweep closes a properly identified connection exactly when it fails the mutual check and its certificate is outside its validity, within 15 minutes of its end, and not being rotated |
| Shutdown.PhasesAreOrdered | internal/shutdown/coordinator.go:159-251 | in every run: no listener is touched before all servers returned or the deadline passed, clients likewise, and no cleanup runs before all clients returned |
| Shutdown.ListsFreeze | internal/shutdown/coordinator.go:93-139 | once shutting down, no list gains or loses a resource |
| Shutdown.RegistrationsAreKept | internal/shutdown/coordinator.go:93-131 | in every run each list holds exactly the resources, other than nil, registered before the flag was set, in order |
| Shutdown.AcceptedAreClosedOnce | internal/shutdown/coordinator.go:133-251 | when a Shutdown call has returned, each accepted resource was closed exactly once and has returned, unless the wait for its kind ran out; nothing else was closed |
| Shutdown.RegisteredAreClosedOnce | internal/shutdown/coordinator.go:93-251 | so each of them was closed exactly once when a Shutdown call has returned, unless the wait for its kind ran out |
| ShutdownErrors.ReportIsExact | internal/shutdown/coordinator.go:155-268 | in every run each error a close or cleanup returned and each expired wait is reported as often as it happened, and nothing else; the call that ran the body gets the first report, every other call nil |
| Shutdown.NilMeansClean | internal/shutdown/coordinator.go:155-190 | the call that ran the body returns nil if and only if no wait ran out and every close and cleanup returned nil; other calls return nil |
| Shutdown.StepKeepsInvariant | internal/shutdown/coordinator.go:93-268 | every step of callers, closing goroutines and the body keeps each kind in its turn and the errors accounted for |
| Coordination.Coordinator.Shutdown | internal/shutdown/coordinator.go:133-190 | closes everything phase by phase once, returns nil if and only if the shutdown was clean, else the first error; a second call does nothing |
| Coordination.Coordinator.CloseAll | internal/shutdown/coordinator.go:192-242 | closes each resource of a kind once and reports the errors in the order they came back, late ones of earlier kinds among them, then the timeout if any |
| Coordination.Coordinator.RunCleanupFunctions | internal/shutdown/coordinator.go:244-251 | runs every cleanup function in order, whatever the earlier ones returned |
| Coordination.NothingReportedIffClean | internal/shutdown/coordinator.go:155-187 | no error is reported if and only if nothing timed out and everything returned nil |
| Coordination.LateReportsComeSecond | internal/shutdown/coordinator.go:155-189 | a goroutine that reports after its wait ran out never decides the returned error |
| ShutdownRun.ShutdownIsARun | internal/shutdown/coordinator.go:133-268 | from every state before the first call, whatever is registered, the step machine has a run that makes the calls the object makes on a script, in the same order, collects the same errors and returns the same result |
| CoordinatorLife.RegisterAll | internal/shutdown/coordinator.go:93-131 | before a shutdown every list of the object grows by the resources, other than nil, named for it, in order; afterwards by nothing |
| CoordinatorLife.LifeIsARun | internal/shutdown/coordinator.go:79-268 | any registrations and then one scripted shutdown are a run of the step machine with these lists, these calls, these errors and this result |
| CoordinatorLife.RegisterAndShutdown | internal/shutdown/coordinator.go:79-190 | the object, created, filled and shut down, ends with the lists, the calls and the result of such a run |
| RotationContinuity.OldServerStopsLate | internal/core/services/rotation_continuity_service.go:155-352 | in every run an old server stops only in completion, after two validations and, unless the context has a deadline inside, not before preparation plus overlap; a failed rotation stops nothing |
| RotationContinuity.StopsOnTime | internal/core/services/rotation_continuity_service.go:155-352 | and if the deadline leaves room, a run without a held-up goroutine stops it at the very end of preparation plus overlap |
| RotationContinuity.FailureIsFinal | internal/core/services/rotation_continuity_service.go:231-311 | once a validation has failed or a wait was cut by its context, the rotation never completes and never stops the old server |
| RotationContinuity.FailsOnlyForCause | internal/core/services/rotation_continuity_service.go:231-311 | nothing else fails one: while its context has not ended and no validation of it has failed, it has not failed |
| RotationContinuity.PhasesMoveForward | internal/core/services/rotation_continuity_service.go:231-311 | phases only move forward and a completed pair never becomes failed |
| RotationContinuity.OverlapIsKeptIff | internal/core/services/rotation_continuity_service.go:257-273 | every continuation keeps the policy's times if and only if the context's deadline is not inside them, or there is no overlap |
| RotationContinuity.PromptOverlapIsKeptIff | internal/core/services/rotation_continuity_service.go:244-273 | when no goroutine is held up past both events of its select, only a deadline from the end of preparation to the end of the overlap cuts it short; an earlier one fails the rotation |
| RotationContinuity.EarlyRun | internal/core/services/rotation_continuity_service.go:257-273 | for a deadline inside those times a run stops the old server early, a prompt one unless the deadline comes before the end of preparation |
| RotationContinuity.TableShowsLatest | internal/core/services/rotation_continuity_service.go:186-200 | with sequential rotations of each id, an id is in the table exactly while its latest rotation runs or has failed |
| RotationContinuity.Completes | internal/core/services/rotation_continuity_service.go:231-311 | a rotation that has not failed, and was not cancelled before the end of its overlap, has a run of its own that succeeds and removes the entry of its id |
| RotationContinuity.EntryIsKeptIff | internal/core/services/rotation_continuity_service.go:186-200 | in any state, the latest rotation of an id keeps the id in the table in every continuation, while it runs or has failed, if and only if no earlier rotation of the id can still succeed |
| RotationContinuity.EntryIsKeptPromptlyIff | internal/core/services/rotation_continuity_service.go:186-200 | the same when no goroutine is held up past both events of its select, where a rival's context must also outlast its preparation |
| ContinuityService.RotationContinuityService.ExecuteServerRotationPhases | internal/core/services/rotation_continuity_service.go:231-311 | goes through exactly the phases its waits and validations allow and stops the old server if and only if it completes |
| ContinuityService.RotationContinuityService.RotateServerWithContinuity | internal/core/services/rotation_continuity_service.go:155-209 | success removes the entry and has stopped the old server; failure leaves a failed pair in the table and the old server as it was; an earlier error changes nothing |
| ContinuityService.ScriptIsARun | internal/core/services/rotation_continuity_service.go:155-311 | whatever a call meets, in any state and under any policy the step machine has a run with the same phases, the same stop of the old server and the same effect on the table |
| IdentityRotation.InstalledSvidsIncrease | internal/core/application/identity_rotation_service.go:253-394 | between two starts installed SVIDs strictly increase by (NotBefore, NotAfter), so none is installed twice |
| IdentityRotation.CallbacksHearReplacements | internal/core/application/identity_rotation_service.go:253-421 | callbacks are given exactly the consecutive pairs of installed SVIDs |
| IdentityRotation.OpKeepsConsistent | internal/core/application/identity_rotation_service.go:94-338 | an operation that is refused or panics changes nothing |
| IdentityRotation.ReplacesIff | internal/core/application/identity_rotation_service.go:253-394 | a rotation or external SVID succeeds if and only if it brings a trusted one with a leaf and there is no current one with a leaf or an older one; it then installs and announces just that |
| IdentityRotation.NewestOfferedIsCurrent | internal/core/application/identity_rotation_service.go:253-394 | without a Start in between, the current SVID is at all times the newest of the one held at first and all trusted ones offered since |
| IdentityRotation.StartsAndStopsIff | internal/core/application/identity_rotation_service.go:94-142 | when Start and Stop succeed, when Stop panics, and what they leave behind |
| IdentityRotation.RefusedWhy | internal/core/application/identity_rotation_service.go:94-338 | a refusal reports the first thing that is wrong |
| IdentityRotation.IncreasingIffStartsForward | internal/core/application/identity_rotation_service.go:94-338 | over a whole run, restarts included, installed SVIDs strictly increase if and only if every Start fetched an SVID newer than the current one |
| IdentityRotation.StopSucceedsOnce | internal/core/application/identity_rotation_service.go:129-142 | once the stop channel is closed, stopping a running service panics |
| IdentityRotation.OneStopSucceeds | internal/core/application/identity_rotation_service.go:129-142 | of all stops of a run at most one succeeds |
| IdentityRotation.AtMostTwoStarts | internal/core/application/identity_rotation_service.go:94-142 | the SVIDs installed by Start number one for a closed stop channel and one for a running service, so at most two in any run |
| IdentityRotation.IdentityRotationService.RotateIdentity | internal/core/application/identity_rotation_service.go:253-303 | installs and announces the fetched SVID exactly when it was refreshed and fetched, is trusted, has a leaf, and that is newer than the current one by (NotBefore, NotAfter) |
| IdentityRotation.IdentityRotationService.HandleExternalRotation | internal/core/application/identity_rotation_service.go:306-338 | the same for an SVID from outside |
| IdentityRotation.IdentityRotationService.CheckAndRotateIfNeeded | internal/core/application/identity_rotation_service.go:224-250 | rotates exactly when the leaf ends within the threshold |
| CacheEntry.Entry.RemainingTtlAt | internal/core/domain/cache.go:91-97 | positive exactly while fresh, and then the time to expiry |
| SourceAdapter.FetchesAreSpaced | internal/adapters/secondary/transport/grpc_provider_rotatable.go:240-289 | with any number of callers and no invalidation between, a fetch begins at least one TTL after the previous value was stored |
| SourceAdapter.ReturnedValuesAreCurrent | internal/adapters/secondary/transport/grpc_provider_rotatable.go:240-334 | every returned value was fetched by this call or stored less than one TTL ago |
| SourceAdapter.ZeroTtlReachesProvider | internal/adapters/secondary/transport/grpc_provider_rotatable.go:349-362 | while the TTL is zero every answer comes from the provider |
| SourceAdapter.LooksAnswerIff | internal/adapters/secondary/transport/grpc_provider_rotatable.go:240-334 | a look answers a caller if and only if the latest fetch of its kind since the last invalidation has not run out, and with that one; else the first look leads to the lock and the second to the provider |
| SourceAdapter.LockIsReleased | internal/adapters/secondary/transport/grpc_provider_rotatable.go:240-334 | in every run the lock is held exactly by a caller at work under it, so every answer and every failure releases it |
| SourceAdapter.EpochCountsClears | internal/adapters/secondary/transport/grpc_provider_rotatable.go:338-362 | values are invalidated by an invalidation or a TTL of zero and by nothing else |
| SourceAdapter.StepAgreesIff | internal/adapters/secondary/transport/grpc_provider_rotatable.go:292-334 | a caller is given its own trust domain's bundle if and only if the cached bundle is stale or was fetched for that domain |
| SourceAdapter.BundleAgreesIff | internal/adapters/secondary/transport/grpc_provider_rotatable.go:292-334 | the same for every answer of every run, as it still stands at the end of the run |
| SourceAdapter.SingleDomainBundlesAgree | internal/adapters/secondary/transport/grpc_provider_rotatable.go:292-334 | so all bundle callers get the right bundle when they ask for one domain, whatever SVID callers do |
| SourceAdapter.SecondDomainGetsFirstBundle | internal/adapters/secondary/transport/grpc_provider_rotatable.go:295-298 | a second trust domain gets the first one's bundle |
| SourceAdapter.StepKeepsInvariant | internal/adapters/secondary/transport/grpc_provider_rotatable.go:240-362 | each step keeps the cells equal to the latest fetch, one fetcher at a time, and fetches spaced |
| AdapterObject.SourceAdapter.GetX509Svid | internal/adapters/secondary/transport/grpc_provider_rotatable.go:240-289 | a fresh cache answers unchanged at either look; otherwise the call succeeds with an ID exactly if the provider answered with a leaf whose first spiffe URI parses to that ID, and only a success is cached |
| AdapterObject.SourceAdapter.GetX509BundleForTrustDomain | internal/adapters/secondary/transport/grpc_provider_rotatable.go:292-334 | the same for bundles, labelled with the trust domain asked for, whose authorities are deduplicated |
| AdapterObject.SourceAdapter.InvalidateCache | internal/adapters/secondary/transport/grpc_provider_rotatable.go:338-346 | nothing is fresh afterwards, at any time |
| AdapterObject.SourceAdapter.SetCacheTtl | internal/adapters/secondary/transport/grpc_provider_rotatable.go:349-362 | zero empties the cache, any other TTL leaves cached values to theirs |
| AdapterObject.BuildCertificateChain | internal/adapters/secondary/transport/grpc_provider_rotatable.go:386-412 | the chain is the first-wins deduplication of leaf and intermediates by raw bytes |
| AdapterObject.ChainIsDeduplicated | internal/adapters/secondary/transport/grpc_provider_rotatable.go:386-412 | it starts with the leaf, repeats no raw certificate and drops none |
| AdapterObject.ChainKeepsOrder | internal/adapters/secondary/transport/grpc_provider_rotatable.go:386-412 | and keeps the order of the intermediates |
| AdapterObject.ExtractsIff | internal/adapters/secondary/transport/grpc_provider_rotatable.go:366-381 | an ID is extracted if and only if it is not empty and what the first URI of scheme spiffe parses to |
| AdapterObject.SvidFromIff | internal/adapters/secondary/transport/grpc_provider_rotatable.go:260-286 | when a provider's answer yields an SVID with a given ID, with which chain, and what each error means |
| AdapterObject.BundleFromIff | internal/adapters/secondary/transport/grpc_provider_rotatable.go:311-333 | when it yields a bundle, its label and its authorities, and what each error means |
| CertificateCache.IdentityService.GetCertificate | internal/core/services/identity_service.go:300-370 | serves the cached certificate and counts a hit exactly if it has a leaf and is fresh, valid and not near its end; otherwise drops a rejected one, counts a miss and caches the provider's first answer, or nothing after three errors |
| CertificateCache.IdentityService.FetchCertificateWithRetry | internal/core/services/identity_service.go:540-580 | stops at the first success, within three attempts, and fails only after three errors |
| CertificateCache.CacheHitsAreSound | internal/core/services/identity_service.go:305-337 | a certificate served from the cache is that of the latest fetch, was stored less than one TTL ago, passes the check and ends later than the refresh threshold from now |
| CertificateCache.HitIff | internal/core/services/identity_service.go:305-337 | in every run a call is served from the cache if and only if the latest fetch brought a certificate with a leaf that no call since turned away, younger than the TTL, valid, and ending later than the refresh threshold from now |
| CertificateCache.ServedFromCacheIff | internal/core/services/identity_service.go:305-337 | the same for one call on any state of the cache, with what it counts and keeps |
| CertificateCache.CacheHoldsLastFetch | internal/core/services/identity_service.go:305-369 | the cache holds the certificate of the latest fetch until a call finds it fresh and turns it away |
| CertificateCache.HitsAreServedFromCache | internal/core/services/identity_service.go:327-340 | recorded hits are the calls served from the cache, recorded misses the others |
| CertificateCache.CachedIsLastFetched | internal/core/services/identity_service.go:365-369 | what is cached comes from the latest fetch, under its time and the TTL |
| CertificateCache.MissesAskProvider | internal/core/services/identity_service.go:339-369 | every other call that is served gets the provider's first answer to it, and a call is unavailable exactly when it is no hit and all three answers are errors |
| CertificateCache.HitsPlusMisses | internal/core/services/identity_service.go:327-340 | recorded hits and misses add up to the calls |
| CertificateCache.PanicsIff | internal/core/services/identity_service.go:350-357 | a call panics exactly when a cached wrapper without leaf has gone stale and the provider answers |
| CertificateCache.PanicIsReachable | internal/core/services/identity_service.go:350-357 | two calls from an empty cache lead there, for every configuration |
| LockedRead.MissBlocksForever | internal/core/services/identity_service.go:300-303 | after a miss no call moves again, in any continuation |
| LockedRead.NoCallEverReturns | internal/core/services/identity_service.go:300-370 | the cache starts empty and only a finished fetch fills it, so in no run does any call return |
| LockedRead.OnlyHitsReturn | internal/core/services/identity_service.go:540-544 | even from a filled cache no miss gets past the read lock |
| LockedRead.WarmCallReturns | internal/core/services/identity_service.go:305-337 | and hits do: from a filled cache and a free lock the next call can return |
| Dedup.CollectFirst | internal/core/domain/trust_bundle.go:327-346 | the collecting loop yields the first-wins deduplication of all non-nil entries |
| Dedup.NonNilPositions | internal/core/domain/trust_bundle.go:327-346 | the entries that are not nil are kept, all of them, in order |
| Dedup.FirstWinsPositions | internal/core/domain/trust_bundle.go:327-346 | what is left is a stable selection of first occurrences |
| Dedup.FirstWinsKeepsKeys | internal/core/domain/trust_bundle.go:327-346 | no key is lost |
| Dedup.FirstWinsDistinct | internal/core/domain/trust_bundle.go:327-346 | no key is left twice |
| Dedup.FirstWinsAssociative | internal/core/domain/trust_bundle.go:317-350 | merging lists this way is associative |
| TrustBundle.Validate | internal/core/domain/trust_bundle.go:70-121 | reports the first defect in order, and none exactly for a non-empty list of distinct, current CA certificates |
| TrustBundle.VerdictSays | internal/core/domain/trust_bundle.go:70-121 | an error is reported if and only if what it says holds: the first bad certificate, and the first thing wrong with it in the order nil, repeated key, no CA, not yet valid, expired |
| TrustBundle.CreatedSays | internal/core/domain/trust_bundle.go:41-67 | a refused construction names the first entry that is nil or no CA, and only without one what validation says |
| TrustBundle.NewTrustBundleWithValidation | internal/core/domain/trust_bundle.go:41-67 | with validation succeeds exactly on valid lists and keeps them; without it accepts everything |
| TrustBundle.MergeBundles | internal/core/domain/trust_bundle.go:317-350 | validates the deduplicated concatenation; a nil argument is refused |
| TrustBundle.MergedOkIff | internal/core/domain/trust_bundle.go:317-350 | a merge succeeds if and only if something is left and all that is left is a current CA |
| TrustBundle.MergeIsLeftBiasedUnion | internal/core/domain/trust_bundle.go:317-350 | its keys are the union, each once, the first bundle's in front |
| TrustBundle.MergeKeepsOrder | internal/core/domain/trust_bundle.go:317-350 | what is left stands in the order of the two bundles |
| TrustBundle.MergeFailsBecause | internal/core/domain/trust_bundle.go:317-350 | a failed merge says that nothing is left, that something left is no CA, or which is the first that is not current |
| TrustBundle.MergeOfValidIsValid | internal/core/domain/trust_bundle.go:317-350 | bundles valid at one instant merge into a valid one |
| TrustBundle.SelfMergeIsIdentity | internal/core/domain/trust_bundle.go:317-350 | merging a valid bundle with itself gives it back |
| TrustBundle.MergeAssociative | internal/core/domain/trust_bundle.go:317-350 | both ways of merging three bundles agree, down to the error, when both inner merges succeed; if one way succeeds the other does exactly when its inner merge does |
| TrustBundle.MergesAgreeIff | internal/core/domain/trust_bundle.go:317-350 | the two ways agree on success if and only if the deduplicated whole is unsound anyway, or the first two bundles hold a certificate exactly when what is left of the last two is sound |
| TrustBundle.LeftSucceedsWithRight | internal/core/domain/trust_bundle.go:317-350 | where merging to the right succeeds, merging to the left does unless the first two bundles are empty |
| TrustBundle.ShadowedExpiryBreaksAssociativity | internal/core/domain/trust_bundle.go:317-350 | three bundles for which only one way succeeds |
| Paths.SlashPrefixIff | internal/core/domain/identity_namespace.go:184-189 | one path continues another past a slash exactly when its segments continue the other's |
| IdentityNamespaces.AcceptedIffInGrammar | internal/core/domain/identity_namespace.go:67-99 | a string is accepted if and only if it is a trust domain followed by valid segments or a lone slash, and its printed form fits |
| IdentityNamespaces.ValidPathIff | internal/core/domain/identity_namespace.go:41-49 | the path check accepts exactly the joins of valid segments |
| IdentityNamespaces.ParsedAsParts | internal/core/domain/identity_namespace.go:67-99 | a string with the scheme is read as a trust domain and a path, a lone slash and none alike, and a refusal names the first part that is wrong |
| IdentityNamespaces.NoSchemeRefused | internal/core/domain/identity_namespace.go:67-83 | the empty string and a string without the scheme are refused for just that |
| IdentityNamespaces.BuiltIff | internal/core/domain/identity_namespace.go:31-62 | building from parts succeeds exactly for a valid trust domain, a path that is empty, a lone slash or valid segments, and a printed form that fits; else it names the first part that is wrong |
| IdentityNamespaces.RoundTrip | internal/core/domain/identity_namespace.go:67-137 | parsing what a parsed namespace prints gives it back, and printing gives the string back except that a bare trust domain gains its slash |
| IdentityNamespaces.ParsedIffCanonical | internal/core/domain/identity_namespace.go:67-99 | the namespaces that parsing yields are exactly those with a valid trust domain, a root or valid path, and a printed form that fits; the laws below are about them |
| IdentityNamespaces.CanonicalReparses | internal/core/domain/identity_namespace.go:67-137 | each of them is what its printed form parses to |
| IdentityNamespaces.PrintIsInjective | internal/core/domain/identity_namespace.go:132-137 | parsed namespaces that print alike are equal |
| IdentityNamespaces.BuiltRoundTripsIff | internal/core/domain/identity_namespace.go:31-62 | a namespace built from parts survives the round trip if and only if its path is not empty |
| IdentityNamespaces.IsChildIff | internal/core/domain/identity_namespace.go:175-190 | the string test means: same trust domain, and the parent is the root or a proper prefix of segments |
| IdentityNamespaces.ChildIsTransitive | internal/core/domain/identity_namespace.go:175-190 | transitive |
| IdentityNamespaces.ChildIsIrreflexiveBelowRoot | internal/core/domain/identity_namespace.go:175-190 | a namespace is its own child only at the root |
| IdentityNamespaces.ChildIsAntisymmetric | internal/core/domain/identity_namespace.go:175-190 | children of each other are one root |
| IdentityNamespaces.AncestorsAreComparable | internal/core/domain/identity_namespace.go:175-190 | two ancestors of one namespace are equal or one is below the other |
| IdentityNamespaces.SegmentsDetermine | internal/core/domain/identity_namespace.go:67-99 | a parsed namespace is its trust domain and its segments |
| IdentityNamespaces.ServiceNameIsLastStep | internal/core/domain/identity_namespace.go:195-209 | the service name is the last step of the path, and only the root has none |

## Left out

- The registry as an object runs one call at a time and `View` reads its connections; callers that write to a connection they were handed are not modelled. Interleavings are the subject of `RotationProtocol`.
- ConnectionRegistry.MTLSConnectionRegistry.EstablishConnection: identities are taken to be non-nil; a nil one panics in the log line after the registration, as in those of `CloseConnection` and `RotateConnection`.
- A rotation that panics for want of an old certificate ends the program; in the step machine its monitor just goes idle, so every run up to that point is covered.
- Log statements elsewhere that dereference a nil certificate are not modelled.
- The message of a server timeout speaks of the grace period; servers and listeners are waited for until the force deadline, clients without any (`internal/shutdown/coordinator.go:205-207`, `:241`), and error texts are not modelled.
- `EstablishConnection` reads the clock twice in a row; the model uses one instant. `Validate` reads it once per certificate, a status or sweep once per check; the model uses one instant.
- Age checks use exact differences; Go's saturating durations are not modelled.
- The monitor of a connection is started by `EstablishConnection` and may check at any time; its context being cancelled only removes steps.
- `SetRotationPolicy` is covered by letting every check use any policy.
- `addError` appends from goroutines without a lock; the model takes each append as atomic.
- The callbacks `OnShutdownStart` and `OnShutdownComplete`, the drain timeout and the grace context, which nothing waits on.
- `MaxConcurrentRotations` is reported and never enforced; the model has no bound.
- The client rotation is part of the step machine (role `Client`); as an object only the server side is written out, the client side being the same without a stop.
- Rotation jitter, and the gap between reading and rotating in `checkAndRotateIfNeeded`: the rotation itself is the operation `Rotate`.
- Callback goroutines are launched in commit order; when each one runs is not modelled.
- `getTrustBundle` has the shape of `getCertificate` without the validity check and the refresh threshold.
- Retry delays, metrics other than the hit and miss counts, and logging.
- `Certificate.Validate`, key and chain verification: predicates given as parameters.
- The SPIFFE library is not part of this repository; its parser follows the SPIFFE-ID standard (sections 2.1, 2.2, 2.3), and the bound on the trust domain is a parameter of every theorem. Strings are sequences of characters; every accepted string is ASCII, so lengths in characters and bytes agree.
- `ServiceName`, `SocketPath` and `ServiceAddress` validation, enum tables, configuration loading, transports, health monitoring, the other architecture tests and the test that builds the import graph.
