# servicectl: a verified model of its control plane

servicectl drives services through Dinit and s6. This project models the parts of it that carry
state machines, graph algorithms, protocols and codecs, and proves what they promise for every input,
every run and every interleaving.

- **Enabled-service graph** (`Topology`, `EnabledDag`, `Discovery`, `EnabledDagBuilder`, `GroupOrder`): the worklist
  closure over unit dependencies, its discovery order, the three-colour topological sort, the start
  order of one group.
- **Lifecycle normalizer** (`Lifecycle`): snapshots become events; the generation is a version stamp.
- **cgroup tracker** (`Migration`, `UnitNames`, `Reservation`, `Scheduler`): moving a process tree into its group,
  native reservations, and the scheduler of timers, workers and events.
- **Dinit control stream** (`DinitStream`): replies, cancellation and redialing.
- **D-Bus activation** (`ActivationEngine`, `ActivationLaws`, `ActivationCodec`, `EnvironmentCodec`):
  single-flight jobs and the binary protocol.
- **Status topology** (`PrimaryPath`, `StatusView`, `NodeId`, `Manifest`): the two graph validators, the
  canonicalizing finalizer, and the way from a manifest to a finalized model.
- **Spill log, command lines, attach limit** (`SpillLog`, `CommandLine`, `AttachBucket`).

`Sorting`, `Text` and `Options` hold what these share: sorting by a comparator, Go's string primitives,
and optional values.

## How it is modelled

Code that updates objects or loops over slices is imperative here too: classes for the service graph,
the depth-first search, the normalizer, the spill manager and the attach server, methods with loops
elsewhere, each proved against a specification function about which the laws are stated. Map iteration
picks an arbitrary element, so results that do not depend on it are proved not to. Concurrent code is a
state machine with one step per lock-protected section or channel operation; its theorems are about
every sequence of enabled steps, and where a theorem says that something was answered or observed, the
answer itself is in the recorded history. The kernel, the Dinit server, timers and clocks answer as they
like: a tape of answers, one per tick of a clock, in `Migration`, step parameters elsewhere. The message
bus of the activation engine is part of its state.

## Where the code is weaker than one would expect

Except for the attach bucket, these are exact conditions, proved in both directions.

- A reserved cgroup can be lost: its directory may be the legacy, base64-encoded directory of another
  unit, and the legacy migration then renames it away while it is still reserved. It is safe exactly if
  the program's own reader of legacy directories refuses the name (`ReservationExact`,
  `AmbiguousExample`).
- A bare Dinit `Client` can, between the closing of its done channel and of its connection, take the
  reply of a cancelled request for a new one. The controller redials and is safe (`BareReuseExact`,
  `BareClientWindow`, `RepliesMatch`).
- The environment encoder writes keys and values that the decoder refuses (`EnvironmentRoundTrip`). The
  decoder alone accepts payloads over 64 KiB, which the encoder refuses (`EnvironmentBytesRoundTrip`,
  `LargePayloadLost`); behind the packet decoder that cannot happen (`PacketEnvironmentRoundTrip`).
- `dinitArg` leaves an argument unquoted when an apostrophe is its only special character, and the
  splitter takes that apostrophe for a quote (`QuoteSplitRoundTrip`, `UnsafeWordLost`).
- The hint comparator is no order when an unhinted name lies between two hinted ones whose hints go the
  other way (`HintOrderExact`, `HintGapExample`). The builder hints every node, so its graphs have no gap
  (`HintLinear`).
- The attach bucket's bound is relative to the latest time of the window, where it is attained for every
  first and latest time (`RateLimit`, `RateLimitTight`), and not to the last (`LastTimeIsNotEnough`).
- Normalization also changes names that end in `.service` already: one with a further suffix or blanks
  before the suffix, and the session manager alias. `NormalizeFixed` says exactly which ones stand.

## Model

| member | source | states |
|---|---|---|
| Topology.TopologicalSort | enabled_dag.go:149-187 | On distinct, dependency-closed nodes the three-colour search succeeds if and only if the dependency relation is acyclic; then it emits a duplicate-free permutation of the nodes with every dependency before its dependents; a reported cycle is a node that really depends on itself |
| Topology.VisitCorrect | enabled_dag.go:157-180 | Every recursive visit keeps the search invariant: active names are exactly the recursion stack and form a dependency path, finished names are exactly the emitted ones, in dependency order |
| Topology.OrderRespectsDependsOn | enabled_dag.go:149-187 | In a duplicate-free dependencies-first order, a transitive dependency of any length stands strictly before its dependent |
| EnabledDag.Search.Visit | enabled_dag.go:157-180 | The recursive closure over shared marks and a shared result refines the pure depth-first search, including which name a cycle is reported at |
| EnabledDag.Search.VisitEach | enabled_dag.go:172-185 | The loop over names refines the pure search of the whole list and stops at the first cycle |
| EnabledDag.ServiceDag.CollectDeps | enabled_dag.go:165-171 | The dependencies of a node come out in one order, whatever order the map iteration took |
| EnabledDag.ServiceDag.TopologicalServices | enabled_dag.go:149-187 | The result is a function of the graph alone: the pure search over the nodes in discovery order, independent of map iteration order, then reduced to unique lines |
| EnabledDag.HintLinear | enabled_dag.go:189-206 | On names that all have a hint, as in every built graph, there is no gap, so sorting has one possible result |
| EnabledDag.CompareExact | enabled_dag.go:189-206 | The comparison is antisymmetric, is zero for equal names only, and goes by the hints when both names have different ones and by the names otherwise |
| EnabledDag.HintOrderExact | enabled_dag.go:189-206 | The comparator is a linear order on some names if and only if no unhinted name lies, as a string, between two hinted ones whose hints go the other way |
| EnabledDag.HintGapExample | enabled_dag.go:189-206 | Such a gap exists: a, b and c with only a and c hinted, the wrong way round; no graph the builder makes has one |
| EnabledDag.UniqueLinesPreserveOrder | enabled_dag.go:237-249 | The loop keeps the first occurrence of every non-blank trimmed line, in order |
| EnabledDag.LinesRoundTrip | enabled_dag.go:186-186 | Joining the order with newlines and splitting it again changes nothing if and only if every name is a non-blank trimmed line |
| EnabledDag.NormalizeIsLine | enabled_dag.go:21-35 | Every normalized name is such a line whenever the raw name has no newline inside, so normalized graphs meet that condition |
| EnabledDag.NormalizeFixed | enabled_dag.go:21-35 | A name ending in .service is left alone by normalization if and only if its stem ends neither in blanks nor in another .service and is not the session manager alias of a host with wireplumber |
| EnabledDag.NormalizeBare | enabled_dag.go:21-35 | A stem in that form, no target and no socket, becomes the service of that stem, whatever blanks surround it |
| EnabledDag.NormalizeEmpty | enabled_dag.go:21-35 | Blank names, targets, sockets and a bare .service are dropped |
| EnabledDag.LooseIsMentioned | enabled_dag.go:135-143 | What a unit loosely depends on is exactly what it mentions in Requires, Wants, After, BindsTo or PartOf |
| EnabledDag.ServiceDag.Discover | enabled_dag.go:46-66 | A name is listed once, hinted by its discovery position, and the graph stays valid |
| EnabledDag.ServiceDag.AddDependency | enabled_dag.go:112-121 | One raw dependency becomes an edge exactly if it normalizes to a service other than the node itself, and its target is appended to the nodes if it is new |
| EnabledDag.ServiceDag.AddDependencies | enabled_dag.go:108-122 | After the inner loop the node's edges are exactly its accepted dependencies, and the nodes are the old ones followed by the new names in the order the unit lists them |
| EnabledDag.ServiceDag.ProjectOrchestrdDependencies | enabled_dag.go:208-235 | An owner depends on another owner exactly when a direct edge joins services of these two different owners |
| EnabledDagBuilder.SortedGroupNames | enabled_dag.go:69-73 | The group names come out strictly ascending, complete and in the one order that depends on the groups alone |
| EnabledDagBuilder.AddRoots | enabled_dag.go:55-90 | The initial nodes are exactly the normalized roots in their one order; a standalone root owns itself, any other belongs to the alphabetically first group that names it |
| EnabledDagBuilder.Expand | enabled_dag.go:92-123 | One turn of the worklist keeps: only truly enabled nodes are listed, and all looked-up nodes have exactly their direct dependencies |
| EnabledDagBuilder.BuildEnabledServiceDag | enabled_dag.go:37-126 | The worklist terminates; its nodes are the least set that holds the normalized roots and is closed under what found units name in Requires, Wants, After, BindsTo or PartOf, listed in a discovery order that is a function of the inputs; the edges of a found unit are exactly the non-empty names other than its own that such an entry normalizes to, owners are as declared; it fails exactly at the first service in that order that cannot be loaded |
| Discovery.ExploredStable | enabled_dag.go:92-123 | Once every discovered service has been looked up the discovery order stands, so it is the same however it was reached |
| Discovery.ListDepsIsRaw | enabled_dag.go:108-122 | New names are listed unit by unit in the order Requires, Wants, After, BindsTo, PartOf |
| Discovery.GraphOrder | enabled_dag.go:149-187 | The topological order of a built graph is the one its services and unit files determine |
| GroupOrder.PathsAreChains | enabled_dag.go:92-123 | Paths in the built graph and chains of dependencies in the unit files are the same relation |
| GroupOrder.EnabledOrder | enabled_dag.go:149-187 | The order exists if and only if no enabled service needs itself through the unit files; then it lists exactly the enabled services, needed before needing |
| GroupOrder.Restrict | group_order.go:10-41 | The result lists each normalized member once: first a subsequence of the graph order, then only members outside the graph, in the group's order |
| GroupOrder.ResolveGroupStartOrder | group_order.go:5-42 | Each normalized member exactly once; of two enabled members where one transitively needs the other the needed one first, in particular what a member names in Requires, Wants, After, BindsTo or PartOf before that member; every error names a real cause; the whole result is a function of host, roots, unit files and group |
| GroupOrder.PlainNamesAreLines | enabled_dag.go:21-35 | With the program's own normalizer and raw names without newline, every enabled name is a line of text, which is what the dependency order asks for |
| Lifecycle.VersionStamp | cmd/sysvisiond/main.go:159-225 | At any two moments of a run from an empty normalizer a unit's generation never fell, even if the unit vanished in between, and an equal generation means equal lifecycle, main PID and start time |
| Lifecycle.RunLaw | cmd/sysvisiond/main.go:159-225 | Over any operations a unit is never forgotten, its generation rises by exactly the number of its events, and with no event its record is unchanged |
| Lifecycle.RunGrammar | cmd/sysvisiond/main.go:159-225 | A unit's events follow Ready, MainPIDChanged*, Stopped, repeated, carry consecutive generations, and end open exactly when the unit is up |
| Lifecycle.RunOfUpdates | cmd/sysvisiond/main.go:159-225 | For a run of updates from the start: the grammar holds, the k-th event carries generation k, and the unit's generation is its number of events |
| Lifecycle.RunStep | cmd/sysvisiond/main.go:159-225 | A run extended by one update is the run of the longer operation list, in records and in events, so the laws cover every run of updates |
| Lifecycle.UpdateOnce | cmd/sysvisiond/main.go:159-225 | With distinct names an update emits at most one event per unit |
| Lifecycle.UpdateRecord | cmd/sysvisiond/main.go:163-235 | The record an update leaves for any unit is stated on the snapshot fields alone, also when a name occurs twice: the last snapshot that names it decides, and without one an earlier Ready record is stopped |
| Lifecycle.UpdateEvents | cmd/sysvisiond/main.go:163-253 | With distinct names a unit has exactly one event if its up-ness changed or its process changed while up, and none otherwise; the event's kind, PID, start time and generation are those of the change |
| Lifecycle.StampsFinal | cmd/sysvisiond/main.go:195-206 | Each returned snapshot carries the plane's UID and epoch and its own unit's final start time, generation and phase |
| Lifecycle.Normalizer.Observe | cmd/sysvisiond/main.go:163-206 | The loop over the snapshots folds the operations into the records and collects, unit by unit, exactly their events and stamps |
| Lifecycle.Normalizer.SweepUnseen | cmd/sysvisiond/main.go:207-221 | The loop over unseen records stops each ready one exactly once, in any iteration order |
| Lifecycle.Normalizer.Update | cmd/sysvisiond/main.go:159-253 | Every unit's record is Ready with the snapshot's PID and start time if its last snapshot has a PID, a non-zero start time, state started and, when managed by sys-notifyd, phase ready, and is otherwise Stopped with zeroes; an unseen unit is never Ready; with distinct names an event is returned if and only if readiness changed or, while up, PID or start time did, of the kind and with the fields that follow, and the returned snapshots carry the final records' stamps, sorted by name |
| Migration.Descendants | internal/cgrouptrack/proc.go:199-226 | The result is exactly the set of PIDs reachable from the root by parent links, each once, every parent before its children |
| Migration.MoveAndVerify | internal/cgrouptrack/migrate.go:160-196 | A process counts as moved only on a matching second inspection, a third one after the move and membership after that; a cancelled context is reported, and full evidence with an ascending member list is accepted |
| Migration.ProcessSnapshot | internal/cgrouptrack/migrate.go:122-146 | The loop yields the inspected processes sorted by PID, without vanished ones and, in user mode only, without those of other users, and fails exactly when the main process cannot be inspected |
| Migration.SnapshotExact | internal/cgrouptrack/migrate.go:122-158 | A process is in a snapshot if and only if a listed PID was inspected to it at its tick and, in user mode, it belongs to the service's user; there is a snapshot if and only if the list could be read and every inspection of the main PID succeeded |
| Migration.DescendantExact | internal/cgrouptrack/proc.go:199-226 | Reachability inside a snapshot is a chain of parent links between processes the kernel reported at that time |
| Migration.SnapshotOwned | internal/cgrouptrack/migrate.go:122-146 | In user mode a snapshot holds only processes of the service's user |
| Migration.MoveNew | internal/cgrouptrack/migrate.go:102-115 | A round only extends the moved list, without duplicates, by processes that stood below the main process in a completed snapshot and were verified afterwards |
| Migration.Rounds | internal/cgrouptrack/migrate.go:76-119 | Tracked is returned only with a final snapshot taken before the deadline and after every move, with nothing done after it, in which nothing below the main process is missing from the moved list; Degraded only if a snapshot failed; Partial only at the deadline or when every one of the allowed rounds met a process not moved before |
| Migration.Migrate | internal/cgrouptrack/migrate.go:37-120 | A Tracked result lists the main PID first, no PID twice, only the main process of the first inspection and processes seen below it in an earlier snapshot, each verified as a member of the ensured group with unchanged start time and UID (the service's own in user mode); all of that was over when the last snapshot was taken, the last thing done, and every process the kernel then reported that descends from the main PID by parent links is in the list, of other users too unless in user mode; Degraded and Partial have the failed call, the deadline or eight busy rounds as their cause |
| Migration.VerifyNative | cmd/sys-cgroupd/native.go:91-108 | A native service is Tracked if and only if its group lists the main PID and that process has the identity's start time; otherwise it is Degraded |
| Reservation.InvStep | cmd/sys-cgroupd/native.go:15-90 | Every atomic step of every thread keeps mutual exclusion and the rule that a held key is native except while its own Release commits |
| Reservation.ReservationKept | cmd/sys-cgroupd/native.go:15-90 | No step but a legacy rename removes the group of a native or held key |
| Reservation.PopulatedKept | internal/cgrouptrack/cgroupfs.go:174-288 | No step but a legacy rename removes a populated group or, apart from processes coming and going by themselves, a process from it, and a rename keeps its processes together in the canonical group |
| Reservation.HeldGroupsStand | cmd/sys-cgroupd/native.go:15-90 | Over every interleaving the groups of prepared, unreleased keys stand, unless the reader of legacy directories accepts the group's name |
| Reservation.FreshDaemon | cmd/sys-cgroupd/main.go:312-348 | The same from any daemon start, with whatever groups and native keys an earlier run left |
| Reservation.PrepareAlone | cmd/sys-cgroupd/native.go:15-48 | Prepare undisturbed makes the group if it is missing, keeps its processes if not, and leaves the key native and held |
| Reservation.ReleaseAlone | cmd/sys-cgroupd/native.go:49-78 | Release of an empty or missing group undisturbed removes it and forgets the key, and touches nothing else |
| Reservation.ReleaseRefused | cmd/sys-cgroupd/native.go:49-78 | Release of a populated group changes nothing at all |
| Reservation.ReclaimAlone | cmd/sys-cgroupd/native.go:79-90 | Reclaiming undisturbed removes the group exactly if it is empty and its key is not native |
| Reservation.AmbiguousGroupLost | cmd/sys-cgroupd/main.go:508-519 | For a key whose group is another unit's legacy directory there is a run that prepares it and then loses the group while the key is still native |
| Reservation.ReservationExact | cmd/sys-cgroupd/main.go:443-519 | For every valid key: its prepared group survives every run until its Release if and only if decodeLegacyUnitDirectory refuses the group's name |
| UnitNames.DecodeLegacyExact | internal/cgrouptrack/types.go:81-105 | The reader of legacy directories accepts a directory and finds a key if and only if the key is valid and the directory is its legacy one |
| UnitNames.Base64RoundTrip | internal/cgrouptrack/types.go:81-105 | Decoding an encoded unit name gives every byte back, although the decoder skips line breaks and ignores left-over bits |
| UnitNames.LeafDistinct | internal/cgrouptrack/types.go:59-64 | Different valid keys have different canonical directories |
| UnitNames.DecodeDirectoryExact | internal/cgrouptrack/types.go:66-79 | The reader of canonical directories accepts a directory and finds a key if and only if the key is valid and the directory is its own |
| UnitNames.ValidUnitExact | internal/cgrouptrack/types.go:37-57 | A unit name is valid if and only if it is valid UTF-8 of at most 255 bytes without slash, backslash or control byte, and is a non-empty stem other than . and .. followed by the only .service in it |
| Reservation.AmbiguousExample | internal/cgrouptrack/cgroupfs.go:212-288 | The condition can fail for valid names: YS5zZXJ2aWNl.service has the directory that a.service had in the legacy layout, and its group does not always stand |
| Scheduler.InvRun | cmd/sys-cgroupd/main.go:226-530 | Every interleaving of timers, workers, ready, stop, missing, reconcile and offline steps keeps the invariant over records, workers and history on which the theorems below rest |
| Scheduler.TrackedIsEarned | cmd/sys-cgroupd/main.go:178-310 | After any run a Tracked record was restored from a same-boot registry, or a source answered one worker that exactly the record's present identity is ready, and after that the backend tracked that identity for the same worker |
| Scheduler.LateResultIgnored | cmd/sys-cgroupd/main.go:294-310 | Once an identity is superseded, a result for it changes no record after any further run in which the source does not report that identity ready again |
| Scheduler.OthersInherit | cmd/sys-cgroupd/main.go:226-530 | No other step ever makes a record Tracked that was not Tracked before under the same identity |
| Scheduler.StopSettles | cmd/sys-cgroupd/main.go:312-348 | A stop or missing event, whatever runs between its sections: if the record is still the one it retired, it is gone when the group was read empty, orphaned when it was read populated and degraded when it could not be read; a record that replaced it and all others stand |
| Scheduler.RetireDisarms | cmd/sys-cgroupd/main.go:403-418 | The first section of either event takes the record's timer away, so it cannot fire, and changes nothing else |
| Scheduler.ReadyExact | cmd/sys-cgroupd/main.go:226-255 | A ready event keeps a record of the same identity that has a source and is not offline, degraded or partial, and only sets its source; anything else becomes a pending record of that identity with a timer armed for it and the old timer gone; other records stand |
| Scheduler.ReadyIsMigrated | cmd/sys-cgroupd/main.go:226-310 | Left alone, a ready event leads through timer, worker, query and backend to the backend's answer as the record's state, for every answer, also from a degraded, partial or offline record |
| Scheduler.CheckExact | cmd/sys-cgroupd/main.go:257-272 | A worker goes on exactly if the record of its key still has its identity and is pending |
| Scheduler.QueryExact | cmd/sys-cgroupd/main.go:272-292 | It reaches the backend exactly if there is a source and it answers that this very identity is ready, and ends degraded otherwise |
| Scheduler.UpdateExact | cmd/sys-cgroupd/main.go:294-310 | Its result becomes the record's state exactly if the record has its identity then; no other record changes and the worker is over |
| Scheduler.OnceEach | cmd/sys-cgroupd/main.go:226-506 | In every run each timer fires at most once, each worker reports at most once and each stop, missing or reconciliation visit ends at most once |
| Scheduler.OfflineExact | cmd/sys-cgroupd/main.go:521-530 | Exactly the records of that source that are neither stopped nor orphaned become offline |
| Scheduler.ReconcileExact | cmd/sys-cgroupd/main.go:465-490 | A populated group without a record gets an unknown one, a stopped record with a populated group becomes orphaned, and no other record changes |
| Scheduler.AdoptExact | cmd/sys-cgroupd/main.go:479-489 | The same after anything happened between the two locks: the unknown record replaces whatever is there by then, a stopped record is orphaned only if it is still the same one |
| Scheduler.RependExact | cmd/sys-cgroupd/main.go:491-505 | A tracked record with a source and a valid identity whose group was not met is pending again with a fresh timer; every other record stands |
| DinitStream.InvStep | internal/dinit/client.go:236-269 | Every step keeps: a live idle stream owes nothing, a waiting request is owed exactly the rest of its own answer, a stream on which a request gave up has failed |
| DinitStream.RepliesMatch | internal/dinit/client.go:236-269 | In every run through the controller each reply taken belongs to the request that takes it |
| DinitStream.CancelledServesNoMore | internal/dinit/controller.go:75-91 | Once a request on a stream was given up, every reply taken in any continuation comes from a stream dialed after it |
| DinitStream.ServedAlone | internal/dinit/client.go:236-269 | Undisturbed, a request through the controller takes all its replies in order, its own and no others, on the present stream if that is usable and on a new one if not |
| DinitStream.OneStream | internal/dinit/controller.go:75-91 | As long as no stream fails and no client is discarded everything runs on the first stream: the controller redials only when it has to |
| DinitStream.BareReuseExact | internal/dinit/client.go:236-269 | Reusing a bare client with a reply still owed to an earlier request can hand that reply to the new request if and only if the connection is not closed yet |
| DinitStream.BareClientWindow | internal/dinit/client.go:123-125 | That state is reachable: between closing the done channel and closing the connection |
| ActivationEngine.InvRun | internal/dbusactivation/engine.go:74-182 | Every interleaving with the bus keeps: the table names exactly the live jobs, jobs agree with what they were told, and callers stay with the job they joined |
| ActivationEngine.SingleFlight | internal/dbusactivation/engine.go:74-116 | In every interleaving two live jobs for one bus name are the same job, so starter calls for a name never overlap |
| ActivationEngine.NewJobOnlyAfterPublish | internal/dbusactivation/engine.go:89-116 | A further job for a name is created only after every earlier one has published |
| ActivationEngine.JobsPersist | internal/dbusactivation/engine.go:106-116 | A published result is never written again |
| ActivationEngine.CallersGetTheirResult | internal/dbusactivation/engine.go:89-104 | A caller that joined a job returns that very job's result, published after the join, or its own context was cancelled; it joined no other job |
| ActivationEngine.SuccessMeansOwner | internal/dbusactivation/engine.go:81-181 | Success means that the bus told the caller, or the job it joined, of an owner of the name, and that the bus had given the name one |
| ActivationEngine.OwnerNotMissed | internal/dbusactivation/engine.go:124-165 | Watch before recheck: while a job waits after its recheck, an owner of its name that is there now stands in its queue of changes |
| ActivationEngine.QueuedOwnerSucceeds | internal/dbusactivation/engine.go:152-166 | From there, taking the queued changes in order ends the job with Success |
| ActivationEngine.StopExactlyOnce | internal/dbusactivation/engine.go:141-182 | The deferred Stop, guarded by the variable succeeded, runs exactly once for a job that started a stoppable service and published anything but Success, and never for any other |
| ActivationEngine.ResultsExplained | internal/dbusactivation/engine.go:74-197 | In every interleaving each code a caller gets has its cause in what the bus, the resolver, the starter, the child or the deadline said to it or to the job it joined |
| ActivationLaws.ResultExact | internal/dbusactivation/engine.go:118-197 | And conversely: what a job was told decides its code and no other, and without such a fact the child has exited, by a signal or not as the code says |
| ActivationLaws.AnswersTrue | internal/dbusactivation/engine.go:81-181 | Each answer about an owner stands in the history where it was true |
| ActivationLaws.JobStepsBounded | internal/dbusactivation/engine.go:106-182 | In every run of any length a job takes at most eight steps and one more for each ownership change meanwhile, so no loop of it runs on by itself |
| ActivationLaws.JobNotStuck | internal/dbusactivation/engine.go:106-182 | Until it has published a job always has a next step |
| ActivationLaws.CallersGetOn | internal/dbusactivation/engine.go:81-104 | A caller is answered at once or joins the live job of its name, or a new one if there is none, and returns with that job's result or on its own cancellation |
| PrimaryPath.CountStep | internal/statusview/model.go:354-365 | The degree counters reject an edge exactly when some node would get two successors or two predecessors |
| PrimaryPath.Walk | internal/statusview/model.go:391-400 | From a root the walk never meets a visited node, so the cycle branch is unreachable, and it covers every touched node exactly when the verdict is good |
| PrimaryPath.EndsAtService | internal/statusview/model.go:371-401 | One root, the service as the one terminal and a covering walk: accepted if and only if the primary edges are one simple path ending at the service |
| StatusView.ValidateGraph | internal/statusview/model.go:319-402 | Accepts exactly the graphs with unique IDs, one service, no dangling edge, and primary edges that are absent or one simple path over all nodes they touch, ending at the service |
| StatusView.CountEdges | internal/statusview/model.go:339-366 | The edge loop fails only on a dangling edge or on primary edges that no path can contain |
| StatusView.GoodPermutes | internal/statusview/model.go:319-402 | Validity and the service found do not depend on the order of nodes and edges |
| StatusView.FoldIsWorst | internal/statusview/model.go:475-493 | Folding severities yields failed if any is failed, else degraded if any is degraded, else unknown if any is unknown, else healthy |
| StatusView.AggregateHealth | internal/statusview/model.go:424-450 | The two accumulator loops compute the worst of exactly the healths that count towards orchestration and aggregate |
| StatusView.Finalize | internal/statusview/model.go:299-310 | Succeeds if and only if the graph is good; then nodes and edges are the canonical ones and orchestration, aggregate and display are as the input's runtime, other nodes and diagnostics say, in the exact cases below |
| StatusView.FinalizedPermutes | internal/statusview/model.go:495-533 | The canonical form has the same node IDs, the same edges and the same runtime state |
| StatusView.FinalizeIdempotent | internal/statusview/model.go:299-310 | Finalizing a finalized model succeeds and changes nothing |
| StatusView.FinalizeOrderInsensitive | internal/statusview/model.go:299-310 | Any permutation of nodes and edges gives the same finalized model, graph and summary |
| StatusView.AggregateFailedExactly | internal/statusview/model.go:404-450 | The aggregate is failed if and only if the runtime state is failed, whatever the node healths and diagnostics |
| StatusView.AggregateExact | internal/statusview/model.go:404-450 | The aggregate is failed iff the runtime is; else degraded iff another node is failed or degraded or an affecting diagnostic is degraded; else unknown iff the runtime, another node or an affecting diagnostic is unknown; else healthy |
| StatusView.OrchestrationExact | internal/statusview/model.go:424-450 | The same for orchestration, where an orchestration diagnostic can fail it and the runtime does not count |
| StatusView.DisplayExact | internal/statusview/model.go:465-473 | The display text is the runtime state, followed by (degraded) or (unknown) in exactly those cases, and failed when the runtime failed |
| StatusView.NodesExact | internal/statusview/model.go:404-422 | A finalized node is an input node with its health derived: the service's from the runtime state, another node's own, with failed shown as degraded |
| StatusView.FinalizedOrder | internal/statusview/model.go:495-533 | Nodes are strictly ordered by type, scope and ID, edges by source, relation, target type, target scope and target ID, a primary one before its equal |
| NodeId.EncodeIdSegment | internal/statusview/model.go:275-289 | The escaping loop loses nothing (a decoder restores every byte string) and emits no separator |
| NodeId.NodeIdInjective | internal/statusview/model.go:236-247 | Two components share an ID only if they agree on normalized type, scope and identity |
| NodeId.NodeIdExactly | internal/statusview/model.go:236-273 | There is an ID if and only if type and identity are not blank and the scope is system or user@ with decimal digits; it joins the three encoded segments with colons |
| NodeId.SegmentUnchanged | internal/statusview/model.go:275-297 | A segment is left alone exactly if it has only letters, digits, dots, underscores, at signs and dashes |
| Manifest.ValidateConnectivity | internal/visionapi/status_manifest.go:224-244 | The search passes exactly when every component is reachable from the service in the undirected relationship graph |
| Manifest.ValidateHeader | internal/visionapi/status_manifest.go:11-38 | Accepts exactly the complete version 1 manifests whose times, unit, mode, UID and scope fit each other |
| Manifest.DigitsExact | internal/visionapi/status_manifest.go:24-34 | The UID in a user scope is written in decimal digits that read back as it, without leading zero |
| Manifest.ScopeIsCanonical | internal/visionapi/status_manifest.go:24-34 | The scope of an accepted manifest is one that node IDs accept |
| Manifest.ValidateComponent | internal/visionapi/status_manifest.go:82-113 | Accepts exactly a component of a known type with all its parts, whose key is its node ID, in the manifest's scope (sys-cgroupd also in the system's), the service under the manifest's unit name |
| Manifest.RelationUsesNamespace | internal/visionapi/status_manifest.go:209-222 | The switch allows exactly the listed pairs of relation and namespace |
| Manifest.ValidateRelationship | internal/visionapi/status_manifest.go:132-153 | Accepts exactly a relationship between known components in an applicable one of the four namespaces that its relation may use, primary in control only |
| Manifest.ValidateNamespaces | internal/visionapi/status_manifest.go:40-66 | Accepts exactly the four wanted namespaces, each once and complete |
| Manifest.ValidateComponents | internal/visionapi/status_manifest.go:67-116 | Accepts exactly distinct well-formed components with one service, and names it |
| Manifest.ValidateRelationships | internal/visionapi/status_manifest.go:118-173 | Fails only on a malformed or repeated relationship or on primary edges that no path can contain |
| Manifest.ValidateManifest | internal/visionapi/status_manifest.go:11-207 | Accepts exactly the good manifests: header, namespaces, components, relationships, a primary path to the service present exactly when control applies, and connectivity |
| Manifest.AcceptedManifestFinalizes | status_collect.go:305-379 | Every manifest the one validator accepts materializes, for any probe results, into a graph the other validator accepts |
| Manifest.MaterializeStatusModel | status_collect.go:305-379 | One node per component in order, with its probe result or the default, one edge per relationship, and exactly the diagnostics these nodes call for |
| Manifest.CollectStatus | status_collect.go:189-224 | Collection succeeds if and only if the manifest is valid, whatever probes and logs report; all components and relationships are in the result and its aggregate is failed exactly when the runtime is |
| SpillLog.WriteKeepsSuffix | cmd/sys-logd/spill.go:33-53 | A write appends its line and loses nothing but, on rotation, the lines of the last slot |
| SpillLog.WriteStaysBounded | cmd/sys-logd/spill.go:113-140 | Every file stays within the limit or holds a single line |
| SpillLog.MessagesFaithful | cmd/sys-logd/spill.go:171-191 | Replay hands the stored lines over unchanged if and only if all are non-empty and none ends in a carriage return |
| SpillLog.TrimExact | cmd/sys-logd/spill.go:171-191 | Exactly the carriage returns at the end of a line are taken off |
| SpillLog.ReplayedFileLaw | cmd/sys-logd/spill.go:171-191 | One file is handed over as a prefix, and completely exactly when the sink takes it all and every line has fewer than 1048576 bytes |
| SpillLog.ReplayLaw | cmd/sys-logd/spill.go:70-111 | A replay removes a prefix of the stored lines, all of it handed over in order; a successful one delivers exactly everything retained |
| SpillLog.SpillManager.Rotate | cmd/sys-logd/spill.go:142-162 | The renaming loop, top down, moves every file up one slot, loses only the last and closes the handle |
| SpillLog.SpillManager.WriteLine | cmd/sys-logd/spill.go:33-53 | The files afterwards are those of the specified write, and the cached size still matches the file |
| SpillLog.SpillManager.ReplayFile | cmd/sys-logd/spill.go:171-191 | The scanning loop delivers exactly what the specification of one file delivers, and says whether it was all |
| SpillLog.SpillManager.ReplayTo | cmd/sys-logd/spill.go:70-84 | Delivery, removal and the verdict are those of the specified replay, oldest file first |
| SpillLog.RunGood | cmd/sys-logd/spill.go:33-169 | Over any run of writes and replays the stored lines are a contiguous suffix of everything written; the lines that left were rotated past the last slot or delivered, these as a subsequence of the sink, each at its own place and in order; the sink got nothing that was not written; every file stays bounded |
| ActivationCodec.PacketRoundTrip | internal/dbusactivation/protocol.go:95-171 | Every packet that encodes decodes to itself |
| ActivationCodec.PacketBytesRoundTrip | internal/dbusactivation/protocol.go:139-171 | Every accepted byte string is exactly the encoding of the packet it decodes to |
| ActivationCodec.PacketLayout | internal/dbusactivation/protocol.go:95-137 | A packet encodes iff its type is 1 to 8, its flags are zero and its payload has at most 65536 bytes; magic, version, type, request ID, length and flags stand big-endian at their offsets of the 28-byte header |
| ActivationCodec.StringRoundTrip | internal/dbusactivation/protocol.go:367-420 | A written string in front of any bytes is read back with the rest untouched, exactly if it is within the reader's maximum |
| ActivationCodec.ActivateRoundTrip | internal/dbusactivation/protocol.go:173-209 | Every activate request that encodes decodes to itself |
| ActivationCodec.ActivateBytesRoundTrip | internal/dbusactivation/protocol.go:188-209 | Every accepted activate payload re-encodes to the same bytes |
| ActivationCodec.ActivateLayout | internal/dbusactivation/protocol.go:173-186 | An activate request encodes iff its frontend is 1 or 2 and its name is a well-known bus name; frontend, length and name follow each other |
| ActivationCodec.BusNameExact | internal/dbusactivation/protocol.go:323-358 | A bus name is accepted iff it has at most 255 bytes and at least two dot-separated elements, each non-empty, of letters, digits, underscore and dash, not starting with a digit |
| ActivationCodec.ResultRoundTrip | internal/dbusactivation/protocol.go:211-244 | Every result that encodes decodes to itself |
| ActivationCodec.ResultBytesRoundTrip | internal/dbusactivation/protocol.go:225-244 | Every accepted result payload re-encodes to the same bytes |
| ActivationCodec.ResultLayout | internal/dbusactivation/protocol.go:211-223 | A result encodes iff its code is at most 22 and its detail is valid UTF-8 of at most 65535 bytes; code, length and detail follow each other |
| Text.ValidIsEncoded | internal/dbusactivation/protocol.go:367-388 | Every accepted string is the UTF-8 encoding of some code points that are neither surrogates nor beyond the last plane |
| Text.EncodedIsValid | internal/dbusactivation/protocol.go:367-388 | The encoding of any such code points is accepted |
| EnvironmentCodec.EncodeSetEnvironment | internal/dbusactivation/protocol.go:246-280 | The encoder's output is a function of the map: the key iteration order cannot show |
| EnvironmentCodec.EncodesExactly | internal/dbusactivation/protocol.go:246-280 | An environment encodes iff its frontend is 1 or 2, it has at most 256 variables, every key is non-empty without = or NUL, every value has no NUL, both are valid UTF-8 within their length fields, and the payload has at most 65536 bytes |
| EnvironmentCodec.PayloadLayout | internal/dbusactivation/protocol.go:246-280 | The payload is the frontend, the number of variables and then every variable once, keys strictly ascending |
| EnvironmentCodec.EntryLayout | internal/dbusactivation/protocol.go:367-388 | A variable is a two-byte length, the key, a four-byte length and the value |
| EnvironmentCodec.DecodeSetEnvironment | internal/dbusactivation/protocol.go:282-321 | The decoding loop, with its early errors and duplicate check, refines the parse-everything specification |
| EnvironmentCodec.EnvironmentRoundTrip | internal/dbusactivation/protocol.go:246-321 | Decoding an encoded environment gives it back if and only if every key has at most 4096 and every value at most 8192 bytes, and is an error otherwise |
| EnvironmentCodec.EnvironmentBytesRoundTrip | internal/dbusactivation/protocol.go:246-321 | Encoding a decoded environment restores the bytes if and only if the keys stood in strictly ascending order and the payload is within 64 KiB |
| EnvironmentCodec.PacketEnvironmentRoundTrip | internal/dbusactivation/protocol.go:139-321 | For the payload of an accepted packet, encoding what was decoded restores the bytes if and only if the keys ascend |
| EnvironmentCodec.LargePayloadLost | internal/dbusactivation/protocol.go:276-278 | For the decoder alone the size condition is needed: nine ascending variables of 8192 bytes decode but do not encode |
| CommandLine.SplitSystemdCommandLine | servicectl_api.go:317-376 | The byte loop refines the state machine on which the round trip is proved, with its three errors |
| CommandLine.SplitReadsWriting | servicectl_api.go:317-376 | However words are written, as any sequence of plain characters, escapes, single and double quoted parts with any blanks between them, the splitter reads exactly these words |
| CommandLine.SplitErrors | servicectl_api.go:317-376 | Only blanks are an empty command; outside quotes a final backslash is a trailing escape, and an opened quote that is not closed is unterminated |
| CommandLine.CommandText | dinit_gen.go:130-134 | The builder loop yields the quoted arguments joined by single spaces |
| CommandLine.QuoteSplitRoundTrip | servicectl_api.go:317-376 | Splitting the joined quoted arguments gives back the list if and only if it is non-empty and every argument with an apostrophe also needs quotes |
| CommandLine.UnsafeWordLost | dinit_gen.go:28-35 | An argument outside that condition is never read back as itself |
| CommandLine.UnquotedExactly | dinit_gen.go:28-35 | An argument stays as it is iff it is non-empty without blank, tab, line break, double quote or backslash |
| AttachBucket.Server.AllowAttach | internal/cgrouptrack/server.go:399-422 | The decision and the new bucket depend on the caller's own bucket, and no other user's bucket changes |
| AttachBucket.TokensInRange | internal/cgrouptrack/server.go:399-422 | Tokens stay in [0, 4] over every run, also with times going backwards |
| AttachBucket.RateLimit | internal/cgrouptrack/server.go:399-422 | Any window of requests admits at most four plus the seconds from its first time to its latest |
| AttachBucket.RateLimitTight | internal/cgrouptrack/server.go:399-422 | The bound is attained: for every first and latest time a fresh user gets four requests and one more for every full second between them |
| AttachBucket.RateLimitOrdered | internal/cgrouptrack/server.go:399-422 | With ordered times that is four plus the seconds between first and last request |
| AttachBucket.LastTimeIsNotEnough | internal/cgrouptrack/server.go:399-422 | With times going backwards the last time is no bound: from any time, a window that returns to its first time admits five |

## Left out

- Sockets, HTTP, JSON, peer credentials, exec, epoll, procfs and cgroupfs calls: foreign code, kept as free answers.
- Rendering, CLI dispatch, unit-file parsing, s6 generation, user lookup, sys-notifyd: plumbing around the modelled core.
- Acyclicity of the projected orchestrator dependencies: grouping can create owner cycles from an acyclic service graph.
- EnabledDagBuilder.BuildEnabledServiceDag: the lookup is a finite map, so every call for a name answers alike; an error is a failed lookup without its text.
- GroupOrder.ResolveGroupStartOrder: dependency order is promised for raw names without newline, or more generally when all enabled names are lines of text.
- Text: blanks are the ASCII ones and lower-casing is ASCII; names are strings of byte characters, without Unicode folding.
- Lifecycle.Normalizer.Update: the parsed main PID and the three case-folded comparisons are parts of a snapshot; its other fields are left out, and so is the delivery of events to watchers.
- Migration.Migrate: error texts, delays between rounds and the skipped list's contents are left out.
- Migration.VerifyNative: its error texts; the scheduler keeps the backend's result as a free answer.
- Reservation, Scheduler, DinitStream and ActivationEngine: modelled on values, one step per atomic section, so the fields of the source's structs are components of a state and aliasing is not captured.
- Reservation: one fixed backend; `ReplaceGroups` and root recovery, which swap it, are left out.
- Scheduler: retry counters, last errors and timestamps are left out; the last section of ReconcileGroups re-pends its records one step at a time, which allows more interleavings than the code.
- Scheduler: no staleness claim about stop events, since `Stopped` ignores its epoch and generation.
- DinitStream: handle cache, event packets and the polling loop of `Execute` are left out; each of their requests is a request of the model.
- ActivationEngine: the queue of changes is unbounded and nothing in it is dropped; the environment handed to the starter, logging and the detail texts of results are left out.
- ActivationLaws.JobStepsBounded: counts steps, not time; that the scheduler of goroutines is fair is not stated.
- StatusView.ValidateGraph: node IDs are assumed non-empty, as `NewNodeID` makes them; the code uses the empty ID as "no service yet".
- StatusView.Finalize: the same assumption on node IDs; fields that no rule reads are one opaque part of a node.
- StatusView.FindService: the same assumption on node IDs.
- StatusView.CountEdges: the same assumption on node IDs.
- NodeId.NodeIdInjective: for names made of bytes, which Go strings always are.
- Manifest.ValidateManifest: the outcome of parsing generated_at is a flag of the manifest.
- Manifest.CollectStatus: the manifest query and its fallback, and the process start annotations, are left out.
- SpillLog.SpillManager.WriteLine: a message is one line without newline inside; file system calls succeed.
- SpillLog.SpillManager.ReplayTo: writes during a replay are left out, since the lock is released while files are read; a missing and an empty file are one.
- ActivationCodec: reading from and writing to a connection; native byte order is not used by the protocol.
- AttachBucket.Server.AllowAttach: time and tokens are real numbers, without float rounding.
- Integer widths: generations, PIDs and counters are unbounded; the protocol's fields have their exact widths.
