# Skupper, verified

A Dafny model of the parts of Skupper in which several steps have to fit together: the allocation of router
ports by the service controller, the protocols by which sites and containers are changed, and the codecs,
caches and merges around them. The main results are statements about every run, every schedule of failures or
every input. Code that edits state in place is modelled as classes and methods proved against functions of the
old state; the lemmas are about those functions.

| module | models |
|---|---|
| `Ports` | the sorted list of free port ranges, as a refinement of a plain set |
| `Bindings`, `Targets`, `Accounts` | service bindings, their targets, and the accounts of the ports they hold |
| `Controller`, `Recovery`, `Snapshots`, `Refusals`, `ServiceController` | service bindings over any run of configmap snapshots: port safety, conservation, which ports a service holds and recovers, what incremental processing leaves and when that is what batch processing leaves, what becomes of refused entries; `ServiceController.Server` is the object that does it |
| `Containers`, `ContainerSaga` | podman's container store and the replace-a-container saga with its deferred rollbacks |
| `ServiceConfig` | concurrent read-modify-write of the `skupper-services` configmap |
| `RouterUpdate`, `UpdateWindows` | the crash-resumable site update, and the windows in which a crash is not made up for |
| `Streams` | podman's multiplexed streams, and the log reader that strips headers line by line |
| `Informer` | the container cache and the notifications derived from it |
| `Gateway`, `GatewayEdits` | gateway bridge edits, what they leave over any series of calls, export and import |
| `Annotated` | the merge of annotated objects that share an address |
| `Restore` | taking over the ports of a foreign service, recording and restoring them |
| `Links` | connectors and their SSL profiles, driven by tokens |
| `Policy` | the passes that make links follow the cluster policy |
| `Sites` | the site graph as the quotient of the router graph |

Go maps are visited in an arbitrary order: a loop over one is either a loop that picks any remaining key, or
takes the order as a parameter. I/O is a parameter: whether a call fails, what a read returns, what a policy
answers. Integers are unbounded.

## What the code does not do

These follow from the code and are stated as lemmas. Where a property that one would expect fails, a lemma
says exactly when it holds; only the agreement of the two stream readers over several frames is stated one way.

- If the first read of the router's bridge configuration fails, the controller counts as initialised and the
  router's own ports stay in the pool for good (`Controller.ReservedExactlyWhenRead`,
  `Controller.FailedReadIsForGood`).
- A headless or external binding that shrinks releases the last of its ports whether or not they came from the
  pool, which can put a router port into it; one that draws on the pool again takes all its ports for pool ports
  (`Accounts.UpdateKeepsSafeExactlyWhen`, `Accounts.HeadlessShrinkFreesRouterPort`).
- A service that asks for more ports than are free gets none, and all free ports are gone
  (`Recovery.NewServiceHolds`, `Recovery.KnownServiceHolds`).
- When a definition gets or loses an external bridge the old way of exposing it can stay
  (`Bindings.KeptIsRightExactlyWhen`).
- A binding that grows takes as many ports as are required in total on top of those it has; the next update
  gives the surplus back (`Bindings.OneUpdateSettlesExactlyWhen`, `Bindings.RepeatedUpdateSettles`).
- A binding keeps something of earlier definitions: its origin, its first credentials, labels and annotations
  dropped since, an ingress that still matches, and of a selector target its first name and the resolver made
  for it. So incremental processing can leave other bindings than the latest snapshot alone would
  (`Snapshots.RunShowsFields`, `Snapshots.IncrementalEqualsBatchExactlyWhen`, `Snapshots.RenamedIsIgnored`).
- While a definition selects the router, no stale selector target is removed (`Targets.SelectorTargetTells`,
  `Targets.RouterSelectorKeepsTargets`).
- An entry that was refused or got no ports is not tried again while its text is remembered, however policy and
  pool change; an empty snapshot that finds nothing bound does not end that (`Refusals.MemoryLastsExactlyWhen`,
  `Refusals.RefusedStaysRefused`, `Refusals.BroughtBackIsNotLookedAt`).
- A failed container update starts the original even if it was not running before
  (`ContainerSaga.ContainerUpdate`, `Restored`).
- A site of a version from 0.5.0 up to 0.7.0 that uses routes does not get the route for claims
  (`UpdateWindows.NeedsAreMetExactlyWhen`, `UpdateWindows.Version060GetsNoClaimsRoute`).
- An update from below 0.5.0 that stops after it deleted the first of the old names, and before it removed its
  marker, can never be completed (`UpdateWindows.UnstoppedRunCompletesExactlyWhen`,
  `UpdateWindows.StuckExactlyWhen`, `UpdateWindows.Version040GetsStuck`).
- A run that deletes the old cluster role of a site from 0.9.0 on, and stops before it renews the cluster policy,
  leaves the policy as it was for good (`UpdateWindows.PolicyIsRenewedExactlyWhen`,
  `UpdateWindows.Version100KeepsItsPolicy`).
- The log reader returns a frame whole only if it has no control bytes and no newline stands before its last
  byte; after each newline it sees it drops the next eight bytes (`Streams.FrameIsReadExactlyWhen`,
  `Streams.LinesOfAFrameSurvive`).
- A second change of a taken-over service's ports overwrites the record of its original ports; a named target
  port is recorded as 0; a port that the takeover dropped comes back as a TCP port named after its number
  (`Restore.OriginalComesBackExactlyWhen`, `Restore.PortComesBackExactlyWhen`).
- Where the mode of an edge router cannot be inspected the policy is asked about the wrong host of a token
  (`Links.HandledLinkIsAllowedExactlyWhen`).
- A link that exists keeps its SSL profile when its token is replaced by one that calls for another
  (`Links.ProfileIsTheTokensExactlyWhen`).
- Annotated objects that share an address but not their labels or annotations never settle while their events
  alternate (`Annotated.SettlesExactlyWhen`).
- A router that has exactly one of its two listeners keeps exactly one, whatever the policy
  (`Policy.PassesKeepBothOrNeither`, `Policy.ListenersFollowPolicyExactlyWhen`).
- A router restart that fails after the listeners were changed is not tried again
  (`Policy.RouterObeysPolicyExactlyWhen`, `Policy.FailedRestartIsNotMadeUpFor`).
- A connection to an unknown router is taken for a connection to the site with the empty ID
  (`Sites.SymmetricExactlyWhen`, `Sites.UnknownRouterMisleads`).

## Model

| member | source | states |
|---|---|---|
| `Ports.NormalFormIsCanonical` | cmd/service-controller/ports.go:134-192 | two sorted range lists with non-empty ranges and gaps that denote the same ports are the same list |
| `Ports.Extend` | cmd/service-controller/ports.go:36-46 | succeeds exactly when the range and the port together are one range, which it then is; otherwise nothing changes |
| `Ports.Merge` | cmd/service-controller/ports.go:56-87 | succeeds exactly when the union of the two ranges is one range, which it then is; otherwise nothing changes |
| `Ports.RemovePortRange` | cmd/service-controller/ports.go:93-107 | drops exactly the element at the index |
| `Ports.InsertPortRange` | cmd/service-controller/ports.go:109-124 | puts exactly the new element at the index, appends past the end, ignores a negative index |
| `Ports.FreePorts.constructor` | cmd/service-controller/ports.go:25-34 | a new pool is in normal form and holds ports 1024 to 65535 |
| `Ports.FreePorts.Release` | cmd/service-controller/ports.go:134-154 | adds exactly the port, true exactly when it was absent, and keeps the normal form |
| `Ports.FreePorts.Inuse` | cmd/service-controller/ports.go:156-182 | removes exactly the port, true exactly when it was there, and keeps the normal form |
| `Ports.FreePorts.NextFreePort` | cmd/service-controller/ports.go:184-192 | returns and removes the least free port, and fails exactly when there is none |
| `Ports.InuseThenRelease` | cmd/service-controller/ports.go:134-182 | taking a free port and releasing it restores the very same list of ranges |
| `Ports.RunRefinesSet` | cmd/service-controller/ports.go:25-192 | every sequence of calls on a new pool answers as a plain set does, and the list is that set's only normal form |
| `Bindings.TakeIsExact` | cmd/service-controller/controller.go:1045-1051 | asking the pool for n ports gives distinct free ones, and fails exactly when fewer than n are free |
| `Accounts.UpdateKeepsSafeExactlyWhen` | cmd/service-controller/controller.go:1028-1087 | an update keeps held ports distinct, disjoint, not free, not reserved, and all ports accounted for, if and only if it respects `Guard`: a binding that does not draw on the pool releases only ports it holds from the pool, nobody's or free ones, and one that returns to the pool keeps only distinct ports from the pool or nobody's |
| `Accounts.BridgeAndBackIsGuarded` | cmd/service-controller/controller.go:1062-1087 | a pooled binding that turns to an external bridge and back keeps its ports, which are pool ports again, and the accounts stay safe |
| `Accounts.BridgeGivesBackIsGuarded` | cmd/service-controller/controller.go:1074-1082 | an external or headless binding may give back the pool ports it grew by |
| `Accounts.HeadlessShrinkFreesRouterPort` | cmd/service-controller/controller.go:1074-1082 | a headless service that drops port 8080 makes the console's port free |
| `Bindings.OneUpdateSettlesExactlyWhen` | cmd/service-controller/controller.go:1065-1082 | one successful update leaves exactly the required number of ports if and only if the binding had none or at least that many |
| `Bindings.RepeatedUpdateSettles` | cmd/service-controller/controller.go:1062-1087 | the same update again succeeds and leaves exactly the required number of ports; a third changes nothing |
| `Bindings.LabelsFollowExactlyWhen` | pkg/service/bindings.go:213-337 | after an update labels and annotations are the required ones if and only if these cover all the old keys, or there are none |
| `Bindings.NewIngressTells` | cmd/service-controller/controller.go:1005-1017 | which of the five ways of exposing a service a definition calls for, both directions each |
| `Bindings.KeptExactlyWhen` | pkg/kube/serviceingressbindings.go:116-213 | when an update keeps the ingress |
| `Bindings.KeptIsRightExactlyWhen` | pkg/kube/serviceingressbindings.go:116-213 | an ingress that is kept is the one the definition calls for if and only if it goes to a bridge exactly where there is to be one, of that address, and a remote headless one is still of another site |
| `Targets.Egresses.Update` | pkg/service/bindings.go:262-310 | the two loops over the targets leave the table that the lemmas are about |
| `Targets.TableIsPointwise` | pkg/service/bindings.go:262-310 | after any series of definitions each entry of the target table depends on the targets filed under its own key only; service targets are always replaced, because they are looked up under an empty selector |
| `Targets.ServiceTargetTells` | pkg/service/bindings.go:284-310 | a service's entry is always that of the latest definition, and goes with it |
| `Targets.PortsOfTells` | pkg/service/bindings.go:138-147 | a target without ports serves each port of the service at its own number |
| `Targets.SelectsRouterExactlyWhen` | pkg/service/bindings.go:268-270 | the router is selected if and only if its label occurs somewhere in a selector |
| `Targets.SelectorTargetTells` | pkg/service/bindings.go:269-283 | after any series of definitions the entry of a selector is there if and only if since it was made every definition had a target for it or selected the router; its name and resolver are those it was made with, its ports the latest |
| `Targets.NextIsNewExactlyWhen` | pkg/service/bindings.go:262-310 | an update leaves the entry that a new binding would have if and only if `Settled` holds, a condition on the entry before and the targets of its key |
| `Targets.TableIsNewExactlyWhen` | pkg/service/bindings.go:262-310 | a series of definitions leaves the targets of the latest if and only if every entry was settled |
| `Targets.SecondUpdateSettles` | pkg/service/bindings.go:262-310 | the same definition a third time leaves the targets as they are; a second time need not, where a selector replaces a service of the same key |
| `Targets.RenamedTargetKeepsItsName` | pkg/service/bindings.go:277-283 | a selector target that is renamed keeps its first name, which a new binding would not have |
| `Targets.RouterSelectorKeepsTargets` | pkg/service/bindings.go:267-303 | an update that selects the router removes no selector target |
| `Controller.AllocationsAreListenerPorts` | cmd/service-controller/ports.go:199-232 | each service recovers the ports of its own listeners, in order, and no others |
| `Controller.ApartExactlyWhenDistinct` | cmd/service-controller/ports.go:199-232 | recovered allocations do not overlap if and only if no two listeners share a port |
| `Controller.InitialiseIsSafeExactlyWhen` | cmd/service-controller/controller.go:642-662 | initialising leaves safe accounts if and only if listeners have distinct ports and none sits on a router port |
| `Controller.InitialisedPool` | cmd/service-controller/controller.go:642-662 | after a read the pool lacks exactly the ports of all bridges, connectors too, and the router's seven ports |
| `Controller.RunKeepsSafe` | cmd/service-controller/controller.go:789-870 | over any run from a new controller whose updates respect `Guard`, held ports are distinct, disjoint, not free, not reserved, and every port is conserved |
| `Controller.PoolOnlyRunKeepsSafe` | cmd/service-controller/controller.go:789-870 | the same for every run in which all services draw their ports from the pool |
| `Controller.ReservedExactlyWhenRead` | cmd/service-controller/controller.go:642-662 | the router's ports are out of the pool after the first event if and only if that event could read the bridge configuration |
| `Controller.FailedReadIsForGood` | cmd/service-controller/controller.go:799-805 | after a failed first read all ports are free, and every run goes on as if the configuration could never be read |
| `Recovery.NewServiceHolds` | cmd/service-controller/controller.go:1031-1061 | a new service that draws on the pool holds exactly its recovered ports, in order, and leaves the pool alone; without any it holds the least free ports, in order; if there are too few it holds none and the pool is empty; others stay as they are |
| `Recovery.KnownServiceHolds` | cmd/service-controller/controller.go:1062-1087 | a known service keeps the first of its ports and gives the others to the pool, or gets the least free ports, as many as it requires, after its own |
| `Recovery.DeniedServiceGoes` | cmd/service-controller/controller.go:1029-1068 | a service that policy does not allow has no binding afterwards, and its ports do not return to the pool |
| `Recovery.FirstEventRecovers` | cmd/service-controller/controller.go:799-842 | in the first event a service with listeners is bound if and only if policy allows it, whatever is free, and holds exactly the ports of its listeners, in order |
| `Recovery.PortsStay` | cmd/service-controller/controller.go:811-870 | over any further events a service keeps its ports, in order, while its entry stays and its definitions ask for as many |
| `Recovery.RecoveredPortsStay` | cmd/service-controller/controller.go:789-870 | so a service keeps its ports over a restart of the controller and after it |
| `Snapshots.RunMirrorsSnapshots` | cmd/service-controller/controller.go:811-870 | after any run of snapshots without failures the bindings have exactly the keys of the latest one, also across empty snapshots, and each shows what the snapshots since its key appeared say under it |
| `Snapshots.RunShowsFields` | pkg/service/bindings.go:213-337 | after any such run a binding has the origin of the definition that created it, the first credentials given, each label and annotation as last given since there were none, the ingress last renewed, each target as the history of its key leaves it, and the other fields as in the latest definition |
| `Snapshots.ShownIsWantedExactlyWhen` | pkg/service/bindings.go:213-337 | what a series of definitions leaves is what the latest asks for if and only if nothing is left of the earlier ones, field by field |
| `Snapshots.IncrementalEqualsBatchExactlyWhen` | cmd/service-controller/controller.go:754-767 | many snapshots and the latest alone leave the same keys, and the same bindings up to allocated ports if and only if under every key the earlier definitions are forgotten, targets included |
| `Snapshots.RenamedIsIgnored` | pkg/service/bindings.go:248-283 | credentials and a target's name that change from a to b stay a incrementally, and are b in batch |
| `Refusals.SameSnapshotIsIgnored` | cmd/service-controller/controller.go:754-767 | a repeated snapshot changes nothing, whatever became of its entries |
| `Refusals.MemoryLastsExactlyWhen` | cmd/service-controller/controller.go:811-869 | over any run an entry's text is remembered throughout if and only if every event keeps it, or is empty and finds nothing bound |
| `Refusals.KeptTextIsNeverLookedAt` | cmd/service-controller/controller.go:754-767 | over such a run the entry is never among the changed ones |
| `Refusals.BroughtBackIsNotLookedAt` | cmd/service-controller/controller.go:852-869 | with nothing bound, an entry deleted by an empty snapshot and brought back is not looked at |
| `Refusals.AppearsExactlyWhen` | cmd/service-controller/controller.go:811-842 | an address without a binding gets one in an event if and only if it is a key of the snapshot and some changed entry for it is allowed and finds ports when its turn comes |
| `Refusals.StaysWithoutBinding` | cmd/service-controller/controller.go:811-842 | while no changed entry names it, an address stays without a binding, however policy and pool change |
| `Refusals.RefusedStaysRefused` | cmd/service-controller/controller.go:754-767 | a refused entry that is the only one for its address stays refused while the memory of it lasts |
| `ServiceController.Server.AllocatePorts` | cmd/service-controller/controller.go:1045-1051 | the allocation loop hands out what the set model hands out and leaves the rest free |
| `ServiceController.Server.UpdateServiceBindings` | cmd/service-controller/controller.go:1028-1087 | the in-place update is the function `Update`, for which safety is proved and the ports that are held (`Recovery`) |
| `ServiceController.Server.GetPortAllocations` | cmd/service-controller/ports.go:199-232 | every endpoint's port leaves the pool, and listeners are grouped by service |
| `ServiceController.Server.InitialiseServiceBindingsMap` | cmd/service-controller/controller.go:642-662 | the new state and the recovered allocations, also when the read fails |
| `ServiceController.Server.ChangedServiceDefinitions` | cmd/service-controller/controller.go:754-767 | exactly the entries that are new or differ, and the snapshot is remembered |
| `ServiceController.Server.ProcessServiceDefinitions` | cmd/service-controller/controller.go:789-870 | one event takes the object to the state that the event function gives |
| `ServiceController.ServeEvents` | cmd/service-controller/controller.go:769-870 | from its creation, over any events, the object is in the state that the run theorems are about |
| `Containers.Podman.ContainerCreate` | client/podman/container_mock.go:297-379 | adds a stopped container unless the call fails or the name is taken |
| `Containers.Podman.ContainerRename` | client/podman/container_mock.go:381-404 | renames exactly one container unless the call fails or the name is taken |
| `Containers.Podman.ContainerStart` | client/podman/container_mock.go:406-426 | marks the first container that answers to the key running, or fails without effect |
| `Containers.Podman.ContainerStop` | client/podman/container_mock.go:428-449 | marks the first container that answers to the key stopped, or fails without effect |
| `Containers.Podman.ContainerRemove` | client/podman/container_mock.go:451-469 | removes the first container that answers to the key, or fails without effect |
| `Containers.FoundByNameAndId` | client/podman/container_mock.go:406-469 | a container is found by its name and by its ID |
| `ContainerSaga.UnwindRestores` | client/podman/container.go:203-250 | the compensations restore the original and remove the new container if and only if the needed ones succeed; the two never both run |
| `ContainerSaga.ContainerUpdate` | client/podman/container.go:164-264 | for every schedule of failures: success exactly when all five steps succeed, then the name is the running new container's; on failure the store is restored exactly when the needed compensations succeed; after every call at most one of the two runs and all other containers are untouched |
| `ServiceConfig.RemoveTargets` | client/serviceinterface_update.go:330-342 | keeps exactly the other targets, and reports a change exactly when one matched |
| `ServiceConfig.UnbindCopy` | client/serviceinterface_update.go:311-358 | the edit of the fetched copy is the effect that the state machine commits |
| `ServiceConfig.RunIsSerial` | client/serviceinterface_update.go:32-92 | after any interleaving of any number of clients the configmap is the committed operations replayed in commit order; every operation that reports success is one of them, or found its definition annotated at some point of that order and left the configmap alone |
| `ServiceConfig.CommittedLeaves` | client/serviceinterface_update.go:32-92 | after any run each committed operation has left what it is for: an addition its text, a removal nothing, an unbinding the old definition with exactly the other targets, in order, or nothing where none was left and that was asked for |
| `ServiceConfig.LastCommittedTells` | client/serviceinterface_remove.go:16-56 | and the configmap holds at an address what the last operation that committed there left |
| `ServiceConfig.WritesExactlyWhen` | client/serviceinterface_update.go:311-358 | when each operation writes, and when it leaves the change to the annotation |
| `ServiceConfig.ConflictTells` | client/client.go:25-30 | after a conflict additions and removals start again, 100 times in all; unbinding fails |
| `ServiceConfig.CreateNeverReplaces` | client/serviceinterface_update.go:41-58 | a create without overwrite never replaces a definition |
| `ServiceConfig.ConflictMeansAnotherCommitted` | client/serviceinterface_remove.go:16-56 | every conflict has another client's commit between the read and the write |
| `ServiceConfig.GivingUpMeansOvertaken` | client/client.go:25-30 | an operation that uses up its 100 attempts was overtaken by that many commits of others, less its conflicts over the annotated service |
| `ServiceConfig.ReplayIsPerAddress` | client/serviceinterface_update.go:32-92 | what a replay leaves at an address depends on the operations on that address only |
| `ServiceConfig.NoUpdateIsLost` | client/serviceinterface_update.go:32-92 | after any interleaving an address holds what its own committed operations leave |
| `RouterUpdate.ResumedEqualsFresh` | client/router_update.go:107-173 | a resumed run computes the same migration flags from the marker as a fresh run from the site's version |
| `RouterUpdate.LessRecentIsLexicographic` | pkg/utils/version.go:35-69 | versions compare as their numbers do in a dictionary |
| `RouterUpdate.VersionsAreOrdered` | pkg/utils/version.go:35-69 | exactly one of less recent, more recent and equivalent holds, and less recent is transitive |
| `RouterUpdate.CallsByNumbers` | client/router_update.go:111-163 | the migrations that a version calls for, by its numbers |
| `RouterUpdate.StepsAreInOrder` | client/router_update.go:177-809 | a run performs its migrations in the order of the source |
| `RouterUpdate.MigrationsAreCalledFor` | client/router_update.go:107-173 | a run performs exactly the migrations that the version it starts from calls for (and the cluster policy where the old cluster role is found) |
| `RouterUpdate.InterruptedUpdatesComplete` | client/router_update.go:92-173 | over any series of interrupted runs the stored version and the marker never fall below the original version, nothing is done that it does not call for, and whenever no marker is left either no update was begun or all it calls for is done and nothing is left over |
| `RouterUpdate.UpdatesOfANewSiteAreExact` | client/router_update.go:810-815 | on a site that starts without a marker, once an update was begun and its marker is gone, the log has a migration if and only if the original version calls for it (the cluster policy may be there besides) |
| `RouterUpdate.ClaimsRouteExactlyWhen` | client/router_update.go:504-513 | after any such series of runs the claims route has been made if and only if the site began below 0.5.0, is not an edge and uses routes |
| `RouterUpdate.Cluster.RouterUpdateVersion` | client/router_update.go:92-815 | the step-by-step update, stopped after any number of actions or by a renaming whose originals are gone, is the run the theorems are about |
| `UpdateWindows.UnstoppedRunCompletesExactlyWhen` | client/router_update.go:177-187 | an update that is not stopped removes its marker if and only if it does not start from below 0.5.0 with the old names gone |
| `UpdateWindows.UnstoppedRunInstalls` | client/router_update.go:92-172 | a run that is not stopped installs its library unless the site is newer, in which case it does nothing; it begins an update if and only if none is under way and the two differ, be it in the text only |
| `UpdateWindows.SeriesInstallsTheNewest` | client/router_update.go:92-172 | after any series of such runs the site is not older than any of their libraries, and is one of them or what it was |
| `UpdateWindows.StuckStaysStuck` | client/router_update.go:177-187 | a marker from below 0.5.0 with the old names gone outlasts any series of runs |
| `UpdateWindows.StuckExactlyWhen` | client/router_update.go:739-815 | over any series of runs a site gets there if and only if some run stops after the first of the old names is deleted and before the marker is removed |
| `UpdateWindows.Version040GetsStuck` | client/router_update.go:739-815 | a 0.4.0 site whose first run stops just before it removes the marker keeps it over any further runs |
| `UpdateWindows.PolicyIsRenewedExactlyWhen` | client/router_update.go:584-617 | over any series of runs that got rid of the old cluster role and left no marker, the cluster policy was renewed if and only if no run stopped between the two, or the site was updated from below 0.9.0 |
| `UpdateWindows.Version100KeepsItsPolicy` | client/router_update.go:584-617 | a 1.0.0 site whose first run stops in that window never gets its policy renewed |
| `UpdateWindows.PolicyCanBeLost` | client/router_update.go:584-617 | every site with the old cluster role has a run that stops there |
| `UpdateWindows.ResumeKeepsFlags` | client/router_update.go:92-173 | a run stopped anywhere after the marker is resumed with the flags that versions give it, whatever the library version |
| `UpdateWindows.ResumeCarriesOverExactlyWhen` | client/router_update.go:584-617 | what the stopped run chose to do is done or chosen again if and only if it did not stop between the last leftover and the renewal, or started from below 0.9.0; and the renaming can be done again if and only if no old name was deleted |
| `UpdateWindows.NeedsAreMetExactlyWhen` | client/router_update.go:504-617 | an updated site has every migration it needs, and its policy renewed, if and only if it is not one from 0.5.0 up to 0.7.0 that needs the claims route, nor one from 0.9.0 on with a run stopped in that window |
| `UpdateWindows.Version060GetsNoClaimsRoute` | client/router_update.go:504-513 | a 0.6.0 site with routes, updated in one run, is complete without the claims route it needs |
| `Streams.DemultiplexRoundTrip` | client/podman/rest.go:220-239 | a stream can be read exactly when it encodes some frames, which are then the ones read; each stream's output is the concatenation of its payloads; bytes = payloads + 8 per frame |
| `Streams.FrameLayout` | client/podman/rest.go:220-239 | a frame on the wire: stream, three bytes, the size with its highest byte first, payload |
| `Streams.ParseEncoded` | client/podman/rest.go:220-239 | frames are read back from their encoding |
| `Streams.EncodeParsed` | client/podman/rest.go:220-239 | what can be read is the encoding of what was read |
| `Streams.PayloadsInOrder` | client/podman/rest.go:220-239 | a stream's output is that of its frames, one after the other |
| `Streams.MultiplexedBodyReader.ReadStreams` | client/podman/rest.go:220-239 | ends at the length of the data with the outputs collected from the frames, or reports that the data is cut short |
| `Streams.MultiplexedBodyReader.Consume` | client/podman/rest.go:241-292 | returns standard output followed by standard error |
| `Streams.ConsumeLog` | client/podman/rest.go:301-334 | the two loops compute the header-stripping reader |
| `Streams.LogReaderAgrees` | client/podman/rest.go:301-334 | on streams with one line of standard output a frame the log reader gives what the demultiplexer gives, whatever bytes the headers hold |
| `Streams.FrameIsReadExactlyWhen` | client/podman/rest.go:301-334 | a frame is returned whole if and only if it has no control bytes and no newline stands before its last byte |
| `Streams.LinesOfAFrameSurvive` | client/podman/rest.go:301-334 | what is returned of a frame with any lines, long or short |
| `Streams.FurtherLinesLoseBytes` | client/podman/rest.go:301-334 | lines of more than eight bytes lose eight each, except for the first |
| `Streams.TwoFramesAgreeByAccident` | client/podman/rest.go:301-334 | two frames, not one line each, on which both readers agree |
| `Informer.ContainerInformer.Run` | client/podman/informer.go:63-126 | the in-place run yields a cache and notifications in the relation the lemmas are about |
| `Informer.FollowerHoldsCache` | client/podman/informer.go:63-126 | an observer that held the cache and follows a run's notifications holds the cache after it, and every change it is told names what it had |
| `Informer.FollowerAlwaysHoldsCache` | client/podman/informer.go:63-126 | over any series of runs with any failures such an observer always holds exactly the cache |
| `Informer.AlwaysWithinLastListing` | client/podman/informer.go:63-108 | over any series of runs with any failures the cached names are among those of the last listing that succeeded |
| `Informer.FaultlessRunIsExact` | client/podman/informer.go:63-126 | after a run without failures the cache has exactly the listed names, with the listed IDs |
| `Informer.RunTells` | client/podman/informer.go:63-108 | after any run that lists names once, each listed container is as it was cached, or as inspected where it is new, has another ID or was started since, and no other is cached |
| `Informer.DeletedAreStopped` | client/podman/informer.go:99-107 | observers are told of each container that is gone, as it was cached but for no longer running |
| `Gateway.GatewayExportConfig` | client/gateway.go:1976-2050 | the exported lists, in any order of the maps |
| `Gateway.GetBridgeConfig` | client/gateway.go:795-873 | the maps rebuilt from the lists, later entries winning |
| `Gateway.ExportConfigTells` | client/gateway.go:1976-2050 | the bindings are the entries of the connectors and the forwards those of the listeners, each with host, address, protocol and port of its bridge |
| `Gateway.ImportConfigTells` | client/gateway.go:795-873 | connectors come from the bindings with the target port, listeners from the forwards with the service port, the last entry of an address counting |
| `Gateway.GatewayBridgeEndpointUpdate` | client/gateway.go:1529-1629 | the map edits of bind, unbind, forward and unforward, and the failures that write nothing, also when no listening port can be had |
| `GatewayEdits.FailsExactlyWhen` | client/gateway.go:1529-1600 | when a call fails and writes nothing |
| `GatewayEdits.BindMakesBridges` | client/gateway.go:1531-1601 | a bind makes, under address and service port, a connector to the given host and given port; a forward a listener on the loopback or everywhere at the port picked; with the HTTP settings of the protocol |
| `GatewayEdits.UnbindLeavesNone` | client/gateway.go:1602-1629 | after an unbind or unforward none of the service's bridges is left |
| `GatewayEdits.UpdateTells` | client/gateway.go:1529-1629 | a call changes the names it is about, in the one map it goes to, and nothing else |
| `GatewayEdits.LastCallTells` | client/gateway.go:1529-1629 | after any series of calls a name stands for what the last accepted call about it says |
| `GatewayEdits.NamesDiffer` | client/gateway.go:1534 | different ports of an address have different names |
| `Gateway.MapRoundTrip` | client/gateway.go:795-873 | one map comes back the same, up to the site ID and for any order, if and only if its endpoints are plain |
| `Gateway.RoundTripExactlyWhen` | client/gateway.go:1976-2050 | export then import gives the same bridges if and only if all endpoints are plain (key = name = address, decimal port, nothing an entry cannot say) |
| `Gateway.UpdateAllStaysPlain` | client/gateway.go:1529-1629 | bind, unbind, forward and unforward keep all endpoints plain |
| `Gateway.ReachableRoundTrip` | client/gateway.go:1976-2050 | every configuration reached from empty survives export and import |
| `Annotated.UpdateAnnotatedServiceDefinition` | cmd/service-controller/definition_monitor.go:204-249 | whether an update is reported, and the merged target list, in any order |
| `Annotated.MergeHolds` | cmd/service-controller/definition_monitor.go:227-238 | the merged map holds exactly the union, and an update is due exactly when something was missing |
| `Annotated.ReportedExactlyWhen` | cmd/service-controller/definition_monitor.go:204-249 | for any two definitions an update is reported if and only if the recorded one is annotated and protocol, ports, headless settings, labels, annotations or some target differ |
| `Annotated.ReportTells` | cmd/service-controller/definition_monitor.go:204-249 | what is reported: the desired definition alone where protocol, ports or headless settings differ, otherwise with the targets of both, the last of a name counting |
| `Annotated.DifferentObjectsReplace` | cmd/service-controller/definition_monitor.go:208-226 | objects that differ in those replace each other in every event, without merging |
| `Annotated.ReportsExactlyWhen` | cmd/service-controller/definition_monitor.go:881-901 | in any run an event reports an update exactly when it names a new target, or its labels or annotations differ from those of the event before |
| `Annotated.MergeConverges` | cmd/service-controller/definition_monitor.go:204-249 | once all objects that share an address were seen, in any order with any repetition, the recorded targets are their union, and events report only changes of labels or annotations |
| `Annotated.SettlesExactlyWhen` | cmd/service-controller/definition_monitor.go:238-240 | from then on nothing is reported if and only if all further events have the labels and annotations of the last one |
| `Annotated.PeersSettle` | cmd/service-controller/definition_monitor.go:204-249 | objects that share labels and annotations settle: no further event reports or changes anything |
| `Annotated.OrderDoesNotMatter` | cmd/service-controller/definition_monitor.go:204-249 | any two such runs record the same name-to-target map |
| `Restore.UpdatePorts` | pkg/kube/services.go:258-287 | reports an update exactly when the list is not yet the wanted map; kept ports first, in order, then the missing ones |
| `Restore.FittedIsExact` | pkg/kube/services.go:258-287 | a fitted port list has no port twice and is exactly the wanted map |
| `Restore.PortLabelStrToMap` | pkg/kube/misc.go:129-152 | the last entry for a port counts, and any malformed entry makes the result empty |
| `Restore.DenotedTells` | pkg/kube/misc.go:129-152 | a port has the target of its last entry, or its own number where that gives none, and a malformed text says nothing |
| `Restore.RecordTells` | pkg/kube/services.go:289-295 | what is recorded of each port |
| `Restore.RecordRoundTrip` | pkg/kube/services.go:289-295 | reading a recorded port list back gives its mapping |
| `Restore.Takeover` | pkg/kube/serviceingressbindings.go:150-174 | a port change records the ports it replaces, unless the site owns the service |
| `Restore.TakeoverTells` | pkg/kube/serviceingressbindings.go:150-174 | both records of a takeover, and when they are made |
| `Restore.TakenPortTells` | pkg/kube/services.go:258-287 | a wanted port keeps its name and protocol, and its target if the number is right |
| `Restore.OwnedIsNotRecorded` | pkg/kube/serviceingressbindings.go:159-162 | an owned service gets the wanted ports and no record |
| `Restore.RestoreServiceDefinitions` | cmd/service-controller/definition_monitor.go:758-805 | selector and ports come from the record, the annotations go, and nothing is written without one |
| `Restore.RestoreTells` | cmd/service-controller/definition_monitor.go:758-805 | the recorded selector comes back, no annotation is left, and without one nothing changes |
| `Restore.RestoreIsExact` | cmd/service-controller/definition_monitor.go:773-795 | the restored ports are exactly the recorded map, whatever the service lists by then; a second restore changes nothing |
| `Restore.RestoreUndoesLastChange` | cmd/service-controller/definition_monitor.go:758-805 | after any number of takeovers a restore brings back the ports in force before the last one that changed them, and leaves the list alone if none did |
| `Restore.OriginalComesBackExactlyWhen` | pkg/kube/serviceingressbindings.go:159-162 | after any number of takeovers the original ports come back if and only if none changed them, or the last that did found the original ones in force |
| `Restore.SecondTakeoverForgetsOriginal` | pkg/kube/serviceingressbindings.go:159-162 | two takeovers to different maps: the first one's ports come back |
| `Restore.TargetsComeBackExactlyWhenNumbered` | pkg/kube/services.go:289-295 | a port's target comes back as it was if and only if it was a number |
| `Restore.PortComesBackExactlyWhen` | cmd/service-controller/definition_monitor.go:773-795 | a port comes back with its name, protocol and target if and only if its target was a number and the takeover kept the port, or it was a TCP port named after its number |
| `Links.RouterConfigMap.ConnectorCreate` | client/connector_create.go:163-229 | the link (as `SettledLinksAreAllowed` says) and its profile are there afterwards, and something is written exactly when something changes |
| `Links.RouterConfigMap.RemoveConnectorRouterConfig` | client/connector_remove.go:39-58 | the link and the profile named after it are gone |
| `Links.RouterConfigMap.RemoveConnectorFromConfig` | cmd/service-controller/token_handler.go:91-113 | the link and the profile it uses are gone, and something is written exactly when something changes |
| `Links.RouterConfigMap.Handle` | cmd/service-controller/token_handler.go:27-40 | one handled key is one step of the runs the theorems are about |
| `Links.RunKeepsPaired` | client/connector_create.go:163-229 | over any run of connect, disconnect and remove steps each link has its own profile and no link profile is orphaned |
| `Links.HandlingAgainChangesNothing` | client/connector_create.go:163-229 | handling a key again with the same token changes nothing |
| `Links.HandledKeysSettle` | cmd/service-controller/token_handler.go:27-40 | once every key was handled, in any order and with any refused updates between, the connectors are those the tokens call for plus what this site's own tokens had, and the link profiles are theirs |
| `Links.SettledLinksAreAllowed` | client/connector_create.go:193-208 | each link that is not of the site's own tokens then goes to a host that the policy allows, with role, host, port, cost, frame settings and profile of its token, for edge and for other routers |
| `Links.HandledLinkIsAllowedExactlyWhen` | cmd/service-controller/token_handler.go:135-148 | a link made for an allowed token goes to an allowed host if and only if the router's mode could be inspected, it is not an edge, or its edge host is allowed too |
| `Links.WantedExactlyWhen` | cmd/service-controller/token_handler.go:27-40 | which tokens call for a link, by their annotations |
| `Links.NewProfileTells` | client/connector_create.go:179-192 | the files of a new profile |
| `Links.ExactlyTheWantedTokensWhen` | cmd/service-controller/token_handler.go:27-40 | the connectors are then exactly the tokens neither self-generated nor disabled if and only if no self-generated token had one |
| `Links.ProfileIsTheTokensExactlyWhen` | client/connector_create.go:163-229 | a wanted token's profile is then the one it calls for if and only if its link was not there before, or had that profile already |
| `Policy.RouterConfigMap.ValidateIncomingLinkStateChanged` | cmd/service-controller/policy_controller.go:198-268 | for either visiting order a pass changes both listeners or nothing, and the running router reloads only what a pass wrote and restarted it for |
| `Policy.PassesKeepBothOrNeither` | cmd/service-controller/policy_controller.go:230-268 | over any run of passes both-or-neither is kept, one-of-two stays as it is, and other listeners are untouched |
| `Policy.ListenersFollowPolicyExactlyWhen` | cmd/service-controller/policy_controller.go:230-268 | after an error-free pass listeners are present iff links are allowed, if and only if the run began with both or neither |
| `Policy.OpenedListenersStay` | cmd/service-controller/policy_controller.go:230-254 | a pass that opens links makes both listeners with their roles, ports and the options it read, and they stay over any passes that find links allowed |
| `Policy.RouterObeysPolicyExactlyWhen` | cmd/service-controller/policy_controller.go:255-267 | after an error-free pass of a run that began with both or neither, the running router obeys the policy if and only if an even number of updates was written since its last restart |
| `Policy.FailedRestartIsNotMadeUpFor` | cmd/service-controller/policy_controller.go:230-267 | while the policy's answer stays, no pass writes anything or restarts the router |
| `Policy.SecretStore.ValidateOutgoingLinkStateChanged` | cmd/service-controller/policy_controller.go:270-320 | the pass handles links in order up to the first failure and writes exactly when a label changes |
| `Policy.OutgoingPassIsExact` | cmd/service-controller/policy_controller.go:277-319 | after an error-free pass a link is disabled iff its host is not allowed, nothing else changes, and a second pass changes nothing |
| `Policy.LabelTells` | cmd/service-controller/policy_controller.go:283-319 | the label a link's secret has afterwards |
| `Prelude.BeforeColonTells` | cmd/service-controller/policy_controller.go:289-290 | the host of a link is what stands before the first colon |
| `Sites.GetAllSites` | cmd/service-controller/console_server.go:473-513 | each site with a router that is not a gateway once, as its first such router describes it, with its links without duplicates and without itself |
| `Sites.ListedExactlyWhen` | cmd/service-controller/console_server.go:477-496 | a site is listed if and only if it has a router that is not named as a gateway |
| `Sites.ListedAsFounded` | cmd/service-controller/console_server.go:477-496 | ID, version, platform and edge flag are those of its first such router |
| `Sites.Set` | cmd/service-controller/console_server.go:464-471 | adds exactly one pair to the nested map |
| `Sites.LinkedExactlyWhen` | cmd/service-controller/console_server.go:497-501 | two sites are linked exactly when known routers of theirs are joined, or one has an unknown neighbour and the other the empty ID |
| `Sites.SymmetricExactlyWhen` | cmd/service-controller/console_server.go:497-513 | with mutual router connections the site links are mutual if and only if no unknown router is mistaken for a listed site with the empty ID |
| `Sites.UnknownRouterMisleads` | cmd/service-controller/console_server.go:497-501 | any two routers, one of a site without an ID, of which the other names an unknown router: the site links are not mutual |

## Left out

- Kubernetes, podman REST, AMQP and file I/O: calls are parameters that say whether they fail and what they return.
- JSON, YAML, annotation text, regular expressions, certificates and time: decoders and policies are parameters; `Restore` works on the fields of a port annotation, `Gateway` on a port that is either a plain decimal or some other text.
- Integer widths: ports and versions are unbounded integers; 32-bit truncation and overflow in `strconv.Atoi` are not modelled.
- Nil and empty Go maps: they are the same here, though `reflect.DeepEqual` tells them apart.
- What a target's resolver finds, and that making one can fail; the bridges made from targets; and the maps and headless settings that a binding shares with the definition its external bridge holds.
- Partial effects inside one migration of a site update: each is done or not, except that the deletion of the old names has a first step.
- UpdateWindows.StuckExactlyWhen: is about libraries that are not below 0.5.0 themselves, and sites that have the old names if they begin below 0.5.0.
- `renameRouterConfigFile`, which runs before the update marker is written.
- The policy controller's queue and lifecycle, leader election, HTTP handlers, console output and deployment specifications.
- The volumes of the router deployment that `removeConnectorFromConfig` also edits, and the selector, labels and annotations that a takeover also updates.
- Deletion of a whole configmap or of the namespace.
- Recovery.FirstEventRecovers: is about an address that one entry of the configmap is for, as keys are addresses; further entries for it are updates of a known service (`KnownServiceHolds`).
- Snapshots.RunMirrorsSnapshots: holds for snapshots whose entries parse, are keyed by their address, are allowed and get their ports; what becomes of the others is in `Refusals`.
- ContainerSaga.ContainerUpdate: is called with a container's name, not its ID, and generated IDs contain no dash and are nobody's name.
- Containers.Podman.ContainerRename: requires the current name to exist, because the code dereferences what it found.
- Streams.MultiplexedBodyReader.ReadStreams: reports data that is cut short where the code would panic.
- Streams.LogReaderAgrees: goes one way over several frames, because the two readers can agree by accident (`TwoFramesAgreeByAccident`); for one frame the condition is exact.
- Informer.FollowerHoldsCache: inspecting a name is taken to return a container of that name; `Run` itself is modelled without that.
- Gateway.GetBridgeConfig: requires an entry to have a port for each target port, as the code indexes one by the other.
- Gateway.GatewayBridgeEndpointUpdate: the listening ports it picks, or that there is none, are given; a listener needs a service port for each port given, as the code indexes one by the other.
- ServiceConfig.RunIsSerial: whether the original service of an annotated definition was modified is fixed during one operation, and deletion of the configmap is not modelled.
- Annotated.MergeConverges: is about objects of one protocol with the same ports that are not headless; headless settings are compared as pointers, so that merging them does not settle.
- Links.HandledKeysSettle: tokens and policy are fixed while the keys are handled, and the router's mode can be inspected; a retry after a conflict is a further event.
- Policy.SecretStore.ValidateOutgoingLinkStateChanged: the policy's answers are fixed during a pass.
