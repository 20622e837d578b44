# The stateless load balancer, modelled and proved

This project models the control plane of the stateless load balancer: the controller that numbers the endpoints of a
service, the manager and the NFQLB services that turn services, endpoints and routes into shared memories, forwarding
marks, policy routes and flows, the nftables sets of virtual IPs, and the annotation that gives pods their virtual IPs
and policy routes. Commands (`init`, `delete`, `activate`, `deactivate`, `flow-set`, `flow-delete`, `flow-list`,
nftables transactions) either succeed or fail and change nothing; which of the two happens is left open. Commands on
policy routes may fail too, which their callers never learn, and a failed creation may also lose the route. Iteration
over a Go map is an arbitrary choice of the next key, so every result holds for every order.

| file | content |
|---|---|
| `Prelude.dfy`, `Identifier.dfy` | options, 64-bit limits, lists without repetitions; decimal printing and parsing |
| `EndpointSlice.dfy` | endpoints, merging and splitting the two slices of a service, the slice computed from pods |
| `IdentifierAllocator.dfy`, `IdentifierRuns.dfy` | one allocation of identifiers; all runs of allocations, complete or interrupted |
| `Offset.dfy` | first-fit search for a range of forwarding marks, in 64-bit arithmetic |
| `Networking.dfy`, `VipSet.dfy` | successor and broadcast of an address byte by byte; the nftables interval sets |
| `Nfqlb.dfy`, `Views.dfy`, `LoadBalancing.dfy` | the backend, services with targets and flows, the registry of services |
| `Endpoints.dfy`, `Flows.dfy`, `ManagerState.dfy`, `ServiceManager.dfy` | what the manager keeps, deletes and adds, on values and on its state |
| `Convergence.dfy` | one pass of the controller, any number of passes, and what they converge to |
| `Handles.dfy` | the marks of all services that the manager has cached, registered or not |
| `Heal.dfy`, `HealCalls.dfy` | the heal loop beside the manager, one lock or route operation at a time; what whole calls do beside it |
| `Annotation.dfy`, `AnnotationSkip.dfy` | the network annotation of a pod; when elements are kept that a rebuild would change |

The main results:

* **Convergence.** From a coherent manager, which a new one is, an error-free pass of the controller leads to a coherent
  one exactly when no two usable endpoints of a service share an identifier. Then services, activated identifiers, routed
  addresses, the flow table and the addresses that the virtual IP sets match are a function of what the cluster asks for,
  whatever earlier passes asked for; only the offsets of the marks and the order of addresses may depend on history
  (`Reconcile`, `Lifetime`, `HistoryIrrelevant`, `SameRoutes`, `FlowsMatched`). What is served is also given in terms of the
  stored slices and the routes themselves, field by field (`ServedFromSlices`, `RealisedTable`).
* **Marks.** Over every sequence of calls with every outcome of the commands, the mark ranges of registered services are
  disjoint and every recorded target is inside its range (`Run`, `NoMarkCollision`, `GetOffset`). The manager goes on using
  the handle of a service whose deletion failed; over every sequence of its calls the marks of all cached services stay apart
  if and only if no call adds a service whose range overlaps the one of a cached service that is not registered (`AnyCalls`,
  `ApartExactly`, `HandleMarks`).
* **Identifiers.** Over every run that writes both slices, identifiers are distinct, in range, one per UID and kept for
  as long as the UID stays (`RunKeepsInvariant`, `RunIsStable`, `Capacity`). When a run may stop between the writes, every
  UID still has one identifier in range at every point (`AnyRunPublished`); a wanted UID keeps it over the whole run exactly
  when no stop catches it moving from IPv4 only to IPv6 only (`AnyRunIsStable`, `MovingUidIsLost`); and after a reconcile the
  stored wanted UIDs have distinct ones exactly when no two of them shared one before and both stay stored (`AnyRunIsApart`).
  So they stay distinct as long as no UID comes back while it is stored (`CleanRunIsApart`, `ReturningUidCollides`).
* **Healing.** In every interleaving with the manager there are no stray routes but those that a failed deletion has left,
  deleted routes stay away, there is no deadlock, and a whole pass without a failed creation leaves all routes of the recorded
  targets in place, whatever the manager did meanwhile, but for those it is just creating (`BetweenCalls`, `NeverComesBack`,
  `TidyRun`, `NoDeadlock`, `PassesEnd`, `PassRestores`, `IdleViews`). Whole calls do to services and routes what they do alone (`AddTargetCall`,
  `DeleteTargetCall`, `AddServiceCall`, `DeleteServiceCall`).
* **Annotation.** Over any sequence of calls for some proxies everything else, the user's own networks included, stays as it
  is and in order, proxies never share a routing table, and a second call changes nothing exactly under a stated condition
  (`OutsideSurvivesRuns`, `TablesApartOverRuns`, `SecondCall`). Keeping accepted elements is what a rebuild would give
  exactly when they were built without repetitions (`SkipSoundExactly`).

Where the code does not do what one would expect of it, the model follows the code and the exact condition is proved:

* `DeleteService` of a name that is not registered returns with the mutex locked (`LoadBalancer.DeleteService`). The
  manager gets there by itself: a failed deletion stays in its cache, and the next `SetServices` deletes it again. The
  mutex is left locked exactly when a cached service that is not wanted is unknown to the load balancer (`SetServices`,
  `RepeatServices`); then there is no healing any more and no call gets past it (`LeakIsForever`).
* A failed activation is recorded as done and never tried again (`SetEndpoints`, `RepeatEndpoints`).
* When two usable endpoints share an identifier and one of them departs, its target is deleted and the other endpoint,
  which counts as unchanged, is not served, then or when the same endpoints are set again. A publication that stops
  between its two writes leaves such a pair in the slices (`StarvedEndpoint`, `StarvedByInterruption`). An error-free call
  is certain to serve an endpoint exactly when its identifier is kept as a target with its addresses, or is not kept and all
  endpoints that are new or changed and carry it have the same addresses (`ServedExactly`). Of two new endpoints with one
  identifier the second is taken for a target that is already there: the call ends without an error and does not serve it
  (`NewEndpointNotServed`).
* When a service is added and its deletion fails, the next one of the same size gets the same marks; both handles can then
  record targets with one mark (`StaleHandle`).
* `SetServices` cleans the flows up exactly when it is not blocked and every wanted service is there at the end: a failed
  `AddService` ends it before, and the flows stay as they were (`SetServices`).
* A flow whose deletion failed is forgotten by the manager and stays in the table: after the same routes again, without an
  error, the table is what is wanted if and only if the first call left no other entry (`SetFlows`, `RepeatFlows`).
* A pass that cannot list the routes ends without an error. The flows of the services that stayed remain, and the backend
  does what is asked for exactly when these are the wanted ones (`Reconcile`).
* Two routes can share a flow name exactly when one service name is another one behind a dot (`FlowNamesApart`,
  `FlowPerRouteExactly`).
* Splitting a merge gives both slices back exactly when they agree on zone and readiness of shared UIDs
  (`SplitOfMerge`).
* The interval of a prefix does not hold its addresses exactly when the prefix ends at the last address of its family
  (`IntervalExact`). So the sets match the host-length destinations of the flows, except for the last address of either
  family (`FlowsMatched`); its IPv4-mapped spelling even gets a 16-byte element (`IpNetToSetElement`).
* Wishes with repetitions are never accepted. Wishes with gateways of a family that has no virtual IPs are not accepted by
  the elements that an earlier call built for them; when policy routes are involved every further call then takes another
  routing table (`EqualVIPsGateways`, `AcceptsItself`, `NeverSettles`).
* Elements built with a repeated gateway are accepted for the same wishes without the repetition, although a rebuild would
  differ (`RepeatedGatewayIsSkipped`, `AcceptedSameExactly`). The gateway list is built without removing repetitions
  (pkg/controllers/statelessloadbalancer/podinjector/gateway.go:154-178).

The comments on `SetServices` (pkg/controllers/statelessloadbalancer/manager.go:104), which mention additions only, and on
`DeleteFlow` (pkg/controllers/statelessloadbalancer/manager.go:48, pkg/nfqlb/nfqlb.go:463), which say that it adds a flow, do
not describe the code; the model follows the code.

## Model

| member | source | states |
|---|---|---|
| Identifier.AtoiItoa | pkg/controllers/statelessloadbalancer/endpoint/identifier.go:26-45 | parsing a printed identifier gives it back for every 64-bit value, and nothing for any other |
| Identifier.AtoiExactly | pkg/controllers/statelessloadbalancer/endpoint/identifier.go:26-37 | exactly the digits with an optional sign whose number fits 64 bits are read, as this number |
| EndpointSlice.IdentifierRoundTrip | pkg/controllers/statelessloadbalancer/endpoint/identifier.go:26-45 | the identifier stored in the zone of an endpoint is the one read back |
| EndpointSlice.MergeEndpointSlices | pkg/endpointslice/merge.go:27-74 | an absent slice leaves the other one; two slices give every UID of either once, in any order, with the addresses of both, the first zone that is set and the metadata of the first |
| EndpointSlice.MergedAt | pkg/endpointslice/merge.go:40-63 | a UID in both slices has the addresses of the first followed by those of the second, the zone of the first when it is set and otherwise that of the second, and the readiness of the first; a UID in one slice is as there |
| EndpointSlice.ByUidLast | pkg/endpointslice/merge.go:40-44 | of the endpoints with one UID in a slice the last one counts |
| EndpointSlice.SplitEndpointSlices | pkg/endpointslice/merge.go:78-123 | one slice per family with the endpoints that have parseable addresses of the family, restricted to them; nothing but endpoints is kept |
| EndpointSlice.MergeOfSplit | pkg/endpointslice/merge.go:27-123 | merging a split restores zone, readiness and the addresses as a multiset of every endpoint with a parseable address, and loses exactly the others |
| EndpointSlice.SplitOfMerge | pkg/endpointslice/merge.go:27-123 | splitting the merge of an IPv4 and an IPv6 slice, listed in any order, gives both back exactly when they agree on the zone and readiness of shared UIDs |
| EndpointSlice.SplitIsPure | pkg/endpointslice/merge.go:78-123 | what a split produces is a pure slice of its family, so that the round trip above applies to it |
| EndpointSlice.GetEndpoints | pkg/endpointslice/endpointslice.go:56-123 | in the order of the pods, one endpoint for each pod that has an address of the family and for no other: its UID, no zone, exactly its addresses of the family in order, ready exactly when the pod runs and all its containers are ready |
| EndpointSlice.PodEndpointsFresh | pkg/endpointslice/endpointslice.go:73-94 | pods with distinct UIDs give endpoints with distinct UIDs and at least one address, all of the family |
| IdentifierAllocator.GetFreeIdentifier | pkg/controllers/statelessloadbalancer/controllermanager/endpointslice.go:259-268 | the least identifier below the limit that is not in use, -1 exactly when there is none |
| IdentifierAllocator.GetEndpointSlicesWithIdentifiers | pkg/controllers/statelessloadbalancer/controllermanager/endpointslice.go:198-256 | survivors keep their identifier, newcomers get the lowest free ones, nobody is left out while one is free; the slice of a family has each UID with an identifier and an address of the family, with the identifier as zone, the readiness of the first new slice that has the UID, and the IPs of the family as often as the new slices have them; metadata is that of the new slices |
| IdentifierRuns.Controller.ReconcileEndpointSlice | pkg/controllers/statelessloadbalancer/controllermanager/endpointslice.go:113-170 | the state in the API server afterwards is a full step, a step without the IPv6 write, or unchanged, as the two writes succeed; without an error as many of the wanted UIDs are stored as the label allows, with identifiers below it |
| IdentifierRuns.PrintedLimit | pkg/controllers/statelessloadbalancer/controllermanager/endpointslice.go:123-131 | a label that is a number below 2^32 allows that many, a missing or unreadable one allows 100 |
| IdentifierRuns.StepFills | pkg/controllers/statelessloadbalancer/controllermanager/endpointslice.go:123-256 | from stored slices that keep the invariant a complete reconcile stores the smaller of the number of wanted UIDs and the limit of the label |
| IdentifierRuns.AllocationDistinct | pkg/controllers/statelessloadbalancer/controllermanager/endpointslice.go:215-249 | an allocation is injective and in range exactly when the identifiers it keeps are |
| IdentifierRuns.Capacity | pkg/controllers/statelessloadbalancer/controllermanager/endpointslice.go:219-249 | with distinct old identifiers below the limit, min(new UIDs, limit) UIDs are published and every survivor is among them |
| IdentifierRuns.ReadBack | pkg/controllers/statelessloadbalancer/controllermanager/endpointslice.go:198-256 | reading what a reconcile stored, through printing, splitting, merging and parsing, gives its allocation |
| IdentifierRuns.StepKeeps | pkg/controllers/statelessloadbalancer/controllermanager/endpointslice.go:113-256 | a reconcile keeps the invariant, the identifiers of everyone who stays, and publishes as many UIDs as fit |
| IdentifierRuns.RunKeepsInvariant | pkg/controllers/statelessloadbalancer/controllermanager/endpointslice.go:113-256 | at every point of every run: distinct identifiers in range, one identifier for a UID in both slices |
| IdentifierRuns.RunIsStable | pkg/controllers/statelessloadbalancer/controllermanager/endpointslice.go:222-241 | a published UID that stays wanted stays published with its identifier |
| IdentifierRuns.AnyRunPublished | pkg/controllers/statelessloadbalancer/controllermanager/endpointslice.go:113-256 | at every point of every run, whichever writes succeed, every stored UID, wanted or departed, has one identifier in range, the same in both slices |
| IdentifierRuns.AnyStepApart | pkg/controllers/statelessloadbalancer/controllermanager/endpointslice.go:113-256 | after a reconcile, whichever writes succeed, the stored wanted UIDs have distinct identifiers if and only if no two of them shared one before and both stay stored |
| IdentifierRuns.AnyRunIsApart | pkg/controllers/statelessloadbalancer/controllermanager/endpointslice.go:113-256 | the same at every step of every run |
| IdentifierRuns.CleanRunIsApart | pkg/controllers/statelessloadbalancer/controllermanager/endpointslice.go:113-256 | as long as no UID comes back while it is stored, neither the wanted UIDs nor the UIDs of one slice ever share an identifier |
| IdentifierRuns.NoReturnIsClean | pkg/controllers/statelessloadbalancer/controllermanager/endpointslice.go:113-256 | which holds in particular when no departed UID ever comes back |
| IdentifierRuns.PartialPublicationUnique | pkg/controllers/statelessloadbalancer/controllermanager/endpointslice.go:159-167 | over runs that may stop after any write, two wanted UIDs never share an identifier, provided no UID comes back while it is stored |
| IdentifierRuns.PartialPublicationStable | pkg/controllers/statelessloadbalancer/controllermanager/endpointslice.go:159-167 | a wanted UID keeps its identifier across one interrupted reconcile exactly when it was written to IPv4 or still is in IPv6 |
| IdentifierRuns.AnyRunIsStable | pkg/controllers/statelessloadbalancer/controllermanager/endpointslice.go:113-256 | over runs that may stop after any write, a published UID that stays wanted carries its identifier all the way if and only if at every interrupted reconcile it was written to IPv4 or already was in IPv6 |
| IdentifierRuns.MovingUidIsLost | pkg/controllers/statelessloadbalancer/controllermanager/endpointslice.go:159-167 | a concrete run in which a wanted UID moves from IPv4 to IPv6 across a stop and nothing of it is stored |
| IdentifierRuns.ReturningUidCollides | pkg/controllers/statelessloadbalancer/controllermanager/endpointslice.go:159-241 | a concrete run in which a UID comes back while it is stored and two UIDs share identifier 0 |
| Offset.GetOffset | pkg/nfqlb/offset.go:26-52 | the least offset whose range misses every taken one, an error exactly when none stays within 64 bits, no wrapped value, at most one restart per service |
| Offset.FirstFitIsUnique | pkg/nfqlb/offset.go:26-52 | the answer of first fit is one number, whatever the order in which services are met |
| Networking.NextIP | pkg/networking/ip.go:36-48 | the carry loop over the bytes computes the successor byte string in a fresh buffer |
| Networking.NextValue | pkg/networking/ip.go:36-48 | as a number the successor is +1 modulo 256^n, for every length n |
| Networking.BroadcastFromIPNet | pkg/networking/ip.go:24-33 | every byte of the address with the host bits set, in a fresh buffer |
| Networking.NetworkBlock | pkg/networking/ip.go:24-33 | for every length and prefix the broadcast address is the network address plus 2^(host bits) - 1 |
| Networking.NetworkMembers | pkg/networking/ip.go:24-33 | the addresses of a prefix are the 2^(host bits) numbers from the network address on |
| Networking.IntervalExact | pkg/nfqlb/set.go:210-232 | the half-open interval of a prefix holds exactly its addresses if and only if the broadcast address is not the last address |
| VipSet.GetIPv4AndIPv6 | pkg/nfqlb/set.go:112-145 | the host-length destinations of each family, each once, in canonical form |
| VipSet.HostIs | pkg/nfqlb/set.go:112-145 | the destinations that count are those of length 32 in 4 bytes and of length 128 in 16, where the IPv4-mapped ones are IPv4 |
| VipSet.IpNetToSetElement | pkg/nfqlb/set.go:210-232 | the interval from a host address to its successor, in 4 bytes for IPv4; for the IPv4-mapped last address, and no other, both ends keep 16 bytes |
| VipSet.GetCurrentElements | pkg/nfqlb/set.go:81-110 | the pairs read from a kernel dump are the intervals in the set, each once |
| VipSet.PairUpDump | pkg/nfqlb/set.go:81-110 | pairing ends with starts undoes the dump of any list of intervals |
| VipSet.UpdateSet | pkg/nfqlb/set.go:38-79 | without an error exactly the difference is deleted and added |
| VipSet.NfQueue.SetDestinationCIDRs | pkg/nfqlb/netfilter.go:430-456 | without an error each set holds exactly the intervals of the host-length destinations of its family, with either interval for the last IPv4 address when its mapped spelling is among them |
| VipSet.HostsMatched | pkg/nfqlb/set.go:210-232 | intervals of host addresses match exactly these addresses, except for the last one |
| Nfqlb.Service.AddTarget | pkg/nfqlb/nfqlb.go:496-538 | a known identifier changes nothing; otherwise one activation with mark identifier + offset, rejected outside the size of the shared memory, then the record and the routes; no other route is touched, and all of them are there unless a creation failed, which is no error |
| Nfqlb.Service.DeleteTarget | pkg/nfqlb/nfqlb.go:542-578 | the record goes first, even when the deactivation fails; without an error the index is gone, no other route is touched, and the routes to the given addresses are gone unless a deletion failed, which is no error |
| Nfqlb.Service.AddFlow | pkg/nfqlb/nfqlb.go:410-461 | without an error the table has exactly this entry more or replaced, and the virtual IP sets follow it |
| Nfqlb.Service.DeleteFlow | pkg/nfqlb/nfqlb.go:464-492 | without an error the entry is gone and the virtual IP sets follow |
| Nfqlb.Backend.UpdateNfQueueDestinationCIDRs | pkg/nfqlb/nfqlb.go:149-166 | without an error the sets hold exactly the host-length destinations of the flows in the table |
| Nfqlb.FlowsMatched | pkg/nfqlb/nfqlb.go:149-166 | then an address of either family is matched if and only if some flow has it as destination with all bits of its length, in 4 bytes or in 16, and it is not the last address |
| Views.NoMarkCollision | pkg/nfqlb/nfqlb.go:508-522 | no two recorded targets of registered services share a forwarding mark |
| Views.TargetAdded | pkg/nfqlb/nfqlb.go:508-533 | one more target is one more activation and its routes |
| Views.TargetDeleted | pkg/nfqlb/nfqlb.go:549-578 | one target less removes its own routes and nobody else's |
| Views.ServiceRemoved | pkg/nfqlb/nfqlb.go:350-388 | one service less removes exactly its shared memory and its routes |
| LoadBalancing.LoadBalancer.AddService | pkg/nfqlb/nfqlb.go:293-347 | a known name returns its service; otherwise a new service on the first free range, registered only when `init` succeeds |
| LoadBalancing.LoadBalancer.DeleteService | pkg/nfqlb/nfqlb.go:350-407 | a known name is unregistered first and, without an error, nothing of it is left (of its routes, while no command on a route has failed) and nothing else is gone; an unknown name leaves the mutex locked |
| LoadBalancing.LoadBalancer.TearDown | pkg/nfqlb/nfqlb.go:364-406 | shared memory, targets and flows of the service are gone, or nothing happened, or a command after `delete` failed |
| LoadBalancing.LoadBalancer.AddTargetInStep | pkg/nfqlb/nfqlb.go:496-538 | the marks stay valid whatever fails; without an error the backend stays in step with what is recorded, with its routes while none failed |
| LoadBalancing.LoadBalancer.DeleteTargetInStep | pkg/nfqlb/nfqlb.go:542-578 | the same for deletion with the recorded addresses |
| LoadBalancing.Run | pkg/nfqlb/nfqlb.go:293-578 | any sequence of calls on registered or stale handles, with any failures, keeps ranges disjoint and targets inside their range |
| Endpoints.SameStringSlice | pkg/controllers/statelessloadbalancer/manager.go:360-384 | true exactly for equal multisets; the running map is the difference at each step |
| Endpoints.IsUnchanged | pkg/controllers/statelessloadbalancer/manager.go:325-349 | an endpoint stays exactly when it is wanted with the same identifier and address multiset and is ready |
| Endpoints.NowSettled | pkg/controllers/statelessloadbalancer/manager.go:235-357 | what stays and what is added together are the wanted usable endpoints, each once |
| Endpoints.SettledServes | pkg/controllers/statelessloadbalancer/manager.go:235-357 | with distinct identifiers such a record stands for exactly the wanted targets |
| Endpoints.ServesDetermines | pkg/controllers/statelessloadbalancer/manager.go:235-357 | two target tables that serve the same endpoints are equal up to the order of addresses |
| Endpoints.SettledApart | pkg/controllers/statelessloadbalancer/manager.go:235-357 | a settled record with distinct identifiers exists only for wanted endpoints that share none |
| Endpoints.IdentifiersAfter | pkg/controllers/statelessloadbalancer/manager.go:284-357 | after an error-free call an identifier is a target exactly when it was kept or a usable endpoint that is new or changed brings it |
| Endpoints.ServedExactly | pkg/controllers/statelessloadbalancer/manager.go:284-357 | from any state: an error-free call serves a usable endpoint, with its own addresses, in every order of visiting exactly when its identifier is kept with these addresses, or is not kept and every endpoint that is new or changed and carries it has them |
| Endpoints.NewEndpointNotServed | pkg/controllers/statelessloadbalancer/manager.go:284-307 | of two new usable endpoints with one identifier and different addresses an error-free call may serve either one, and then not the other |
| Endpoints.Starved | pkg/controllers/statelessloadbalancer/manager.go:320-347 | when one of two usable endpoints with one identifier departs, no target is left for the other one |
| Flows.FlowNamesApart | pkg/controllers/statelessloadbalancer/manager.go:391-393 | flow names tell all routes of two services apart exactly when neither name is the other behind a dot |
| Flows.FlowPerRouteExactly | pkg/controllers/statelessloadbalancer/manager.go:181-192 | every list of distinct routes gets one flow per route with a known backend exactly when no service name extends another |
| Flows.DotlessNamesDoNotExtend | pkg/controllers/statelessloadbalancer/manager.go:391-393 | names without dots, which are the legal names of Kubernetes services, meet that condition |
| Flows.OneFlowPerRoute | pkg/controllers/statelessloadbalancer/manager.go:181-231 | under that condition the table holds the entry of each route whose first backend is known |
| Flows.NothingElse | pkg/controllers/statelessloadbalancer/manager.go:181-231 | no entry without a route |
| Flows.DesiredTable | pkg/controllers/statelessloadbalancer/manager.go:181-231 | the table depends on the routes and the names of the services only, not on their handles |
| Flows.DesiredEntriesAre | pkg/controllers/statelessloadbalancer/manager.go:169-232 | the table has exactly the names of a route and its first backend, when that is a known service, each with the fields of the last such route: target, priority, protocols, destinations and byte matches as they are, ports unless all of them match, sources unless all their masks are zero |
| Nfqlb.AnyIPRangeIs | pkg/nfqlb/utils.go:59-79 | source ranges are left out exactly when every one has mask 0 between its first slash and the next one or the end |
| ServiceManager.Manager.SetServices | pkg/controllers/statelessloadbalancer/manager.go:105-165 | done: exactly the wanted services, survivors unchanged, coherence kept; failed: something wanted is missing or something deleted is still cached; the flows become those of the known services when the call is not blocked and every wanted service is there at the end, and stay as they were otherwise; the mutex is left locked exactly when an unwanted cached service is unknown to the load balancer |
| ServiceManager.Manager.SetFlows | pkg/controllers/statelessloadbalancer/manager.go:169-231 | the cache becomes the wanted flows whatever fails; without an error, from any earlier state, the table loses exactly the cached flows no longer wanted and has every flow that a route asks for, with the fields of the route; from a coherent state it has no others |
| ServiceManager.Manager.SetEndpoints | pkg/controllers/statelessloadbalancer/manager.go:235-282 | all deactivations before all activations; only changed endpoints are deactivated, only new ones activated; from any state the targets lose exactly the identifiers of gone or changed endpoints and gain those of the new ones; the record is settled whatever fails; settled input issues no call; from a coherent state and without an error the result is coherent if and only if no two usable endpoints share an identifier, and then the targets are exactly the usable endpoints |
| ServiceManager.Manager.RemoveEndpoints | pkg/controllers/statelessloadbalancer/manager.go:310-357 | keeps exactly the unchanged endpoints, takes them off the wanted ones, and from any state takes exactly the identifiers of the others out of the targets |
| ServiceManager.Manager.AddEndpoints | pkg/controllers/statelessloadbalancer/manager.go:284-308 | adds every usable endpoint once; from any state old targets stay, new ones come from usable endpoints, and without an error every usable endpoint has one; with distinct identifiers no activation is skipped as already there |
| Convergence.Reconcile | pkg/controllers/statelessloadbalancer/statelessloadbalancer.go:58-91 | from a coherent manager an error-free pass leads to a coherent one if and only if no two usable endpoints of a service share an identifier; then the backend serves what is asked for, and has exactly its flows when the routes could be listed; when they could not, the flows are those of the services that stayed, and are what is asked for if and only if these are |
| Convergence.ReconcileServices | pkg/controllers/statelessloadbalancer/service.go:29-60 | services first, then the endpoints of each, up to the first error; without one the wanted services are there with settled endpoints, and the flows are those of the services that stayed |
| Convergence.Start | cmd/stateless-load-balancer/cmd/run.go:110-127 | a new controller is coherent |
| Convergence.Lifetime | pkg/controllers/statelessloadbalancer/statelessloadbalancer.go:58-91 | after any number of error-free passes, each asking for endpoints without shared identifiers, the backend serves what the last one asked for, and has its flows when that one could list the routes |
| Convergence.ServedFromSlices | pkg/controllers/statelessloadbalancer/manager.go:105-282 | the services have 100 targets at most; an index is activated exactly when the stored slices provide it: for a UID that is ready in the first slice that has it, as its first zone; its mark leads exactly to the IPs of the UID in the two slices, while no command on a route has failed |
| Convergence.RealisedTable | pkg/controllers/statelessloadbalancer/manager.go:169-231 | the flow table has exactly the flows that the routes ask for, with the fields of the routes |
| Convergence.HistoryIrrelevant | pkg/controllers/statelessloadbalancer/manager.go:105-282 | two states that realise the same wishes agree on flows, services, sizes, activated identifiers, address multisets, and the addresses that the virtual IP sets match |
| Convergence.SameRoutes | pkg/nfqlb/nfqlb.go:508-533 | an identifier of a service is routed to the same addresses in both, whatever the marks, while no command on a route has failed |
| Convergence.RouteOf | pkg/nfqlb/nfqlb.go:508-533 | traffic marked for a target is routed exactly to the addresses of that target |
| Convergence.StoredEndpointsApart | pkg/controllers/statelessloadbalancer/endpointslice.go:41-80 | the slices that the identifier allocator keeps stored give usable endpoints with distinct identifiers below the limit |
| Convergence.RunsAreWellFormed | pkg/controllers/statelessloadbalancer/endpointslice.go:41-80 | whatever a run of complete publications has stored for each service meets the hypothesis of convergence |
| Convergence.InterruptedApart | pkg/controllers/statelessloadbalancer/endpointslice.go:41-80 | at every point of a run that may stop after any write, the usable endpoints have distinct identifiers if and only if none stored in IPv6 only shares the one of an endpoint in IPv4 and none share inside a slice; the latter never happens while no UID comes back while it is stored |
| Convergence.AnyRunsAreWellFormed | pkg/controllers/statelessloadbalancer/endpointslice.go:41-80 | what such runs have stored meets the hypothesis of convergence exactly when this holds of every service |
| Convergence.StepIsClean | pkg/controllers/statelessloadbalancer/controllermanager/endpointslice.go:159-167 | a reconcile that writes both slices stores wanted UIDs only, and meets the hypothesis while no UID comes back while it is stored |
| Convergence.InterruptionShares | pkg/controllers/statelessloadbalancer/controllermanager/endpointslice.go:159-167 | a concrete run between whose writes two ready UIDs are stored with identifier 0, which does not meet the hypothesis |
| Convergence.ReconcileEndpointSlices | pkg/controllers/statelessloadbalancer/endpointslice.go:30-80 | the two stored slices of every service are merged and its record is settled on them, up to the first error |
| Convergence.RepeatEndpoints | pkg/controllers/statelessloadbalancer/manager.go:299-304 | the same endpoints again issue no call and leave the targets as they are, also after failed activations |
| Convergence.StarvedEndpoint | pkg/controllers/statelessloadbalancer/manager.go:320-347 | two usable endpoints share an identifier and one departs: whatever the state before and whatever fails, the other one has no target, counts as settled, and stays so when the same endpoints are set again |
| Convergence.StarvedByInterruption | pkg/controllers/statelessloadbalancer/manager.go:320-347 | the slices read between the writes of one publication and after the next one are such a case |
| Convergence.RepeatFlows | pkg/controllers/statelessloadbalancer/manager.go:181-231 | the same routes again, without an error: the table is the wanted one if and only if the first call left no other entry, and what it left stays |
| Convergence.RepeatServices | pkg/controllers/statelessloadbalancer/manager.go:122-140 | the same services twice, whatever fails: the mutex of the load balancer is left locked exactly when it was, or one of the calls found a cached service that is neither wanted nor registered; a failed deletion leaves such a service |
| Handles.ApartExactly | pkg/controllers/statelessloadbalancer/manager.go:105-165 | cached services whose ranges were disjoint stay so exactly when no added one overlaps one that is not registered |
| Handles.HandleMarks | pkg/nfqlb/nfqlb.go:508-522 | while they are disjoint, no two targets of cached services share a forwarding mark |
| Handles.AnyCalls | pkg/controllers/statelessloadbalancer/manager.go:105-282 | over any sequence of calls on a new manager, whatever fails, targets are in range, and all cached ranges are disjoint at every point if and only if no call added an overlapping service |
| Handles.StaleHandle | pkg/nfqlb/nfqlb.go:293-407 | a service is added, its deletion fails, another one of the same size is added: both have the same offset, and a target added through each has the same mark |
| Heal.StepKeeps | pkg/nfqlb/nfqlb.go:119-147 | every step of the healer or the manager, with any outcome of its command, keeps the invariant of locks, marks and routes |
| Heal.BetweenCalls | pkg/nfqlb/nfqlb.go:119-147 | between calls every route belongs to a recorded target of a registered service or has a mark that a failed deletion left, and all routes of recorded targets are there while no creation has failed |
| Heal.NeverComesBack | pkg/nfqlb/nfqlb.go:549-578 | after a deletion that did not fail no route with that mark exists until a target with it is recorded again |
| Heal.TidyRun | pkg/nfqlb/nfqlb.go:549-578 | nothing is left behind unless a deactivation or a deletion failed, a target was deleted with other addresses than it had, or DeleteService ended early |
| Heal.IdleViews | pkg/nfqlb/nfqlb.go:119-147 | between calls the registry, read as the rest of the project has it, has valid marks, and its routes are the routes in place while nothing failed |
| Heal.Exclusive | pkg/nfqlb/nfqlb.go:123-141 | in no state of any run are healer and manager inside one mutex |
| Heal.NoDeadlock | pkg/nfqlb/nfqlb.go:350-362 | unless the mutex was leaked, the manager can go on or waits for the healer, which can |
| Heal.PassesEnd | pkg/nfqlb/nfqlb.go:122-142 | every step of a pass brings the healer closer to releasing the mutex, and the manager cannot set it back |
| Heal.LeakExactly | pkg/nfqlb/nfqlb.go:351-356 | over every run the mutex is leaked exactly when some DeleteService met a name that is not registered |
| Heal.LeakIsForever | pkg/nfqlb/nfqlb.go:351-356 | from then on there is no healing and no call gets past the mutex |
| Heal.VisitRestores | pkg/nfqlb/nfqlb.go:124-140 | when the healer leaves a service without a failure, all routes of its targets are there |
| Heal.PassRestores | pkg/nfqlb/nfqlb.go:119-147 | after a whole pass without a failed creation, whatever the manager does meanwhile, all routes of all recorded targets of registered services are there, but for those it is just creating |
| HealCalls.DeleteTargetCall | pkg/nfqlb/nfqlb.go:542-578 | from the call to its return, with the healer at work: the target is gone and no other target or service has changed; unless a command failed no route to the given addresses is left, and when these are the recorded ones no other route with the mark has changed, so that none is left but what earlier deletions left |
| HealCalls.AddTargetCall | pkg/nfqlb/nfqlb.go:496-538 | likewise: the target is recorded exactly when it was absent, in range and activated, otherwise nothing changes; then its routes are there unless a creation failed, and no other route with the mark has changed |
| HealCalls.DeleteServiceCall | pkg/nfqlb/nfqlb.go:350-407 | likewise: the service is gone and no other has changed; for an unknown name nothing has, and the mutex is lost |
| HealCalls.AddServiceCall | pkg/nfqlb/nfqlb.go:293-347 | likewise: the name is registered exactly when it was before or the call registered it, and then on marks that are nobody's |
| HealCalls.CreationMayFail | pkg/nfqlb/routing.go:32-57 | creating a route may add it, fail, or fail and take it away |
| HealCalls.RestoringMayFail | pkg/nfqlb/nfqlb.go:119-147 | and so may healing |
| HealCalls.DeletionMayFail | pkg/nfqlb/nfqlb.go:564-575 | deleting a route may fail and leave it |
| HealCalls.CommandsMayFail | pkg/nfqlb/nfqlb.go:293-578 | activations and deactivations may fail, AddService and DeleteService may end early |
| Annotation.GetNetworkAttachmentAnnotation | pkg/controllers/statelessloadbalancer/podinjector/network/networkattachmentannotation.go:80-182 | the list as it was when its elements of the proxy are accepted, otherwise the elements of others followed by rebuilt ones that read as: one virtual IP each, in order, and per family with gateways and virtual IPs one policy route to these gateways, for these source prefixes, on the least free table |
| Annotation.GetFreeTableID | pkg/controllers/statelessloadbalancer/podinjector/network/networkattachmentannotation.go:184-218 | the least table from 5000 on that no policy route uses, where the fraction of a table number is dropped; the bounded loop always finds it |
| Annotation.GetVIPsGateways | pkg/controllers/statelessloadbalancer/podinjector/network/networkattachmentannotation.go:256-301 | the virtual IPs and gateways the elements mention |
| Annotation.EqualMapSlice | pkg/controllers/statelessloadbalancer/podinjector/network/networkattachmentannotation.go:241-254 | true exactly when the list has the elements of the set |
| Annotation.EqualVIPsGateways | pkg/controllers/statelessloadbalancer/podinjector/network/networkattachmentannotation.go:220-239 | true exactly when the wishes repeat nothing and are what the elements mention |
| Annotation.ForeignSurvive | pkg/controllers/statelessloadbalancer/podinjector/network/networkattachmentannotation.go:88-100 | a call keeps the elements of all others as they are, in order |
| Annotation.TablesStayApart | pkg/controllers/statelessloadbalancer/podinjector/network/networkattachmentannotation.go:110-181 | a call keeps the routing tables of different proxies disjoint |
| Annotation.TablesApartOverRuns | pkg/controllers/statelessloadbalancer/podinjector/network/networkattachmentannotation.go:80-218 | over any sequence of calls different proxies never share a routing table |
| Annotation.OthersSurviveRuns | pkg/controllers/statelessloadbalancer/podinjector/network/networkattachmentannotation.go:88-100 | over any sequence of calls for other proxies the elements of a proxy stay as they are |
| Annotation.OutsideSurvivesRuns | pkg/controllers/statelessloadbalancer/podinjector/network/networkattachmentannotation.go:88-100 | over any sequence of calls for some proxies the elements managed by none of them, networks without a label included, are the same sequence |
| Annotation.AcceptsItself | pkg/controllers/statelessloadbalancer/podinjector/network/networkattachmentannotation.go:102-108 | rebuilt elements are accepted by the same wishes exactly when nothing repeats and every family with gateways has virtual IPs |
| Annotation.SecondCall | pkg/controllers/statelessloadbalancer/podinjector/network/networkattachmentannotation.go:80-182 | the same call again changes nothing exactly when the first one accepted, or the wishes settle, or there are no policy routes |
| Annotation.NeverSettles | pkg/controllers/statelessloadbalancer/podinjector/network/networkattachmentannotation.go:110-181 | otherwise every further call rewrites the annotation |
| AnnotationSkip.AcceptsExactly | pkg/controllers/statelessloadbalancer/podinjector/network/networkattachmentannotation.go:220-239 | for any earlier wishes: their elements are accepted exactly by repetition-free wishes that ask for the same addresses |
| AnnotationSkip.AcceptedSameExactly | pkg/controllers/statelessloadbalancer/podinjector/network/networkattachmentannotation.go:220-239 | accepted wishes are those the elements were built for, up to order, if and only if nothing was repeated then |
| AnnotationSkip.SkipExactly | pkg/controllers/statelessloadbalancer/podinjector/network/networkattachmentannotation.go:220-239 | elements built without repetitions are accepted exactly for the same wishes up to order |
| AnnotationSkip.SameBuilds | pkg/controllers/statelessloadbalancer/podinjector/network/networkattachmentannotation.go:110-181 | wishes that are the same up to order build the same elements, up to order, the order of their lists, and the routing table |
| AnnotationSkip.SkipSoundExactly | pkg/controllers/statelessloadbalancer/podinjector/network/networkattachmentannotation.go:80-182 | keeping accepted elements is what a rebuild gives, up to order and routing table, if and only if they were built without repetitions |
| AnnotationSkip.RepeatedGatewayIsSkipped | pkg/controllers/statelessloadbalancer/podinjector/network/networkattachmentannotation.go:220-239 | concrete elements built with a gateway twice that are kept although a rebuild differs |

## Left out

- Kubernetes client calls, watches, owner references, names and labels of slices, and the templating of deployments: the API server is the pair of stored slices.
- The choice of services and routes by label and parent in the controllers: a pass starts from the chosen ones.
- Executing nfqlb and BIRD, nftables chains and rules, and netlink: commands and the kernel are maps and sets; a policy route is a pair of mark and address.
- Parsing and printing of IP addresses and of the flow list: an address is an abstract text with at most one value and one canonical spelling; two spellings of an address are different strings to `SameStringSlice` and the annotation.
- The text keys of nftables elements: intervals are compared as pairs of byte strings.
- JSON: annotation elements are as they read after a round trip, so that a table is a real number and a list holds values of any kind; conversions of numbers outside 64 bits are not modelled.
- Hashed interface names: a function of the arguments with no provable uniqueness.
- KPNG and Istio controllers, CNI plugins and their store, BIRD: templating and I/O.
- Sharing of address storage between merged and original endpoints through append: endpoints are values.
- Error texts and logging: an error is a flag; a call that waits for ever for a mutex ends with status Blocked.
- RouteOf: routes are ghost pairs, so the removal and re-creation inside createPolicyRoute (pkg/nfqlb/routing.go:42) is one step.
- AddTargetInStep: in step with the backend is claimed for error-free calls only; after a failed deactivation the index stays active although the target is forgotten. The routes are claimed while no command on a route has failed; Heal has what restores them.
- AddTarget: which of the commands on routes failed is not told apart; the flag `clean` says that none has.
- DeleteTargetInStep: claimed for the recorded addresses, which is what the manager passes.
- StepKeeps: in Heal the manager adds and deletes targets of registered services only, which is what a coherent manager does; Handles has the marks of the others.
- PartialPublicationUnique: one way, under a condition on the whole run; AnyRunIsApart has the exact condition for each step.
- Lifetime: for passes that ask for endpoints without shared identifiers, which complete publications give (RunsAreWellFormed); Reconcile has the exact condition for one pass, SetEndpoints what happens otherwise.
- HandleMarks: disjoint ranges are enough, not necessary; overlapping ones share a mark only when both services record a target there.
- SkipExactly: the IPv4 and IPv6 lists of the two calls share no text across families.
- Start: getQueue and the options of the load balancer are not modelled; every service has the default of 100 targets, which is what the manager asks for.
