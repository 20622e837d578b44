/** The caches of Manager as values, and what happens to them when services, endpoints and flows are added or removed.
    pkg/controllers/statelessloadbalancer/manager.go. */
module ManagerState {
  import opened EndpointSlice
  import opened Endpoints
  import opened Flows
  import opened VipSet
  import opened Nfqlb
  import opened Views
  import opened Offset

  function Deactivations(name: string, ids: seq<int>): seq<Call> {
    seq(|ids|, i requires 0 <= i < |ids| => Deactivate(name, ids[i]))
  }

  function Activations(name: string, ids: seq<int>): seq<Call> {
    seq(|ids|, i requires 0 <= i < |ids| => Activate(name, ids[i]))
  }

  lemma CallsConcat(calls: seq<Call>, name: string, ids: seq<int>, more: seq<int>)
    ensures calls + Deactivations(name, ids) + Deactivations(name, more) == calls + Deactivations(name, ids + more)
    ensures calls + Activations(name, ids) + Activations(name, more) == calls + Activations(name, ids + more)
  {
  }

  lemma NoCalls(calls: seq<Call>, name: string)
    ensures calls + Deactivations(name, []) == calls && calls + Activations(name, []) == calls
  {
  }

  lemma NotHeld(service: Service, a: seq<Endpoint>, e: Endpoint, b: seq<Endpoint>)
    ensures Holds(service, a + [e] + b) ==> GetIdentifier(e).Some?
  {
    EachHasIdentifier(a, e, b);
  }

  lemma SplitAt<T>(a: seq<T>, b: seq<T>, i: nat)
    requires i < |b|
    ensures a + [b[i]] + b[i + 1..] == a + b[i..]
  {
  }

  lemma SplitAtEnd<T>(a: seq<T>, b: seq<T>)
    ensures b[..|b|] == b && a + b[|b|..] == a
  {
  }

  /** A service holds exactly what a list of recorded endpoints with distinct identifiers stands for. */
  ghost predicate Holds(service: Service, es: seq<Endpoint>)
    reads service`targets
  {
    DistinctIdentifiers(es) && service.targets == TargetsOf(es)
  }

  /** A service holds no more than a list of recorded endpoints with distinct identifiers stands for. */
  ghost predicate Within(service: Service, es: seq<Endpoint>)
    reads service`targets
  {
    DistinctIdentifiers(es) && service.targets.Keys <= TargetsOf(es).Keys
  }

  lemma HoldsWithin(service: Service, es: seq<Endpoint>)
    ensures Holds(service, es) ==> Within(service, es)
  {
  }

  /** The three maps agree with each other; every recorded endpoint has an identifier. */
  ghost predicate Consistent(services: map<string, Service>, flows: map<string, FlowImpl>,
                             endpoints: map<string, seq<Endpoint>>, backend: Backend)
  {
    && endpoints.Keys == services.Keys
    && (forall n :: n in services ==> OneOf(services[n], n, backend))
    && Keyed(flows, backend)
    && (forall n :: n in endpoints ==> Recordable(endpoints[n]))
  }

  ghost predicate OneOf(service: Service, name: string, backend: Backend) {
    service.name == name && service.backend == backend && service.maxTargets == DEFAULT_MAX_TARGETS
  }

  /** Every flow is known under its name. */
  ghost predicate Keyed(flows: map<string, FlowImpl>, backend: Backend) {
    forall k :: k in flows ==> Key(flows[k]) == k && flows[k].service.backend == backend
  }

  /** What the load balancer has registered the manager knows by the same handle. */
  ghost predicate Tracks(services: map<string, Service>, registered: map<string, Service>) {
    forall n :: n in registered ==> n in services && services[n] == registered[n]
  }

  /** Every flow belongs to a known service. */
  ghost predicate Bound(flows: map<string, FlowImpl>, services: map<string, Service>) {
    forall k :: k in flows ==> flows[k].service.name in services && services[flows[k].service.name] == flows[k].service
  }

  /** The flows of the manager, each bound to a known service, are the flow table of the backend, and the sets hold
      their destinations. */
  ghost predicate FlowsHeld(table: map<string, FlowEntry>, v4: set<Interval>, v6: set<Interval>,
                            flows: map<string, FlowImpl>, services: map<string, Service>)
  {
    table == Entries(flows) && Bound(flows, services) && VipsHeld(table, v4, v6)
  }

  /** What one service and its backend were before endpoints are added. */
  datatype Before = Before(targets: map<int, seq<Address>>, calls: seq<Call>, held: bool, inStep: bool, bounded: bool)

  /** Every shared memory has the size that the manager asks for. */
  ghost predicate Sized(shm: map<string, Shm>) {
    forall n :: n in shm ==> shm[n].n == DEFAULT_MAX_TARGETS
  }

  ghost predicate InSize(targets: map<int, seq<Address>>) {
    forall id :: id in targets ==> 0 <= id < DEFAULT_MAX_TARGETS
  }

  /** The targets of a service fit the size of the shared memories. */
  ghost predicate Bounded(service: Service, shm: map<string, Shm>)
    reads service`targets
  {
    Sized(shm) && InSize(service.targets)
  }

  lemma NothingInSize()
    ensures InSize(map[])
  {
  }

  ghost predicate TargetsInSize(services: map<string, Service>)
    reads services.Values`targets
  {
    forall n :: n in services ==> InSize(services[n].targets)
  }

  ghost predicate AllInSize(targets: map<string, map<int, seq<Address>>>) {
    forall n :: n in targets ==> InSize(targets[n])
  }

  lemma SizedLess(shm: map<string, Shm>, shm': map<string, Shm>, name: string)
    requires Sized(shm) && (shm' == shm || shm' == shm - {name})
    ensures Sized(shm')
  {
  }

  lemma SizedWith(shm: map<string, Shm>, name: string)
    requires Sized(shm)
    ensures Sized(shm[name := Shm(DEFAULT_MAX_TARGETS, map[])])
  {
  }

  lemma SizedStill(shm: map<string, Shm>, shm': map<string, Shm>)
    requires Sized(shm) && SameSizes(shm', shm)
    ensures Sized(shm')
  {
  }

  lemma InSizeLess(targets: map<int, seq<Address>>, id: int)
    requires InSize(targets)
    ensures InSize(targets - {id})
  {
  }

  lemma InSizeMore(targets: map<int, seq<Address>>, id: int, ips: seq<Address>)
    requires InSize(targets) && 0 <= id < DEFAULT_MAX_TARGETS
    ensures InSize(targets[id := ips])
  {
  }

  /** The caches of the manager, and what matters of the load balancer, before services are deleted. */
  datatype Caches = Caches(services: map<string, Service>, endpoints: map<string, seq<Endpoint>>,
                           flows: map<string, FlowImpl>, registered: map<string, Service>, held: bool, coherent: bool,
                           bounded: bool)

  ghost predicate DeletionsDone(start: Caches, gone: set<string>, wanted: set<string>, todo: set<string>, failed: bool,
                           services: map<string, Service>, endpoints: map<string, seq<Endpoint>>,
                           registered: map<string, Service>, held: bool)
  {
    && todo <= start.services.Keys && gone <= start.services.Keys - todo - wanted
    && services == start.services - gone && endpoints == start.endpoints - gone
    && (if failed then Unknown(services, registered, wanted, todo) else gone == start.services.Keys - todo - wanted)
    && registered == start.registered - (start.services.Keys - todo - wanted)
    && (held <==> start.held || Unknown(start.services, start.registered, wanted, todo))
  }

  lemma DeletionsWanted(start: Caches, gone: set<string>, wanted: set<string>, todo: set<string>, failed: bool,
                       services: map<string, Service>, endpoints: map<string, seq<Endpoint>>,
                       registered: map<string, Service>, held: bool, name: string)
    requires DeletionsDone(start, gone, wanted, todo, failed, services, endpoints, registered, held)
    requires name in todo && name in wanted
    ensures DeletionsDone(start, gone, wanted, todo - {name}, failed, services, endpoints, registered, held)
  {
    hide Unknown;
    UnknownNext(start.services, start.registered, wanted, todo, name);
    UnknownStays(services, registered, wanted, todo, name);
    GoneNext(start.services, start.endpoints, gone, todo, wanted, name);
    assert start.services.Keys - todo - wanted == start.services.Keys - (todo - {name}) - wanted;
  }

  /** A service is dropped, or (when that failed) only taken out of the registry. */
  lemma DeletionsDropped(start: Caches, gone: set<string>, wanted: set<string>, todo: set<string>, failed: bool,
                        services: map<string, Service>, endpoints: map<string, seq<Endpoint>>,
                        registered: map<string, Service>, name: string)
    requires DeletionsDone(start, gone, wanted, todo, failed, services, endpoints, registered, false)
    requires name in todo && name !in wanted
    ensures name in services && (name in registered <==> name in start.registered)
    ensures DeletionsDone(start, gone, wanted, todo - {name}, true, services, endpoints, registered - {name},
             name !in registered)
    ensures DeletionsDone(start, gone + {name}, wanted, todo - {name}, failed, services - {name}, endpoints - {name},
                     registered - {name}, name !in registered)
  {
    UnknownNext(start.services, start.registered, wanted, todo, name);
    UnknownStays(services, registered, wanted, todo, name);
    GoneNext(start.services, start.endpoints, gone, todo, wanted, name);
    MinusNext(start.registered, start.services.Keys - todo - wanted, name);
    assert start.services.Keys - todo - wanted + {name} == start.services.Keys - (todo - {name}) - wanted;
    UnknownHere(services, registered - {name}, wanted, todo - {name}, name);
    hide Unknown;
  }

  /** What was added is registered. */
  ghost predicate AddedAre(start: Caches, services: map<string, Service>, registered: set<string>) {
    forall n :: n in services && n !in start.services ==> n in registered
  }

  /** Services were added to the caches, and nothing else happened to them. */
  ghost predicate Grown(start: Caches, services: map<string, Service>, endpoints: map<string, seq<Endpoint>>,
                        registered: set<string>, added: set<string>)
  {
    && services.Keys == endpoints.Keys == start.services.Keys + added && start.endpoints.Keys == start.services.Keys
    && (forall n :: n in start.services ==> services[n] == start.services[n])
    && (forall n :: n in endpoints ==> endpoints[n] == if n in start.endpoints then start.endpoints[n] else [])
    && registered <= start.registered.Keys + added && AddedAre(start, services, registered)
  }

  lemma GrownBy(start: Caches, services: map<string, Service>, endpoints: map<string, seq<Endpoint>>,
                registered: set<string>, added: set<string>, name: string)
    requires Grown(start, services, endpoints, registered, added)
    ensures name in services ==> Grown(start, services, endpoints, registered, added + {name})
  {
  }

  lemma GrownWith(start: Caches, services: map<string, Service>, endpoints: map<string, seq<Endpoint>>,
                  registered: set<string>, added: set<string>, name: string, s: Service)
    requires Grown(start, services, endpoints, registered, added) && name !in services
    ensures Grown(start, services[name := s], endpoints[name := []], registered + {name}, added + {name})
  {
  }

  /** The services are the wanted ones; those that stay keep their handle and endpoints, new ones start without any. */
  ghost predicate Exchanged(before: map<string, Service>, after: map<string, Service>,
                            endpoints: map<string, seq<Endpoint>>, endpoints': map<string, seq<Endpoint>>,
                            wanted: set<string>)
  {
    && after.Keys == endpoints'.Keys == wanted
    && (forall n :: n in before && n in wanted && n in endpoints ==>
        after[n] == before[n] && endpoints'[n] == endpoints[n])
    && (forall n :: n in wanted && n !in before ==> endpoints'[n] == [])
  }

  /** A service outside `todo` that is not wanted and not registered: the manager still knows it. */
  ghost predicate Unknown(services: map<string, Service>, registered: map<string, Service>,
                          wanted: set<string>, todo: set<string>)
  {
    exists n :: n in services && n !in wanted && n !in todo && n !in registered
  }

  /** The flows of the services that are still there. */
  function Live(flows: map<string, FlowImpl>, known: set<string>): map<string, FlowImpl> {
    map k | k in flows && flows[k].service.name in known :: flows[k]
  }

  lemma KeyedLive(flows: map<string, FlowImpl>, backend: Backend, known: set<string>)
    requires Keyed(flows, backend)
    ensures Keyed(Live(flows, known), backend)
  {
  }

  /** Adding services that were not there before does not bring flows back. */
  lemma LiveSame(flows: map<string, FlowImpl>, before: map<string, Service>, wanted: set<string>,
                 services: map<string, Service>)
    requires Bound(flows, before) && services.Keys == (before - (before.Keys - wanted)).Keys + wanted
    ensures Live(flows, services.Keys) == Live(flows, (before - (before.Keys - wanted)).Keys)
  {
  }

  lemma UnknownGrown(start: Caches, services: map<string, Service>, endpoints: map<string, seq<Endpoint>>,
                     registered: map<string, Service>, wanted: set<string>)
    requires Grown(start, services, endpoints, registered.Keys, wanted)
             && Unknown(start.services, start.registered, wanted, {})
    ensures Unknown(services, registered, wanted, {})
  {
    var n :| n in start.services && n !in wanted && n !in start.registered;
    assert n in services && n !in wanted && n !in {} && n !in registered;
  }

  lemma ExchangedBy(services: map<string, Service>, endpoints: map<string, seq<Endpoint>>, wanted: set<string>,
                    start: Caches,
                    services': map<string, Service>, endpoints': map<string, seq<Endpoint>>, registered: set<string>)
    requires start.services == services - (services.Keys - wanted)
             && start.endpoints == endpoints - (services.Keys - wanted)
    requires Grown(start, services', endpoints', registered, wanted) && endpoints.Keys == services.Keys
    ensures Exchanged(services, services', endpoints, endpoints', wanted)
  {
    assert services'.Keys == wanted;
  }

  lemma KeysAdded<S>(m: map<string, S>, name: string, s: S)
    ensures m[name := s].Keys == m.Keys + {name}
  {
  }

  /** Every service is one of before, or was added and is registered. */
  ghost predicate OldOrAdded(before: map<string, Service>, after: map<string, Service>, registered: set<string>) {
    forall n :: n in after ==> (n in before && after[n] == before[n]) || n in registered
  }

  lemma OnlyOld(before: map<string, Service>, after: map<string, Service>, registered: set<string>)
    requires forall n :: n in after ==> n in before && after[n] == before[n]
    ensures OldOrAdded(before, after, registered)
  {
  }

  lemma OldOrAddedGrown(before: map<string, Service>, start: Caches, services: map<string, Service>,
                        endpoints: map<string, seq<Endpoint>>, registered: set<string>, added: set<string>)
    requires forall n :: n in start.services ==> n in before && start.services[n] == before[n]
    requires Grown(start, services, endpoints, registered, added)
    ensures OldOrAdded(before, services, registered)
  {
  }

  /** After deletions and additions: a service that was unknown to the load balancer still is; without a failed deletion
      the services are the wanted ones, and additions bring no flows back. */
  lemma ExchangeFacts(before: map<string, Service>, es: map<string, seq<Endpoint>>, flows: map<string, FlowImpl>,
                      wanted: set<string>, start: Caches, services: map<string, Service>,
                      endpoints: map<string, seq<Endpoint>>, registered: map<string, Service>)
    requires Grown(start, services, endpoints, registered.Keys, wanted) && es.Keys == before.Keys
    ensures Unknown(start.services, start.registered, wanted, {}) ==> Unknown(services, registered, wanted, {})
    ensures start.services == before - (before.Keys - wanted) && start.endpoints == es - (before.Keys - wanted) ==>
              && Exchanged(before, services, es, endpoints, wanted)
              && (Bound(flows, before) ==> Live(flows, services.Keys) == Live(flows, start.services.Keys))
  {
    if Unknown(start.services, start.registered, wanted, {}) {
      UnknownGrown(start, services, endpoints, registered, wanted);
    }
    if start.services == before - (before.Keys - wanted) && start.endpoints == es - (before.Keys - wanted) {
      ExchangedBy(before, es, wanted, start, services, endpoints, registered.Keys);
      if Bound(flows, before) {
        LiveSame(flows, before, wanted, services);
      }
    }
  }

  lemma LiveWithout(flows: map<string, FlowImpl>, known: set<string>, name: string)
    ensures Without(Live(flows, known), name) == Live(flows, known - {name})
  {
  }

  lemma UnknownNext(services: map<string, Service>, registered: map<string, Service>, wanted: set<string>,
                    todo: set<string>, name: string)
    requires name in services && name in todo
    ensures Unknown(services, registered, wanted, todo - {name}) <==>
            Unknown(services, registered, wanted, todo) || (name !in wanted && name !in registered)
  {
    if Unknown(services, registered, wanted, todo) {
      var n :| n in services && n !in wanted && n !in todo && n !in registered;
      assert n !in todo - {name};
    }
    if Unknown(services, registered, wanted, todo - {name}) {
      var n :| n in services && n !in wanted && n !in todo - {name} && n !in registered;
      assert n == name || n !in todo;
    }
  }

  lemma GoneNext<S, E>(was: map<string, S>, es: map<string, E>, gone: set<string>, todo: set<string>,
                       wanted: set<string>, name: string)
    requires name in todo && name in was && gone <= was.Keys - todo - wanted
    ensures was - gone - {name} == was - (gone + {name}) && es - gone - {name} == es - (gone + {name})
    ensures (was - gone - {name}).Keys == (was - gone).Keys - {name} && name in was - gone
    ensures gone <= was.Keys - (todo - {name}) - wanted && was.Keys - gone - {name} == was.Keys - (gone + {name})
    ensures name !in wanted ==> gone + {name} <= was.Keys - (todo - {name}) - wanted
    ensures gone == was.Keys - todo - wanted ==>
              if name in wanted then gone == was.Keys - (todo - {name}) - wanted
              else gone + {name} == was.Keys - (todo - {name}) - wanted
  {
  }

  lemma MinusNext<S>(m: map<string, S>, seen: set<string>, name: string)
    ensures m - seen - {name} == m - (seen + {name})
    ensures name !in seen ==> (name in m - seen <==> name in m)
  {
  }

  lemma UnknownNone(services: map<string, Service>, registered: map<string, Service>, wanted: set<string>)
    ensures !Unknown(services, registered, wanted, services.Keys)
  {
  }

  lemma UnknownStays(services: map<string, Service>, registered: map<string, Service>, wanted: set<string>,
                     todo: set<string>, name: string)
    requires name in todo
    ensures Unknown(services, registered, wanted, todo) ==>
              && Unknown(services, registered, wanted, {})
              && Unknown(services, registered, wanted, todo - {name})
              && Unknown(services - {name}, registered - {name}, wanted, todo - {name})
  {
    if Unknown(services, registered, wanted, todo) {
      var n :| n in services && n !in wanted && n !in todo && n !in registered;
      assert n in services - {name} && n !in registered - {name} && n !in todo - {name};
    }
  }

  lemma UnknownHere(services: map<string, Service>, registered: map<string, Service>, wanted: set<string>,
                    todo: set<string>, name: string)
    requires name in services && name !in wanted && name !in todo && name !in registered
    ensures Unknown(services, registered, wanted, todo)
  {
  }

  function TargetsIn(views: map<string, View>): map<string, map<int, seq<Address>>> {
    map n | n in views :: views[n].targets
  }

  function Without(flows: map<string, FlowImpl>, service: string): map<string, FlowImpl> {
    map k | k in flows && flows[k].service.name != service :: flows[k]
  }

  /** A service holds exactly what its recorded endpoints stand for. */
  ghost predicate HeldAt(targets: map<string, map<int, seq<Address>>>, endpoints: map<string, seq<Endpoint>>, n: string)
    requires n in targets
  {
    n in endpoints && DistinctIdentifiers(endpoints[n]) && targets[n] == TargetsOf(endpoints[n])
  }

  ghost predicate AllHeld(targets: map<string, map<int, seq<Address>>>, endpoints: map<string, seq<Endpoint>>) {
    forall n :: n in targets ==> HeldAt(targets, endpoints, n)
  }

  lemma RecordedUpdated(services: map<string, Service>, flows: map<string, FlowImpl>,
                        endpoints: map<string, seq<Endpoint>>, backend: Backend, name: string, es: seq<Endpoint>)
    requires Consistent(services, flows, endpoints, backend) && name in services && Recordable(es)
    ensures Consistent(services, flows, endpoints[name := es], backend)
  {
  }

  lemma TracksLess(services: map<string, Service>, registered: map<string, Service>, name: string)
    requires Tracks(services, registered)
    ensures Tracks(services, registered - {name})
  {
  }

  lemma ForgetFacts(services: map<string, Service>, flows: map<string, FlowImpl>, endpoints: map<string, seq<Endpoint>>,
                    backend: Backend, registered: map<string, Service>, name: string)
    requires Consistent(services, flows, endpoints, backend) && Tracks(services, registered) && name !in registered
    ensures Consistent(services - {name}, flows, endpoints - {name}, backend) && Tracks(services - {name}, registered)
  {
    hide Keyed, Recordable;
  }

  lemma AddFacts(services: map<string, Service>, flows: map<string, FlowImpl>, endpoints: map<string, seq<Endpoint>>,
                 backend: Backend, registered: map<string, Service>, live: map<string, FlowImpl>, name: string,
                 s: Service)
    requires Consistent(services, flows, endpoints, backend) && Tracks(services, registered) && name !in services
    requires OneOf(s, name, backend)
    ensures Consistent(services[name := s], flows, endpoints[name := []], backend)
    ensures Tracks(services[name := s], registered[name := s])
    ensures Bound(live, services) ==> Bound(live, services[name := s])
  {
    hide Keyed;
    assert Recordable([]);
  }

  lemma HeldAdded(views: map<string, View>, endpoints: map<string, seq<Endpoint>>, name: string, range: Range)
    ensures AllHeld(TargetsIn(views), endpoints) ==>
              AllHeld(TargetsIn(views[name := View(range, map[])]), endpoints[name := []])
  {
    var targets, targets' := TargetsIn(views), TargetsIn(views[name := View(range, map[])]);
    assert TargetsOf([]) == map[] && DistinctIdentifiers([]);
    hide TargetsOf, DistinctIdentifiers;
    if AllHeld(targets, endpoints) {
      forall n | n in targets' ensures HeldAt(targets', endpoints[name := []], n) {
        assert n != name ==> HeldAt(targets, endpoints, n);
      }
    }
  }

  lemma HeldWithout(targets: map<string, map<int, seq<Address>>>, endpoints: map<string, seq<Endpoint>>, name: string)
    requires AllHeld(targets, endpoints)
    ensures AllHeld(targets - {name}, endpoints - {name})
  {
    hide DistinctIdentifiers, TargetsOf;
    var targets' := targets - {name};
    forall n | n in targets' ensures HeldAt(targets', endpoints - {name}, n) {
      assert HeldAt(targets, endpoints, n);
    }
  }

  lemma ViewsHeldWithout(views: map<string, View>, endpoints: map<string, seq<Endpoint>>, name: string)
    requires AllHeld(TargetsIn(views), endpoints)
    ensures AllHeld(TargetsIn(views - {name}), endpoints - {name})
  {
    HeldWithout(TargetsIn(views), endpoints, name);
    assert TargetsIn(views) - {name} == TargetsIn(views - {name});
  }

  lemma FlowsWithout(live: map<string, FlowImpl>, services: map<string, Service>, name: string)
    requires Bound(live, services)
    ensures FlowsExcept(Entries(live), name) == Entries(Without(live, name))
             && Bound(Without(live, name), services - {name})
  {
  }

  lemma HeldUpdated(targets: map<string, map<int, seq<Address>>>, endpoints: map<string, seq<Endpoint>>,
                    name: string, es: seq<Endpoint>)
    requires AllHeld(targets, endpoints) && DistinctIdentifiers(es)
    ensures AllHeld(targets[name := TargetsOf(es)], endpoints[name := es])
  {
    hide DistinctIdentifiers, TargetsOf;
    var targets' := targets[name := TargetsOf(es)];
    forall n | n in targets'
      ensures HeldAt(targets', endpoints[name := es], n)
    {
      assert n != name ==> HeldAt(targets, endpoints, n);
    }
  }

  lemma EntriesStep(was: map<string, FlowImpl>, table: map<string, FlowEntry>, done: map<string, FlowImpl>,
                    newFlows: map<string, FlowImpl>, todo: set<string>, k: string)
    requires k in todo && k in newFlows && done == newFlows - todo && Key(newFlows[k]) == k
    ensures (was + done)[k := newFlows[k]] == was + done[k := newFlows[k]]
    ensures done[k := newFlows[k]] == newFlows - (todo - {k})
    ensures var f := FlowOf(newFlows[k].route, newFlows[k].service.name);
            f.name == k &&
            (table + Entries(done))[k := EntryOf(f, newFlows[k].service.name)] ==
            table + Entries(done[k := newFlows[k]])
  {
    EntriesWith(done, k, newFlows[k]);
    MapsOnTop(was, done, k, newFlows[k]);
    MapsOnTop(table, Entries(done), k, Entry(newFlows[k].route, newFlows[k].service.name));
    hide EntryOf, Entries;
  }

  lemma EntriesWith(flows: map<string, FlowImpl>, k: string, flow: FlowImpl)
    ensures Entries(flows[k := flow]) == Entries(flows)[k := Entry(flow.route, flow.service.name)]
  {
    hide Entry;
  }

  lemma MapsOnTop<T>(m: map<string, T>, top: map<string, T>, k: string, x: T)
    ensures (m + top)[k := x] == m + top[k := x]
  {
  }

  /** Replacing exactly the flows of the manager replaces the whole table. */
  lemma TableReplaced(before: map<string, FlowImpl>, after: map<string, FlowImpl>)
    ensures Entries(before) - (before.Keys - after.Keys) + Entries(after) == Entries(after)
  {
  }

  lemma KeyOf(flows: map<string, FlowImpl>, backend: Backend, k: string)
    requires Keyed(flows, backend) && k in flows
    ensures Key(flows[k]) == k && flows[k].service.backend == backend
  {
  }
}
