/** One pass of the controller over the manager, and what it converges to.
    pkg/controllers/statelessloadbalancer/{statelessloadbalancer,service,endpointslice,l34Router}.go. */
module Convergence {
  import opened Prelude
  import opened EndpointSlice
  import opened Endpoints
  import opened Flows
  import opened Networking
  import opened Offset
  import opened VipSet
  import opened Nfqlb
  import opened Views
  import opened LoadBalancing
  import opened ManagerState
  import opened ServiceManager
  import Identifier
  import IdentifierAllocator
  import opened IdentifierRuns

  /** What the cluster asks for: the services, the stored endpoint slices, and the routes. */
  datatype Desired = Desired(names: seq<string>, stored: map<string, Stored>, routes: seq<L34Route>)

  /** The slices of a service; a missing slice reads as an empty one. */
  function StoredOf(d: Desired, name: string): Stored {
    if name in d.stored then d.stored[name] else Stored([], [])
  }

  /** The endpoints of a service: its two slices merged. */
  function EndpointsOf(d: Desired, name: string): map<string, Endpoint> {
    Known(StoredOf(d, name))
  }

  /** No two usable endpoints of a service share an identifier. */
  ghost predicate WellFormed(d: Desired) {
    forall n :: n in d.names ==> UsableApart(EndpointsOf(d, n))
  }

  /** The state of load balancer and backend as a value. */
  datatype State = State(views: map<string, View>, shm: map<string, Shm>, routes: set<Route>, clean: bool,
                         flows: map<string, FlowEntry>, v4: set<Interval>, v6: set<Interval>)

  ghost predicate ServedAt(s: State, d: Desired, n: string)
    requires n in s.views
  {
    s.views[n].range.maxTargets == DEFAULT_MAX_TARGETS && Serves(s.views[n].targets, EndpointsOf(d, n))
  }

  /** The backend serves the services that the cluster asks for, each with its endpoints; the routes as long as no
      command on a route has failed. The virtual IP sets follow the flow table. */
  ghost predicate Serving(s: State, d: Desired) {
    && MarksValid(s.views) && s.shm == ShmsOf(s.views) && (s.clean ==> s.routes == AllRoutes(s.views))
    && s.views.Keys == Elements(d.names)
    && (forall n :: n in s.views ==> ServedAt(s, d, n))
    && VipsHeld(s.flows, s.v4, s.v6)
  }

  /** The backend does what the cluster asks for. */
  ghost predicate Realises(s: State, d: Desired) {
    Serving(s, d) && s.flows == DesiredEntries(d.routes, Elements(d.names))
  }

  function StateOf(m: Manager): State
    reads m.lb`services, m.lb.services.Values`targets, m.lb.backend
    reads m.lb.backend.nfQueue.ipv4DestinationSet`elements, m.lb.backend.nfQueue.ipv6DestinationSet`elements
  {
    State(m.lb.Views(), m.lb.backend.shm, m.lb.backend.routes, m.lb.backend.clean, m.lb.backend.flows,
          m.lb.backend.nfQueue.ipv4DestinationSet.elements, m.lb.backend.nfQueue.ipv6DestinationSet.elements)
  }

  ghost predicate SettledAt(endpoints: map<string, seq<Endpoint>>, d: Desired, n: string) {
    n in endpoints && Settled(endpoints[n], EndpointsOf(d, n))
  }

  /** Reconcile: services, then the endpoints of each, then the routes; the first error ends the pass. From a coherent
      manager an error-free pass leads to a coherent one exactly when no two usable endpoints of a service share an
      identifier; then the backend does exactly what the cluster asks for, whatever earlier passes asked for. `listed`:
      whether the routes could be listed. When they could not the pass still ends without an error, with the flows of
      the services that stayed; that is what was asked for exactly when these flows are. */
  method Reconcile(m: Manager, d: Desired) returns (err: bool, listed: bool)
    requires m.Valid()
    modifies m, m.lb, m.services.Values, m.lb.backend
    modifies m.lb.backend.nfQueue.ipv4DestinationSet`elements, m.lb.backend.nfQueue.ipv6DestinationSet`elements
    ensures m.Valid()
    ensures !err && old(m.Coherent()) ==> (m.Coherent() <==> WellFormed(d))
    ensures !err && old(m.Coherent()) && WellFormed(d) ==> Serving(StateOf(m), d)
    ensures !err && listed && old(m.Coherent()) && WellFormed(d) ==> Realises(StateOf(m), d)
    ensures !err && !listed ==> m.flows == Live(old(m.flows), Elements(d.names))
    ensures !err && !listed && old(m.Coherent()) && WellFormed(d) ==>
              (Realises(StateOf(m), d) <==>
               Entries(Live(old(m.flows), Elements(d.names))) == DesiredEntries(d.routes, Elements(d.names)))
    ensures !err ==> forall n :: n in m.services ==> m.services[n] in old(m.services.Values) || fresh(m.services[n])
  {
    hide *;
    listed := false;
    err := ReconcileServices(m, d);
    if err {
      return;
    }
    ghost var coherent, endpoints, services := m.Coherent() && WellFormed(d), m.endpoints, m.services;
    listed := *;
    if listed {
      err := m.SetFlows(d.routes);
      assert m.endpoints == endpoints && m.services == services;
    }
    if !err {
      CoherentIsWellFormed(m, d);
    }
    if !err && coherent {
      NowServing(m, d);
      if listed {
        NowRealised(m, d);
      } else {
        RealisedAnyway(m, d);
      }
    }
  }

  /** With the flows left alone. */
  lemma RealisedAnyway(m: Manager, d: Desired)
    requires m.Coherent() && Serving(StateOf(m), d)
    ensures Realises(StateOf(m), d) <==> Entries(m.flows) == DesiredEntries(d.routes, Elements(d.names))
  {
    CoherentState(m);
    CoherentFlows(m);
    hide ServiceManager.Manager.Coherent, Serving, DesiredEntries, Entries;
  }

  lemma CoherentFlows(m: Manager)
    requires m.Coherent()
    ensures m.lb.backend.flows == Entries(m.flows)
  {
  }

  /** reconcileServices: the services, and the endpoints of each. */
  method ReconcileServices(m: Manager, d: Desired) returns (err: bool)
    requires m.Valid()
    modifies m, m.lb, m.services.Values, m.lb.backend
    modifies m.lb.backend.nfQueue.ipv4DestinationSet`elements, m.lb.backend.nfQueue.ipv6DestinationSet`elements
    ensures m.Valid()
    ensures !err ==> m.services.Keys == Elements(d.names) && forall n :: n in d.names ==> SettledAt(m.endpoints, d, n)
    ensures !err ==> m.flows == Live(old(m.flows), m.services.Keys)
    ensures !err && old(m.Coherent()) && WellFormed(d) ==> m.Coherent()
    ensures !err ==> forall n :: n in m.services ==> m.services[n] in old(m.services.Values) || fresh(m.services[n])
  {
    BeforeServices(m);
    hide *;
    var status := m.SetServices(d.names);
    if status != Done {
      return true;
    }
    AfterServices(old(m.services), m.services, old(m.endpoints), m.endpoints, d);
    err := ReconcileEndpointSlices(m, d, m.services.Values);
  }

  lemma AfterServices(before: map<string, Service>, after: map<string, Service>,
                      endpoints: map<string, seq<Endpoint>>, endpoints': map<string, seq<Endpoint>>, d: Desired)
    requires Exchanged(before, after, endpoints, endpoints', Elements(d.names))
    ensures after.Keys == Elements(d.names) && forall n :: n in d.names ==> n in after
  {
  }

  lemma BeforeServices(m: Manager)
    requires m.Valid()
    ensures m.endpoints.Keys == m.services.Keys
  {
  }

  /** reconcileEndpointSlices. */
  method ReconcileEndpointSlices(m: Manager, d: Desired, ghost handles: set<Service>) returns (err: bool)
    requires m.Valid() && (forall n :: n in d.names ==> n in m.services)
    requires forall n :: n in m.services ==> m.services[n] in handles
    modifies m`endpoints, m.lb.backend`shm, m.lb.backend`routes, m.lb.backend`clean, m.lb.backend`calls, handles`targets
    ensures m.Valid() && m.services == old(m.services) && m.flows == old(m.flows)
    ensures !err ==> forall n :: n in d.names ==> SettledAt(m.endpoints, d, n)
    ensures !err && old(m.Coherent()) && WellFormed(d) ==> m.Coherent()
  {
    err := false;
    ghost var coherent, services, flows := m.Coherent() && WellFormed(d), m.services, m.flows;
    assert InPass(m, d, coherent, 0);
    hide *;
    for i := 0 to |d.names|
      invariant !err && m.services == services && m.flows == flows && InPass(m, d, coherent, i)
    {
      assert d.names[i] in d.names;
      err := ReconcileEndpointSlice(m, d, i, m.services[d.names[i]], coherent);
      if err {
        return;
      }
    }
    PassDone(m, d, coherent);
  }

  lemma PassDone(m: Manager, d: Desired, coherent: bool)
    requires InPass(m, d, coherent, |d.names|)
    ensures m.Valid() && (coherent ==> m.Coherent()) && forall n :: n in d.names ==> SettledAt(m.endpoints, d, n)
  {
  }

  /** The endpoints of the first `i` services are up to date. */
  ghost predicate InPass(m: Manager, d: Desired, coherent: bool, i: nat)
    requires i <= |d.names|
    reads m, m.lb, m.lb.services.Values`targets, m.services.Values`targets, m.lb.backend
    reads m.lb.backend.nfQueue.ipv4DestinationSet`elements, m.lb.backend.nfQueue.ipv6DestinationSet`elements
  {
    && m.Valid() && (coherent ==> m.Coherent() && WellFormed(d))
    && (forall j :: 0 <= j < i ==> SettledAt(m.endpoints, d, d.names[j]))
  }

  method ReconcileEndpointSlice(m: Manager, d: Desired, i: nat, service: Service, ghost coherent: bool)
    returns (err: bool)
    requires i < |d.names| && InPass(m, d, coherent, i)
    requires var name := d.names[i]; name in m.services && m.services[name] == service
    modifies m`endpoints, m.lb.backend`shm, m.lb.backend`routes, m.lb.backend`clean, m.lb.backend`calls, service`targets
    ensures m.Valid() && m.services == old(m.services) && m.flows == old(m.flows)
    ensures !err ==> InPass(m, d, coherent, i + 1)
  {
    hide *;
    var merged := MergedEndpoints(StoredOf(d, d.names[i]));
    assert old(InPass(m, d, coherent, i)) ==> InPass(m, d, coherent, i);
    err := SettleEndpoints(m, d, i, service, merged, coherent);
  }

  method SettleEndpoints(m: Manager, d: Desired, i: nat, service: Service, merged: seq<Endpoint>, ghost coherent: bool)
    returns (err: bool)
    requires i < |d.names| && InPass(m, d, coherent, i) && ByUid(merged) == Known(StoredOf(d, d.names[i]))
    requires var name := d.names[i]; name in m.services && m.services[name] == service
    modifies m`endpoints, m.lb.backend`shm, m.lb.backend`routes, m.lb.backend`clean, m.lb.backend`calls, service`targets
    ensures m.Valid() && m.services == old(m.services) && m.flows == old(m.flows)
    ensures !err ==> InPass(m, d, coherent, i + 1)
  {
    PassFacts(m, d, coherent, i);
    hide *;
    var final;
    ghost var off, on;
    err, final, off, on := m.SetEndpoints(d.names[i], merged);
    if !err {
      SettledNext(old(m.endpoints), d, i, final);
      InPassAgain(m, d, coherent, i + 1);
    }
  }

  lemma PassFacts(m: Manager, d: Desired, coherent: bool, i: nat)
    requires i <= |d.names| && InPass(m, d, coherent, i)
    ensures m.Valid() && (coherent ==> m.Coherent() && WellFormed(d))
    ensures forall j :: 0 <= j < i ==> SettledAt(m.endpoints, d, d.names[j])
    ensures i < |d.names| ==>
              var endpoints := EndpointsOf(d, d.names[i]);
              endpoints == Known(StoredOf(d, d.names[i])) && (coherent ==> UsableApart(endpoints))
  {
    hide UsableApart, Known, ServiceManager.Manager.Valid, ServiceManager.Manager.Coherent;
    assert i < |d.names| ==> d.names[i] in d.names;
  }

  lemma InPassAgain(m: Manager, d: Desired, coherent: bool, i: nat)
    requires i <= |d.names| && m.Valid() && (coherent ==> m.Coherent() && WellFormed(d))
    requires forall j :: 0 <= j < i ==> SettledAt(m.endpoints, d, d.names[j])
    ensures InPass(m, d, coherent, i)
  {
  }

  /** The two slices of a service, merged as they are listed. */
  method MergedEndpoints(stored: Stored) returns (es: seq<Endpoint>)
    ensures ByUid(es) == Known(stored)
  {
    var merged := MergeEndpointSlices(Some(Slice("", Some(V4), stored.v4)), Some(Slice("", Some(V6), stored.v6)));
    es := merged.value.endpoints;
    ListsByUid(es, Merged(stored.v4, stored.v6));
  }

  lemma SettledNext(endpoints: map<string, seq<Endpoint>>, d: Desired, i: nat, final: seq<Endpoint>)
    requires i < |d.names| && Settled(final, EndpointsOf(d, d.names[i]))
    requires forall j :: 0 <= j < i ==> SettledAt(endpoints, d, d.names[j])
    ensures forall j :: 0 <= j <= i ==> SettledAt(endpoints[d.names[i] := final], d, d.names[j])
  {
    hide Settled, ByUid;
  }

  lemma CoherentIsWellFormed(m: Manager, d: Desired)
    requires m.services.Keys == Elements(d.names) && forall n :: n in d.names ==> SettledAt(m.endpoints, d, n)
    ensures m.Coherent() ==> WellFormed(d)
  {
    if m.Coherent() {
      CoherentHeld(m);
      hide ServiceManager.Manager.Coherent, Settled, UsableApart, ByUid, TargetsOf, DistinctIdentifiers;
      forall n | n in d.names ensures UsableApart(EndpointsOf(d, n)) {
        assert n in Elements(d.names) && SettledAt(m.endpoints, d, n);
        assert HeldAt(TargetsIn(m.lb.Views()), m.endpoints, n);
        SettledApart(m.endpoints[n], EndpointsOf(d, n));
      }
    }
  }

  lemma NowServing(m: Manager, d: Desired)
    requires m.Coherent() && WellFormed(d) && m.services.Keys == Elements(d.names)
    requires forall n :: n in d.names ==> SettledAt(m.endpoints, d, n)
    ensures Serving(StateOf(m), d)
  {
    CoherentState(m);
    var s := StateOf(m);
    hide *;
    forall n | n in s.views ensures ServedAt(s, d, n) {
      NowServed(s, d, m.endpoints, n);
    }
    AllServed(s, d);
  }

  lemma NowRealised(m: Manager, d: Desired)
    requires Serving(StateOf(m), d) && m.services.Keys == Elements(d.names)
    requires m.lb.backend.flows == DesiredEntries(d.routes, m.services.Keys)
    ensures Realises(StateOf(m), d)
  {
    hide Serving, DesiredEntries;
  }

  /** What a coherent manager says about the state. */
  lemma CoherentState(m: Manager)
    requires m.Coherent()
    ensures MarksValid(StateOf(m).views) && StateOf(m).views.Keys == m.services.Keys
    ensures StateOf(m).shm == ShmsOf(StateOf(m).views)
    ensures StateOf(m).clean ==> StateOf(m).routes == AllRoutes(StateOf(m).views)
    ensures StateOf(m).flows == m.lb.backend.flows && VipsHeld(StateOf(m).flows, StateOf(m).v4, StateOf(m).v6)
    ensures forall n :: n in StateOf(m).views ==> StateOf(m).views[n].range.maxTargets == DEFAULT_MAX_TARGETS
    ensures AllHeld(TargetsIn(StateOf(m).views), m.endpoints)
  {
    CoherentHeld(m);
    hide MarksValid, ShmsOf, AllRoutes, AllHeld, TargetsIn, Recordable, Keyed, Tracks, VipsHeld, Entries, Bound;
    forall n | n in m.lb.Views() ensures m.lb.Views()[n].range.maxTargets == DEFAULT_MAX_TARGETS {
      assert OneOf(m.services[n], n, m.lb.backend);
    }
  }

  lemma CoherentHeld(m: Manager)
    requires m.Coherent()
    ensures m.services == m.lb.services && m.lb.Views().Keys == m.services.Keys
    ensures AllHeld(TargetsIn(m.lb.Views()), m.endpoints)
  {
    hide MarksValid, ShmsOf, AllRoutes, AllHeld, Consistent, Tracks, FlowsHeld;
    assert m.Targets() == TargetsIn(m.lb.Views());
  }

  lemma NowServed(s: State, d: Desired, endpoints: map<string, seq<Endpoint>>, n: string)
    requires WellFormed(d) && n in s.views && s.views[n].range.maxTargets == DEFAULT_MAX_TARGETS
    requires s.views.Keys == Elements(d.names) && AllHeld(TargetsIn(s.views), endpoints)
    requires forall n :: n in d.names ==> SettledAt(endpoints, d, n)
    ensures ServedAt(s, d, n)
  {
    assert n in Elements(d.names) && SettledAt(endpoints, d, n) && HeldAt(TargetsIn(s.views), endpoints, n);
    assert UsableApart(EndpointsOf(d, n));
    hide Settled, Serves, UsableApart, ByUid, TargetsOf, DistinctIdentifiers;
    SettledServes(endpoints[n], EndpointsOf(d, n));
  }

  lemma AllServed(s: State, d: Desired)
    requires MarksValid(s.views) && s.shm == ShmsOf(s.views) && (s.clean ==> s.routes == AllRoutes(s.views))
    requires s.views.Keys == Elements(d.names) && (forall n :: n in s.views ==> ServedAt(s, d, n))
    requires VipsHeld(s.flows, s.v4, s.v6)
    ensures Serving(s, d)
  {
    hide MarksValid, ShmsOf, AllRoutes, ServedAt, VipsHeld;
  }

  /** SetEndpoints with the same endpoints again does nothing, even when activations failed the first time: a failed
      activation is not tried again. */
  method RepeatEndpoints(m: Manager, name: string, input: seq<Endpoint>)
    returns (err1: bool, err2: bool, ghost calls: seq<Call>, ghost targets: map<int, seq<Address>>)
    requires m.Valid() && name in m.services
    modifies m`endpoints, m.lb.backend`shm, m.lb.backend`routes, m.lb.backend`clean, m.lb.backend`calls,
        {m.services[name]}`targets
    ensures !err2 && m.lb.backend.calls == calls && m.services[name].targets == targets && m.Valid()
    ensures name in m.endpoints && Settled(m.endpoints[name], ByUid(input))
  {
    hide *;
    var final;
    ghost var off, on;
    err1, final, off, on := m.SetEndpoints(name, input);
    calls, targets := m.lb.backend.calls, m.services[name].targets;
    assert m.endpoints[name] == final;
    NoCalls(calls, name);
    err2, final, off, on := m.SetEndpoints(name, input);
    SettledStays(targets, m.services[name].targets, final, ByUid(input), !err2);
  }

  /** Two usable endpoints carry one identifier; then one of them departs and the other one stays as it is. Whatever the
      state before and whichever commands fail, the live endpoint has no target afterwards, although the record says it
      is up to date, and setting the same endpoints again does not repair that. */
  method StarvedEndpoint(m: Manager, name: string, first: seq<Endpoint>, second: seq<Endpoint>, id: int,
                         departed: string, live: string)
    returns (err1: bool, err2: bool, err3: bool)
    requires m.Valid() && name in m.services
    requires SharesIdentifier(ByUid(first), ByUid(second), id, departed, live)
    modifies m`endpoints, m.lb.backend`shm, m.lb.backend`routes, m.lb.backend`clean, m.lb.backend`calls,
        {m.services[name]}`targets
    ensures m.Valid() && !err3 && id !in m.services[name].targets
    ensures name in m.endpoints && Settled(m.endpoints[name], ByUid(second))
  {
    hide *;
    var previous, final;
    ghost var off, on;
    err1, previous, off, on := m.SetEndpoints(name, first);
    ghost var targets := m.services[name].targets;
    assert m.endpoints[name] == previous;
    err2, final, off, on := m.SetEndpoints(name, second);
    Starved(targets, m.services[name].targets, previous, ByUid(first), ByUid(second), id, departed, live, !err2);
    targets := m.services[name].targets;
    assert m.endpoints[name] == final;
    err3, final, off, on := m.SetEndpoints(name, second);
    SettledStays(targets, m.services[name].targets, final, ByUid(second), !err3);
  }

  /** What a publication that stops between its writes leaves in the slices is such a pair. */
  lemma InterruptionShares(max: nat)
    requires 0 < max < IdentifierAllocator.UINT32
    ensures SharesIdentifier(Known(INTERRUPTED), Known(COMPLETED), 0, "d", "n") && !UsableApart(Known(INTERRUPTED))
  {
    InterruptedCompletes(max);
    hide Known, Step, GetIdentifier;
    TwoWithOneIdentifier(SetIdentifier(DEPARTING, 0), SetIdentifier(NEWCOMER, 0), 0);
  }

  lemma TwoWithOneIdentifier(d: Endpoint, n: Endpoint, id: int)
    requires d.uid != n.uid && Usable(d) && Usable(n) && GetIdentifier(d) == GetIdentifier(n) == Some(id)
    ensures SharesIdentifier(map[d.uid := d, n.uid := n], map[n.uid := n], id, d.uid, n.uid)
    ensures !UsableApart(map[d.uid := d, n.uid := n])
  {
    hide GetIdentifier;
    var both := map[d.uid := d, n.uid := n];
    assert both[d.uid] == d && both[n.uid] == n;
  }

  /** The controller reads the slices once between the writes of one publication and once after the next complete one:
      the only endpoint then published is never served. */
  method StarvedByInterruption(m: Manager, name: string)
    requires m.Valid() && name in m.services
    modifies m`endpoints, m.lb.backend`shm, m.lb.backend`routes, m.lb.backend`clean, m.lb.backend`calls,
        {m.services[name]}`targets
    ensures m.Valid() && 0 !in m.services[name].targets
    ensures name in m.endpoints && Settled(m.endpoints[name], Known(COMPLETED))
  {
    InterruptionShares(1);
    hide *;
    var first := MergedEndpoints(INTERRUPTED);
    var second := MergedEndpoints(COMPLETED);
    assert m.Valid();
    var err1, err2, err3 := StarvedEndpoint(m, name, first, second, 0, "d", "n");
  }

  /** SetFlows twice with the same routes, the second time without an error: the table is exactly the wanted flows if
      and only if the first call left nothing else in it. What it left, because a deletion failed or the manager never
      knew it, stays. */
  method RepeatFlows(m: Manager, routes: seq<L34Route>)
    returns (err1: bool, err2: bool, ghost between: map<string, FlowEntry>)
    requires m.Valid()
    modifies m`flows, m.lb.backend`flows, m.lb.backend`calls
    modifies m.lb.backend.nfQueue.ipv4DestinationSet`elements, m.lb.backend.nfQueue.ipv6DestinationSet`elements
    ensures m.Valid() && m.flows == DesiredFlows(routes, m.services)
    ensures !err2 ==> (m.lb.backend.flows == Entries(m.flows) <==> between.Keys <= m.flows.Keys)
    ensures !err2 ==> forall k :: k in between && k !in m.flows ==>
              k in m.lb.backend.flows && m.lb.backend.flows[k] == between[k]
  {
    hide *;
    err1 := m.SetFlows(routes);
    between := m.lb.backend.flows;
    assert m.services == old(m.services);
    err2 := m.SetFlows(routes);
    assert m.services == old(m.services);
    EntriesOnTop(between, m.flows);
  }

  lemma EntriesOnTop(table: map<string, FlowEntry>, flows: map<string, FlowImpl>)
    ensures table - (flows.Keys - flows.Keys) + Entries(flows) == Entries(flows) <==> table.Keys <= flows.Keys
    ensures forall k :: k in table && k !in flows ==>
              k in table + Entries(flows) && (table + Entries(flows))[k] == table[k]
    ensures table - (flows.Keys - flows.Keys) == table
  {
    assert Entries(flows).Keys == flows.Keys;
    if table + Entries(flows) == Entries(flows) {
      assert table.Keys <= (table + Entries(flows)).Keys;
    }
  }

  /** SetServices twice with the same services: the mutex of the load balancer is left locked exactly when it was
      before, or one of the calls found a service in the cache that is neither wanted nor registered. That is what a
      failed deletion leaves behind, so repeating a call after one locks the mutex. */
  method RepeatServices(m: Manager, names: seq<string>)
    returns (s1: Status, s2: Status, ghost services: map<string, Service>, ghost registered: map<string, Service>)
    requires m.Valid()
    modifies m, m.lb, m.services.Values, m.lb.backend
    modifies m.lb.backend.nfQueue.ipv4DestinationSet`elements, m.lb.backend.nfQueue.ipv6DestinationSet`elements
    ensures m.Valid()
    ensures m.lb.muHeld <==>
              || old(m.lb.muHeld) || Unknown(old(m.services), old(m.lb.services), Elements(names), {})
              || Unknown(services, registered, Elements(names), {})
    ensures s1 == Failed ==> !(Elements(names) <= services.Keys) || Unknown(services, registered, Elements(names), {})
  {
    hide *;
    s1 := m.SetServices(names);
    services, registered := m.services, m.lb.services;
    assert forall s :: s in m.services.Values ==> s in old(m.services.Values) || fresh(s);
    s2 := m.SetServices(names);
  }

  /** A controller starts with an empty load balancer and an empty manager. */
  method Start(startingOffset: int) returns (m: Manager)
    requires 0 <= startingOffset <= MAX_INT
    ensures fresh(m) && fresh(m.lb) && fresh(m.lb.backend.Footprint()) && m.services == map[]
    ensures m.Coherent()
  {
    var backend := new Backend();
    var lb := new LoadBalancer(startingOffset, backend);
    m := new Manager(lb);
    assert lb.Views() == map[] && ShmsOf(map[]) == map[] && AllRoutes(map[]) == {};
    assert m.Targets() == map[] && Entries(map[]) == map[];
  }

  /** Any number of passes, each asking for identifier-unique endpoints, up to the first error: the backend serves what
      the last pass asked for, and has its flows when that pass could list the routes. */
  method Lifetime(startingOffset: int, ds: seq<Desired>) returns (m: Manager, err: bool, listed: bool)
    requires 0 <= startingOffset <= MAX_INT
    requires forall i :: 0 <= i < |ds| ==> WellFormed(ds[i])
    ensures m.Valid() && (!err && ds != [] ==> Serving(StateOf(m), ds[|ds| - 1]))
    ensures !err && ds != [] && listed ==> Realises(StateOf(m), ds[|ds| - 1])
  {
    m := Start(startingOffset);
    err, listed := false, false;
    for i := 0 to |ds|
      invariant !err && m.Coherent() && fresh(m) && fresh(m.lb) && fresh(m.lb.backend.Footprint())
      invariant forall n :: n in m.services ==> fresh(m.services[n])
      invariant i > 0 ==> Serving(StateOf(m), ds[i - 1]) && (listed ==> Realises(StateOf(m), ds[i - 1]))
    {
      assert m.Valid();
      err, listed := Reconcile(m, ds[i]);
      if err {
        return;
      }
    }
  }

  // ---------------------------------------------------------------------------------------------
  // What is realised does not depend on history.

  /** An address is among the parseable ones of a bag. */
  ghost predicate Reaches(bag: multiset<Address>, ip: IP) {
    exists a :: a in bag && ParseIP(a) == Some(ip)
  }

  /** Traffic that a service marks for a target goes exactly to the addresses of that target. */
  lemma RouteOf(views: map<string, View>, n: string, id: int, ip: IP)
    requires MarksValid(views) && n in views && 0 <= id < views[n].range.maxTargets
    ensures Route(id + views[n].range.offset, ip) in AllRoutes(views) <==>
            id in views[n].targets && Reaches(multiset(views[n].targets[id]), ip)
  {
    var r, offset := Route(id + views[n].range.offset, ip), views[n].range.offset;
    if r in AllRoutes(views) {
      var m :| m in views && r in RoutesAt(views, m);
      var k :| k in views[m].targets && r in TargetRoutes(views[m].range.offset, views[m].targets, k);
      MarksDoNotCollide(RangesOf(views), m, k, n, id);
      var a :| a in views[n].targets[id] && ParseIP(a).Some? && Route(id + offset, ParseIP(a).value) == r;
      assert a in multiset(views[n].targets[id]);
    }
    if id in views[n].targets && Reaches(multiset(views[n].targets[id]), ip) {
      var a :| a in multiset(views[n].targets[id]) && ParseIP(a) == Some(ip);
      assert a in views[n].targets[id];
      assert r in TargetRoutes(offset, views[n].targets, id);
      assert r in RoutesAt(views, n);
    }
  }

  /** Two states that realise the same wishes have the same flow table, the same shared memories with the same
      activated identifiers, and route every identifier to the same addresses: only the marks may differ, and the
      order of addresses. The sets match the same addresses of each family. */
  lemma HistoryIrrelevant(a: State, b: State, d: Desired)
    requires Realises(a, d) && Realises(b, d)
    ensures a.flows == b.flows && a.shm.Keys == b.shm.Keys == Elements(d.names)
    ensures forall n :: n in a.shm ==> a.shm[n].n == b.shm[n].n && a.shm[n].active.Keys == b.shm[n].active.Keys
    ensures forall n :: n in a.views && n in b.views ==> Bags(a.views[n].targets) == Bags(b.views[n].targets)
    ensures a.v6 == b.v6 && forall x :: |x| == 4 ==> (Matched(a.v4, x) <==> Matched(b.v4, x))
  {
    SameVips(a, b, d);
    hide *;
    forall n | n in Elements(d.names)
      ensures n in a.views && n in b.views && n in a.shm && n in b.shm
      ensures Bags(a.views[n].targets) == Bags(b.views[n].targets)
      ensures a.shm[n].n == b.shm[n].n && a.shm[n].active.Keys == b.shm[n].active.Keys
    {
      SameService(a, b, d, n);
    }
    SameKeys(a, d);
    SameKeys(b, d);
  }

  lemma SameKeys(s: State, d: Desired)
    requires Realises(s, d)
    ensures s.shm.Keys == s.views.Keys == Elements(d.names)
  {
    hide AllRoutes, MarksValid, DesiredEntries, VipsHeld;
  }

  lemma SameVips(a: State, b: State, d: Desired)
    requires Realises(a, d) && Realises(b, d)
    ensures a.v6 == b.v6 && forall x :: |x| == 4 ==> (Matched(a.v4, x) <==> Matched(b.v4, x))
  {
    hide MarksValid, ShmsOf, AllRoutes, DesiredEntries, ServedAt, HoldsHosts, Matched, Hosts, Destinations,
        HostIntervals;
    forall x: Bytes | |x| == 4 ensures Matched(a.v4, x) <==> Matched(b.v4, x) {
      VipsMatched(Destinations(a.flows), a.v4, a.v6, x);
      VipsMatched(Destinations(a.flows), b.v4, b.v6, x);
    }
  }

  /** What a state that realises some wishes says about one service. */
  lemma ServiceOf(s: State, d: Desired, n: string)
    requires Realises(s, d) && n in Elements(d.names)
    ensures n in s.views && n in s.shm
    ensures MarksValid(s.views) && (s.clean ==> s.routes == AllRoutes(s.views))
             && Serves(s.views[n].targets, EndpointsOf(d, n))
    ensures s.views[n].range.maxTargets == s.shm[n].n == 100 && s.shm[n].active.Keys == s.views[n].targets.Keys
  {
    hide MarksValid, AllRoutes, Serves, ByUid, DesiredEntries;
    assert ServedAt(s, d, n) && s.shm[n] == ShmOf(s.views[n]);
  }

  lemma SameService(a: State, b: State, d: Desired, n: string)
    requires Realises(a, d) && Realises(b, d) && n in Elements(d.names)
    ensures n in a.views && n in b.views && n in a.shm && n in b.shm
             && Bags(a.views[n].targets) == Bags(b.views[n].targets)
    ensures a.shm[n].n == b.shm[n].n && a.shm[n].active.Keys == b.shm[n].active.Keys
  {
    hide *;
    ServiceOf(a, d, n);
    ServiceOf(b, d, n);
    ServesDetermines(a.views[n].targets, b.views[n].targets, EndpointsOf(d, n));
    BagKeys(a.views[n].targets, b.views[n].targets);
  }

  lemma BagKeys(a: map<int, seq<Address>>, b: map<int, seq<Address>>)
    requires Bags(a) == Bags(b)
    ensures a.Keys == b.Keys
  {
    assert a.Keys == Bags(a).Keys && b.Keys == Bags(b).Keys;
  }

  /** An identifier of a service leads to the same addresses, whatever the history, while no command on a route
      failed. */
  lemma SameRoutes(a: State, b: State, d: Desired, n: string, id: int, ip: IP)
    requires Realises(a, d) && Realises(b, d) && a.clean && b.clean && n in Elements(d.names) && 0 <= id < 100
    requires n in a.views && n in b.views
    ensures Route(id + a.views[n].range.offset, ip) in a.routes <==> Route(id + b.views[n].range.offset, ip) in b.routes
  {
    hide *;
    ServiceOf(a, d, n);
    ServiceOf(b, d, n);
    RouteOf(a.views, n, id, ip);
    RouteOf(b.views, n, id, ip);
    SameService(a, b, d, n);
    SameBag(a.views[n].targets, b.views[n].targets, id);
  }

  lemma SameBag(a: map<int, seq<Address>>, b: map<int, seq<Address>>, id: int)
    requires Bags(a) == Bags(b)
    ensures id in a <==> id in b
    ensures id in a ==> multiset(a[id]) == multiset(b[id])
  {
    assert id in a <==> id in Bags(a);
    assert id in b <==> id in Bags(b);
  }

  // ---------------------------------------------------------------------------------------------
  // What is served, in terms of the stored slices.

  /** The two slices give a UID this identifier, and it is ready: the zone is that of IPv4 when it is set there, the
      readiness that of the first slice that has the UID. */
  ghost predicate Provides(stored: Stored, u: string, id: int) {
    var (a, b) := (ByUid(stored.v4), ByUid(stored.v6));
    var zone := if u in a && a[u].zone.Some? then a[u].zone else if u in b then b[u].zone else None;
    && (if u in a then a[u].ready == Some(true) else u in b && b[u].ready == Some(true))
    && zone.Some? && Identifier.Atoi(zone.value) == Some(id)
  }

  lemma ProvidedIsUsable(stored: Stored, u: string, id: int)
    requires UniqueUids(stored.v6)
    ensures Provides(stored, u, id) <==>
              u in Known(stored) && Usable(Known(stored)[u]) && GetIdentifier(Known(stored)[u]) == Some(id)
    ensures u in Known(stored) ==>
              multiset(Known(stored)[u].addresses) == multiset(IdentifierAllocator.Both(stored.v4, stored.v6, u))
  {
    MergedAt(stored.v4, stored.v6, u);
    if u in Known(stored) {
      IdentifierAllocator.MergedFields(stored.v4, stored.v6, u);
    }
    hide Merged, ByUid, Identifier.Atoi;
  }

  /** The services are those asked for, each with 100 targets at most, and the activated indices of a service are
      exactly the identifiers that its stored slices provide. The mark of one leads to the IPs that the slices hold for
      the UID, and to no others, while no command on a route has failed. */
  lemma ServedFromSlices(s: State, d: Desired, n: string, u: string, id: int)
    requires Serving(s, d) && n in d.names && UniqueUids(StoredOf(d, n).v6)
    ensures n in s.shm && s.shm[n].n == 100
    ensures n !in d.stored ==> s.shm[n].active == map[]
    ensures n in d.stored ==> (id in s.shm[n].active <==> exists v :: Provides(d.stored[n], v, id))
    ensures n in d.stored && Provides(d.stored[n], u, id) && s.clean ==>
              forall ip :: Route(s.shm[n].active[id], ip) in s.routes <==>
                           LeadsThere(IdentifierAllocator.Both(d.stored[n].v4, d.stored[n].v6, u), ip)
  {
    hide *;
    ServingAt(s, d, n);
    StoredIs(d, n);
    ProvidedTargets(s.views[n].targets, StoredOf(d, n), u, id);
    if n !in d.stored {
      NothingProvided(s.views[n].targets);
    } else if Provides(d.stored[n], u, id) && s.clean {
      ProvidedRoutes(s.views, n, id, IdentifierAllocator.Both(d.stored[n].v4, d.stored[n].v6, u));
    }
  }

  /** The flow table has exactly the flows that the routes ask for, each with the fields of its route. */
  lemma RealisedTable(s: State, d: Desired)
    requires Realises(s, d)
    ensures TableOf(s.flows, d.routes, Elements(d.names))
  {
    DesiredEntriesAre(d.routes, Elements(d.names));
    hide Serving, DesiredEntries, TableOf;
  }

  lemma ServingAt(s: State, d: Desired, n: string)
    requires Serving(s, d) && n in d.names
    ensures MarksValid(s.views) && n in s.views && Serves(s.views[n].targets, Known(StoredOf(d, n)))
    ensures n in s.shm && s.shm[n].n == 100 && s.shm[n].active.Keys == s.views[n].targets.Keys
    ensures forall id :: id in s.views[n].targets ==> s.shm[n].active[id] == id + s.views[n].range.offset
    ensures s.views[n].targets == map[] ==> s.shm[n].active == map[]
    ensures s.clean ==> s.routes == AllRoutes(s.views)
  {
    assert n in Elements(d.names) && ServedAt(s, d, n);
    assert s.shm[n] == ShmOf(s.views[n]);
    hide MarksValid, Serves, AllRoutes, Known, VipsHeld;
  }

  lemma StoredIs(d: Desired, n: string)
    ensures StoredOf(d, n) == if n in d.stored then d.stored[n] else Stored([], [])
  {
  }

  lemma ProvidedRoutes(views: map<string, View>, n: string, id: int, ips: seq<Address>)
    requires MarksValid(views) && n in views && id in views[n].targets
             && multiset(views[n].targets[id]) == multiset(ips)
    ensures forall ip :: Route(id + views[n].range.offset, ip) in AllRoutes(views) <==> LeadsThere(ips, ip)
  {
    hide *;
    RangeHas(views, n, id);
    forall ip ensures Route(id + views[n].range.offset, ip) in AllRoutes(views) <==> LeadsThere(ips, ip) {
      RouteOf(views, n, id, ip);
      SameReach(views[n].targets[id], ips, ip);
    }
  }

  /** A target that serves the merged slices, in terms of the slices. */
  lemma ProvidedTargets(targets: map<int, seq<Address>>, stored: Stored, u: string, id: int)
    requires Serves(targets, Known(stored)) && UniqueUids(stored.v6)
    ensures id in targets <==> exists v :: Provides(stored, v, id)
    ensures Provides(stored, u, id) ==>
              id in targets && multiset(targets[id]) == multiset(IdentifierAllocator.Both(stored.v4, stored.v6, u))
  {
    forall v ensures Provides(stored, v, id) <==>
                     v in Known(stored) && Usable(Known(stored)[v]) && GetIdentifier(Known(stored)[v]) == Some(id)
    {
      ProvidedIsUsable(stored, v, id);
    }
    ProvidedIsUsable(stored, u, id);
    hide Provides, Usable, GetIdentifier, Known, IdentifierAllocator.Both;
    if id in targets {
      var v :| v in Known(stored) && Usable(Known(stored)[v]) && GetIdentifier(Known(stored)[v]) == Some(id);
      assert Provides(stored, v, id);
    }
  }

  lemma NothingProvided(targets: map<int, seq<Address>>)
    requires Serves(targets, Known(Stored([], [])))
    ensures targets == map[]
  {
    NothingKnown();
    assert forall id :: id !in targets;
  }

  lemma NothingKnown()
    ensures Known(Stored([], [])) == map[]
  {
  }

  lemma RangeHas(views: map<string, View>, n: string, id: int)
    requires MarksValid(views) && n in views && id in views[n].targets
    ensures 0 <= id < views[n].range.maxTargets
  {
  }

  ghost predicate LeadsThere(ips: seq<Address>, ip: IP) {
    exists a :: a in ips && a.Text? && a.ip == ip
  }

  lemma SameReach(ips: seq<Address>, others: seq<Address>, ip: IP)
    requires multiset(ips) == multiset(others)
    ensures Reaches(multiset(ips), ip) <==> LeadsThere(others, ip)
  {
    if Reaches(multiset(ips), ip) {
      var a :| a in multiset(ips) && ParseIP(a) == Some(ip);
      assert a in multiset(others) && a in others;
    }
    if LeadsThere(others, ip) {
      var a :| a in others && a.Text? && a.ip == ip;
      assert a in multiset(others);
    }
  }

  // ---------------------------------------------------------------------------------------------
  // Where the endpoints come from.

  /** The slices that the identifier allocator keeps stored give a service endpoints that are apart, with identifiers
      below the limit. */
  lemma StoredEndpointsApart(stored: Stored, max: nat)
    requires StoredInv(stored, max)
    ensures UsableApart(Known(stored))
    ensures forall u :: u in Known(stored) && Usable(Known(stored)[u]) ==>
              0 <= GetIdentifier(Known(stored)[u]).value < max
  {
    forall u | u in Known(stored) && Usable(Known(stored)[u])
      ensures u in Ids(stored) && GetIdentifier(Known(stored)[u]) == Some(Ids(stored)[u])
    {
    }
  }

  /** So what a run of the allocator stores can be realised. */
  lemma RunsAreWellFormed(d: Desired, runs: map<string, seq<Stored>>, inputs: map<string, seq<Input>>, max: nat)
    requires max < IdentifierAllocator.UINT32
    requires forall n :: n in d.names ==> n in runs && n in inputs && FullRun(runs[n], inputs[n], max)
    requires forall n :: n in d.names ==> exists i :: 0 <= i < |runs[n]| && StoredOf(d, n) == runs[n][i]
    ensures WellFormed(d)
  {
    hide UsableApart, StoredInv, FullRun;
    forall n | n in d.names ensures UsableApart(EndpointsOf(d, n)) {
      var i :| 0 <= i < |runs[n]| && StoredOf(d, n) == runs[n][i];
      RunKeepsInvariant(runs[n], inputs[n], max, i);
      StoredEndpointsApart(StoredOf(d, n), max);
    }
  }

  /** No usable endpoint that is stored in the IPv6 slice only carries the identifier of a usable one in the IPv4
      slice. */
  ghost predicate AcrossApart(s: Stored) {
    forall u, v :: u in ByUid(s.v6) && u !in ByUid(s.v4) && v in ByUid(s.v4) ==> !SharedBy(Known(s), u, v)
  }

  ghost predicate SharedBy(known: map<string, Endpoint>, u: string, v: string) {
    && u in known && v in known && Usable(known[u]) && Usable(known[v])
    && GetIdentifier(known[u]) == GetIdentifier(known[v])
  }

  lemma StoredWhere(s: Stored, u: string)
    requires UniqueUids(s.v6)
    ensures u in Known(s) <==> u in ByUid(s.v4) || u in ByUid(s.v6)
    ensures u in Known(s) && Usable(Known(s)[u]) ==> u in Ids(s) && GetIdentifier(Known(s)[u]) == Some(Ids(s)[u])
  {
    MergedAt(s.v4, s.v6, u);
  }

  /** No two usable endpoints of one slice share an identifier. */
  ghost predicate WithinApart(s: Stored) {
    forall u, v :: u != v && ((u in ByUid(s.v4) && v in ByUid(s.v4)) || (u in ByUid(s.v6) && v in ByUid(s.v6))) ==>
      !SharedBy(Known(s), u, v)
  }

  /** Two endpoints can share an identifier across the slices or inside one. */
  lemma SharedWhere(s: Stored)
    requires UniqueUids(s.v6)
    ensures UsableApart(Known(s)) <==> AcrossApart(s) && WithinApart(s)
    ensures SlicesApart(s) ==> WithinApart(s)
  {
    forall u ensures u in Known(s) <==> u in ByUid(s.v4) || u in ByUid(s.v6)
             ensures u in Known(s) && Usable(Known(s)[u]) ==>
                       u in Ids(s) && GetIdentifier(Known(s)[u]) == Some(Ids(s)[u])
    {
      StoredWhere(s, u);
    }
    hide Known, Ids, ByUid, Usable, GetIdentifier;
    if AcrossApart(s) && WithinApart(s) {
      forall u, v | u in Known(s) && v in Known(s) && u != v && Usable(Known(s)[u]) && Usable(Known(s)[v])
        ensures GetIdentifier(Known(s)[u]) != GetIdentifier(Known(s)[v])
      {
        assert !SharedBy(Known(s), u, v) || !SharedBy(Known(s), v, u);
      }
    }
  }

  /** A run that may stop after any write: what is stored can be realised exactly when no endpoint stored in IPv6 only
      shares the identifier of one stored in IPv4, and none of one slice share theirs, which they never do while no UID
      comes back while it is stored. */
  lemma InterruptedApart(states: seq<Stored>, inputs: seq<Input>, max: nat, i: nat)
    requires max < IdentifierAllocator.UINT32 && AnyRun(states, inputs, max) && i < |states|
    ensures UsableApart(Known(states[i])) <==> AcrossApart(states[i]) && WithinApart(states[i])
    ensures ReturnsClean(states, inputs) ==> WithinApart(states[i])
  {
    hide *;
    AnyRunPublished(states, inputs, max, i);
    PublishedOnce(states[i], max, "");
    SharedWhere(states[i]);
    if i == 0 {
      StoredNothing(states, inputs, max);
    } else if ReturnsClean(states, inputs) {
      CleanRunIsApart(states, inputs, max, i - 1);
    }
  }

  lemma StoredNothing(states: seq<Stored>, inputs: seq<Input>, max: nat)
    requires AnyRun(states, inputs, max)
    ensures UsableApart(Known(states[0])) && AcrossApart(states[0]) && WithinApart(states[0])
  {
    NothingStored(states, inputs, max);
    hide Known;
  }

  /** The wishes of a cluster whose slices were stored by such runs can be realised exactly when this holds of each
      service. INTERRUPTED is a state where it does not (InterruptionShares). */
  lemma AnyRunsAreWellFormed(d: Desired, runs: map<string, seq<Stored>>, inputs: map<string, seq<Input>>, max: nat)
    requires max < IdentifierAllocator.UINT32
    requires forall n :: n in d.names ==>
               n in runs && n in inputs && AnyRun(runs[n], inputs[n], max)
    requires forall n :: n in d.names ==> exists i :: 0 <= i < |runs[n]| && StoredOf(d, n) == runs[n][i]
    ensures WellFormed(d) <==> forall n :: n in d.names ==> AcrossApart(StoredOf(d, n)) && WithinApart(StoredOf(d, n))
    ensures (forall n :: n in d.names ==> ReturnsClean(runs[n], inputs[n])) ==>
              (WellFormed(d) <==> forall n :: n in d.names ==> AcrossApart(StoredOf(d, n)))
  {
    hide UsableApart, AcrossApart, WithinApart, AnyRun, ReturnsClean, Known;
    forall n | n in d.names
      ensures UsableApart(EndpointsOf(d, n)) <==> AcrossApart(StoredOf(d, n)) && WithinApart(StoredOf(d, n))
      ensures ReturnsClean(runs[n], inputs[n]) ==> WithinApart(StoredOf(d, n))
    {
      var i :| 0 <= i < |runs[n]| && StoredOf(d, n) == runs[n][i];
      InterruptedApart(runs[n], inputs[n], max, i);
    }
  }

  /** A reconcile that writes both slices stores wanted UIDs only, and leaves nothing to share across the slices. */
  lemma StepIsClean(states: seq<Stored>, inputs: seq<Input>, max: nat, i: nat)
    requires max < IdentifierAllocator.UINT32 && AnyRun(states, inputs, max) && ReturnsClean(states, inputs)
    requires i < |inputs| && Step(states[i], inputs[i], max, states[i + 1])
    ensures Known(states[i + 1]).Keys <= Wanted(inputs[i]).Keys
    ensures UsableApart(Known(states[i + 1])) && AcrossApart(states[i + 1])
  {
    AnyRunStep(states, inputs, max, i);
    CleanRunIsApart(states, inputs, max, i);
    InterruptedApart(states, inputs, max, i + 1);
    OnlyWanted(states[i], inputs[i], max, states[i + 1]);
    hide *;
    AllApart(states[i + 1], Wanted(inputs[i]).Keys);
  }

  lemma AllApart(s: Stored, uids: set<string>)
    requires ApartOn(Ids(s), uids) && Known(s).Keys <= uids
    ensures UsableApart(Known(s))
  {
    hide Known;
  }

  lemma OnlyWanted(s: Stored, input: Input, max: nat, s': Stored)
    requires max < IdentifierAllocator.UINT32 && ValidInput(input) && Step(s, input, max, s')
    ensures Known(s').Keys <= Wanted(input).Keys
  {
    var ids :| FullStep(s, input, max, ids, s');
    forall u | u in Known(s') ensures u in Wanted(input) {
      FullStepAt(s, input, max, ids, s', u);
    }
  }
}
