/** pkg/nfqlb/nfqlb.go: the registry of services of the load balancer, and the invariant of its forwarding marks. */
module LoadBalancing {
  import opened Prelude
  import opened EndpointSlice
  import opened Offset
  import opened Nfqlb
  import opened Views

  function ViewOf(s: Service): View
    reads s`targets
  {
    View(Range(s.offset, s.maxTargets), s.targets)
  }

  /** NFQueueLoadBalancer. `muHeld`: the mutex was left locked by a call that returned. */
  class LoadBalancer {
    const backend: Backend
    const startingOffset: int
    var services: map<string, Service>
    var muHeld: bool

    constructor (startingOffset: int, backend: Backend)
      requires 0 <= startingOffset <= MAX_INT
      ensures this.startingOffset == startingOffset && this.backend == backend && services == map[] && !muHeld
      ensures backend.SetsApart() ==> Valid()
    {
      this.startingOffset, this.backend := startingOffset, backend;
      services, muHeld := map[], false;
    }

    function Views(): map<string, View>
      reads this`services, services.Values`targets
    {
      map name | name in services :: ViewOf(services[name])
    }

    /** Every registered service is known under its name and has shared memory of its size. */
    ghost predicate Registered()
      reads this`services, backend`shm
    {
      InShm(backend.shm)
    }

    /** What every call keeps, whether or not commands fail. */
    ghost predicate Valid()
      reads this`services, backend`shm, services.Values`targets
    {
      && 0 <= startingOffset <= MAX_INT && backend.SetsApart()
      && Registered()
      && MarksValid(Views())
    }

    /** The backend holds exactly what the recorded targets of the registered services stand for; the routes as long
        as no command on a route has failed. */
    ghost predicate InStep()
      reads this`services, backend`shm, backend`routes, backend`clean, services.Values`targets
    {
      backend.shm == ShmsOf(Views()) && (backend.clean ==> backend.routes == AllRoutes(Views()))
    }

    /** AddService: returns the registered service, or reserves the first free range of marks and initialises a new
        one. */
    method AddService(name: string, maxTargets: int) returns (status: Status, service: Option<Service>)
      requires Valid() && MIN_INT <= maxTargets <= MAX_INT
      modifies this`services, backend`shm, backend`calls
      ensures Valid()
      ensures old(InStep()) ==> InStep()
      ensures muHeld <==> status == Blocked
      ensures status != Done || name in old(services) ==> services == old(services) && backend.shm == old(backend.shm)
      ensures status != Done ==> service == None
      ensures name in old(services) && !muHeld ==> status == Done && service == Some(services[name])
      ensures status == Done && name !in old(services) ==>
                && service.Some? && fresh(service.value) && services == old(services)[name := service.value]
                && service.value.name == name && service.value.backend == backend
                && Views() == old(Views())[name := View(Range(service.value.offset, maxTargets), map[])]
                && FirstFit(startingOffset, RangesOf(old(Views())), maxTargets, service.value.offset)
                && service.value.maxTargets == maxTargets && service.value.targets == map[]
                && backend.shm == old(backend.shm)[name := Shm(maxTargets, map[])]
    {
      if muHeld {
        return Blocked, None;
      }
      hide ShmsOf, AllRoutes, MarksValid, RangesOf;
      if name in services {
        return Done, Some(services[name]);
      }
      ghost var views := Views();
      RangesWellformed(views);
      var offset, restarts := GetOffset(startingOffset, ServiceRanges(), maxTargets);
      assert Views() == views;
      hide LoadBalancer.Views, LoadBalancer.ServiceRanges;
      if offset.None? {
        return Failed, None;
      }
      status, service := InitService(name, maxTargets, offset.value);
    }

    /** The second half of AddService: a new service on a free range. */
    method InitService(name: string, maxTargets: int, offset: int) returns (status: Status, service: Option<Service>)
      requires Valid() && name !in services
      requires Wellformed(Range(offset, maxTargets)) && Fits(offset, RangesOf(Views()), maxTargets)
      modifies this`services, backend`shm, backend`calls
      ensures Valid()
      ensures old(InStep()) ==> InStep()
      ensures status == Done || status == Failed
      ensures status == Failed ==> service == None && services == old(services) && backend.shm == old(backend.shm)
      ensures status == Done ==>
                && service.Some? && fresh(service.value) && services == old(services)[name := service.value]
                && service.value.name == name && service.value.backend == backend && service.value.offset == offset
                && Views() == old(Views())[name := View(Range(service.value.offset, maxTargets), map[])]
                && service.value.maxTargets == maxTargets && service.value.targets == map[]
                && backend.shm == old(backend.shm)[name := Shm(maxTargets, map[])]
    {
      hide MarksValid, RangesOf, Fits, Wellformed, ShmsOf, AllRoutes;
      ghost var views := Views();
      var added := new Service(name, maxTargets, offset, backend);
      var ok := backend.Init(name, maxTargets);
      assert Views() == views;
      if !ok {
        return Failed, None;
      }
      ViewAdded(views, name, View(Range(offset, maxTargets), map[]));
      services := services[name := added];
      ViewsAfterAdd(old(services), views, name, added);
      ServiceAdded(views, name, Range(offset, maxTargets));
      return Done, Some(added);
    }

    /** DeleteService: forgets the service and releases the mutex, then deletes the shared memory, every target and
        every flow of the service. For an unknown name the call returns with the mutex still locked. */
    method DeleteService(name: string) returns (status: Status)
      requires Valid()
      modifies this`services, this`muHeld, backend`shm, backend`flows, backend`routes, backend`clean, backend`calls
      modifies backend.nfQueue.ipv4DestinationSet`elements, backend.nfQueue.ipv6DestinationSet`elements
      modifies (if name in services then {services[name]} else {})`targets
      ensures Valid()
      ensures status == Done && old(InStep()) ==> InStep()
      ensures old(muHeld) <==> status == Blocked
      ensures muHeld <==> old(muHeld) || name !in old(services)
      ensures old(muHeld) || name !in old(services) ==> services == old(services) && Untouched()
      ensures !old(muHeld) ==> services == old(services) - {name}
      ensures !old(muHeld) && name in old(services) ==> Views() == old(Views()) - {name}
      ensures forall n :: n in old(backend.shm) && n != name ==>
                n in backend.shm && backend.shm[n] == old(backend.shm)[n]
      ensures backend.shm == old(backend.shm) || backend.shm == old(backend.shm) - {name}
      ensures name in old(services) ==>
                old(services)[name].targets == old(services[name].targets) || old(services)[name].targets == map[]
      ensures status == Done && name in old(services) ==> TornDown(old(services)[name], name)
      ensures status == Done && old(backend.VipsInv()) ==> backend.VipsInv()
    {
      hide MarksValid, FlowsExcept, ServiceRoutes, ShmsOf, AllRoutes;
      if muHeld {
        return Blocked;
      }
      if name !in services {
        muHeld := true;
        assert services - {name} == services;
        return Done;
      }
      status := DeleteKnown(name);
    }

    /** DeleteService for a registered name. */
    method DeleteKnown(name: string) returns (status: Status)
      requires Valid() && name in services && !muHeld
      modifies this`services, backend`shm, backend`flows, backend`routes, backend`clean, backend`calls
      modifies backend.nfQueue.ipv4DestinationSet`elements, backend.nfQueue.ipv6DestinationSet`elements
      modifies {services[name]}`targets
      ensures Valid() && services == old(services) - {name} && Views() == old(Views()) - {name}
      ensures status == Done && old(InStep()) ==> InStep()
      ensures status == Done || status == Failed
      ensures forall n :: n in old(backend.shm) && n != name ==>
                n in backend.shm && backend.shm[n] == old(backend.shm)[n]
      ensures backend.shm == old(backend.shm) || backend.shm == old(backend.shm) - {name}
      ensures old(services)[name].targets == old(services[name].targets) || old(services)[name].targets == map[]
      ensures status == Done ==> TornDown(old(services)[name], name)
      ensures status == Done && old(backend.VipsInv()) ==> backend.VipsInv()
    {
      hide MarksValid, FlowsExcept, ServiceRoutes, ShmsOf, AllRoutes, Destinations;
      var service := services[name];
      ServiceRemoved(Views(), name);
      Unregister(name);
      assert forall n :: n in services ==> services[n] != service;
      status := TearDownApart(service);
    }

    /** Tearing down a service that is not registered any more leaves the registered ones as they are. */
    method TearDownApart(service: Service) returns (status: Status)
      requires Valid() && backend.SetsApart() && service.backend == backend
      requires service !in services.Values && service.name !in services
      modifies service`targets, backend`shm, backend`flows, backend`routes, backend`clean, backend`calls
      modifies backend.nfQueue.ipv4DestinationSet`elements, backend.nfQueue.ipv6DestinationSet`elements
      ensures Valid() && services == old(services) && Views() == old(Views())
      ensures status == Done || status == Failed
      ensures forall n :: n in old(backend.shm) && n != service.name ==>
                n in backend.shm && backend.shm[n] == old(backend.shm)[n]
      ensures backend.shm == old(backend.shm) || backend.shm == old(backend.shm) - {service.name}
      ensures service.targets == old(service.targets) || service.targets == map[]
      ensures status == Done ==> TornDown(service, service.name)
      ensures status == Done && old(backend.VipsInv()) ==> backend.VipsInv()
    {
      ghost var shm := backend.shm;
      assert MarksValid(Views()) && InShm(shm) && 0 <= startingOffset <= MAX_INT;
      hide *;
      status := TearDown(service);
      assert services.Values == old(services.Values);
      assert Views() == old(Views());
      StillValid(shm, service.name);
    }

    ghost predicate InShm(shm: map<string, Shm>)
      reads this`services
    {
      forall name :: name in services ==>
        && services[name].name == name && services[name].backend == backend
        && name in shm && shm[name].n == services[name].maxTargets
    }

    lemma StillValid(shm: map<string, Shm>, gone: string)
      requires 0 <= startingOffset <= MAX_INT && backend.SetsApart() && InShm(shm) && MarksValid(Views())
               && gone !in services
      requires forall n :: n in shm && n != gone ==> n in backend.shm && backend.shm[n] == shm[n]
      ensures Valid()
    {
      hide MarksValid, LoadBalancer.Views;
    }

    /** The part of DeleteService under the mutex of the load balancer, for a known name. */
    method Unregister(name: string)
      requires Valid() && name in services && !muHeld
      modifies this`services
      ensures Valid() && services == old(services) - {name} && Views() == old(Views()) - {name}
    {
      ghost var views := Views();
      services := services - {name};
      hide MarksValid;
      ViewsAfterRemove(old(services), views, name);
    }

    twostate predicate Untouched()
      reads backend, backend.nfQueue.ipv4DestinationSet, backend.nfQueue.ipv6DestinationSet
    {
      && backend.shm == old(backend.shm) && backend.flows == old(backend.flows)
      && backend.routes == old(backend.routes) && backend.clean == old(backend.clean)
      && backend.nfQueue.ipv4DestinationSet.elements == old(backend.nfQueue.ipv4DestinationSet.elements)
      && backend.nfQueue.ipv6DestinationSet.elements == old(backend.nfQueue.ipv6DestinationSet.elements)
    }

    /** Nothing of a service is left in the backend, and nothing else is gone. */
    twostate predicate TornDown(service: Service, name: string)
      reads backend, service
    {
      && backend.shm == old(backend.shm) - {name}
      && backend.flows == FlowsExcept(old(backend.flows), name)
      && service.targets == map[]
      && (backend.clean ==>
            old(backend.clean)
            && backend.routes == old(backend.routes) - ServiceRoutes(service.offset, old(service.targets)))
    }

    /** The second half of DeleteService, under the mutex of the service. */
    method TearDown(service: Service) returns (status: Status)
      requires backend.SetsApart() && service.backend == backend
      modifies service`targets, backend`shm, backend`flows, backend`routes, backend`clean, backend`calls
      modifies backend.nfQueue.ipv4DestinationSet`elements, backend.nfQueue.ipv6DestinationSet`elements
      ensures status == Done || status == Failed
      ensures forall n :: n in old(backend.shm) && n != service.name ==>
                n in backend.shm && backend.shm[n] == old(backend.shm)[n]
      ensures backend.shm == old(backend.shm) || backend.shm == old(backend.shm) - {service.name}
      ensures service.targets == old(service.targets) || service.targets == map[]
      ensures status == Done ==> TornDown(service, service.name)
      ensures status == Failed ==>
                || (service.targets == old(service.targets) && backend.shm == old(backend.shm)
                    && backend.routes == old(backend.routes) && backend.clean == old(backend.clean)
                    && backend.flows == old(backend.flows))
                || (service.targets == map[] && backend.shm == old(backend.shm) - {service.name})
      ensures status == Done && old(backend.VipsInv()) ==> backend.VipsInv()
    {
      var ok := backend.Delete(service.name);
      if !ok {
        return Failed;
      }
      var err1 := DeleteTargets(service);
      var names, listed;
      ok, names, listed := backend.FlowList();
      if !ok {
        return Failed;
      }
      var err2 := DeleteFlows(service, names, listed);
      return if err1 || err2 then Failed else Done;
    }

    method DeleteTargets(service: Service) returns (err: bool)
      requires service.backend == backend && service.name !in backend.shm
      modifies backend`shm, backend`routes, backend`clean, backend`calls, service`targets
      ensures backend.shm == old(backend.shm) && service.targets == map[]
      ensures !err && backend.clean ==>
                old(backend.clean)
                && backend.routes == old(backend.routes) - ServiceRoutes(service.offset, old(service.targets))
    {
      hide ServiceRoutes, RoutesTo, TargetRoutes;
      err := false;
      ghost var before, clean := backend.routes, backend.clean;
      ghost var all, removed: set<Route> := ServiceRoutes(service.offset, service.targets), {};
      while service.targets != map[]
        invariant backend.shm == old(backend.shm)
        invariant !err && backend.clean ==> clean && backend.routes == before - removed
        invariant removed + ServiceRoutes(service.offset, service.targets) == all
        decreases service.targets.Keys
      {
        var id := SomeKey(service.targets.Keys);
        var ips := service.targets[id];
        ServiceRoutesWithout(service.offset, service.targets, id);
        var failed := service.DeleteTarget(ips, id);
        removed := removed + RoutesTo(id + service.offset, ips);
        err := err || failed;
      }
      NoTargetsNoRoutes(service.offset);
    }

    method DeleteFlows(service: Service, names: seq<string>, listed: map<string, FlowEntry>) returns (err: bool)
      requires backend.SetsApart() && service.backend == backend
      requires NoDup(names) && Elements(names) == listed.Keys && listed == backend.flows
      modifies backend`flows, backend`calls
      modifies backend.nfQueue.ipv4DestinationSet`elements, backend.nfQueue.ipv6DestinationSet`elements
      ensures !err ==> backend.flows == FlowsExcept(listed, service.name)
      ensures !err && old(backend.VipsInv()) ==> backend.VipsInv()
    {
      err := false;
      for i := 0 to |names|
        invariant !err && old(backend.VipsInv()) ==> backend.VipsInv()
        invariant !err ==> backend.flows == RemoveListed(listed, service.name, names[..i])
      {
        assert names[i] in Elements(names);
        RemoveListedSnoc(listed, service.name, names[..i], names[i]);
        assert names[..i + 1] == names[..i] + [names[i]];
        if listed[names[i]].target == service.name {
          var failed := service.DeleteFlow(names[i]);
          err := err || failed;
        }
      }
      assert names[..|names|] == names;
      RemoveListedAll(listed, service.name, names);
    }

    /** A target added through any handle, registered or not, keeps the invariant. */
    method AddTargetThrough(service: Service, ips: seq<Address>, identifier: int) returns (err: bool)
      requires Valid() && service.backend == backend
      modifies service`targets, backend`shm, backend`routes, backend`clean, backend`calls
      ensures Valid() && SameSizes(backend.shm, old(backend.shm))
      ensures identifier in service.targets && identifier !in old(service.targets) ==>
                service.name in old(backend.shm) && 0 <= identifier < old(backend.shm)[service.name].n
      ensures identifier in old(service.targets) ==> !err
      ensures err || identifier in old(service.targets) ==> service.targets == old(service.targets)
      ensures !err && identifier !in old(service.targets) ==> service.targets == old(service.targets)[identifier := ips]
      ensures backend.calls == old(backend.calls) +
              if identifier in old(service.targets) then [] else [Activate(service.name, identifier)]
      ensures IsRegistered(service) ==> Views() == WithTargets(old(Views()), service.name, service.targets)
      ensures !err && identifier in old(service.targets) ==>
                backend.shm == old(backend.shm) && backend.routes == old(backend.routes)
                    && backend.clean == old(backend.clean)
      ensures !err && identifier !in old(service.targets) ==>
                && service.name in old(backend.shm)
                && backend.shm == Activated(old(backend.shm), service.name, identifier, identifier + service.offset)
                && (backend.clean ==>
                      && old(backend.clean)
                      && backend.routes == old(backend.routes) + RoutesTo(identifier + service.offset, ips))
    {
      ghost var views := Views();
      err := service.AddTarget(ips, identifier);
      hide MarksValid, ShmsOf, AllRoutes;
      assert Registered();
      ValidAfterTargets(views, service);
    }

    /** Without an error the backend stays in step with a registered service. */
    method AddTargetInStep(service: Service, ips: seq<Address>, identifier: int) returns (err: bool)
      requires Valid() && service.backend == backend
      modifies service`targets, backend`shm, backend`routes, backend`clean, backend`calls
      ensures Valid() && SameSizes(backend.shm, old(backend.shm))
      ensures identifier in service.targets && identifier !in old(service.targets) ==>
                service.name in old(backend.shm) && 0 <= identifier < old(backend.shm)[service.name].n
      ensures identifier in old(service.targets) ==> !err
      ensures err || identifier in old(service.targets) ==> service.targets == old(service.targets)
      ensures !err && identifier !in old(service.targets) ==> service.targets == old(service.targets)[identifier := ips]
      ensures backend.calls == old(backend.calls) +
              if identifier in old(service.targets) then [] else [Activate(service.name, identifier)]
      ensures !err && old(InStep() && IsRegistered(service)) ==> InStep()
    {
      hide MarksValid, ShmsOf, AllRoutes, RoutesTo;
      ghost var views := Views();
      err := AddTargetThrough(service, ips, identifier);
      if !err && old(InStep() && IsRegistered(service)) {
        StepAfterAdd(views, service.name, ips, identifier, old(backend.shm), backend.shm, old(backend.routes),
                     backend.routes, backend.clean);
      }
    }

    /** A target deleted through any handle keeps the invariant. */
    method DeleteTargetThrough(service: Service, ips: seq<Address>, identifier: int) returns (err: bool)
      requires Valid() && service.backend == backend
      modifies service`targets, backend`shm, backend`routes, backend`clean, backend`calls
      ensures Valid() && SameSizes(backend.shm, old(backend.shm))
      ensures identifier !in old(service.targets) ==> !err
      ensures service.targets == old(service.targets) - {identifier}
      ensures backend.calls == old(backend.calls) +
              if identifier in old(service.targets) then [Deactivate(service.name, identifier)] else []
      ensures IsRegistered(service) ==> Views() == WithTargets(old(Views()), service.name, service.targets)
      ensures !err && identifier !in old(service.targets) ==>
                backend.shm == old(backend.shm) && backend.routes == old(backend.routes)
                    && backend.clean == old(backend.clean)
      ensures !err && identifier in old(service.targets) ==>
                && backend.shm == Deactivated(old(backend.shm), service.name, identifier)
                && (backend.clean ==>
                      && old(backend.clean)
                      && backend.routes == old(backend.routes) - RoutesTo(identifier + service.offset, ips))
    {
      ghost var views := Views();
      err := service.DeleteTarget(ips, identifier);
      hide MarksValid, ShmsOf, AllRoutes;
      assert Registered();
      ValidAfterTargets(views, service);
    }

    /** Without an error, and with the addresses that were recorded, the backend stays in step. */
    method DeleteTargetInStep(service: Service, ips: seq<Address>, identifier: int) returns (err: bool)
      requires Valid() && service.backend == backend
      modifies service`targets, backend`shm, backend`routes, backend`clean, backend`calls
      ensures Valid() && SameSizes(backend.shm, old(backend.shm))
      ensures identifier !in old(service.targets) ==> !err
      ensures service.targets == old(service.targets) - {identifier}
      ensures backend.calls == old(backend.calls) +
              if identifier in old(service.targets) then [Deactivate(service.name, identifier)] else []
      ensures !err && old(InStep() && IsRegistered(service) && RecordedWith(service.targets, identifier, ips)) ==>
                InStep()
    {
      hide MarksValid, ShmsOf, AllRoutes, RoutesTo;
      ghost var views := Views();
      err := DeleteTargetThrough(service, ips, identifier);
      if !err && old(InStep() && IsRegistered(service) && RecordedWith(service.targets, identifier, ips)) {
        StepAfterDelete(views, service.name, identifier, old(backend.shm), backend.shm, old(backend.routes),
                     backend.routes, backend.clean);
      }
    }

    ghost predicate RecordedWith(targets: map<int, seq<Address>>, identifier: int, ips: seq<Address>) {
      identifier in targets ==> targets[identifier] == ips
    }

    ghost predicate IsRegistered(service: Service)
      reads this`services
    {
      service.name in services && services[service.name] == service
    }

    /** The views after the targets of one service object changed. */
    lemma ViewsAfterTargets(views: map<string, View>, service: Service)
      requires views.Keys == services.Keys
      requires forall n :: n in services ==> services[n].name == n
      requires forall n :: n in services && services[n] != service ==>
                 views[n] == ViewOf(services[n])
      requires forall n :: n in services && services[n] == service ==>
                 views[n].range == Range(service.offset, service.maxTargets)
      ensures Views() == if service.name in services && services[service.name] == service
                         then views[service.name := View(views[service.name].range, service.targets)] else views
    {
    }

    /** The invariant after the targets of one service object changed within its range. */
    lemma ValidAfterTargets(views: map<string, View>, service: Service)
      requires 0 <= startingOffset <= MAX_INT && backend.SetsApart() && Registered() && MarksValid(views)
      requires views.Keys == services.Keys
      requires forall n :: n in services && services[n] != service ==> views[n] == ViewOf(services[n])
      requires forall n :: n in services && services[n] == service ==>
                views[n].range == Range(service.offset, service.maxTargets)
      requires IsRegistered(service) ==>
                 forall k :: k in service.targets && k !in views[service.name].targets ==> 0 <= k < service.maxTargets
      ensures Valid()
      ensures Views() == if IsRegistered(service) then WithTargets(views, service.name, service.targets) else views
    {
      ViewsAfterTargets(views, service);
      hide MarksValid, LoadBalancer.Views;
      ViewTargetsChanged(views, service.name, service.targets);
    }

    lemma ViewsAfterRemove(before: map<string, Service>, views: map<string, View>, name: string)
      requires services == before - {name} && MarksValid(views)
      requires views.Keys == before.Keys
      requires forall n :: n in before ==> views[n] == ViewOf(before[n])
      ensures Views() == views - {name} && MarksValid(Views())
    {
      ViewRemoved(views, name);
      assert Views() == views - {name};
    }

    lemma ViewsAfterAdd(before: map<string, Service>, views: map<string, View>, name: string, added: Service)
      requires services == before[name := added]
      requires views.Keys == before.Keys
      requires forall n :: n in before ==> views[n] == ViewOf(before[n])
      ensures Views() == views[name := ViewOf(added)]
    {
    }

    function ServiceRanges(): (r: map<string, Range>)
      reads this, services.Values
      ensures r == RangesOf(Views())
    {
      map name | name in services :: Range(services[name].offset, services[name].maxTargets)
    }
  }

  lemma NoTargetsNoRoutes(offset: int)
    ensures ServiceRoutes(offset, map[]) == {}
  {
  }

  /** Go's iteration over a map with integer keys picks any of them. */
  method SomeKey(keys: set<int>) returns (k: int)
    requires keys != {}
    ensures k in keys
  {
    SomeElement(keys);
    k :| k in keys;
  }

  function RemoveListed(flows: map<string, FlowEntry>, service: string, names: seq<string>): map<string, FlowEntry> {
    map name | name in flows && !(name in names && flows[name].target == service) :: flows[name]
  }

  lemma RemoveListedSnoc(flows: map<string, FlowEntry>, service: string, names: seq<string>, name: string)
    requires name in flows
    ensures RemoveListed(flows, service, names + [name]) ==
            if flows[name].target == service then RemoveListed(flows, service, names) - {name}
            else RemoveListed(flows, service, names)
    ensures RemoveListed(flows, service, []) == flows
  {
  }

  lemma RemoveListedAll(flows: map<string, FlowEntry>, service: string, names: seq<string>)
    requires Elements(names) == flows.Keys
    ensures RemoveListed(flows, service, names) == FlowsExcept(flows, service)
  {
    forall name | name in flows ensures name in names {
      assert name in Elements(names);
    }
  }

  // ---------------------------------------------------------------------------------------------
  // Runs.

  /** A call on the load balancer, or on a service handle it returned earlier (by position). */
  datatype Op =
    | AddServiceOp(name: string, maxTargets: int)
    | DeleteServiceOp(name: string)
    | AddTargetOp(handle: nat, ips: seq<Address>, identifier: int)
    | DeleteTargetOp(handle: nat, ips: seq<Address>, identifier: int)

  /** What the handles are known to be. */
  ghost predicate HandlesOf(lb: LoadBalancer, handles: seq<Service>) {
    forall i :: 0 <= i < |handles| ==> handles[i].backend == lb.backend
  }

  /** One call; `blocked`: it waits for the mutex for ever. */
  method OneCall(lb: LoadBalancer, op: Op, handles: seq<Service>) returns (handles': seq<Service>, blocked: bool)
    requires lb.Valid() && HandlesOf(lb, handles) && (op.AddServiceOp? ==> MIN_INT <= op.maxTargets <= MAX_INT)
    modifies lb, lb.backend, lb.backend.nfQueue.ipv4DestinationSet, lb.backend.nfQueue.ipv6DestinationSet
    modifies handles, lb.services.Values
    ensures lb.Valid() && HandlesOf(lb, handles')
    ensures forall s :: s in handles' ==> s in handles || s in lb.services.Values
    ensures forall n :: n in lb.services ==> lb.services[n] in old(lb.services.Values) || fresh(lb.services[n])
  {
    handles', blocked := handles, false;
    match op {
      case AddServiceOp(name, maxTargets) =>
        hide *;
        var status, service := lb.AddService(name, maxTargets);
        blocked := status == Blocked;
        if service.Some? {
          Registers(lb, name, handles, service.value);
          handles' := handles + [service.value];
        }
      case DeleteServiceOp(name) =>
        hide *;
        var status := lb.DeleteService(name);
        blocked := status == Blocked;
      case AddTargetOp(handle, ips, identifier) =>
        if handle < |handles| {
          var err := lb.AddTargetThrough(handles[handle], ips, identifier);
        }
      case DeleteTargetOp(handle, ips, identifier) =>
        if handle < |handles| {
          var err := lb.DeleteTargetThrough(handles[handle], ips, identifier);
        }
    }
  }

  lemma Registers(lb: LoadBalancer, name: string, handles: seq<Service>, service: Service)
    requires lb.Valid() && HandlesOf(lb, handles) && name in lb.services && lb.services[name] == service
    ensures service in lb.services.Values && HandlesOf(lb, handles + [service])
  {
    hide MarksValid;
  }

  /** Any sequence of calls, with any outcome of the commands and with handles that may be stale, leaves the marks
      of registered services disjoint and every recorded target inside its service's range. The run ends early
      when a call blocks. */
  method Run(lb: LoadBalancer, ops: seq<Op>) returns (handles: seq<Service>)
    requires lb.services == map[] && lb.Valid()
    requires forall i :: 0 <= i < |ops| && ops[i].AddServiceOp? ==> MIN_INT <= ops[i].maxTargets <= MAX_INT
    modifies lb, lb.backend, lb.backend.nfQueue.ipv4DestinationSet, lb.backend.nfQueue.ipv6DestinationSet
    ensures lb.Valid() && MarksValid(lb.Views())
  {
    handles := [];
    assert HandlesOf(lb, handles);
    hide *;
    for i := 0 to |ops|
      invariant lb.Valid() && HandlesOf(lb, handles)
      invariant forall s :: s in handles || s in lb.services.Values ==> fresh(s)
    {
      var blocked;
      handles, blocked := OneCall(lb, ops[i], handles);
      if blocked {
        break;
      }
    }
    ValidMarks(lb);
  }

  lemma ValidMarks(lb: LoadBalancer)
    requires lb.Valid()
    ensures MarksValid(lb.Views())
  {
    hide MarksValid;
  }
}
