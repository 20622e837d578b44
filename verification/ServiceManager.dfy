/** Manager: brings the load balancer in line with the wanted services, flows and endpoints.
    pkg/controllers/statelessloadbalancer/manager.go. */
module ServiceManager {
  import opened Prelude
  import opened EndpointSlice
  import opened Endpoints
  import opened Flows
  import opened Nfqlb
  import opened Views
  import opened Offset
  import opened LoadBalancing
  import opened ManagerState

  class Manager {
    const lb: LoadBalancer
    var services: map<string, Service>
    var flows: map<string, FlowImpl>
    var endpoints: map<string, seq<Endpoint>>

    constructor (lb: LoadBalancer)
      ensures this.lb == lb && services == map[] && flows == map[] && endpoints == map[]
    {
      this.lb, services, flows, endpoints := lb, map[], map[], map[];
    }

    function Targets(): map<string, map<int, seq<Address>>>
      reads this`services, services.Values`targets
    {
      map n | n in services :: services[n].targets
    }

    /** The targets of all cached services, registered or not, are inside the range of their service. */
    ghost predicate InBounds()
      reads this`services, lb.backend`shm, services.Values`targets
    {
      Sized(lb.backend.shm) && TargetsInSize(services)
    }

    lemma InBoundsFrom()
      ensures Sized(lb.backend.shm) && TargetsInSize(services) ==> InBounds()
    {
    }

    lemma InBoundsHas()
      ensures InBounds() ==> Sized(lb.backend.shm) && TargetsInSize(services)
    {
    }

    lemma StillSized(shm: map<string, Shm>, name: string)
      requires lb.backend.shm == shm || lb.backend.shm == shm[name := Shm(DEFAULT_MAX_TARGETS, map[])]
      ensures Sized(shm) ==> Sized(lb.backend.shm)
    {
      if Sized(shm) {
        SizedWith(shm, name);
      }
    }

    lemma BoundedAt(name: string)
      requires name in services
      ensures InBounds() ==> Bounded(services[name], lb.backend.shm)
    {
    }

    /** What every call keeps, whether or not commands fail. */
    ghost predicate Valid()
      reads this`services, this`flows, this`endpoints
      reads lb`services, lb.backend`shm, lb.services.Values`targets
    {
      ValidWith(endpoints)
    }

    ghost predicate ValidWith(es: map<string, seq<Endpoint>>)
      reads this`services, this`flows
      reads lb`services, lb.backend`shm, lb.services.Values`targets
    {
      lb.Valid() && Consistent(services, flows, es, lb.backend) && Tracks(services, lb.services)
    }

    /** What error-free calls keep as well: the caches of the manager, the registry of the load balancer and the
        backend all say the same. */
    ghost predicate Coherent()
      reads this, lb, lb.services.Values`targets, services.Values`targets, lb.backend
      reads lb.backend.nfQueue.ipv4DestinationSet`elements, lb.backend.nfQueue.ipv6DestinationSet`elements
    {
      CoherentWith(endpoints)
    }

    ghost predicate CoherentWith(es: map<string, seq<Endpoint>>)
      reads this`services, this`flows, lb, lb.services.Values`targets, services.Values`targets, lb.backend
      reads lb.backend.nfQueue.ipv4DestinationSet`elements, lb.backend.nfQueue.ipv6DestinationSet`elements
    {
      ValidWith(es) && Core(es, flows)
    }

    /** Coherent for given endpoints and flows, without Valid. */
    ghost predicate Core(es: map<string, seq<Endpoint>>, fs: map<string, FlowImpl>)
      reads this`services, lb, lb.services.Values`targets, services.Values`targets, lb.backend
      reads lb.backend.nfQueue.ipv4DestinationSet`elements, lb.backend.nfQueue.ipv6DestinationSet`elements
    {
      InLine(fs) && lb.InStep() && AllHeld(Targets(), es)
    }

    /** The part that endpoints do not matter for. */
    ghost predicate InLine(fs: map<string, FlowImpl>)
      reads this`services, lb`services, lb`muHeld, lb.backend`flows
      reads lb.backend.nfQueue.ipv4DestinationSet`elements, lb.backend.nfQueue.ipv6DestinationSet`elements
    {
      && !lb.muHeld && services == lb.services
      && FlowsHeld(lb.backend.flows, lb.backend.nfQueue.ipv4DestinationSet.elements,
                   lb.backend.nfQueue.ipv6DestinationSet.elements, fs, services)
    }

    /** The target of one recorded endpoint is deleted. */
    method DropEndpoint(service: Service, e: Endpoint, id: int, ghost a: seq<Endpoint>, ghost b: seq<Endpoint>)
      returns (err: bool, ghost deactivated: seq<int>)
      requires lb.Valid() && service.backend == lb.backend && GetIdentifier(e) == Some(id)
      modifies service`targets, lb.backend`shm, lb.backend`routes, lb.backend`clean, lb.backend`calls
      ensures lb.Valid()
      ensures old(Bounded(service, lb.backend.shm)) ==> Bounded(service, lb.backend.shm)
      ensures service.targets == old(service.targets) - {id}
      ensures deactivated == [] || deactivated == [id]
      ensures err ==> deactivated != []
      ensures lb.backend.calls == old(lb.backend.calls) + Deactivations(service.name, deactivated)
      ensures old(Holds(service, a + [e] + b)) ==> Holds(service, a + b)
      ensures !err && old(Holds(service, a + [e] + b) && lb.InStep() && lb.IsRegistered(service)) ==> lb.InStep()
    {
      hide LoadBalancer.InStep, LoadBalancer.Valid, TargetsOf, DistinctIdentifiers, GetIdentifier;
      if Holds(service, a + [e] + b) {
        TargetsWithout(a, e, b);
      }
      deactivated := if id in service.targets then [id] else [];
      err := lb.DeleteTargetInStep(service, e.addresses, id);
      if old(Bounded(service, lb.backend.shm)) {
        SizedStill(old(lb.backend.shm), lb.backend.shm);
        InSizeLess(old(service.targets), id);
      }
    }

    /** One recorded endpoint stays, or its target is deleted. */
    method ReviewEndpoint(service: Service, e: Endpoint, kept: seq<Endpoint>, remaining: map<string, Endpoint>,
                          ghost wanted: map<string, Endpoint>, ghost rest: seq<Endpoint>)
      returns (err: bool, kept': seq<Endpoint>, remaining': map<string, Endpoint>, ghost ids: seq<int>)
      requires lb.Valid() && service.backend == lb.backend
      requires remaining == wanted - Uids(kept) && e.uid !in Uids(kept)
      modifies service`targets, lb.backend`shm, lb.backend`routes, lb.backend`clean, lb.backend`calls
      ensures lb.Valid()
      ensures kept' == (if Unchanged(e, wanted) then kept + [e] else kept) && remaining' == wanted - Uids(kept')
      ensures old(Bounded(service, lb.backend.shm)) ==> Bounded(service, lb.backend.shm)
      ensures service.targets == old(service.targets) - ChangedAt(e, wanted)
      ensures lb.backend.calls == old(lb.backend.calls) + Deactivations(service.name, ids)
      ensures err ==> ids != []
      ensures ids == [] || (GetIdentifier(e).Some? && ids == [GetIdentifier(e).value] && !Unchanged(e, wanted))
      ensures old(Holds(service, kept + [e] + rest)) ==> Holds(service, kept' + rest)
      ensures !err && old(Holds(service, kept + [e] + rest) && lb.InStep() && lb.IsRegistered(service)) ==> lb.InStep()
    {
      UnchangedLocal(e, wanted, Uids(kept));
      UidsSnoc(kept, e);
      NoCalls(lb.backend.calls, service.name);
      NotHeld(service, kept, e, rest);
      assert service.targets - {} == service.targets;
      hide *;
      err, kept', remaining', ids := false, kept, remaining, [];
      var id := GetIdentifier(e);
      if id.None? {
        return;
      }
      var stays := IsUnchanged(e, remaining);
      assert old(lb.InStep()) ==> lb.InStep();
      assert old(Bounded(service, lb.backend.shm)) ==> Bounded(service, lb.backend.shm);
      if stays {
        remaining' := remaining - {e.uid};
        kept' := kept + [e];
        return;
      }
      err, ids := DropEndpoint(service, e, id.value, kept, rest);
    }

    /** Where the removal of endpoints stands: the first `i` recorded ones were looked at. */
    ghost predicate Deactivating(start: Before, service: Service, previous: seq<Endpoint>,
                                 wanted: map<string, Endpoint>, i: nat,
                                 kept: seq<Endpoint>, remaining: map<string, Endpoint>, deactivated: seq<int>,
                                 err: bool)
      requires i <= |previous|
      reads this, lb, lb.services.Values`targets, lb.backend, service`targets
    {
      && lb.Valid() && kept == Kept(previous[..i], wanted) && remaining == wanted - Uids(kept)
      && lb.backend.calls == start.calls + Deactivations(service.name, deactivated)
      && service.targets == start.targets - ChangedIds(previous[..i], wanted)
      && OnlyChanged(deactivated, previous[..i], wanted) && (err ==> deactivated != [])
      && (start.held ==> Holds(service, kept + previous[i..])) && (start.bounded ==> Bounded(service, lb.backend.shm))
      && (!err && start.inStep ==> lb.InStep() && lb.IsRegistered(service))
    }

    lemma DeactivatingAtFirst(start: Before, service: Service, previous: seq<Endpoint>, wanted: map<string, Endpoint>)
      requires lb.Valid() && start.calls == lb.backend.calls && start.targets == service.targets
      requires (start.held ==> Holds(service, previous)) && (start.bounded ==> Bounded(service, lb.backend.shm))
      requires start.inStep ==> lb.InStep() && lb.IsRegistered(service)
      ensures Deactivating(start, service, previous, wanted, 0, [], wanted, [], false)
    {
      assert previous[..0] == [] && previous[0..] == previous && [] + previous == previous
          && wanted - Uids([]) == wanted;
      NoCalls(lb.backend.calls, service.name);
      NothingChangedYet(service.targets, wanted);
      hide *;
    }

    /** The next recorded endpoint stays, or its target is deleted. */
    method ReviewNext(service: Service, previous: seq<Endpoint>, wanted: map<string, Endpoint>, i: nat,
                      kept: seq<Endpoint>, remaining: map<string, Endpoint>, err: bool,
                      ghost start: Before, ghost deactivated: seq<int>)
      returns (kept': seq<Endpoint>, remaining': map<string, Endpoint>, err': bool, ghost deactivated': seq<int>)
      requires i < |previous| && Deactivating(start, service, previous, wanted, i, kept, remaining, deactivated, err)
      requires service.backend == lb.backend && UniqueUids(previous)
      requires start.inStep ==> start.held
      modifies service`targets, lb.backend`shm, lb.backend`routes, lb.backend`clean, lb.backend`calls
      ensures Deactivating(start, service, previous, wanted, i + 1, kept', remaining', deactivated', err')
    {
      KeptNext(previous, i, wanted);
      ChangedIdsNext(start.targets, previous, i, wanted);
      SplitAt(kept, previous, i);
      ghost var ids;
      hide LoadBalancer.InStep, LoadBalancer.Valid, LoadBalancer.IsRegistered, Kept, Uids, OnlyChanged, Deactivations,
          Holds, ChangedIds;
      hide Unchanged, GetIdentifier, ChangedAt, UniqueUids;
      err', kept', remaining', ids := ReviewEndpoint(service, previous[i], kept, remaining, wanted, previous[i + 1..]);
      CallsConcat(start.calls, service.name, deactivated, ids);
      OnlyChangedNext(deactivated, ids, previous, i, wanted);
      deactivated' := deactivated + ids;
      err' := err || err';
    }

    /** removeEndpoints: deletes the targets of the recorded endpoints that are gone or changed. */
    method RemoveEndpoints(service: Service, previous: seq<Endpoint>, wanted: map<string, Endpoint>)
      returns (err: bool, kept: seq<Endpoint>, remaining: map<string, Endpoint>, ghost deactivated: seq<int>)
      requires lb.Valid() && service.backend == lb.backend && UniqueUids(previous)
      modifies service`targets, lb.backend`shm, lb.backend`routes, lb.backend`clean, lb.backend`calls
      ensures lb.Valid()
      ensures kept == Kept(previous, wanted) && remaining == wanted - Uids(kept)
      ensures old(Bounded(service, lb.backend.shm)) ==> Bounded(service, lb.backend.shm)
      ensures service.targets == old(service.targets) - ChangedIds(previous, wanted)
      ensures lb.backend.calls == old(lb.backend.calls) + Deactivations(service.name, deactivated)
      ensures OnlyChanged(deactivated, previous, wanted) && (err ==> deactivated != [])
      ensures old(Holds(service, previous)) ==> Holds(service, kept)
      ensures !err && old(Holds(service, previous) && lb.InStep() && lb.IsRegistered(service)) ==> lb.InStep()
    {
      err, kept, remaining, deactivated := false, [], wanted, [];
      ghost var held := Holds(service, previous);
      ghost var inStep := held && lb.InStep() && lb.IsRegistered(service);
      ghost var start := Before(service.targets, lb.backend.calls, held, inStep, Bounded(service, lb.backend.shm));
      DeactivatingAtFirst(start, service, previous, wanted);
      hide *;
      for i := 0 to |previous|
        invariant Deactivating(start, service, previous, wanted, i, kept, remaining, deactivated, err)
      {
        kept, remaining, err, deactivated := ReviewNext(service, previous, wanted, i, kept, remaining, err, start,
            deactivated);
      }
      AllReviewed(start, service, previous, wanted, kept, remaining, deactivated, err);
    }

    lemma AllReviewed(start: Before, service: Service, previous: seq<Endpoint>, wanted: map<string, Endpoint>,
                      kept: seq<Endpoint>, remaining: map<string, Endpoint>, deactivated: seq<int>, err: bool)
      requires Deactivating(start, service, previous, wanted, |previous|, kept, remaining, deactivated, err)
      ensures lb.Valid() && kept == Kept(previous, wanted) && remaining == wanted - Uids(kept)
      ensures service.targets == start.targets - ChangedIds(previous, wanted)
      ensures lb.backend.calls == start.calls + Deactivations(service.name, deactivated)
      ensures OnlyChanged(deactivated, previous, wanted) && (err ==> deactivated != [])
      ensures (start.held ==> Holds(service, kept)) && (start.bounded ==> Bounded(service, lb.backend.shm))
      ensures !err && start.inStep ==> lb.InStep()
    {
      SplitAtEnd(kept, previous);
    }

    /** The target of one endpoint is added. */
    method AddEndpoint(service: Service, e: Endpoint, id: int, ghost all: seq<Endpoint>)
      returns (err: bool, ghost activated: seq<int>)
      requires lb.Valid() && service.backend == lb.backend && GetIdentifier(e) == Some(id)
      modifies service`targets, lb.backend`shm, lb.backend`routes, lb.backend`clean, lb.backend`calls
      ensures lb.Valid()
      ensures old(Bounded(service, lb.backend.shm)) ==> Bounded(service, lb.backend.shm)
      ensures err ==> id !in old(service.targets)
      ensures service.targets == if err || id in old(service.targets) then old(service.targets)
                                 else old(service.targets)[id := e.addresses]
      ensures activated == [] || activated == [id]
      ensures err ==> activated != []
      ensures lb.backend.calls == old(lb.backend.calls) + Activations(service.name, activated)
      ensures old(Within(service, all)) && DistinctIdentifiers(all + [e]) ==>
                Within(service, all + [e]) && activated == [id]
      ensures !err && old(Holds(service, all)) && DistinctIdentifiers(all + [e]) ==> Holds(service, all + [e])
      ensures !err && old(lb.InStep() && lb.IsRegistered(service)) ==> lb.InStep()
    {
      hide LoadBalancer.InStep, LoadBalancer.Valid, TargetsOf, DistinctIdentifiers, GetIdentifier;
      if DistinctIdentifiers(all + [e]) {
        TargetsWith(all, e);
      }
      activated := if id in service.targets then [] else [id];
      err := lb.AddTargetInStep(service, e.addresses, id);
      if old(Bounded(service, lb.backend.shm)) {
        SizedStill(old(lb.backend.shm), lb.backend.shm);
        if service.targets != old(service.targets) {
          InSizeMore(old(service.targets), id, e.addresses);
        }
      }
    }

    /** Where the addition of endpoints stands: `todo` is still to be looked at. */
    ghost predicate Activating(start: Before, service: Service, wanted: map<string, Endpoint>, todo: set<string>,
                               kept: seq<Endpoint>, added: seq<Endpoint>, activated: seq<int>, err: bool)
      reads this, lb, lb.services.Values`targets, lb.backend, service`targets
    {
      && lb.Valid() && Recordable(added) && ListsUsable(added, wanted, todo)
      && lb.backend.calls == start.calls + Activations(service.name, activated)
      && TargetsGrow(start.targets, service.targets, wanted - todo, !err)
      && (forall id :: id in activated ==> id in Identifiers(added)) && (err ==> activated != [])
      && (start.held ==> Within(service, kept + added) && activated == Identifiers(added))
      && (!err && start.held ==> Holds(service, kept + added)) && (start.bounded ==> Bounded(service, lb.backend.shm))
      && (!err && start.inStep ==> lb.InStep() && lb.IsRegistered(service))
    }

    lemma ActivatingAtFirst(start: Before, service: Service, wanted: map<string, Endpoint>, kept: seq<Endpoint>)
      requires lb.Valid() && start.calls == lb.backend.calls && start.targets == service.targets
      requires (start.held ==> Holds(service, kept)) && (start.bounded ==> Bounded(service, lb.backend.shm))
      requires start.inStep ==> lb.InStep() && lb.IsRegistered(service)
      ensures Activating(start, service, wanted, wanted.Keys, kept, [], [], false)
    {
      NoCalls(lb.backend.calls, service.name);
      HoldsWithin(service, kept);
      TargetsGrowByNothing(service.targets, wanted);
      assert ListsUsable([], wanted, wanted.Keys) && kept + [] == kept && Identifiers([]) == [];
    }

    /** One endpoint is skipped, or its target is added. */
    method ConsiderEndpoint(service: Service, wanted: map<string, Endpoint>, u: string, added: seq<Endpoint>, err: bool,
                            ghost start: Before, ghost todo: set<string>, ghost kept: seq<Endpoint>,
                            ghost activated: seq<int>)
      returns (added': seq<Endpoint>, err': bool, ghost activated': seq<int>)
      requires Activating(start, service, wanted, todo, kept, added, activated, err)
      requires start.held ==> ApartFrom(kept, wanted)
      requires service.backend == lb.backend && u in todo && u in wanted && wanted[u].uid == u
      modifies service`targets, lb.backend`shm, lb.backend`routes, lb.backend`clean, lb.backend`calls
      ensures Activating(start, service, wanted, todo - {u}, kept, added', activated', err')
    {
      var e := wanted[u];
      var id := GetIdentifier(e);
      ListsUsableNext(added, wanted, todo, u);
      if start.held && Usable(e) {
        NextAdded(kept, added, e, wanted, todo);
      }
      if id.None? || e.ready != Some(true) {
        TargetsGrowNext(start.targets, service.targets, service.targets, wanted, todo, u, !err, false);
        return added, err, activated;
      }
      assert Usable(e) && GetIdentifier(wanted[u]) == id;
      ActivatingFacts(start, service, wanted, todo, kept, added, activated, err);
      IdentifiersSnoc(added, e);
      ghost var targets := service.targets;
      hide *;
      var failed;
      ghost var ids;
      Associative(kept, added, [e]);
      failed, ids := AddEndpoint(service, e, id.value, kept + added);
      assert lb.services == old(lb.services);
      TargetsGrowNext(start.targets, targets, service.targets, wanted, todo, u, !err, failed);
      CallsConcat(start.calls, service.name, activated, ids);
      activated' := activated + ids;
      added' := added + [e];
      err' := err || failed;
      ActivatingAgain(start, service, wanted, todo - {u}, kept, added', activated', err', added, activated, ids,
          id.value);
    }

    lemma ActivatingFacts(start: Before, service: Service, wanted: map<string, Endpoint>, todo: set<string>,
                          kept: seq<Endpoint>, added: seq<Endpoint>, activated: seq<int>, err: bool)
      requires Activating(start, service, wanted, todo, kept, added, activated, err)
      ensures lb.Valid() && Recordable(added)
      ensures lb.backend.calls == start.calls + Activations(service.name, activated)
      ensures TargetsGrow(start.targets, service.targets, wanted - todo, !err)
      ensures (forall id :: id in activated ==> id in Identifiers(added)) && (err ==> activated != [])
      ensures start.held ==> Within(service, kept + added) && activated == Identifiers(added)
      ensures !err && start.held ==> Holds(service, kept + added)
      ensures start.bounded ==> Bounded(service, lb.backend.shm)
      ensures !err && start.inStep ==> lb.InStep() && lb.IsRegistered(service)
    {
    }

    lemma ActivatingAgain(start: Before, service: Service, wanted: map<string, Endpoint>, todo: set<string>,
                          kept: seq<Endpoint>,
                          added: seq<Endpoint>, activated: seq<int>, err: bool,
                          added0: seq<Endpoint>, activated0: seq<int>, ids: seq<int>, id: int)
      requires lb.Valid() && Recordable(added) && ListsUsable(added, wanted, todo) && Recordable(added0)
      requires lb.backend.calls == start.calls + Activations(service.name, activated)
      requires TargetsGrow(start.targets, service.targets, wanted - todo, !err)
      requires Identifiers(added) == Identifiers(added0) + [id] && activated == activated0 + ids
               && (ids == [] || ids == [id])
      requires (forall id :: id in activated0 ==> id in Identifiers(added0)) && (err ==> activated != [])
      requires start.held ==> Within(service, kept + added) && activated0 == Identifiers(added0) && ids == [id]
      requires !err && start.held ==> Holds(service, kept + added)
      requires start.bounded ==> Bounded(service, lb.backend.shm)
      requires !err && start.inStep ==> lb.InStep() && lb.IsRegistered(service)
      ensures Activating(start, service, wanted, todo, kept, added, activated, err)
    {
      hide Recordable, ListsUsable, TargetsGrow, Identifiers, Within, Holds, LoadBalancer.Valid, LoadBalancer.InStep;
    }

    /** addEndpoints: adds a target for every usable endpoint, in an arbitrary order. */
    method AddEndpoints(service: Service, wanted: map<string, Endpoint>, ghost kept: seq<Endpoint>)
      returns (err: bool, added: seq<Endpoint>, ghost activated: seq<int>)
      requires lb.Valid() && service.backend == lb.backend
      requires forall u :: u in wanted ==> wanted[u].uid == u
      modifies service`targets, lb.backend`shm, lb.backend`routes, lb.backend`clean, lb.backend`calls
      ensures lb.Valid() && ListsUsable(added, wanted, {})
      ensures lb.backend.calls == old(lb.backend.calls) + Activations(service.name, activated)
      ensures old(Bounded(service, lb.backend.shm)) ==> Bounded(service, lb.backend.shm)
      ensures TargetsGrow(old(service.targets), service.targets, wanted, !err)
      ensures (forall id :: id in activated ==> id in Identifiers(added)) && (err ==> activated != [])
      ensures old(Holds(service, kept)) && ApartFrom(kept, wanted) ==> activated == Identifiers(added)
      ensures !err && old(Holds(service, kept)) && ApartFrom(kept, wanted) ==> Holds(service, kept + added)
      ensures !err && old(lb.InStep() && lb.IsRegistered(service)) ==> lb.InStep()
    {
      err, added, activated := false, [], [];
      ghost var start := Before(service.targets, lb.backend.calls, Holds(service, kept) && ApartFrom(kept, wanted),
                                lb.InStep() && lb.IsRegistered(service), Bounded(service, lb.backend.shm));
      ActivatingAtFirst(start, service, wanted, kept);
      var todo := wanted.Keys;
      hide *;
      while todo != {}
        invariant todo <= wanted.Keys && Activating(start, service, wanted, todo, kept, added, activated, err)
        decreases todo
      {
        var u :| u in todo;
        added, err, activated := ConsiderEndpoint(service, wanted, u, added, err, start, todo, kept, activated);
        todo := todo - {u};
      }
      AllActivated(start, service, wanted, kept, added, activated, err);
    }

    lemma AllActivated(start: Before, service: Service, wanted: map<string, Endpoint>, kept: seq<Endpoint>,
                       added: seq<Endpoint>, activated: seq<int>, err: bool)
      requires Activating(start, service, wanted, {}, kept, added, activated, err)
      ensures lb.Valid() && ListsUsable(added, wanted, {})
      ensures lb.backend.calls == start.calls + Activations(service.name, activated)
      ensures TargetsGrow(start.targets, service.targets, wanted, !err)
      ensures (forall id :: id in activated ==> id in Identifiers(added)) && (err ==> activated != [])
      ensures start.bounded ==> Bounded(service, lb.backend.shm)
      ensures start.held ==> activated == Identifiers(added) && (!err ==> Holds(service, kept + added))
      ensures !err && start.inStep ==> lb.InStep()
    {
      assert wanted - {} == wanted;
    }

    /** The targets of one service follow the wanted endpoints: every deletion comes before every addition. */
    method UpdateTargets(service: Service, previous: seq<Endpoint>, wanted: map<string, Endpoint>)
      returns (err: bool, final: seq<Endpoint>, ghost deactivated: seq<int>, ghost activated: seq<int>)
      requires lb.Valid() && service.backend == lb.backend && Recordable(previous)
      requires forall u :: u in wanted ==> wanted[u].uid == u
      modifies service`targets, lb.backend`shm, lb.backend`routes, lb.backend`clean, lb.backend`calls
      ensures lb.Valid() && Settled(final, wanted) && Recordable(final)
      ensures lb.backend.calls ==
              old(lb.backend.calls) + Deactivations(service.name, deactivated) + Activations(service.name, activated)
      ensures OnlyChanged(deactivated, previous, wanted) && OnlyNew(activated, previous, wanted)
      ensures old(Bounded(service, lb.backend.shm)) ==> Bounded(service, lb.backend.shm)
      ensures Follows(old(service.targets), service.targets, previous, wanted, !err)
      ensures Settled(previous, wanted) ==> !err && final == previous && deactivated == [] && activated == []
      ensures !err && old(Holds(service, previous)) && UsableApart(wanted) ==>
                Holds(service, final) && Serves(service.targets, wanted)
      ensures !err && old(Holds(service, previous) && lb.InStep() && lb.IsRegistered(service)) ==> lb.InStep()
    {
      var err1, kept, remaining;
      err1, kept, remaining, deactivated := RemoveEndpoints(service, previous, wanted);
      ghost var stepped := !err1 && lb.InStep() && lb.IsRegistered(service);
      var err2, added;
      err2, added, activated := AddEndpoints(service, remaining, kept);
      final := kept + added;
      err := err1 || err2;
      NowSettled(previous, wanted, kept, added);
      AddedAreNew(previous, wanted, added);
      NothingMore(previous, wanted, deactivated, activated, added);
      if UsableApart(wanted) && DistinctIdentifiers(previous) {
        StillApart(previous, wanted);
        SettledServes(final, wanted);
      }
    }

    /** The targets of a known service are updated, those of the others stay. */
    method UpdateBeside(name: string, service: Service, previous: seq<Endpoint>, wanted: map<string, Endpoint>)
      returns (err: bool, final: seq<Endpoint>, ghost deactivated: seq<int>, ghost activated: seq<int>)
      requires lb.Valid() && Consistent(services, flows, endpoints, lb.backend) && Recordable(previous)
      requires name in services && services[name] == service
      requires forall u :: u in wanted ==> wanted[u].uid == u
      modifies lb.backend`shm, lb.backend`routes, lb.backend`clean, lb.backend`calls, service`targets
      ensures lb.Valid() && Settled(final, wanted) && Recordable(final)
      ensures lb.backend.calls ==
              old(lb.backend.calls) + Deactivations(name, deactivated) + Activations(name, activated)
      ensures OnlyChanged(deactivated, previous, wanted) && OnlyNew(activated, previous, wanted)
      ensures old(Bounded(service, lb.backend.shm)) ==> Bounded(service, lb.backend.shm)
      ensures Follows(old(service.targets), service.targets, previous, wanted, !err)
      ensures Settled(previous, wanted) ==> !err && final == previous && deactivated == [] && activated == []
      ensures !err && old(Holds(service, previous)) && UsableApart(wanted) ==>
                Holds(service, final) && Serves(service.targets, wanted)
      ensures !err && old(Holds(service, previous) && lb.InStep() && lb.IsRegistered(service)) ==> lb.InStep()
      ensures lb.backend.flows == old(lb.backend.flows) && services == old(services)
      ensures old(InLine(flows)) ==> InLine(flows)
      ensures Others(service) == old(Others(service))
    {
      assert service.backend == lb.backend && service.name == name;
      hide *;
      err, final, deactivated, activated := UpdateTargets(service, previous, wanted);
      assert old(InLine(flows)) ==> InLine(flows);
    }

    /** The same for the map of all targets. */
    method UpdateOne(name: string, service: Service, previous: seq<Endpoint>, wanted: map<string, Endpoint>)
      returns (err: bool, final: seq<Endpoint>, ghost deactivated: seq<int>, ghost activated: seq<int>)
      requires lb.Valid() && Consistent(services, flows, endpoints, lb.backend) && Recordable(previous)
      requires name in services && services[name] == service
      requires forall u :: u in wanted ==> wanted[u].uid == u
      modifies lb.backend`shm, lb.backend`routes, lb.backend`clean, lb.backend`calls, service`targets
      ensures lb.Valid() && Settled(final, wanted) && Recordable(final)
      ensures lb.backend.calls ==
              old(lb.backend.calls) + Deactivations(name, deactivated) + Activations(name, activated)
      ensures OnlyChanged(deactivated, previous, wanted) && OnlyNew(activated, previous, wanted)
      ensures old(Bounded(service, lb.backend.shm)) ==> Bounded(service, lb.backend.shm)
      ensures Follows(old(service.targets), service.targets, previous, wanted, !err)
      ensures Settled(previous, wanted) ==> !err && final == previous && deactivated == [] && activated == []
      ensures !err && old(Holds(service, previous)) && UsableApart(wanted) ==>
                Holds(service, final) && Serves(service.targets, wanted)
      ensures !err && old(Holds(service, previous) && lb.InStep() && lb.IsRegistered(service)) ==> lb.InStep()
      ensures lb.backend.flows == old(lb.backend.flows) && services == old(services)
      ensures old(InLine(flows)) ==> InLine(flows)
      ensures Targets() == old(Targets())[name := service.targets]
    {
      assert forall n :: n in services && n != name ==> services[n] != service;
      hide *;
      SplitTargets(name, service);
      ghost var was := service.targets;
      err, final, deactivated, activated := UpdateBeside(name, service, previous, wanted);
      SplitTargets(name, service);
      Overwritten(Others(service), name, was, service.targets);
    }

    /** The targets of all services but one. */
    function Others(service: Service): map<string, map<int, seq<Address>>>
      reads this`services, (set n | n in services && services[n] != service :: services[n])`targets
    {
      map n | n in services && services[n] != service :: services[n].targets
    }

    lemma SplitTargets(name: string, service: Service)
      requires name in services && services[name] == service
      requires forall n :: n in services && n != name ==> services[n] != service
      ensures Targets() == Others(service)[name := service.targets]
    {
    }

    lemma Overwritten<T>(m: map<string, T>, name: string, x: T, y: T)
      ensures m[name := x][name := y] == m[name := y]
    {
    }

    /** SetEndpoints, for a known service, up to recording the result. */
    method UpdateService(name: string, service: Service, wanted: map<string, Endpoint>)
      returns (err: bool, final: seq<Endpoint>, ghost deactivated: seq<int>, ghost activated: seq<int>)
      requires Valid() && name in services && services[name] == service
      requires forall u :: u in wanted ==> wanted[u].uid == u
      modifies lb.backend`shm, lb.backend`routes, lb.backend`clean, lb.backend`calls, service`targets
      ensures ValidWith(endpoints[name := final]) && Settled(final, wanted)
      ensures services == old(services) && endpoints == old(endpoints) && flows == old(flows)
      ensures lb.backend.calls ==
              old(lb.backend.calls) + Deactivations(name, deactivated) + Activations(name, activated)
      ensures OnlyChanged(deactivated, endpoints[name], wanted) && OnlyNew(activated, endpoints[name], wanted)
      ensures old(InBounds()) ==> InBounds()
      ensures Follows(old(service.targets), service.targets, endpoints[name], wanted, !err)
      ensures Settled(endpoints[name], wanted) ==>
                !err && final == endpoints[name] && deactivated == [] && activated == []
      ensures !err && old(Coherent()) ==> (CoherentWith(endpoints[name := final]) <==> UsableApart(wanted))
      ensures !err && old(Coherent()) && UsableApart(wanted) ==> Serves(service.targets, wanted)
    {
      KnownService(name);
      BoundedAt(name);
      ghost var targets, coherent, bounded := Targets(), Coherent(), InBounds();
      assert bounded ==> AllInSize(targets);
      hide *;
      err, final, deactivated, activated := UpdateOne(name, service, endpoints[name], wanted);
      StillInBounds(targets, name);
      RecordedUpdated(services, flows, endpoints, lb.backend, name, final);
      ValidAgain(endpoints[name := final]);
      if coherent && !err && UsableApart(wanted) {
        assert InLine(flows);
        CoherentUpdated(targets, name, final);
      }
      CoherentApart(name, final, wanted);
    }

    /** Coherence needs usable endpoints with different identifiers. */
    lemma CoherentApart(name: string, final: seq<Endpoint>, wanted: map<string, Endpoint>)
      requires name in services && Settled(final, wanted)
      ensures CoherentWith(endpoints[name := final]) ==> UsableApart(wanted)
    {
      if CoherentWith(endpoints[name := final]) {
        assert HeldAt(Targets(), endpoints[name := final], name);
        SettledApart(final, wanted);
      }
    }

    lemma StillInBounds(targets: map<string, map<int, seq<Address>>>, name: string)
      requires name in services && Targets() == targets[name := services[name].targets]
      ensures AllInSize(targets) && Bounded(services[name], lb.backend.shm) ==> InBounds()
    {
      hide InSize, Sized;
      if AllInSize(targets) && Bounded(services[name], lb.backend.shm) {
        forall n | n in services ensures InSize(services[n].targets) {
          assert n in Targets() && Targets()[n] == services[n].targets;
        }
      }
    }

    /** What is known of a service before its endpoints change. */
    lemma KnownService(name: string)
      requires Valid() && name in services
      ensures name in endpoints && Recordable(endpoints[name])
      ensures services[name].name == name && services[name].backend == lb.backend
      ensures lb.Valid() && Consistent(services, flows, endpoints, lb.backend) && Tracks(services, lb.services)
      ensures Coherent() ==>
                && lb.InStep() && InLine(flows) && AllHeld(Targets(), endpoints)
                && lb.IsRegistered(services[name]) && Holds(services[name], endpoints[name])
    {
      assert AllHeld(Targets(), endpoints) ==> HeldAt(Targets(), endpoints, name);
    }

    lemma ValidAgain(es: map<string, seq<Endpoint>>)
      requires lb.Valid() && Consistent(services, flows, es, lb.backend) && Tracks(services, lb.services)
      ensures ValidWith(es) && (es == endpoints ==> Valid())
    {
    }

    lemma CoherentUpdated(targets: map<string, map<int, seq<Address>>>, name: string, final: seq<Endpoint>)
      requires name in services && ValidWith(endpoints[name := final]) && InLine(flows) && lb.InStep()
      requires AllHeld(targets, endpoints) && Holds(services[name], final)
      requires Targets() == targets[name := services[name].targets]
      ensures CoherentWith(endpoints[name := final])
    {
      hide LoadBalancer.InStep, Manager.InLine, Manager.ValidWith, AllHeld, TargetsOf, DistinctIdentifiers;
      HeldUpdated(targets, endpoints, name, final);
    }

    /** SetEndpoints: brings the targets of one service in line with the wanted endpoints. Every deactivation is
        issued before every activation; the recorded endpoints are up to date afterwards even when commands failed,
        so a failed activation is not tried again. */
    method SetEndpoints(name: string, input: seq<Endpoint>)
      returns (err: bool, final: seq<Endpoint>, ghost deactivated: seq<int>, ghost activated: seq<int>)
      requires Valid()
      modifies this`endpoints, lb.backend`shm, lb.backend`routes, lb.backend`clean, lb.backend`calls
      modifies (if name in services then {services[name]} else {})`targets
      ensures Valid() && services == old(services) && flows == old(flows)
      ensures old(InBounds()) ==> InBounds()
      ensures name !in services ==> err && endpoints == old(endpoints) && lb.backend.calls == old(lb.backend.calls)
      ensures name in services ==>
                && endpoints == old(endpoints)[name := final] && Settled(final, ByUid(input))
                && lb.backend.calls ==
                   old(lb.backend.calls) + Deactivations(name, deactivated) + Activations(name, activated)
                && OnlyChanged(deactivated, old(endpoints)[name], ByUid(input))
                && OnlyNew(activated, old(endpoints)[name], ByUid(input))
                && Follows(old(services[name].targets), services[name].targets, old(endpoints)[name], ByUid(input),
                    !err)
      ensures name in services && Settled(old(endpoints)[name], ByUid(input)) ==>
                !err && final == old(endpoints)[name] && deactivated == [] && activated == []
      ensures name in services && !err && old(Coherent()) ==> (Coherent() <==> UsableApart(ByUid(input)))
      ensures name in services && !err && old(Coherent()) && UsableApart(ByUid(input)) ==>
                Serves(services[name].targets, ByUid(input))
    {
      if name !in services || name !in endpoints {
        return true, [], [], [];
      }
      var wanted: map<string, Endpoint> := map[];
      for i := 0 to |input|
        invariant wanted == ByUid(input[..i])
      {
        assert input[..i + 1][..i] == input[..i];
        wanted := wanted[input[i].uid := input[i]];
      }
      assert input[..|input|] == input;
      hide *;
      err, final, deactivated, activated := UpdateService(name, services[name], wanted);
      Record(name, final);
    }

    method Record(name: string, final: seq<Endpoint>)
      requires ValidWith(endpoints[name := final])
      modifies this`endpoints
      ensures endpoints == old(endpoints)[name := final] && services == old(services) && flows == old(flows) && Valid()
      ensures old(InBounds()) ==> InBounds()
      ensures old(CoherentWith(endpoints[name := final])) <==> Coherent()
    {
      endpoints := endpoints[name := final];
      hide *;
      assert old(CoherentWith(endpoints[name := final])) <==> CoherentWith(endpoints);
    }

    /** SetFlows: the flows that no route asks for any more are deleted, all the others are set (again). */
    method SetFlows(routes: seq<L34Route>) returns (err: bool)
      requires Valid()
      modifies this`flows, lb.backend`flows, lb.backend`calls
      modifies lb.backend.nfQueue.ipv4DestinationSet`elements, lb.backend.nfQueue.ipv6DestinationSet`elements
      ensures Valid() && flows == DesiredFlows(routes, services)
      ensures !err ==> lb.backend.flows == old(lb.backend.flows) - (old(flows).Keys - flows.Keys) + Entries(flows)
      ensures !err && (old(lb.backend.VipsInv()) || flows != map[]) ==> lb.backend.VipsInv()
      ensures !err && old(Coherent()) ==> Coherent() && lb.backend.flows == DesiredEntries(routes, services.Keys)
      ensures !err ==> Stated(lb.backend.flows, routes, services.Keys)
      ensures !err && old(Coherent()) ==> TableOf(lb.backend.flows, routes, services.Keys)
    {
      var newFlows: map<string, FlowImpl> := map[];
      for i := 0 to |routes|
        invariant newFlows == DesiredFlows(routes[..i], services)
      {
        assert routes[..i + 1][..i] == routes[..i];
        var service := BackendOf(routes[i], services.Keys);
        if service.None? {
          continue;
        }
        var flow := FlowImpl(routes[i], services[service.value]);
        newFlows := newFlows[Key(flow) := flow];
      }
      assert routes[..|routes|] == routes;
      assert forall n :: n in services ==> services[n].name == n;
      DesiredStated(routes, services, lb.backend.flows - (flows.Keys - newFlows.Keys));
      DesiredEntriesAre(routes, services.Keys);
      hide *;
      err := ApplyFlows(routes, newFlows);
    }

    method ApplyFlows(ghost routes: seq<L34Route>, newFlows: map<string, FlowImpl>) returns (err: bool)
      requires Valid() && newFlows == DesiredFlows(routes, services)
      modifies this`flows, lb.backend`flows, lb.backend`calls
      modifies lb.backend.nfQueue.ipv4DestinationSet`elements, lb.backend.nfQueue.ipv6DestinationSet`elements
      ensures Valid() && flows == newFlows
      ensures !err ==> lb.backend.flows == old(lb.backend.flows) - (old(flows).Keys - newFlows.Keys) + Entries(newFlows)
      ensures !err && (old(lb.backend.VipsInv()) || newFlows != map[]) ==> lb.backend.VipsInv()
      ensures !err && old(Coherent()) ==> Coherent() && lb.backend.flows == DesiredEntries(routes, services.Keys)
    {
      DesiredAreKeyed(routes, services);
      DesiredTable(routes, services);
      BeforeFlows();
      assert Keyed(newFlows, lb.backend) && Bound(newFlows, services);
      ghost var coherent := Coherent();
      hide *;
      err := ReplaceFlows(newFlows);
      ValidAfterFlows(old(flows));
      if coherent && !err {
        TableReplaced(old(flows), newFlows);
        CoherentAfterFlows();
      }
    }

    lemma BeforeFlows()
      requires Valid()
      ensures lb.Valid() && Consistent(services, flows, endpoints, lb.backend) && Tracks(services, lb.services)
      ensures lb.backend.SetsApart() && Keyed(flows, lb.backend) && forall n :: n in services ==> services[n].name == n
      ensures forall n :: n in services ==> services[n].backend == lb.backend
      ensures Coherent() ==>
                && lb.InStep() && AllHeld(Targets(), endpoints) && !lb.muHeld && services == lb.services
                && lb.backend.flows == Entries(flows) && lb.backend.VipsInv()
    {
    }

    lemma ValidAfterFlows(before: map<string, FlowImpl>)
      requires lb.Valid() && Consistent(services, before, endpoints, lb.backend) && Tracks(services, lb.services)
      requires Keyed(flows, lb.backend)
      ensures Valid()
    {
    }

    lemma CoherentAfterFlows()
      requires Valid() && lb.InStep() && AllHeld(Targets(), endpoints) && !lb.muHeld && services == lb.services
      requires lb.backend.flows == Entries(flows) && Bound(flows, services) && lb.backend.VipsInv()
      ensures Coherent()
    {
    }

    method ReplaceFlows(newFlows: map<string, FlowImpl>) returns (err: bool)
      requires lb.Valid() && lb.backend.SetsApart() && Keyed(flows, lb.backend) && Keyed(newFlows, lb.backend)
      modifies this`flows, lb.backend`flows, lb.backend`calls
      modifies lb.backend.nfQueue.ipv4DestinationSet`elements, lb.backend.nfQueue.ipv6DestinationSet`elements
      ensures flows == newFlows && lb.Valid() && Targets() == old(Targets())
      ensures old(lb.InStep()) ==> lb.InStep()
      ensures !err ==> lb.backend.flows == old(lb.backend.flows) - (old(flows).Keys - newFlows.Keys) + Entries(newFlows)
      ensures !err && (old(lb.backend.VipsInv()) || newFlows != map[]) ==> lb.backend.VipsInv()
    {
      hide *;
      err := SwapFlows(newFlows);
      assert lb.backend.shm == old(lb.backend.shm) && lb.backend.routes == old(lb.backend.routes);
    }

    method SwapFlows(newFlows: map<string, FlowImpl>) returns (err: bool)
      requires lb.backend.SetsApart() && Keyed(flows, lb.backend) && Keyed(newFlows, lb.backend)
      modifies this`flows, lb.backend`flows, lb.backend`calls
      modifies lb.backend.nfQueue.ipv4DestinationSet`elements, lb.backend.nfQueue.ipv6DestinationSet`elements
      ensures flows == newFlows
      ensures !err ==> lb.backend.flows == old(lb.backend.flows) - (old(flows).Keys - newFlows.Keys) + Entries(newFlows)
      ensures !err && (old(lb.backend.VipsInv()) || newFlows != map[]) ==> lb.backend.VipsInv()
    {
      hide Keyed, VipsHeld, Entries;
      var err1 := DeleteFlows(newFlows);
      var err2 := AddFlows(newFlows);
      err := err1 || err2;
    }

    method DeleteFlows(newFlows: map<string, FlowImpl>) returns (err: bool)
      requires lb.backend.SetsApart() && Keyed(flows, lb.backend)
      modifies this`flows, lb.backend`flows, lb.backend`calls
      modifies lb.backend.nfQueue.ipv4DestinationSet`elements, lb.backend.nfQueue.ipv6DestinationSet`elements
      ensures flows == old(flows) - (old(flows).Keys - newFlows.Keys)
      ensures !err ==> lb.backend.flows == old(lb.backend.flows) - (old(flows).Keys - newFlows.Keys)
      ensures !err && old(lb.backend.VipsInv()) ==> lb.backend.VipsInv()
    {
      err := false;
      ghost var was, table, inv := flows, lb.backend.flows, lb.backend.VipsInv();
      var todo := flows.Keys;
      ghost var gone: set<string> := {};
      assert flows - {} == flows && lb.backend.flows - {} == lb.backend.flows;
      hide Keyed, VipsHeld;
      while todo != {}
        invariant todo <= was.Keys && gone == was.Keys - todo - newFlows.Keys && flows == was - gone
        invariant !err ==> lb.backend.flows == table - gone
        invariant !err && inv ==> lb.backend.VipsInv()
        decreases todo
      {
        var k :| k in todo;
        GoneNext(was, table, gone, todo, newFlows.Keys, k);
        todo := todo - {k};
        var flow := flows[k];
        KeyOf(was, lb.backend, k);
        if Key(flow) in newFlows {
          continue;
        }
        var failed := flow.service.DeleteFlow(Key(flow));
        err := err || failed;
        flows := flows - {Key(flow)};
        gone := gone + {k};
      }
    }

    method AddFlows(newFlows: map<string, FlowImpl>) returns (err: bool)
      requires lb.backend.SetsApart() && Keyed(newFlows, lb.backend)
      modifies this`flows, lb.backend`flows, lb.backend`calls
      modifies lb.backend.nfQueue.ipv4DestinationSet`elements, lb.backend.nfQueue.ipv6DestinationSet`elements
      ensures flows == old(flows) + newFlows
      ensures !err ==> lb.backend.flows == old(lb.backend.flows) + Entries(newFlows)
      ensures !err && (old(lb.backend.VipsInv()) || newFlows != map[]) ==> lb.backend.VipsInv()
    {
      err := false;
      ghost var was, table, inv := flows, lb.backend.flows, lb.backend.VipsInv();
      var todo := newFlows.Keys;
      ghost var done: map<string, FlowImpl> := map[];
      assert was + map[] == was && table + Entries(map[]) == table;
      hide Keyed, VipsHeld, Entry, Entries, EntryOf, FlowOf;
      while todo != {}
        invariant todo <= newFlows.Keys && done == newFlows - todo && flows == was + done
        invariant !err ==> lb.backend.flows == table + Entries(done)
        invariant !err && (inv || todo != newFlows.Keys) ==> lb.backend.VipsInv()
        decreases todo
      {
        var k :| k in todo;
        var flow := newFlows[k];
        KeyOf(newFlows, lb.backend, k);
        EntriesStep(was, table, done, newFlows, todo, k);
        done := done[k := flow];
        todo := todo - {k};
        flows := flows[Key(flow) := flow];
        var failed := flow.service.AddFlow(FlowOf(flow.route, flow.service.name));
        err := err || failed;
      }
      assert newFlows - {} == newFlows;
    }

    /** As Coherent, with the flows of services that are gone not counted: they are cleaned up last. */
    ghost predicate CoherentLive(live: map<string, FlowImpl>)
      reads this, lb, lb.services.Values`targets, services.Values`targets, lb.backend
      reads lb.backend.nfQueue.ipv4DestinationSet`elements, lb.backend.nfQueue.ipv6DestinationSet`elements
    {
      Valid() && Core(endpoints, live)
    }

    /** One service that is not wanted any more. */
    method DropService(name: string, service: Service, ghost live: map<string, FlowImpl>) returns (status: Status)
      requires Valid() && name in services && services[name] == service
      modifies this`services, this`endpoints, lb`services, lb`muHeld, service`targets
      modifies lb.backend`shm, lb.backend`flows, lb.backend`routes, lb.backend`clean, lb.backend`calls
      modifies lb.backend.nfQueue.ipv4DestinationSet`elements, lb.backend.nfQueue.ipv6DestinationSet`elements
      ensures Valid() && flows == old(flows)
      ensures old(InBounds()) ==> InBounds()
      ensures old(lb.muHeld) <==> status == Blocked
      ensures lb.muHeld <==> old(lb.muHeld) || name !in old(lb.services)
      ensures services == if status == Done then old(services) - {name} else old(services)
      ensures endpoints == if status == Done then old(endpoints) - {name} else old(endpoints)
      ensures lb.services == if old(lb.muHeld) then old(lb.services) else old(lb.services) - {name}
      ensures status == Done && old(CoherentLive(live)) ==> CoherentLive(Without(live, name))
    {
      BeforeDrop(live, name);
      ghost var coherent, views := CoherentLive(live), lb.Views();
      ghost var bounded, others := InBounds(), services - {name};
      OthersInSize(name);
      TracksLess(services, lb.services, name);
      hide *;
      status := DeleteInstance(name, service);
      assert old(TargetsInSize(services - {name})) ==> TargetsInSize(others);
      if bounded {
        DeletedInBounds(name, old(lb.backend.shm), old(service.targets));
      }
      ValidAgain(endpoints);
      if status == Done {
        Forget(name, views, live, coherent);
      }
    }

    /** The targets of a deleted service stay, or are forgotten; those of the others stay. */
    lemma DeletedInBounds(name: string, shm: map<string, Shm>, held: map<int, seq<Address>>)
      requires name in services && Sized(shm) && InSize(held) && TargetsInSize(services - {name})
      requires services[name].targets == held || services[name].targets == map[]
      requires lb.backend.shm == shm || lb.backend.shm == shm - {name}
      ensures InBounds()
    {
      SizedLess(shm, lb.backend.shm, name);
      hide Sized, InSize;
      assert InSize(map[]) by {
        NothingInSize();
      }
      forall n | n in services ensures InSize(services[n].targets) {
        assert n != name ==> n in services - {name};
      }
    }

    lemma OthersInSize(name: string)
      requires Valid() && name in services
      ensures InBounds() ==> Sized(lb.backend.shm) && InSize(services[name].targets) && TargetsInSize(services - {name})
      ensures services[name] !in (services - {name}).Values
    {
      assert forall n :: n in services ==> services[n].name == n;
      hide Sized, InSize;
    }

    lemma BeforeDrop(live: map<string, FlowImpl>, name: string)
      requires Valid() && name in services
      ensures lb.Valid() && Consistent(services, flows, endpoints, lb.backend) && Tracks(services, lb.services)
      ensures CoherentLive(live) ==>
                && name in lb.services && !lb.muHeld && services == lb.services && lb.InStep()
                && AllHeld(TargetsIn(lb.Views()), endpoints)
                && lb.backend.flows == Entries(live) && Bound(live, services) && lb.backend.VipsInv()
    {
      assert services == lb.services ==> Targets() == TargetsIn(lb.Views());
    }

    /** DeleteService of the load balancer: what it means for the manager. */
    method DeleteInstance(name: string, service: Service) returns (status: Status)
      requires lb.Valid() && Consistent(services, flows, endpoints, lb.backend) && Tracks(services, lb.services)
      requires name in services && services[name] == service
      modifies lb`services, lb`muHeld, service`targets
      modifies lb.backend`shm, lb.backend`flows, lb.backend`routes, lb.backend`clean, lb.backend`calls
      modifies lb.backend.nfQueue.ipv4DestinationSet`elements, lb.backend.nfQueue.ipv6DestinationSet`elements
      ensures lb.Valid() && services == old(services) && endpoints == old(endpoints) && flows == old(flows)
      ensures lb.backend.shm == old(lb.backend.shm) || lb.backend.shm == old(lb.backend.shm) - {name}
      ensures service.targets == old(service.targets) || service.targets == map[]
      ensures old(lb.muHeld) <==> status == Blocked
      ensures lb.muHeld <==> old(lb.muHeld) || name !in old(lb.services)
      ensures lb.services == if old(lb.muHeld) then old(lb.services) else old(lb.services) - {name}
      ensures !old(lb.muHeld) && name in old(lb.services) ==> lb.Views() == old(lb.Views()) - {name}
      ensures status == Done && old(lb.InStep()) ==> lb.InStep()
      ensures status == Done && name in old(lb.services) ==>
                lb.backend.flows == FlowsExcept(old(lb.backend.flows), name)
      ensures status == Done && old(lb.backend.VipsInv()) ==> lb.backend.VipsInv()
    {
      assert name in lb.services ==> lb.services[name] == service;
      hide LoadBalancer.Valid, LoadBalancer.InStep, LoadBalancer.Views, VipsHeld, FlowsExcept, Consistent, Tracks;
      status := lb.DeleteService(name);
      assert services == old(services) && endpoints == old(endpoints) && flows == old(flows);
    }

    /** The manager forgets a service that the load balancer has deleted. */
    method Forget(name: string, ghost views: map<string, View>, ghost live: map<string, FlowImpl>, ghost coherent: bool)
      requires lb.Valid() && Consistent(services, flows, endpoints, lb.backend) && Tracks(services, lb.services)
      requires name in services && name !in lb.services
      requires coherent ==>
                 && !lb.muHeld && lb.services == services - {name} && lb.InStep()
                     && AllHeld(TargetsIn(views), endpoints)
                 && lb.Views() == views - {name}
                 && lb.backend.flows == FlowsExcept(Entries(live), name) && Bound(live, services)
                     && lb.backend.VipsInv()
      modifies this`services, this`endpoints
      ensures Valid() && services == old(services) - {name} && endpoints == old(endpoints) - {name}
      ensures lb.services == old(lb.services) && lb.muHeld == old(lb.muHeld) && flows == old(flows)
      ensures old(InBounds()) ==> InBounds()
      ensures coherent ==> CoherentLive(Without(live, name))
    {
      ForgetFacts(services, flows, endpoints, lb.backend, lb.services, name);
      FewerInSize(name);
      assert InBounds() ==> Sized(lb.backend.shm);
      hide *;
      if coherent {
        ViewsHeldWithout(views, endpoints, name);
        FlowsWithout(live, services, name);
      }
      SetCaches(services - {name}, endpoints - {name});
      ValidAgain(endpoints);
      InBoundsFrom();
      if coherent {
        CoherentAgain(Without(live, name));
      }
    }

    lemma FewerInSize(name: string)
      ensures InBounds() ==> TargetsInSize(services - {name})
    {
      hide InSize, Sized;
    }

    method SetCaches(services: map<string, Service>, endpoints: map<string, seq<Endpoint>>)
      modifies this`services, this`endpoints
      ensures this.services == services && this.endpoints == endpoints && lb.backend.shm == old(lb.backend.shm)
      ensures flows == old(flows) && lb.services == old(lb.services) && lb.muHeld == old(lb.muHeld)
      ensures lb.backend.flows == old(lb.backend.flows) && (old(lb.backend.VipsInv()) ==> lb.backend.VipsInv())
      ensures old(TargetsInSize(services)) ==> TargetsInSize(services)
      ensures old(lb.Valid()) ==> lb.Valid()
      ensures old(lb.InStep()) ==> lb.InStep()
      ensures lb.Views() == old(lb.Views())
    {
      hide *;
      this.services, this.endpoints := services, endpoints;
    }

    lemma CoherentAgain(live: map<string, FlowImpl>)
      requires Valid() && lb.InStep() && AllHeld(TargetsIn(lb.Views()), endpoints)
      requires !lb.muHeld && lb.services == services
      requires lb.backend.flows == Entries(live) && Bound(live, services) && lb.backend.VipsInv()
      ensures CoherentLive(live)
    {
      assert Targets() == TargetsIn(lb.Views());
    }

    lemma LiveAtFirst()
      ensures Coherent() ==> Bound(flows, services) && CoherentLive(Live(flows, services.Keys))
    {
      assert Bound(flows, services) ==> Live(flows, services.Keys) == flows;
    }

    /** Where the deletion of services stands: `todo` is still to be looked at, `gone` is deleted. */
    ghost predicate Deleting(start: Caches, gone: set<string>, wanted: set<string>, todo: set<string>, failed: bool)
      reads this, lb, lb.services.Values`targets, services.Values`targets, lb.backend
      reads lb.backend.nfQueue.ipv4DestinationSet`elements, lb.backend.nfQueue.ipv6DestinationSet`elements
    {
      && Valid() && DeletionsDone(start, gone, wanted, todo, failed, services, endpoints, lb.services, lb.muHeld)
      && (!failed && start.coherent ==> CoherentLive(Live(start.flows, start.services.Keys - gone)))
    }

    lemma DeletingAtFirst(start: Caches, wanted: set<string>)
      requires Valid() && start == Caches(services, endpoints, flows, lb.services, lb.muHeld, Coherent(), InBounds())
      ensures Deleting(start, {}, wanted, services.Keys, false)
    {
      assert services - {} == services && endpoints - {} == endpoints && lb.services - {} == lb.services;
      assert services.Keys - {} == services.Keys && services.Keys - services.Keys - wanted == {};
      LiveAtFirst();
      hide *;
      UnknownNone(services, lb.services, wanted);
    }

    /** One service of the loop in SetServices. */
    method DeleteNext(name: string, service: Service, ghost start: Caches, ghost gone: set<string>, wanted: set<string>,
                      ghost todo: set<string>, ghost failed: bool)
      returns (status: Status, ghost gone': set<string>)
      requires Deleting(start, gone, wanted, todo, failed) && name in todo && name in services
               && services[name] == service
      modifies this`services, this`endpoints, lb`services, lb`muHeld, service`targets
      modifies lb.backend`shm, lb.backend`flows, lb.backend`routes, lb.backend`clean, lb.backend`calls
      modifies lb.backend.nfQueue.ipv4DestinationSet`elements, lb.backend.nfQueue.ipv6DestinationSet`elements
      ensures services == old(services) || services == old(services) - {name}
      ensures flows == old(flows)
      ensures old(InBounds()) ==> InBounds()
      ensures status == Blocked ==> Valid() && lb.muHeld
      ensures status == Blocked ==> start.held || Unknown(start.services, start.registered, wanted, {})
      ensures status != Blocked ==> Deleting(start, gone', wanted, todo - {name}, failed || status == Failed)
    {
      status, gone' := Done, gone;
      if name in wanted {
        DeletionsWanted(start, gone, wanted, todo, failed, services, endpoints, lb.services, lb.muHeld, name);
        return;
      }
      BeforeNext(start, gone, wanted, todo, failed, name);
      hide *;
      status := DropService(name, service, Live(start.flows, start.services.Keys - gone));
      if status == Done {
        gone' := gone + {name};
      }
      if status != Blocked {
        DeletingAgain(start, gone', wanted, todo - {name}, failed || status == Failed);
      }
    }

    lemma BeforeNext(start: Caches, gone: set<string>, wanted: set<string>, todo: set<string>, failed: bool,
                     name: string)
      requires Deleting(start, gone, wanted, todo, failed) && name in todo && name !in wanted
      ensures var rest, live := todo - {name}, start.services.Keys - gone;
              && Valid()
              && (!failed && start.coherent ==> CoherentLive(Live(start.flows, live)))
              && Without(Live(start.flows, live), name) == Live(start.flows, start.services.Keys - (gone + {name}))
              && (lb.muHeld ==> start.held || Unknown(start.services, start.registered, wanted, {}))
              && (!lb.muHeld ==>
                    && DeletionsDone(start, gone, wanted, rest, true, services, endpoints, lb.services - {name},
                        name !in lb.services)
                    && DeletionsDone(start, gone + {name}, wanted, rest, failed, services - {name}, endpoints - {name},
                                lb.services - {name}, name !in lb.services))
    {
      UnknownStays(start.services, start.registered, wanted, todo, name);
      LiveWithout(start.flows, start.services.Keys - gone, name);
      assert start.services.Keys - gone - {name} == start.services.Keys - (gone + {name});
      if !lb.muHeld {
        DeletionsDropped(start, gone, wanted, todo, failed, services, endpoints, lb.services, name);
      }
    }

    lemma DeletingAgain(start: Caches, gone: set<string>, wanted: set<string>, todo: set<string>, failed: bool)
      requires Valid() && DeletionsDone(start, gone, wanted, todo, failed, services, endpoints, lb.services, lb.muHeld)
      requires !failed && start.coherent ==> CoherentLive(Live(start.flows, start.services.Keys - gone))
      ensures Deleting(start, gone, wanted, todo, failed)
    {
    }

    /** The services that are not wanted any more; a failed deletion is skipped. */
    method DeleteServices(wanted: set<string>, ghost handles: set<Service>) returns (status: Status)
      requires Valid() && forall n :: n in services ==> services[n] in handles
      modifies this`services, this`endpoints, lb`services, lb`muHeld, handles`targets
      modifies lb.backend`shm, lb.backend`flows, lb.backend`routes, lb.backend`clean, lb.backend`calls
      modifies lb.backend.nfQueue.ipv4DestinationSet`elements, lb.backend.nfQueue.ipv6DestinationSet`elements
      ensures Valid() && flows == old(flows)
      ensures old(InBounds()) ==> InBounds()
      ensures lb.muHeld <==> old(lb.muHeld) || Unknown(old(services), old(lb.services), wanted, {})
      ensures status == Blocked ==> lb.muHeld
      ensures forall n :: n in services ==> n in old(services) && services[n] == old(services)[n]
      ensures status == Failed ==> Unknown(services, lb.services, wanted, {})
      ensures status == Done ==>
                && services == old(services) - (old(services).Keys - wanted)
                && endpoints == old(endpoints) - (old(services).Keys - wanted)
      ensures status == Done && old(Coherent()) ==> CoherentLive(Live(flows, services.Keys))
    {
      ghost var start := Caches(services, endpoints, flows, lb.services, lb.muHeld, Coherent(), InBounds());
      ghost var gone: set<string>, bounded := {}, InBounds();
      var failed, todo := false, services.Keys;
      DeletingAtFirst(start, wanted);
      hide *;
      while todo != {}
        invariant Deleting(start, gone, wanted, todo, failed) && todo <= start.services.Keys
        invariant flows == start.flows && (bounded ==> InBounds())
        invariant forall n :: n in todo ==> n in services && services[n] in handles
        invariant forall n :: n in services ==> n in old(services) && services[n] == old(services)[n]
        decreases todo
      {
        var name :| name in todo;
        var s;
        s, gone := DeleteNext(name, services[name], start, gone, wanted, todo, failed);
        todo := todo - {name};
        if s == Blocked {
          return Blocked;
        }
        failed := failed || s == Failed;
      }
      return if failed then Failed else Done;
    }

    /** One wanted service that the manager does not know yet. */
    method AddNext(name: string, ghost live: map<string, FlowImpl>) returns (status: Status)
      requires Valid() && name !in services
      modifies this`services, this`endpoints, lb`services, lb.backend`shm, lb.backend`calls
      ensures Valid() && flows == old(flows) && lb.muHeld == old(lb.muHeld)
      ensures old(InBounds()) ==> InBounds()
      ensures status == Blocked <==> lb.muHeld
      ensures status != Done ==> services == old(services) && endpoints == old(endpoints)
      ensures status == Done ==>
                && name in services && fresh(services[name])
                && services == old(services)[name := services[name]] && endpoints == old(endpoints)[name := []]
      ensures lb.services.Keys == if status == Done then old(lb.services).Keys + {name} else old(lb.services).Keys
      ensures status == Done && old(CoherentLive(live)) ==> CoherentLive(live)
    {
      BeforeAdd(live, name);
      ghost var coherent, views := CoherentLive(live), lb.Views();
      hide *;
      var service;
      status, service := AddInstance(name);
      if status != Done {
        ValidAgain(endpoints);
        return;
      }
      KeysAdded(old(lb.services), name, service.value);
      Remember(name, service.value, old(lb.services), views, live, coherent);
    }

    /** AddService of the load balancer: what it means for the manager. */
    method AddInstance(name: string) returns (status: Status, service: Option<Service>)
      requires lb.Valid() && name !in lb.services
      modifies lb`services, lb.backend`shm, lb.backend`calls
      ensures lb.Valid() && (old(lb.InStep()) ==> lb.InStep()) && (old(InBounds()) ==> InBounds())
      ensures services == old(services) && endpoints == old(endpoints) && flows == old(flows)
      ensures lb.backend.flows == old(lb.backend.flows) && (old(lb.backend.VipsInv()) ==> lb.backend.VipsInv())
      ensures status == Blocked <==> lb.muHeld
      ensures status != Done ==> lb.services == old(lb.services)
      ensures status == Done ==>
                && service.Some? && fresh(service.value) && lb.services == old(lb.services)[name := service.value]
                && OneOf(service.value, name, lb.backend) && service.value.targets == map[]
                && lb.Views() == old(lb.Views())[name := View(Range(service.value.offset, DEFAULT_MAX_TARGETS), map[])]
    {
      InBoundsHas();
      hide LoadBalancer.Valid, LoadBalancer.InStep, LoadBalancer.Views, Manager.InBounds, Sized, TargetsInSize,
          VipsHeld;
      status, service := lb.AddService(name, DEFAULT_MAX_TARGETS);
      assert old(TargetsInSize(services)) ==> TargetsInSize(services);
      StillSized(old(lb.backend.shm), name);
      InBoundsFrom();
    }

    /** The manager remembers a service that the load balancer has added. */
    method Remember(name: string, service: Service, ghost registered: map<string, Service>,
                    ghost views: map<string, View>,
                    ghost live: map<string, FlowImpl>, ghost coherent: bool)
      requires lb.Valid() && Consistent(services, flows, endpoints, lb.backend) && Tracks(services, registered)
      requires name !in services && lb.services == registered[name := service]
      requires OneOf(service, name, lb.backend) && service.targets == map[]
      requires coherent ==>
                 && !lb.muHeld && registered == services && lb.InStep() && AllHeld(TargetsIn(views), endpoints)
                 && lb.Views() == views[name := View(Range(service.offset, DEFAULT_MAX_TARGETS), map[])]
                 && lb.backend.flows == Entries(live) && Bound(live, services) && lb.backend.VipsInv()
      modifies this`services, this`endpoints
      ensures Valid() && services == old(services)[name := service] && endpoints == old(endpoints)[name := []]
      ensures lb.services == old(lb.services) && lb.muHeld == old(lb.muHeld) && flows == old(flows)
      ensures old(InBounds()) ==> InBounds()
      ensures coherent ==> CoherentLive(live)
    {
      AddFacts(services, flows, endpoints, lb.backend, registered, live, name, service);
      HeldAdded(views, endpoints, name, Range(service.offset, DEFAULT_MAX_TARGETS));
      MoreInSize(name, service);
      hide *;
      SetCaches(services[name := service], endpoints[name := []]);
      ValidAgain(endpoints);
      InBoundsFrom();
      if coherent {
        CoherentAgain(live);
      }
    }

    lemma MoreInSize(name: string, service: Service)
      requires service.targets == map[]
      ensures InBounds() ==> Sized(lb.backend.shm) && TargetsInSize(services[name := service])
    {
      NothingInSize();
      hide InSize, Sized;
    }

    lemma BeforeAdd(live: map<string, FlowImpl>, name: string)
      requires Valid() && name !in services
      ensures lb.Valid() && Consistent(services, flows, endpoints, lb.backend)
      ensures Tracks(services, lb.services) && name !in lb.services
      ensures CoherentLive(live) ==>
                && !lb.muHeld && services == lb.services && lb.InStep() && AllHeld(TargetsIn(lb.Views()), endpoints)
                && lb.backend.flows == Entries(live) && Bound(live, services) && lb.backend.VipsInv()
    {
      assert services == lb.services ==> Targets() == TargetsIn(lb.Views());
    }

    ghost predicate Adding(start: Caches, live: map<string, FlowImpl>, added: set<string>)
      reads this, lb, lb.services.Values`targets, services.Values`targets, lb.backend
      reads lb.backend.nfQueue.ipv4DestinationSet`elements, lb.backend.nfQueue.ipv6DestinationSet`elements
    {
      && Valid() && Grown(start, services, endpoints, lb.services.Keys, added)
      && (start.coherent ==> CoherentLive(live)) && (start.bounded ==> InBounds())
    }

    lemma AddingAgain(start: Caches, live: map<string, FlowImpl>, added: set<string>)
      requires Valid() && Grown(start, services, endpoints, lb.services.Keys, added)
               && (start.coherent ==> CoherentLive(live)) && (start.bounded ==> InBounds())
      ensures Adding(start, live, added)
    {
    }

    /** One wanted service, unless it is already there. */
    method AddWanted(name: string, ghost start: Caches, ghost live: map<string, FlowImpl>, ghost added: set<string>)
      returns (status: Status)
      requires Adding(start, live, added)
      modifies this`services, this`endpoints, lb`services, lb.backend`shm, lb.backend`calls
      ensures Valid() && flows == old(flows) && lb.muHeld == old(lb.muHeld)
      ensures old(InBounds()) ==> InBounds()
      ensures status == Blocked ==> lb.muHeld
      ensures status == Done ==> Adding(start, live, added + {name})
      ensures status != Done ==> name !in services && Grown(start, services, endpoints, lb.services.Keys, added)
      ensures services == old(services) ||
              (name in services && fresh(services[name]) && services == old(services)[name := services[name]])
    {
      GrownBy(start, services, endpoints, lb.services.Keys, added, name);
      if name in services {
        return Done;
      }
      ghost var s, es, registered := services, endpoints, lb.services.Keys;
      assert Valid() && Grown(start, s, es, registered, added) && (start.coherent ==> CoherentLive(live));
      assert start.bounded ==> InBounds();
      hide *;
      status := AddNext(name, live);
      if status == Done {
        GrownWith(start, s, es, registered, added, name, services[name]);
        AddingAgain(start, live, added + {name});
      }
    }

    /** The wanted services that are missing; the first failure ends the loop. */
    method AddServices(wanted: set<string>, ghost live: map<string, FlowImpl>)
      returns (status: Status, ghost added: set<string>)
      requires Valid()
      modifies this`services, this`endpoints, lb`services, lb.backend`shm, lb.backend`calls
      ensures Valid() && flows == old(flows) && lb.muHeld == old(lb.muHeld) && added <= wanted
               && (status == Done ==> added == wanted)
      ensures old(InBounds()) ==> InBounds()
      ensures Grown(Caches(old(services), old(endpoints), flows, old(lb.services), lb.muHeld, old(CoherentLive(live)),
                           old(InBounds())),
                    services, endpoints, lb.services.Keys, added)
      ensures forall n :: n in services ==>
                (n in old(services) && services[n] == old(services)[n]) || fresh(services[n])
      ensures status == Blocked ==> lb.muHeld
      ensures status == Failed ==> !(wanted <= services.Keys)
      ensures status == Done && old(CoherentLive(live)) ==> CoherentLive(live)
    {
      ghost var start := Caches(services, endpoints, flows, lb.services, lb.muHeld, CoherentLive(live), InBounds());
      var todo := wanted;
      added := {};
      NoneDone(wanted);
      AddingAgain(start, live, added);
      hide *;
      while todo != {}
        invariant Adding(start, live, added) && todo <= wanted && added == wanted - todo
        invariant flows == start.flows && lb.muHeld == start.held
        invariant forall n :: n in services && n !in start.services ==> fresh(services[n])
        decreases todo
      {
        var name :| name in todo;
        OneDone(wanted, todo, name);
        todo := todo - {name};
        status := AddWanted(name, start, live, added);
        if status != Done {
          assert start.bounded ==> InBounds();
          return;
        }
        added := added + {name};
      }
      AddingDone(start, live, added);
      return Done, added;
    }

    lemma AddingDone(start: Caches, live: map<string, FlowImpl>, added: set<string>)
      requires Adding(start, live, added)
      ensures Valid() && Grown(start, services, endpoints, lb.services.Keys, added)
               && (start.coherent ==> CoherentLive(live)) && (start.bounded ==> InBounds())
    {
    }

    /** The flows of services that are gone are forgotten. */
    method CleanupFlows()
      requires Valid()
      modifies this`flows
      ensures services == old(services) && endpoints == old(endpoints) && lb.services == old(lb.services)
      ensures lb.muHeld == old(lb.muHeld) && (old(InBounds()) ==> InBounds())
      ensures Valid() && flows == Live(old(flows), services.Keys)
      ensures old(CoherentLive(Live(flows, services.Keys))) ==> Coherent()
    {
      ghost var was, live := flows, Live(flows, services.Keys);
      BeforeFlows();
      assert CoherentLive(live) ==> Core(endpoints, live);
      KeyedLive(flows, lb.backend, services.Keys);
      hide *;
      ForgetFlows(live);
      ValidAfterFlows(was);
      CoreIsCoherent();
    }

    lemma CoreIsCoherent()
      requires Valid()
      ensures Core(endpoints, flows) ==> Coherent()
    {
    }

    method ForgetFlows(ghost live: map<string, FlowImpl>)
      modifies this`flows
      ensures flows == Live(old(flows), services.Keys)
      ensures old(lb.Valid()) ==> lb.Valid()
      ensures old(Core(endpoints, live)) ==> Core(endpoints, live)
    {
      hide *;
      RemoveFlows();
    }

    method RemoveFlows()
      modifies this`flows
      ensures flows == Live(old(flows), services.Keys)
    {
      ghost var was := flows;
      var todo := flows.Keys;
      while todo != {}
        invariant todo <= flows.Keys && flows.Keys <= was.Keys
        invariant forall k :: k in flows ==> flows[k] == was[k] && (k in todo || was[k].service.name in services)
        invariant forall k :: k in was && was[k].service.name in services ==> k in flows
        decreases todo
      {
        var k :| k in todo;
        todo := todo - {k};
        if flows[k].service.name in services {
          continue;
        }
        flows := flows - {k};
      }
    }

    /** SetServices: unwanted services are deleted, missing ones added, and the flows of the deleted ones forgotten.
        A failed addition ends the call before the flows are cleaned up. The mutex of the load balancer is left
        locked exactly when an unwanted service was known to the manager but not to the load balancer (or it was
        locked already), which is the state a failed deletion leaves behind. */
    method SetServices(names: seq<string>) returns (status: Status)
      requires Valid()
      modifies this`services, this`endpoints, this`flows, lb`services, lb`muHeld, services.Values`targets
      modifies lb.backend`shm, lb.backend`flows, lb.backend`routes, lb.backend`clean, lb.backend`calls
      modifies lb.backend.nfQueue.ipv4DestinationSet`elements, lb.backend.nfQueue.ipv6DestinationSet`elements
      ensures Valid()
      ensures old(InBounds()) ==> InBounds()
      ensures lb.muHeld <==> old(lb.muHeld) || Unknown(old(services), old(lb.services), Elements(names), {})
      ensures status == Blocked ==> lb.muHeld
      ensures status == Failed ==>
                !(Elements(names) <= services.Keys) || Unknown(services, lb.services, Elements(names), {})
      ensures status == Done || (status == Failed && Elements(names) <= services.Keys) ==>
                flows == Live(old(flows), services.Keys)
      ensures !(status == Done || (status == Failed && Elements(names) <= services.Keys)) ==> flows == old(flows)
      ensures status == Done ==> Exchanged(old(services), services, old(endpoints), endpoints, Elements(names))
      ensures forall n :: n in services ==>
                (n in old(services) && services[n] == old(services)[n]) || fresh(services[n])
      ensures OldOrAdded(old(services), services, lb.services.Keys)
      ensures status == Done && old(Coherent()) ==> Coherent()
    {
      var newServices: set<string> := {};
      for i := 0 to |names|
        invariant newServices == Elements(names[..i])
      {
        assert names[..i + 1] == names[..i] + [names[i]];
        newServices := newServices + {names[i]};
      }
      assert names[..|names|] == names;
      hide *;
      status := ExchangeServices(newServices);
    }

    /** The services that are not wanted are deleted, then the missing ones added. */
    method DeleteAndAdd(wanted: set<string>) returns (s1: Status, s2: Status)
      requires Valid()
      modifies this`services, this`endpoints, lb`services, lb`muHeld, services.Values`targets
      modifies lb.backend`shm, lb.backend`flows, lb.backend`routes, lb.backend`clean, lb.backend`calls
      modifies lb.backend.nfQueue.ipv4DestinationSet`elements, lb.backend.nfQueue.ipv6DestinationSet`elements
      ensures Valid() && flows == old(flows)
      ensures old(InBounds()) ==> InBounds()
      ensures lb.muHeld <==> old(lb.muHeld) || Unknown(old(services), old(lb.services), wanted, {})
      ensures s1 == Blocked || s2 == Blocked ==> lb.muHeld && s2 != Done
      ensures s2 == Failed ==> !(wanted <= services.Keys)
      ensures s2 == Done ==> wanted <= services.Keys
      ensures s1 == Failed && s2 == Done ==> Unknown(services, lb.services, wanted, {})
      ensures s1 == Done && s2 == Done ==> Exchanged(old(services), services, old(endpoints), endpoints, wanted)
      ensures forall n :: n in services ==>
                (n in old(services) && services[n] == old(services)[n]) || fresh(services[n])
      ensures OldOrAdded(old(services), services, lb.services.Keys)
      ensures s1 == Done && s2 == Done && old(Coherent()) ==> CoherentLive(Live(flows, services.Keys))
    {
      LiveAtFirst();
      ghost var bound := Bound(flows, services);
      assert endpoints.Keys == services.Keys;
      hide *;
      s1 := DeleteServices(wanted, services.Values);
      OnlyOld(old(services), services, lb.services.Keys);
      if s1 == Blocked {
        return s1, Blocked;
      }
      ghost var live := Live(flows, services.Keys);
      ghost var start := Caches(services, endpoints, flows, lb.services, lb.muHeld, CoherentLive(live), InBounds());
      ghost var added;
      s2, added := AddServices(wanted, live);
      assert Valid() && (start.bounded ==> InBounds());
      OldOrAddedGrown(old(services), start, services, endpoints, lb.services.Keys, added);
      if s2 == Done {
        ExchangeFacts(old(services), old(endpoints), flows, wanted, start, services, endpoints, lb.services);
      }
    }

    method ExchangeServices(wanted: set<string>) returns (status: Status)
      requires Valid()
      modifies this`services, this`endpoints, this`flows, lb`services, lb`muHeld, services.Values`targets
      modifies lb.backend`shm, lb.backend`flows, lb.backend`routes, lb.backend`clean, lb.backend`calls
      modifies lb.backend.nfQueue.ipv4DestinationSet`elements, lb.backend.nfQueue.ipv6DestinationSet`elements
      ensures Valid()
      ensures old(InBounds()) ==> InBounds()
      ensures lb.muHeld <==> old(lb.muHeld) || Unknown(old(services), old(lb.services), wanted, {})
      ensures status == Blocked ==> lb.muHeld
      ensures status == Failed ==> !(wanted <= services.Keys) || Unknown(services, lb.services, wanted, {})
      ensures status == Done || (status == Failed && wanted <= services.Keys) ==>
                flows == Live(old(flows), services.Keys)
      ensures !(status == Done || (status == Failed && wanted <= services.Keys)) ==> flows == old(flows)
      ensures status == Done ==> Exchanged(old(services), services, old(endpoints), endpoints, wanted)
      ensures forall n :: n in services ==>
                (n in old(services) && services[n] == old(services)[n]) || fresh(services[n])
      ensures OldOrAdded(old(services), services, lb.services.Keys)
      ensures status == Done && old(Coherent()) ==> Coherent()
    {
      hide *;
      var s1, s2 := DeleteAndAdd(wanted);
      if s2 != Done {
        return s2;
      }
      ghost var bounded := InBounds();
      CleanupFlows();
      assert bounded ==> InBounds();
      status := s1;
    }
  }
}
