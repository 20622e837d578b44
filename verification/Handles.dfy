/** The marks of all services that the manager has cached. The load balancer keeps the ranges of registered services
    apart; a service whose deletion failed is not registered any more, and the manager goes on using its handle.
    pkg/controllers/statelessloadbalancer/manager.go, pkg/nfqlb/nfqlb.go. */
module Handles {
  import opened Prelude
  import opened EndpointSlice
  import opened Offset
  import opened Flows
  import opened Nfqlb
  import opened Views
  import opened LoadBalancing
  import opened ManagerState
  import opened ServiceManager
  import opened Convergence

  function RangesHeld(services: map<string, Service>): map<string, Range> {
    map n | n in services :: RangeOf(services[n])
  }

  function RangeOf(service: Service): Range {
    Range(service.offset, service.maxTargets)
  }

  /** No two of these handles share a mark. */
  ghost predicate HandlesApart(services: map<string, Service>) {
    Disjoint(RangesHeld(services))
  }

  /** No service was added whose range overlaps the one of a cached service that is not registered. */
  ghost predicate AddedApart(before: map<string, Service>, after: map<string, Service>,
                             registered: map<string, Service>) {
    forall n, k :: n in after && !(n in before && after[n] == before[n]) && k in after && k !in registered ==>
      Apart(RangeOf(after[n]), RangeOf(after[k]))
  }

  lemma RegisteredApart(m: Manager)
    requires m.Valid()
    ensures HandlesApart(m.lb.services) && Tracks(m.services, m.lb.services)
  {
    assert RangesHeld(m.lb.services) == RangesOf(m.lb.Views());
  }

  /** Cached handles that were apart stay apart exactly when every added one misses the unregistered ones. */
  lemma ApartExactly(before: map<string, Service>, after: map<string, Service>, registered: map<string, Service>)
    requires HandlesApart(before) && HandlesApart(registered)
    requires Tracks(after, registered) && OldOrAdded(before, after, registered.Keys)
    ensures HandlesApart(after) <==> AddedApart(before, after, registered)
  {
    var ranges := RangesHeld(after);
    if HandlesApart(after) {
      forall n, k | n in after && !(n in before && after[n] == before[n]) && k in after && k !in registered
        ensures Apart(RangeOf(after[n]), RangeOf(after[k]))
      {
        assert n != k && Apart(ranges[n], ranges[k]);
      }
    }
    if AddedApart(before, after, registered) {
      forall a, b | a in ranges && b in ranges && a != b ensures Apart(ranges[a], ranges[b]) {
        if a in before && after[a] == before[a] && b in before && after[b] == before[b] {
          assert Apart(RangesHeld(before)[a], RangesHeld(before)[b]);
        } else if a in registered && b in registered {
          assert Apart(RangesHeld(registered)[a], RangesHeld(registered)[b]);
        } else {
          assert Apart(RangeOf(after[a]), RangeOf(after[b])) || Apart(RangeOf(after[b]), RangeOf(after[a]));
        }
      }
    }
  }

  /** While the cached handles are apart, no two targets of cached services share a forwarding mark. */
  lemma HandleMarks(m: Manager, a: string, i: int, b: string, j: int)
    requires m.Valid() && m.InBounds() && HandlesApart(m.services)
    requires a in m.services && i in m.services[a].targets && b in m.services && j in m.services[b].targets
    ensures i + m.services[a].offset == j + m.services[b].offset ==> a == b && i == j
  {
    MarksDoNotCollide(RangesHeld(m.services), a, i, b, j);
  }

  // ---------------------------------------------------------------------------------------------
  // Runs.

  /** A call on the manager. */
  datatype ManagerOp =
    | ServicesOp(names: seq<string>)
    | EndpointsOp(name: string, input: seq<Endpoint>)
    | FlowsOp(routes: seq<L34Route>)

  /** The services that the manager had cached, and those that were registered, at one point of a run. */
  datatype Point = Point(cached: map<string, Service>, registered: map<string, Service>)

  ghost predicate ApartThroughout(points: seq<Point>) {
    forall i :: 0 <= i < |points| ==> HandlesApart(points[i].cached)
  }

  ghost predicate AddedApartAt(points: seq<Point>, i: nat)
    requires i + 1 < |points|
  {
    AddedApart(points[i].cached, points[i + 1].cached, points[i + 1].registered)
  }

  ghost predicate AddedApartThroughout(points: seq<Point>) {
    forall i :: 0 <= i < |points| - 1 ==> AddedApartAt(points, i)
  }

  lemma OnePoint(p: Point)
    requires p.cached == map[]
    ensures ApartThroughout([p]) && AddedApartThroughout([p])
  {
  }

  lemma NextPoint(points: seq<Point>, p: Point)
    requires points != [] && (ApartThroughout(points) <==> AddedApartThroughout(points))
    requires HandlesApart(p.registered) && Tracks(p.cached, p.registered)
    requires OldOrAdded(points[|points| - 1].cached, p.cached, p.registered.Keys)
    ensures ApartThroughout(points + [p]) <==> AddedApartThroughout(points + [p])
  {
    hide HandlesApart, AddedApart, Tracks, OldOrAdded;
    var points', last := points + [p], |points| - 1;
    assert AddedApartAt(points', last) == AddedApart(points[last].cached, p.cached, p.registered);
    if HandlesApart(points[last].cached) {
      ApartExactly(points[last].cached, p.cached, p.registered);
    }
    assert ApartThroughout(points') <==> ApartThroughout(points) && HandlesApart(p.cached) by {
      assert points'[|points|] == p && forall i :: 0 <= i < |points| ==> points'[i] == points[i];
    }
    assert AddedApartThroughout(points') <==> AddedApartThroughout(points) && AddedApartAt(points', last) by {
      assert forall i :: 0 <= i < last ==> AddedApartAt(points', i) == AddedApartAt(points, i);
    }
  }

  /** One call; `blocked`: it waits for a mutex for ever. */
  method ManagerCall(m: Manager, op: ManagerOp) returns (blocked: bool)
    requires m.Valid() && m.InBounds()
    modifies m, m.lb, m.services.Values, m.lb.backend
    modifies m.lb.backend.nfQueue.ipv4DestinationSet`elements, m.lb.backend.nfQueue.ipv6DestinationSet`elements
    ensures m.Valid() && m.InBounds() && (blocked ==> m.lb.muHeld)
    ensures OldOrAdded(old(m.services), m.services, m.lb.services.Keys)
    ensures forall n :: n in m.services ==> m.services[n] in old(m.services.Values) || fresh(m.services[n])
  {
    OnlyOld(m.services, m.services, m.lb.services.Keys);
    hide *;
    blocked := false;
    match op {
      case ServicesOp(names) =>
        var status := m.SetServices(names);
        blocked := status == Blocked;
      case EndpointsOp(name, input) =>
        var err, _, _, _ := m.SetEndpoints(name, input);
        assert m.lb.services == old(m.lb.services);
      case FlowsOp(routes) =>
        var err := m.SetFlows(routes);
        assert old(m.InBounds()) ==> m.InBounds();
    }
  }

  /** Any sequence of calls on a new manager, with any outcome of the commands: the targets of all cached services are
      in range, and at every point their marks are apart if and only if no call has added a service whose range overlaps
      the one of a cached service that was not registered. */
  method AnyCalls(startingOffset: int, ops: seq<ManagerOp>) returns (m: Manager, ghost points: seq<Point>)
    requires 0 <= startingOffset <= MAX_INT
    ensures m.Valid() && m.InBounds()
    ensures 1 <= |points| <= |ops| + 1 && (|points| == |ops| + 1 || m.lb.muHeld)
    ensures points[0] == Point(map[], map[]) && points[|points| - 1] == Point(m.services, m.lb.services)
    ensures ApartThroughout(points) <==> AddedApartThroughout(points)
  {
    m := Start(startingOffset);
    assert m.Valid() && m.InBounds();
    points := [Point(m.services, m.lb.services)];
    OnePoint(points[0]);
    hide *;
    for i := 0 to |ops|
      invariant m.Valid() && m.InBounds() && fresh(m) && fresh(m.lb) && fresh(m.lb.backend.Footprint())
      invariant forall n :: n in m.services ==> fresh(m.services[n])
      invariant |points| == i + 1 && points[0] == Point(map[], map[]) && points[i] == Point(m.services, m.lb.services)
      invariant ApartThroughout(points) <==> AddedApartThroughout(points)
    {
      var blocked := ManagerCall(m, ops[i]);
      RegisteredApart(m);
      NextPoint(points, Point(m.services, m.lb.services));
      points := points + [Point(m.services, m.lb.services)];
      if blocked {
        return;
      }
    }
  }

  // ---------------------------------------------------------------------------------------------
  // The marks of a service whose deletion failed are given out again.

  /** A service is added, its deletion fails, and another one of the same size is added: both handles have the same
      offset, so that a target added through each with one identifier gets the same mark. */
  method StaleHandle(lb: LoadBalancer, a: string, b: string, n: int, ips: seq<Address>, jps: seq<Address>, id: int)
    returns (s1: Status, s2: Status, s3: Status, e1: bool, e2: bool, first: Option<Service>, second: Option<Service>)
    requires lb.Valid() && a !in lb.services && b !in lb.services && a != b && MIN_INT <= n <= MAX_INT
    modifies lb`services, lb`muHeld, lb.backend
    modifies lb.backend.nfQueue.ipv4DestinationSet`elements, lb.backend.nfQueue.ipv6DestinationSet`elements
    ensures lb.Valid()
    ensures s1 == Done && s2 == Failed && s3 == Done ==>
              && first.Some? && second.Some? && first != second && first.value.offset == second.value.offset
              && (!e1 && !e2 ==> id in first.value.targets && id in second.value.targets)
  {
    e1, e2 := true, true;
    hide *;
    s1, s2, s3, first, second := AddAfterFailure(lb, a, b, n);
    if s1 == Done && s2 == Failed && s3 == Done {
      e1 := lb.AddTargetThrough(first.value, ips, id);
      e2 := lb.AddTargetThrough(second.value, jps, id);
    }
  }

  lemma WithThenWithout<T>(m: map<string, T>, k: string, x: T)
    requires k !in m
    ensures m[k := x] - {k} == m
  {
  }

  method AddAfterFailure(lb: LoadBalancer, a: string, b: string, n: int)
    returns (s1: Status, s2: Status, s3: Status, first: Option<Service>, second: Option<Service>)
    requires lb.Valid() && a !in lb.services && b !in lb.services && a != b && MIN_INT <= n <= MAX_INT
    modifies lb`services, lb`muHeld, lb.backend`shm, lb.backend`flows, lb.backend`routes, lb.backend`clean,
        lb.backend`calls
    modifies lb.backend.nfQueue.ipv4DestinationSet`elements, lb.backend.nfQueue.ipv6DestinationSet`elements
    ensures lb.Valid()
    ensures s1 == Done && s2 == Failed && s3 == Done ==>
              && first.Some? && second.Some? && first != second && first.value.offset == second.value.offset
              && fresh(first.value) && fresh(second.value)
              && first.value.backend == second.value.backend == lb.backend
  {
    s2, s3, second := Done, Failed, None;
    ghost var views := lb.Views();
    assert a !in views;
    hide *;
    s1, first := lb.AddService(a, n);
    if s1 == Done {
      WithThenWithout(views, a, View(Range(first.value.offset, n), map[]));
      s2 := FailingDeletion(lb, a, views);
      if s2 == Failed {
        s3, second := lb.AddService(b, n);
        if s3 == Done {
          FirstFitIsUnique(lb.startingOffset, RangesOf(views), n, first.value.offset, second.value.offset);
        }
      }
    }
  }

  method FailingDeletion(lb: LoadBalancer, a: string, ghost views: map<string, View>) returns (status: Status)
    requires lb.Valid() && a in lb.services && !lb.muHeld && a !in views && lb.Views() - {a} == views
    modifies lb`services, lb`muHeld, {lb.services[a]}`targets
    modifies lb.backend`shm, lb.backend`flows, lb.backend`routes, lb.backend`clean, lb.backend`calls
    modifies lb.backend.nfQueue.ipv4DestinationSet`elements, lb.backend.nfQueue.ipv6DestinationSet`elements
    ensures lb.Valid() && lb.Views() == views && lb.services == old(lb.services) - {a} && !lb.muHeld
  {
    hide *;
    status := lb.DeleteService(a);
  }
}
