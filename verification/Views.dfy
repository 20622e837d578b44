/** The state of the load balancer as a value: what is registered and recorded, and the backend state this stands
    for. */
module Views {
  import opened EndpointSlice
  import opened Offset
  import opened Nfqlb

  /** A registered service as a value: its marks and the targets it has recorded. */
  datatype View = View(range: Range, targets: map<int, seq<Address>>)

  function RangesOf(views: map<string, View>): map<string, Range> {
    map name | name in views :: views[name].range
  }

  /** The ranges of the registered services are disjoint and every recorded target is inside its service's. */
  ghost predicate MarksValid(views: map<string, View>) {
    && (forall name :: name in views ==> Wellformed(views[name].range))
    && Disjoint(RangesOf(views))
    && (forall name, id :: name in views && id in views[name].targets ==> 0 <= id < views[name].range.maxTargets)
  }

  /** In a valid state no two recorded targets of registered services share a forwarding mark. */
  lemma NoMarkCollision(views: map<string, View>, m: string, i: int, n: string, j: int)
    requires MarksValid(views)
    requires m in views && i in views[m].targets && n in views && j in views[n].targets
    ensures i + views[m].range.offset == j + views[n].range.offset ==> m == n && i == j
  {
    MarksDoNotCollide(RangesOf(views), m, i, n, j);
  }

  /** Recording a target inside the range, or forgetting one, keeps the marks apart. */
  lemma ViewTargetsChanged(views: map<string, View>, name: string, targets: map<int, seq<Address>>)
    requires MarksValid(views)
    ensures name in views && (forall k :: k in targets && k !in views[name].targets ==>
              0 <= k < views[name].range.maxTargets) ==>
              MarksValid(views[name := View(views[name].range, targets)])
  {
    if name in views {
      assert RangesOf(views[name := View(views[name].range, targets)]) == RangesOf(views);
    }
  }

  lemma ViewRemoved(views: map<string, View>, name: string)
    requires MarksValid(views)
    ensures MarksValid(views - {name})
  {
    assert RangesOf(views - {name}) == RangesOf(views) - {name};
    forall m, n | m in RangesOf(views - {name}) && n in RangesOf(views - {name}) && m != n
      ensures Apart(RangesOf(views - {name})[m], RangesOf(views - {name})[n])
    {
      assert m in RangesOf(views) && n in RangesOf(views);
    }
  }

  lemma RangesWellformed(views: map<string, View>)
    requires MarksValid(views)
    ensures forall name :: name in RangesOf(views) ==> Wellformed(RangesOf(views)[name])
  {
  }

  lemma ViewAdded(views: map<string, View>, name: string, view: View)
    requires MarksValid(views) && Wellformed(view.range) && view.targets == map[] && name !in views
    requires Fits(view.range.offset, RangesOf(views), view.range.maxTargets)
    ensures MarksValid(views[name := view])
  {
    AddRange(RangesOf(views), name, view.range);
    assert RangesOf(views[name := view]) == RangesOf(views)[name := view.range];
  }

  // ---------------------------------------------------------------------------------------------
  // The backend state that corresponds to the recorded targets.

  function ActiveOf(offset: int, targets: map<int, seq<Address>>): map<int, int> {
    map id | id in targets :: id + offset
  }

  function ShmOf(view: View): Shm {
    Shm(view.range.maxTargets, ActiveOf(view.range.offset, view.targets))
  }

  function ShmsOf(views: map<string, View>): map<string, Shm> {
    map name | name in views :: ShmOf(views[name])
  }

  ghost function ViewRoutes(view: View): set<Route> {
    ServiceRoutes(view.range.offset, view.targets)
  }

  ghost function RoutesAt(views: map<string, View>, name: string): set<Route>
    requires name in views
  {
    ViewRoutes(views[name])
  }

  ghost function AllRoutes(views: map<string, View>): set<Route> {
    set name, r | name in views && r in RoutesAt(views, name) :: r
  }

  lemma RouteHasMark(view: View, r: Route)
    requires r in ViewRoutes(view)
    ensures exists id :: id in view.targets && r.mark == id + view.range.offset
  {
    var id :| id in view.targets && r in TargetRoutes(view.range.offset, view.targets, id);
  }

  /** Routes of different services are different: their marks are. */
  lemma RoutesApart(views: map<string, View>, m: string, n: string)
    requires MarksValid(views) && m in views && n in views && m != n
    ensures ViewRoutes(views[m]) !! ViewRoutes(views[n])
  {
    forall r | r in ViewRoutes(views[m]) && r in ViewRoutes(views[n]) ensures false {
      RouteHasMark(views[m], r);
      RouteHasMark(views[n], r);
      var i :| i in views[m].targets && r.mark == i + views[m].range.offset;
      var j :| j in views[n].targets && r.mark == j + views[n].range.offset;
      NoMarkCollision(views, m, i, n, j);
    }
  }

  lemma AllRoutesSplit(views: map<string, View>, name: string, view: View)
    ensures AllRoutes(views[name := view]) == AllRoutes(views - {name}) + ViewRoutes(view)
  {
    hide ViewRoutes;
    var views' := views[name := view];
    var rest := views - {name};
    forall r ensures r in AllRoutes(views') <==> r in AllRoutes(rest) || r in ViewRoutes(view) {
      if r in AllRoutes(views') {
        var n :| n in views' && r in RoutesAt(views', n);
        assert n != name ==> n in rest && r in RoutesAt(rest, n);
      }
      if r in AllRoutes(rest) {
        var n :| n in rest && r in RoutesAt(rest, n);
        assert r in RoutesAt(views', n);
      }
      if r in ViewRoutes(view) {
        assert r in RoutesAt(views', name);
      }
    }
  }

  lemma RestApart(views: map<string, View>, name: string)
    requires MarksValid(views) && name in views
    ensures AllRoutes(views - {name}) !! ViewRoutes(views[name])
  {
    hide ViewRoutes, MarksValid;
    var rest := views - {name};
    forall r | r in AllRoutes(rest) ensures r !in ViewRoutes(views[name]) {
      var n :| n in rest && r in RoutesAt(rest, n);
      RoutesApart(views, n, name);
    }
  }

  lemma TargetRoutesApart(offset: int, targets: map<int, seq<Address>>, id: int)
    requires id in targets
    ensures ServiceRoutes(offset, targets - {id}) !! RoutesTo(id + offset, targets[id])
  {
    forall r | r in ServiceRoutes(offset, targets - {id}) ensures r !in RoutesTo(id + offset, targets[id]) {
      var k :| k in targets - {id} && r in TargetRoutes(offset, targets - {id}, k);
    }
  }

  function WithTargets(views: map<string, View>, name: string, targets: map<int, seq<Address>>): map<string, View>
    requires name in views
  {
    views[name := View(views[name].range, targets)]
  }

  lemma SameTargetsSameViews(views: map<string, View>, name: string)
    requires name in views
    ensures WithTargets(views, name, views[name].targets) == views
  {
  }

  lemma ShmsWith(views: map<string, View>, name: string, targets: map<int, seq<Address>>)
    requires name in views
    ensures name in ShmsOf(views) && ShmsOf(views)[name].n == views[name].range.maxTargets
    ensures ShmsOf(views)[name].active == ActiveOf(views[name].range.offset, views[name].targets)
    ensures ShmsOf(WithTargets(views, name, targets)) ==
            ShmsOf(views)[name := Shm(ShmsOf(views)[name].n, ActiveOf(views[name].range.offset, targets))]
  {
    hide ActiveOf;
  }

  lemma ActiveAdded(offset: int, targets: map<int, seq<Address>>, id: int, ips: seq<Address>)
    ensures ActiveOf(offset, targets[id := ips]) == ActiveOf(offset, targets)[id := id + offset]
  {
  }

  lemma ActiveRemoved(offset: int, targets: map<int, seq<Address>>, id: int)
    ensures ActiveOf(offset, targets - {id}) == ActiveOf(offset, targets) - {id}
  {
  }

  lemma RoutesWith(views: map<string, View>, name: string, targets: map<int, seq<Address>>)
    requires name in views
    ensures AllRoutes(WithTargets(views, name, targets)) ==
            AllRoutes(views - {name}) + ServiceRoutes(views[name].range.offset, targets)
  {
    AllRoutesSplit(views, name, View(views[name].range, targets));
    hide ServiceRoutes, AllRoutes;
  }

  /** Recording one target corresponds to one activation and its routes. */
  lemma TargetAdded(views: map<string, View>, name: string, id: int, ips: seq<Address>)
    requires name in views && id !in views[name].targets
    ensures var view := views[name];
            var views' := WithTargets(views, name, view.targets[id := ips]);
            && name in ShmsOf(views)
            && ShmsOf(views') == ShmsOf(views)[name := Shm(ShmsOf(views)[name].n,
                                                          ShmsOf(views)[name].active[id := id + view.range.offset])]
            && AllRoutes(views') == AllRoutes(views) + RoutesTo(id + view.range.offset, ips)
  {
    var view := views[name];
    var targets := view.targets[id := ips];
    ShmsWith(views, name, targets);
    ActiveAdded(view.range.offset, view.targets, id, ips);
    RoutesWith(views, name, targets);
    RoutesWith(views, name, view.targets);
    hide *;
    SameTargetsSameViews(views, name);
    ServiceRoutesWithout(view.range.offset, targets, id);
    ServiceRoutesKept(view.targets, id, ips);
  }

  lemma ServiceRoutesKept(targets: map<int, seq<Address>>, id: int, ips: seq<Address>)
    requires id !in targets
    ensures targets[id := ips] - {id} == targets
  {
  }

  /** Forgetting one target corresponds to one deactivation and the removal of exactly its routes. */
  lemma TargetDeleted(views: map<string, View>, name: string, id: int)
    requires MarksValid(views) && name in views && id in views[name].targets
    ensures var view := views[name];
            var views' := WithTargets(views, name, view.targets - {id});
            && name in ShmsOf(views)
            && ShmsOf(views') == ShmsOf(views)[name := Shm(ShmsOf(views)[name].n, ShmsOf(views)[name].active - {id})]
            && AllRoutes(views') == AllRoutes(views) - RoutesTo(id + view.range.offset, view.targets[id])
  {
    var view := views[name];
    ShmsWith(views, name, view.targets - {id});
    ActiveRemoved(view.range.offset, view.targets, id);
    RoutesWith(views, name, view.targets - {id});
    RoutesWith(views, name, view.targets);
    SameTargetsSameViews(views, name);
    TargetRoutesApart(view.range.offset, view.targets, id);
    RestApart(views, name);
    ServiceRoutesWithout(view.range.offset, view.targets, id);
    assert ViewRoutes(view) == ServiceRoutes(view.range.offset, view.targets);
    hide *;
  }

  lemma ServiceAdded(views: map<string, View>, name: string, range: Range)
    requires name !in views
    ensures ShmsOf(views[name := View(range, map[])]) == ShmsOf(views)[name := Shm(range.maxTargets, map[])]
    ensures AllRoutes(views[name := View(range, map[])]) == AllRoutes(views)
  {
    AllRoutesSplit(views, name, View(range, map[]));
    assert views - {name} == views;
    assert ViewRoutes(View(range, map[])) == {};
    assert ActiveOf(range.offset, map[]) == map[];
  }

  lemma ServiceRemoved(views: map<string, View>, name: string)
    requires MarksValid(views) && name in views
    ensures ShmsOf(views - {name}) == ShmsOf(views) - {name}
    ensures AllRoutes(views - {name}) == AllRoutes(views) - ViewRoutes(views[name])
  {
    AllRoutesSplit(views, name, views[name]);
    assert views[name := views[name]] == views;
    RestApart(views, name);
    hide MarksValid, ServiceRoutes, AllRoutes, ViewRoutes;
  }

  /** A successful AddTarget takes the backend from one set of views to the next; its routes as long as none failed. */
  lemma StepAfterAdd(views: map<string, View>, name: string, ips: seq<Address>, id: int, shm: map<string, Shm>,
                     shm': map<string, Shm>, routes: set<Route>, routes': set<Route>, clean: bool)
    requires name in views && shm == ShmsOf(views) && (clean ==> routes == AllRoutes(views))
    requires id in views[name].targets ==> shm' == shm && routes' == routes
    requires id !in views[name].targets ==>
               name in shm && shm' == Activated(shm, name, id, id + views[name].range.offset)
    requires id !in views[name].targets && clean ==> routes' == routes + RoutesTo(id + views[name].range.offset, ips)
    ensures var targets := if id in views[name].targets then views[name].targets else views[name].targets[id := ips];
            && shm' == ShmsOf(WithTargets(views, name, targets))
            && (clean ==> routes' == AllRoutes(WithTargets(views, name, targets)))
  {
    hide ShmsOf, AllRoutes, RoutesTo;
    if id in views[name].targets {
      assert WithTargets(views, name, views[name].targets) == views;
    } else {
      TargetAdded(views, name, id, ips);
    }
  }

  /** A successful DeleteTarget with the recorded addresses does the same. */
  lemma StepAfterDelete(views: map<string, View>, name: string, id: int, shm: map<string, Shm>,
                        shm': map<string, Shm>, routes: set<Route>, routes': set<Route>, clean: bool)
    requires MarksValid(views) && name in views && shm == ShmsOf(views) && (clean ==> routes == AllRoutes(views))
    requires id !in views[name].targets ==> shm' == shm && routes' == routes
    requires id in views[name].targets ==> shm' == Deactivated(shm, name, id)
    requires id in views[name].targets && clean ==>
               routes' == routes - RoutesTo(id + views[name].range.offset, views[name].targets[id])
    ensures var targets := views[name].targets - {id};
            && shm' == ShmsOf(WithTargets(views, name, targets))
            && (clean ==> routes' == AllRoutes(WithTargets(views, name, targets)))
  {
    hide ShmsOf, AllRoutes, RoutesTo, MarksValid;
    if id !in views[name].targets {
      assert views[name].targets - {id} == views[name].targets;
      assert WithTargets(views, name, views[name].targets) == views;
    } else {
      TargetDeleted(views, name, id);
    }
  }
}
