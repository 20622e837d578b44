/** The flows of Manager on values: their names, and which of them a list of routes asks for.
    pkg/controllers/statelessloadbalancer/manager.go. */
module Flows {
  import opened Prelude
  import opened VipSet
  import opened Nfqlb

  /** L34Route, as far as flows are concerned (absent lists are nil slices). */
  datatype L34Route = L34Route(name: string, backendRefs: seq<string>, sourceCIDRs: Option<seq<string>>,
                               destinationCIDRs: Option<seq<Cidr>>, sourcePorts: Option<seq<string>>,
                               destinationPorts: Option<seq<string>>, protocols: seq<string>, priority: int,
                               byteMatches: Option<seq<string>>)

  /** flowImpl: a route bound to the service it selects. */
  datatype FlowImpl = FlowImpl(route: L34Route, service: Service)

  function FlowName(route: string, service: string): string {
    route + "." + service
  }

  function Key(flow: FlowImpl): string {
    FlowName(flow.route.name, flow.service.name)
  }

  /** The flow a route states for a service. */
  function FlowOf(route: L34Route, service: string): Flow {
    Flow(FlowName(route.name, service), route.sourceCIDRs, route.destinationCIDRs, route.sourcePorts,
         route.destinationPorts, route.protocols, route.priority, route.byteMatches)
  }

  function Entry(route: L34Route, service: string): FlowEntry {
    EntryOf(FlowOf(route, service), service)
  }

  /** The flow table that corresponds to a collection of flows. */
  function Entries(flows: map<string, FlowImpl>): map<string, FlowEntry> {
    map k | k in flows :: Entry(flows[k].route, flows[k].service.name)
  }

  /** getServiceForL34Route: the first backend, when it is known. */
  function BackendOf(route: L34Route, known: set<string>): Option<string> {
    if |route.backendRefs| == 0 || route.backendRefs[0] !in known then None else Some(route.backendRefs[0])
  }

  /** The flows a list of routes asks for; the later of two routes with one flow name wins. */
  function DesiredFlows(routes: seq<L34Route>, services: map<string, Service>): map<string, FlowImpl> {
    if routes == [] then map[]
    else
      var last := routes[|routes| - 1];
      var init := DesiredFlows(routes[..|routes| - 1], services);
      match BackendOf(last, services.Keys)
      case None => init
      case Some(s) => init[Key(FlowImpl(last, services[s])) := FlowImpl(last, services[s])]
  }

  /** The same as a flow table, which depends on the names of the services only. */
  function DesiredEntries(routes: seq<L34Route>, known: set<string>): map<string, FlowEntry> {
    if routes == [] then map[]
    else
      var last := routes[|routes| - 1];
      var init := DesiredEntries(routes[..|routes| - 1], known);
      match BackendOf(last, known)
      case None => init
      case Some(s) => init[FlowName(last.name, s) := Entry(last, s)]
  }

  lemma {:induction false} DesiredTable(routes: seq<L34Route>, services: map<string, Service>)
    requires forall n :: n in services ==> services[n].name == n
    ensures Entries(DesiredFlows(routes, services)) == DesiredEntries(routes, services.Keys)
  {
    if routes != [] {
      DesiredTable(routes[..|routes| - 1], services);
    }
  }

  lemma {:induction false} DesiredAreKeyed(routes: seq<L34Route>, services: map<string, Service>)
    requires forall n :: n in services ==> services[n].name == n
    ensures forall k :: k in DesiredFlows(routes, services) ==>
              && Key(DesiredFlows(routes, services)[k]) == k
              && DesiredFlows(routes, services)[k].service.name in services
              && services[DesiredFlows(routes, services)[k].service.name] == DesiredFlows(routes, services)[k].service
  {
    if routes != [] {
      DesiredAreKeyed(routes[..|routes| - 1], services);
    }
  }

  // ---------------------------------------------------------------------------------------------
  // What the table says, in terms of the routes.

  /** An entry with the fields of a route: sources and ports that match everything are left out. */
  ghost predicate States(e: FlowEntry, route: L34Route) {
    && route.backendRefs != [] && e.target == route.backendRefs[0]
    && e.priority == route.priority && e.protocols == route.protocols && e.matches == route.byteMatches
    && e.dsts == route.destinationCIDRs
    && e.srcs == (if route.sourceCIDRs.Some? && AllMasksZero(route.sourceCIDRs.value) then None else route.sourceCIDRs)
    && e.sports == PortsLeft(route.sourcePorts) && e.dports == PortsLeft(route.destinationPorts)
  }

  ghost predicate AllMasksZero(cidrs: seq<string>) {
    forall i :: 0 <= i < |cidrs| ==> MaskIsZero(cidrs[i])
  }

  function PortsLeft(ports: Option<seq<string>>): Option<seq<string>> {
    if ports.Some? && "0-65535" in ports.value then None else ports
  }

  /** A route asks for a flow of this name: that of the route and its first backend, which is a known service. */
  ghost predicate AsksFor(route: L34Route, known: set<string>, name: string) {
    route.backendRefs != [] && route.backendRefs[0] in known && name == route.name + "." + route.backendRefs[0]
  }

  /** The last route that asks for a flow of this name. */
  ghost predicate LastToAsk(routes: seq<L34Route>, known: set<string>, name: string, i: nat) {
    && i < |routes| && AsksFor(routes[i], known, name)
    && forall j :: i < j < |routes| ==> !AsksFor(routes[j], known, name)
  }

  ghost predicate Asked(routes: seq<L34Route>, known: set<string>, name: string) {
    exists i: nat :: LastToAsk(routes, known, name, i)
  }

  /** The table has the names that routes ask for, each with the fields of the last route to ask. */
  ghost predicate Stated(table: map<string, FlowEntry>, routes: seq<L34Route>, known: set<string>) {
    forall k, i: nat :: LastToAsk(routes, known, k, i) ==> k in table && States(table[k], routes[i])
  }

  /** And no other names. */
  ghost predicate TableOf(table: map<string, FlowEntry>, routes: seq<L34Route>, known: set<string>) {
    Stated(table, routes, known) && forall k :: k in table ==> Asked(routes, known, k)
  }

  lemma EntryStates(route: L34Route, known: set<string>)
    ensures BackendOf(route, known).Some? <==> route.backendRefs != [] && route.backendRefs[0] in known
    ensures BackendOf(route, known).Some? ==>
              && BackendOf(route, known).value == route.backendRefs[0]
              && AsksFor(route, known, FlowName(route.name, route.backendRefs[0]))
              && States(Entry(route, route.backendRefs[0]), route)
  {
    if route.sourceCIDRs.Some? {
      AnyIPRangeIs(route.sourceCIDRs.value);
    }
    hide MaskIsZero, AnyIPRange;
  }

  lemma {:induction false} DesiredEntriesAre(routes: seq<L34Route>, known: set<string>)
    ensures TableOf(DesiredEntries(routes, known), routes, known)
  {
    if routes != [] {
      var init, last := routes[..|routes| - 1], routes[|routes| - 1];
      DesiredEntriesAre(init, known);
      EntryStates(last, known);
      SnocInit(routes);
      if BackendOf(last, known).Some? {
        var s := last.backendRefs[0];
        TableMore(DesiredEntries(init, known), init, known, last, FlowName(last.name, s), Entry(last, s));
      } else {
        TableSame(DesiredEntries(init, known), init, known, last);
      }
      hide TableOf, States, AsksFor, Entry;
    }
  }

  /** So it is with the flows that a list of routes asks for, written on top of any table. */
  lemma DesiredStated(routes: seq<L34Route>, services: map<string, Service>, table: map<string, FlowEntry>)
    requires forall n :: n in services ==> services[n].name == n
    ensures Stated(table + Entries(DesiredFlows(routes, services)), routes, services.Keys)
    ensures TableOf(Entries(DesiredFlows(routes, services)), routes, services.Keys)
  {
    DesiredTable(routes, services);
    DesiredEntriesAre(routes, services.Keys);
    hide LastToAsk, States, Entries, DesiredEntries;
  }

  lemma TableSame(table: map<string, FlowEntry>, routes: seq<L34Route>, known: set<string>, last: L34Route)
    requires TableOf(table, routes, known) && forall k :: !AsksFor(last, known, k)
    ensures TableOf(table, routes + [last], known)
  {
    LastSnoc(routes, known, last);
    hide LastToAsk, AsksFor, States;
    forall k | k in table ensures Asked(routes + [last], known, k) {
      var i: nat :| LastToAsk(routes, known, k, i);
      assert LastToAsk(routes + [last], known, k, i);
    }
    forall k, i: nat | LastToAsk(routes + [last], known, k, i)
      ensures k in table && States(table[k], (routes + [last])[i])
    {
      assert LastToAsk(routes, known, k, i);
    }
  }

  lemma TableMore(table: map<string, FlowEntry>, routes: seq<L34Route>, known: set<string>, last: L34Route,
                  name: string, e: FlowEntry)
    requires TableOf(table, routes, known) && AsksFor(last, known, name) && States(e, last)
    ensures TableOf(table[name := e], routes + [last], known)
  {
    LastSnoc(routes, known, last);
    assert forall k :: AsksFor(last, known, k) <==> k == name;
    hide LastToAsk, AsksFor, States;
    var all := routes + [last];
    forall k | k in table[name := e] ensures Asked(all, known, k) {
      if k == name {
        assert LastToAsk(all, known, k, |routes|);
      } else {
        var i: nat :| LastToAsk(routes, known, k, i);
        assert LastToAsk(all, known, k, i);
      }
    }
    forall k, i: nat | LastToAsk(all, known, k, i)
      ensures k in table[name := e] && States(table[name := e][k], all[i])
    {
      assert k != name ==> LastToAsk(routes, known, k, i);
    }
  }

  lemma LastSnoc(routes: seq<L34Route>, known: set<string>, last: L34Route)
    ensures forall k, i: nat :: LastToAsk(routes + [last], known, k, i) <==>
                                if AsksFor(last, known, k) then i == |routes| else LastToAsk(routes, known, k, i)
    ensures forall k, i: nat :: LastToAsk(routes, known, k, i) ==> i < |routes|
  {
    hide AsksFor;
    var all := routes + [last];
    assert all[|routes|] == last && forall j :: 0 <= j < |routes| ==> all[j] == routes[j];
  }

  // ---------------------------------------------------------------------------------------------
  // When different routes have different flows.

  /** The longer name is the shorter one behind a dot. */
  predicate Extends(s: string, t: string) {
    |s| > |t| && s[|s| - |t|..] == t && s[|s| - |t| - 1] == '.'
  }

  ghost predicate NoneExtends(known: set<string>) {
    forall s, t :: s in known && t in known ==> !Extends(s, t)
  }

  /** Service names without dots never extend each other. */
  lemma DotlessNamesDoNotExtend(known: set<string>)
    requires forall s :: s in known ==> '.' !in s
    ensures NoneExtends(known)
  {
    forall s, t | s in known && t in known ensures !Extends(s, t) {
      forall i | 0 <= i < |s| ensures s[i] != '.' {
        assert s[i] in s;
      }
    }
  }

  lemma SameNameSplits(r: string, s: string, q: string, t: string)
    requires FlowName(r, s) == FlowName(q, t) && |s| >= |t|
    ensures (r == q && s == t) || Extends(s, t)
  {
    var a, b := FlowName(r, s), FlowName(q, t);
    var n := |a|;
    if |s| == |t| {
      assert r == a[..|r|] && q == b[..|q|];
      assert s == a[n - |s|..] && t == b[n - |t|..];
    } else {
      assert s == a[n - |s|..];
      assert t == b[n - |t|..];
      assert s[|s| - |t|..] == t;
      assert b[n - |t| - 1] == '.' && a[n - |t| - 1] == s[|s| - |t| - 1];
    }
  }

  /** Flow names tell every route and service apart exactly when no service name extends another. */
  lemma FlowNamesApart(s: string, t: string)
    ensures (exists r, q :: (r, s) != (q, t) && FlowName(r, s) == FlowName(q, t)) <==> Extends(s, t) || Extends(t, s)
  {
    if r, q :| (r, s) != (q, t) && FlowName(r, s) == FlowName(q, t) {
      if |s| >= |t| {
        SameNameSplits(r, s, q, t);
      } else {
        SameNameSplits(q, t, r, s);
      }
    }
    if Extends(s, t) {
      ExtensionCollides(s, t, "r");
    }
    if Extends(t, s) {
      ExtensionCollides(t, s, "r");
    }
  }

  lemma ExtensionCollides(s: string, t: string, r: string)
    requires Extends(s, t)
    ensures FlowName(r, s) == FlowName(r + "." + s[..|s| - |t| - 1], t)
  {
    assert s == s[..|s| - |t| - 1] + "." + t;
  }

  ghost predicate DistinctRoutes(routes: seq<L34Route>) {
    forall i, j :: 0 <= i < j < |routes| ==> routes[i].name != routes[j].name
  }

  /** Every route whose backend is known has its own flow. */
  ghost predicate EachHasItsFlow(routes: seq<L34Route>, known: set<string>) {
    forall i :: 0 <= i < |routes| && BackendOf(routes[i], known).Some? ==>
      var s := BackendOf(routes[i], known).value;
      FlowName(routes[i].name, s) in DesiredEntries(routes, known)
      && DesiredEntries(routes, known)[FlowName(routes[i].name, s)] == Entry(routes[i], s)
  }

  /** No flow is there without a route. */
  lemma {:induction false} NothingElse(routes: seq<L34Route>, known: set<string>)
    ensures forall k :: k in DesiredEntries(routes, known) ==>
              exists i :: 0 <= i < |routes| && BackendOf(routes[i], known).Some?
                          && FlowName(routes[i].name, BackendOf(routes[i], known).value) == k
  {
    if routes != [] {
      var init := routes[..|routes| - 1];
      NothingElse(init, known);
      forall k | k in DesiredEntries(routes, known)
        ensures exists i :: 0 <= i < |routes| && BackendOf(routes[i], known).Some?
                            && FlowName(routes[i].name, BackendOf(routes[i], known).value) == k
      {
        if k in DesiredEntries(init, known) {
          var i :| 0 <= i < |init| && BackendOf(init[i], known).Some?
                   && FlowName(init[i].name, BackendOf(init[i], known).value) == k;
          assert routes[i] == init[i];
        } else {
          assert BackendOf(routes[|routes| - 1], known).Some?;
        }
      }
    }
  }

  lemma {:induction false} OneFlowPerRoute(routes: seq<L34Route>, known: set<string>)
    requires DistinctRoutes(routes) && NoneExtends(known)
    ensures EachHasItsFlow(routes, known)
  {
    if routes != [] {
      var init, last := routes[..|routes| - 1], routes[|routes| - 1];
      OneFlowPerRoute(init, known);
      forall i | 0 <= i < |init| && BackendOf(init[i], known).Some? && BackendOf(last, known).Some?
        ensures FlowName(init[i].name, BackendOf(init[i], known).value) !=
                FlowName(last.name, BackendOf(last, known).value)
      {
        assert routes[i].name != last.name;
        if FlowName(init[i].name, BackendOf(init[i], known).value) ==
           FlowName(last.name, BackendOf(last, known).value) {
          FlowNamesApart(BackendOf(init[i], known).value, BackendOf(last, known).value);
        }
      }
    }
  }

  function BareRoute(name: string, service: string): L34Route {
    L34Route(name, [service], None, None, None, None, [], 0, None)
  }

  /** Differently named routes always get one flow each exactly when no service name extends another. */
  lemma FlowPerRouteExactly(known: set<string>)
    ensures (forall routes :: DistinctRoutes(routes) ==> EachHasItsFlow(routes, known)) <==> NoneExtends(known)
  {
    if NoneExtends(known) {
      forall routes | DistinctRoutes(routes) ensures EachHasItsFlow(routes, known) {
        OneFlowPerRoute(routes, known);
      }
    } else {
      var s, t :| s in known && t in known && Extends(s, t);
      ExtensionCollides(s, t, "r");
      var a, b := BareRoute("r", s), BareRoute("r" + "." + s[..|s| - |t| - 1], t);
      LastOneWins(a, b, s, t, known);
    }
  }

  lemma LastOneWins(a: L34Route, b: L34Route, s: string, t: string, known: set<string>)
    requires s in known && t in known && s != t && |a.name| < |b.name|
    requires a.backendRefs == [s] && b.backendRefs == [t] && FlowName(a.name, s) == FlowName(b.name, t)
    ensures DistinctRoutes([a, b]) && !EachHasItsFlow([a, b], known)
  {
    var routes := [a, b];
    assert routes[..1] == [a] && [a][..0] == [];
    assert DesiredEntries(routes, known)[FlowName(b.name, t)] == Entry(b, t);
    assert Entry(a, s).target == s && Entry(b, t).target == t;
    assert routes[0] == a && BackendOf(routes[0], known) == Some(s);
  }
}
