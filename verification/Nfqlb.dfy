/** pkg/nfqlb/nfqlb.go: load-balancer services, their targets and flows, driven through nfqlb commands.

    The commands and the kernel are the class Backend: a command either succeeds or changes nothing, and which of
    the two happens is left open. */
module Nfqlb {
  import opened Prelude
  import opened Identifier
  import opened EndpointSlice
  import opened Networking
  import opened VipSet

  const DEFAULT_MAX_TARGETS := 100
  const MAX_PORT_RANGE := "0-65535"

  /** How a call ends. Blocked: the caller waits for a mutex that is never released. */
  datatype Status = Done | Failed | Blocked

  /** The shared memory of a service: its size and the activated indices with their forwarding marks. */
  datatype Shm = Shm(n: int, active: map<int, int>)

  /** A flow as the control plane states it (absent lists are nil slices). */
  datatype Flow = Flow(name: string, sourceCIDRs: Option<seq<string>>, destinationCIDRs: Option<seq<Cidr>>,
                       sourcePortRanges: Option<seq<string>>, destinationPortRanges: Option<seq<string>>,
                       protocols: seq<string>, priority: int, byteMatches: Option<seq<string>>)

  /** A flow as nfqlb holds it. */
  datatype FlowEntry = FlowEntry(target: string, priority: int, protocols: seq<string>, dsts: Option<seq<Cidr>>,
                                 srcs: Option<seq<string>>, dports: Option<seq<string>>, sports: Option<seq<string>>,
                                 matches: Option<seq<string>>)

  /** A policy route: traffic with the mark goes to the address. */
  datatype Route = Route(mark: int, ip: IP)

  /** The commands that change the targets or flows, as issued (whether or not they succeed). */
  datatype Call = Activate(shm: string, index: int) | Deactivate(shm: string, index: int) | OtherCall

  /** The shared memories after one index of one of them is activated or deactivated. */
  function Activated(shm: map<string, Shm>, name: string, index: int, mark: int): map<string, Shm>
    requires name in shm
  {
    shm[name := Shm(shm[name].n, shm[name].active[index := mark])]
  }

  function Deactivated(shm: map<string, Shm>, name: string, index: int): map<string, Shm> {
    if name in shm then shm[name := Shm(shm[name].n, shm[name].active - {index})] else shm
  }

  /** The same services are set up, each with its size. */
  ghost predicate SameSizes(a: map<string, Shm>, b: map<string, Shm>) {
    a.Keys == b.Keys && forall name :: name in a ==> a[name].n == b[name].n
  }

  function RoutesTo(mark: int, ips: seq<Address>): set<Route> {
    set a | a in ips && ParseIP(a).Some? :: Route(mark, ParseIP(a).value)
  }

  /** The text after the first slash, up to the next one. */
  function MaskText(cidr: string): Option<string>
    decreases |cidr|
  {
    if cidr == [] then None
    else if cidr[0] == '/' then Some(UpToSlash(cidr[1..]))
    else MaskText(cidr[1..])
  }

  function UpToSlash(s: string): string {
    if s == [] || s[0] == '/' then [] else [s[0]] + UpToSlash(s[1..])
  }

  /** anyIPRange: all the ranges have mask length 0. */
  predicate AnyIPRange(ips: seq<string>) {
    forall i :: 0 <= i < |ips| ==> MaskText(ips[i]).Some? && Atoi(MaskText(ips[i]).value) == Some(0)
  }

  /** What stands between the first slash and the next one, or the end. */
  ghost predicate HasMask(cidr: string, a: string, mask: string, rest: string) {
    cidr == a + "/" + mask + rest && '/' !in a && '/' !in mask && (rest == "" || rest[0] == '/')
  }

  ghost predicate MaskIsZero(cidr: string) {
    exists a, mask, rest :: HasMask(cidr, a, mask, rest) && Atoi(mask) == Some(0)
  }

  lemma {:induction false} UpToSlashIs(s: string)
    ensures '/' !in UpToSlash(s) && UpToSlash(s) <= s
    ensures |UpToSlash(s)| < |s| ==> s[|UpToSlash(s)|] == '/'
    ensures forall mask, rest :: s == mask + rest && '/' !in mask && (rest == "" || rest[0] == '/') ==>
              UpToSlash(s) == mask
  {
    if s != "" && s[0] != '/' {
      UpToSlashIs(s[1..]);
      forall mask, rest | s == mask + rest && '/' !in mask && (rest == "" || rest[0] == '/')
        ensures UpToSlash(s) == mask
      {
        assert mask != "";
        assert s[1..] == mask[1..] + rest;
      }
    }
  }

  lemma {:induction false} MaskTextIs(cidr: string, a: string, mask: string, rest: string)
    requires HasMask(cidr, a, mask, rest)
    ensures MaskText(cidr) == Some(mask)
  {
    if a == "" {
      assert cidr[1..] == mask + rest;
      UpToSlashIs(cidr[1..]);
    } else {
      assert cidr[1..] == a[1..] + "/" + mask + rest && cidr[0] == a[0];
      assert a[0] in a;
      MaskTextIs(cidr[1..], a[1..], mask, rest);
    }
  }

  lemma {:induction false} MaskTextSplits(cidr: string) returns (a: string, rest: string)
    requires MaskText(cidr).Some?
    ensures HasMask(cidr, a, MaskText(cidr).value, rest)
  {
    if cidr[0] == '/' {
      var mask := UpToSlash(cidr[1..]);
      UpToSlashIs(cidr[1..]);
      a, rest := "", cidr[1 + |mask|..];
      assert cidr == a + "/" + mask + rest;
    } else {
      a, rest := MaskTextSplits(cidr[1..]);
      a := [cidr[0]] + a;
      assert cidr == a + "/" + MaskText(cidr).value + rest;
    }
  }

  /** The ranges match everything exactly when all their masks are zero. */
  lemma AnyIPRangeIs(ips: seq<string>)
    ensures AnyIPRange(ips) <==> forall i :: 0 <= i < |ips| ==> MaskIsZero(ips[i])
  {
    forall i | 0 <= i < |ips|
      ensures MaskIsZero(ips[i]) <==> MaskText(ips[i]).Some? && Atoi(MaskText(ips[i]).value) == Some(0)
    {
      if MaskIsZero(ips[i]) {
        var a, mask, rest :| HasMask(ips[i], a, mask, rest) && Atoi(mask) == Some(0);
        MaskTextIs(ips[i], a, mask, rest);
      }
      if MaskText(ips[i]).Some? {
        var a, rest := MaskTextSplits(ips[i]);
      }
    }
  }

  /** anyPortRange: one of the ranges covers every port. */
  predicate AnyPortRange(ports: seq<string>) {
    MAX_PORT_RANGE in ports
  }

  /** The entry flow-set writes: sources and ports that match everything are left out. */
  function EntryOf(flow: Flow, service: string): FlowEntry {
    FlowEntry(service, flow.priority, flow.protocols, flow.destinationCIDRs,
              if flow.sourceCIDRs.Some? && !AnyIPRange(flow.sourceCIDRs.value) then flow.sourceCIDRs else None,
              if flow.destinationPortRanges.Some? && !AnyPortRange(flow.destinationPortRanges.value)
              then flow.destinationPortRanges else None,
              if flow.sourcePortRanges.Some? && !AnyPortRange(flow.sourcePortRanges.value)
              then flow.sourcePortRanges else None,
              flow.byteMatches)
  }

  function EntryDestinations(e: FlowEntry): seq<Cidr> {
    if e.dsts.None? then [] else e.dsts.value
  }

  /** The destinations of all the flows in a flow table. */
  ghost function Destinations(flows: map<string, FlowEntry>): set<Cidr> {
    set name, c | name in flows && c in EntryDestinations(flows[name]) :: c
  }

  /** The sets hold exactly the host-length destinations of the flows, each in the set of its family. */
  ghost predicate VipsHeld(flows: map<string, FlowEntry>, v4: set<Interval>, v6: set<Interval>) {
    VipsOf(Destinations(flows), v4, v6)
  }

  /** What the sets match then: an address of a family if and only if a flow has it as host-length destination, and it
      is not the last address. */
  lemma FlowsMatched(flows: map<string, FlowEntry>, v4: set<Interval>, v6: set<Interval>, a: Bytes)
    requires VipsHeld(flows, v4, v6)
    ensures |a| == 4 ==> (Matched(v4, a) <==> HostDestination(flows, a, true) && !Wraps(a))
    ensures Matched(v6, a) <==> HostDestination(flows, a, false) && !Wraps(a)
  {
    VipsMatched(Destinations(flows), v4, v6, a);
    HostOfFlow(flows, a, true);
    HostOfFlow(flows, a, false);
  }

  /** A flow has a destination that is this one host of the family. */
  ghost predicate HostDestination(flows: map<string, FlowEntry>, a: Bytes, v4: bool) {
    exists name, c :: DestinationOf(flows, name, c) && IsHost(c, a, v4)
  }

  ghost predicate DestinationOf(flows: map<string, FlowEntry>, name: string, c: Cidr) {
    name in flows && flows[name].dsts.Some? && c in flows[name].dsts.value
  }

  lemma HostOfFlow(flows: map<string, FlowEntry>, a: Bytes, v4: bool)
    ensures a in Hosts(Destinations(flows), v4) <==> HostDestination(flows, a, v4)
  {
    forall c ensures c in Destinations(flows) <==> exists name :: DestinationOf(flows, name, c) {
      if c in Destinations(flows) {
        var name :| name in flows && c in EntryDestinations(flows[name]);
        assert DestinationOf(flows, name, c);
      }
      if name :| DestinationOf(flows, name, c) {
        assert c in EntryDestinations(flows[name]);
      }
    }
    forall c ensures IsHost(c, a, v4) <==>
                     && ParseCIDR(c).Some? && HostLength(ParseCIDR(c).value)
                     && To4(ParseCIDR(c).value.ip).Some? == v4 && Printed(ParseCIDR(c).value.ip) == a
    {
      HostIs(c, a, v4);
    }
    hide ParseCIDR, HostLength, To4, Printed, EntryDestinations, IsHost, DestinationOf, Destinations;
    if HostDestination(flows, a, v4) {
      var name, c :| DestinationOf(flows, name, c) && IsHost(c, a, v4);
      assert c in Destinations(flows);
    }
  }

  lemma NoFlowsNoVips()
    ensures VipsHeld(map[], {}, {})
  {
    assert Destinations(map[]) == {} && Hosts({}, true) == {} && Hosts({}, false) == {};
  }

  /** nfqlb, netlink and nftables. `clean`: no command on a policy route has failed, which callers do not learn. */
  class Backend {
    var shm: map<string, Shm>
    var flows: map<string, FlowEntry>
    var routes: set<Route>
    var clean: bool
    var calls: seq<Call>
    const nfQueue: NfQueue

    constructor ()
      ensures shm == map[] && flows == map[] && routes == {} && clean && calls == []
      ensures SetsApart() && fresh(Footprint()) && VipsInv()
    {
      shm, flows, routes, clean, calls := map[], map[], {}, true, [];
      nfQueue := new NfQueue();
      new;
      NoFlowsNoVips();
    }

    ghost predicate SetsApart() {
      nfQueue.ipv4DestinationSet != nfQueue.ipv6DestinationSet
    }

    /** Everything a command may change. */
    ghost function Footprint(): set<object> {
      {this, nfQueue.ipv4DestinationSet, nfQueue.ipv6DestinationSet}
    }

    /** The sets hold exactly the host-length destinations of the flows in the table. */
    ghost predicate VipsInv()
      reads this`flows, nfQueue.ipv4DestinationSet`elements, nfQueue.ipv6DestinationSet`elements
    {
      VipsHeld(flows, nfQueue.ipv4DestinationSet.elements, nfQueue.ipv6DestinationSet.elements)
    }

    method Init(name: string, n: int) returns (ok: bool)
      modifies this`shm, this`calls
      ensures shm == if ok then old(shm)[name := Shm(n, map[])] else old(shm)
    {
      ok := *;
      calls := calls + [OtherCall];
      if ok {
        shm := shm[name := Shm(n, map[])];
      }
    }

    method Delete(name: string) returns (ok: bool)
      modifies this`shm, this`calls
      ensures shm == if ok then old(shm) - {name} else old(shm)
    {
      ok := *;
      calls := calls + [OtherCall];
      if ok {
        shm := shm - {name};
      }
    }

    /** activate: rejects an index outside the size the shared memory was created with. */
    method Activate(name: string, index: int, mark: int) returns (ok: bool)
      modifies this`shm, this`calls
      ensures ok ==> name in old(shm) && 0 <= index < old(shm)[name].n && shm == Activated(old(shm), name, index, mark)
      ensures !ok ==> shm == old(shm)
      ensures calls == old(calls) + [Call.Activate(name, index)]
    {
      ok := *;
      calls := calls + [Call.Activate(name, index)];
      ok := ok && name in shm && 0 <= index < shm[name].n;
      if ok {
        shm := shm[name := Shm(shm[name].n, shm[name].active[index := mark])];
      }
    }

    method Deactivate(name: string, index: int) returns (ok: bool)
      modifies this`shm, this`calls
      ensures shm == if ok then Deactivated(old(shm), name, index) else old(shm)
      ensures calls == old(calls) + [Call.Deactivate(name, index)]
    {
      ok := *;
      calls := calls + [Call.Deactivate(name, index)];
      if ok && name in shm {
        shm := shm[name := Shm(shm[name].n, shm[name].active - {index})];
      }
    }

    method FlowSet(name: string, entry: FlowEntry) returns (ok: bool)
      modifies this`flows, this`calls
      ensures flows == if ok then old(flows)[name := entry] else old(flows)
    {
      ok := *;
      calls := calls + [OtherCall];
      if ok {
        flows := flows[name := entry];
      }
    }

    method FlowDelete(name: string) returns (ok: bool)
      modifies this`flows, this`calls
      ensures flows == if ok then old(flows) - {name} else old(flows)
    {
      ok := *;
      calls := calls + [OtherCall];
      if ok {
        flows := flows - {name};
      }
    }

    /** flow-list: every flow once, in an arbitrary order. */
    method FlowList() returns (ok: bool, names: seq<string>, listed: map<string, FlowEntry>)
      ensures NoDup(names) && Elements(names) == flows.Keys && listed == flows
    {
      ok := *;
      names, listed := [], flows;
      var todo := flows.Keys;
      while todo != {}
        invariant todo <= flows.Keys && NoDup(names) && Elements(names) == flows.Keys - todo
        decreases todo
      {
        var name :| name in todo;
        assert name !in Elements(names);
        ElementsSnoc(names, name);
        names := names + [name];
        todo := todo - {name};
      }
    }

    /** createPolicyRoute: a failure may also have removed the route that was there. */
    method CreatePolicyRoute(mark: int, ip: Address)
      modifies this`routes, this`clean
      ensures OnlyTouched(old(routes), routes, RoutesTo(mark, [ip]))
      ensures clean ==> old(clean) && routes == old(routes) + RoutesTo(mark, [ip])
    {
      if ParseIP(ip).Some? {
        var r := Route(mark, ParseIP(ip).value);
        var ok: bool, lost: bool := *, *;
        clean := clean && ok;
        routes := if ok then routes + {r} else if lost then routes - {r} else routes;
      }
      OneRoute(mark, ip);
    }

    method DeletePolicyRoute(mark: int, ip: Address)
      modifies this`routes, this`clean
      ensures OnlyTouched(old(routes), routes, RoutesTo(mark, [ip]))
      ensures clean ==> old(clean) && routes == old(routes) - RoutesTo(mark, [ip])
    {
      if ParseIP(ip).Some? {
        var ok: bool := *;
        clean := clean && ok;
        routes := if ok then routes - {Route(mark, ParseIP(ip).value)} else routes;
      }
      OneRoute(mark, ip);
    }

    method CreatePolicyRoutes(mark: int, ips: seq<Address>)
      modifies this`routes, this`clean
      ensures OnlyTouched(old(routes), routes, RoutesTo(mark, ips))
      ensures clean ==> old(clean) && routes == old(routes) + RoutesTo(mark, ips)
    {
      for i := 0 to |ips|
        invariant OnlyTouched(old(routes), routes, RoutesTo(mark, ips[..i]))
        invariant clean ==> old(clean) && routes == old(routes) + RoutesTo(mark, ips[..i])
      {
        RoutesToSnoc(mark, ips, i);
        ghost var before := routes;
        CreatePolicyRoute(mark, ips[i]);
        TouchedMore(old(routes), before, routes, RoutesTo(mark, ips[..i]), RoutesTo(mark, [ips[i]]));
      }
      assert ips[..|ips|] == ips;
    }

    method DeletePolicyRoutes(mark: int, ips: seq<Address>)
      modifies this`routes, this`clean
      ensures OnlyTouched(old(routes), routes, RoutesTo(mark, ips))
      ensures clean ==> old(clean) && routes == old(routes) - RoutesTo(mark, ips)
    {
      for i := 0 to |ips|
        invariant OnlyTouched(old(routes), routes, RoutesTo(mark, ips[..i]))
        invariant clean ==> old(clean) && routes == old(routes) - RoutesTo(mark, ips[..i])
      {
        RoutesToSnoc(mark, ips, i);
        ghost var before := routes;
        DeletePolicyRoute(mark, ips[i]);
        TouchedMore(old(routes), before, routes, RoutesTo(mark, ips[..i]), RoutesTo(mark, [ips[i]]));
      }
      assert ips[..|ips|] == ips;
    }

    /** updateNfQueueDestinationCIDRs: the destinations of the listed flows go into the sets. */
    method UpdateNfQueueDestinationCIDRs() returns (err: bool)
      requires SetsApart()
      modifies nfQueue.ipv4DestinationSet`elements, nfQueue.ipv6DestinationSet`elements
      ensures !err ==> VipsInv()
    {
      var ok, names, listed := FlowList();
      if !ok {
        return true;
      }
      var destinationCIDRs := CollectDestinations(names);
      err := nfQueue.SetDestinationCIDRs(destinationCIDRs);
    }

    method CollectDestinations(names: seq<string>) returns (cidrs: seq<Cidr>)
      requires Elements(names) == flows.Keys
      ensures Elements(cidrs) == Destinations(flows)
    {
      cidrs := [];
      for i := 0 to |names|
        invariant forall c :: c in cidrs <==> exists k :: 0 <= k < i && c in EntryDestinations(flows[names[k]])
      {
        cidrs := cidrs + EntryDestinations(flows[names[i]]);
      }
      forall c ensures c in Elements(cidrs) <==> c in Destinations(flows) {
        if c in Destinations(flows) {
          var name :| name in flows && c in EntryDestinations(flows[name]);
          var k :| 0 <= k < |names| && names[k] == name;
        }
      }
    }
  }

  /** No route outside `some` came or went. */
  ghost predicate OnlyTouched(before: set<Route>, after: set<Route>, some: set<Route>) {
    before - some == after - some
  }

  lemma TouchedMore(before: set<Route>, between: set<Route>, after: set<Route>, first: set<Route>, second: set<Route>)
    requires OnlyTouched(before, between, first) && OnlyTouched(between, after, second)
    ensures OnlyTouched(before, after, first + second)
  {
    assert before - (first + second) == (before - first) - second;
    assert after - (first + second) == (after - second) - first;
    assert between - (first + second) == (between - first) - second == (between - second) - first;
  }

  lemma OneRoute(mark: int, ip: Address)
    ensures RoutesTo(mark, [ip]) == if ParseIP(ip).Some? then {Route(mark, ParseIP(ip).value)} else {}
  {
  }

  lemma RoutesToSnoc(mark: int, ips: seq<Address>, i: nat)
    requires i < |ips|
    ensures RoutesTo(mark, ips[..i + 1]) == RoutesTo(mark, ips[..i]) + RoutesTo(mark, [ips[i]])
  {
    assert ips[..i + 1] == ips[..i] + [ips[i]];
    assert forall a :: a in ips[..i + 1] <==> a in ips[..i] || a in [ips[i]];
  }

  /** Service: a nfqlb service instantiated with nfqlb init. */
  class Service {
    const name: string
    const maxTargets: int
    const offset: int
    const backend: Backend
    var targets: map<int, seq<Address>>

    constructor (name: string, maxTargets: int, offset: int, backend: Backend)
      ensures this.name == name && this.maxTargets == maxTargets && this.offset == offset
      ensures this.backend == backend && targets == map[]
    {
      this.name, this.maxTargets, this.offset, this.backend := name, maxTargets, offset, backend;
      targets := map[];
    }

    /** AddTarget: activates the identifier and routes its mark; nothing happens when it is already a target. A route
        that cannot be created is no error. */
    method AddTarget(ips: seq<Address>, identifier: int) returns (err: bool)
      modifies this`targets, backend`shm, backend`routes, backend`clean, backend`calls
      ensures SameSizes(backend.shm, old(backend.shm))
      ensures identifier in old(targets) ==>
                && !err && targets == old(targets) && backend.shm == old(backend.shm)
                && backend.calls == old(backend.calls) && backend.routes == old(backend.routes)
                    && backend.clean == old(backend.clean)
      ensures identifier !in old(targets) ==> backend.calls == old(backend.calls) + [Activate(name, identifier)]
      ensures err ==> targets == old(targets) && backend.shm == old(backend.shm)
      ensures err ==> backend.routes == old(backend.routes) && backend.clean == old(backend.clean)
      ensures identifier !in old(targets) && !err ==>
                && name in old(backend.shm) && 0 <= identifier < old(backend.shm)[name].n
                && targets == old(targets)[identifier := ips]
                && backend.shm == Activated(old(backend.shm), name, identifier, identifier + offset)
                && OnlyTouched(old(backend.routes), backend.routes, RoutesTo(identifier + offset, ips))
                && (backend.clean ==>
                      old(backend.clean) && backend.routes == old(backend.routes) + RoutesTo(identifier + offset, ips))
    {
      if identifier in targets {
        return false;
      }
      var ok := backend.Activate(name, identifier, identifier + offset);
      if !ok {
        return true;
      }
      targets := targets[identifier := ips];
      backend.CreatePolicyRoutes(identifier + offset, ips);
      return false;
    }

    /** DeleteTarget: the identifier is forgotten first; a failed command leaves it activated and its routes in place. A
        route that cannot be deleted is no error. */
    method DeleteTarget(ips: seq<Address>, identifier: int) returns (err: bool)
      modifies this`targets, backend`shm, backend`routes, backend`clean, backend`calls
      ensures SameSizes(backend.shm, old(backend.shm))
      ensures identifier !in old(targets) ==>
                && !err && targets == old(targets) && backend.shm == old(backend.shm)
                && backend.calls == old(backend.calls) && backend.routes == old(backend.routes)
                    && backend.clean == old(backend.clean)
      ensures identifier in old(targets) ==> backend.calls == old(backend.calls) + [Deactivate(name, identifier)]
      ensures targets == old(targets) - {identifier}
      ensures err ==>
                backend.shm == old(backend.shm) && backend.routes == old(backend.routes)
                    && backend.clean == old(backend.clean)
      ensures identifier in old(targets) && !err ==>
                && backend.shm == Deactivated(old(backend.shm), name, identifier)
                && OnlyTouched(old(backend.routes), backend.routes, RoutesTo(identifier + offset, ips))
                && (backend.clean ==>
                      old(backend.clean) && backend.routes == old(backend.routes) - RoutesTo(identifier + offset, ips))
    {
      if identifier !in targets {
        assert targets == old(targets) - {identifier};
        return false;
      }
      targets := targets - {identifier};
      var ok := backend.Deactivate(name, identifier);
      if !ok {
        return true;
      }
      backend.DeletePolicyRoutes(identifier + offset, ips);
      return false;
    }

    /** AddFlow: sets the flow, then refreshes the destination sets. */
    method AddFlow(flow: Flow) returns (err: bool)
      requires backend.SetsApart()
      modifies backend`flows, backend`calls
      modifies backend.nfQueue.ipv4DestinationSet`elements, backend.nfQueue.ipv6DestinationSet`elements
      ensures backend.flows == old(backend.flows)
               || backend.flows == old(backend.flows)[flow.name := EntryOf(flow, name)]
      ensures !err ==> backend.flows == old(backend.flows)[flow.name := EntryOf(flow, name)]
      ensures !err ==> backend.VipsInv()
    {
      var ok := backend.FlowSet(flow.name, EntryOf(flow, name));
      if !ok {
        return true;
      }
      err := backend.UpdateNfQueueDestinationCIDRs();
    }

    /** DeleteFlow: deletes the flow by its name, then refreshes the destination sets. */
    method DeleteFlow(flowName: string) returns (err: bool)
      requires backend.SetsApart()
      modifies backend`flows, backend`calls
      modifies backend.nfQueue.ipv4DestinationSet`elements, backend.nfQueue.ipv6DestinationSet`elements
      ensures backend.flows == old(backend.flows) || backend.flows == old(backend.flows) - {flowName}
      ensures !err ==> backend.flows == old(backend.flows) - {flowName}
      ensures !err ==> backend.VipsInv()
    {
      var ok := backend.FlowDelete(flowName);
      if !ok {
        return true;
      }
      err := backend.UpdateNfQueueDestinationCIDRs();
    }
  }

  function TargetRoutes(offset: int, targets: map<int, seq<Address>>, id: int): set<Route>
    requires id in targets
  {
    RoutesTo(id + offset, targets[id])
  }

  /** The routes of the recorded targets of a service. */
  ghost function ServiceRoutes(offset: int, targets: map<int, seq<Address>>): set<Route> {
    set id, r | id in targets && r in TargetRoutes(offset, targets, id) :: r
  }

  lemma ServiceRoutesWithout(offset: int, targets: map<int, seq<Address>>, id: int)
    requires id in targets
    ensures ServiceRoutes(offset, targets) == ServiceRoutes(offset, targets - {id}) + RoutesTo(id + offset, targets[id])
  {
    hide RoutesTo;
    var rest := targets - {id};
    forall r ensures r in ServiceRoutes(offset, targets) <==>
                     r in ServiceRoutes(offset, rest) || r in TargetRoutes(offset, targets, id)
    {
      if r in ServiceRoutes(offset, targets) {
        var k :| k in targets && r in TargetRoutes(offset, targets, k);
        assert k != id ==> k in rest && r in TargetRoutes(offset, rest, k);
      }
      if r in ServiceRoutes(offset, rest) {
        var k :| k in rest && r in TargetRoutes(offset, rest, k);
        assert r in TargetRoutes(offset, targets, k);
      }
    }
  }

  function FlowsExcept(flows: map<string, FlowEntry>, service: string): map<string, FlowEntry> {
    map name | name in flows && flows[name].target != service :: flows[name]
  }
}
