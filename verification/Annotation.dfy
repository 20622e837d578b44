/** The network annotation of a pod: virtual IPs and policy routes of each proxy.
    pkg/controllers/statelessloadbalancer/podinjector/network/networkattachmentannotation.go.

    Elements are as they read after a JSON round trip: numbers are floating point, lists hold values of any kind. */
module Annotation {
  import opened Prelude

  const PROXY := "service.kubernetes.io/service-proxy-name"
  const VIP_NAD := "vip"
  const POLICY_ROUTE_NAD := "policy-route"
  const FIRST_TABLE := 5000

  datatype Json = Str(s: string) | Num(n: real) | List(items: seq<Json>) | Object(fields: map<string, Json>) | Other

  /** A network selection element; `rest` stands for the fields that are not looked at. */
  datatype Element = Element(name: string, cniArgs: Option<map<string, Json>>, rest: string)

  /** The wishes of one call. */
  datatype Wish = Wish(vip4: seq<string>, vip6: seq<string>, gw4: seq<string>, gw6: seq<string>)

  predicate Managed(e: Element, proxy: string) {
    e.cniArgs.Some? && PROXY in e.cniArgs.value && e.cniArgs.value[PROXY] == Str(proxy)
  }

  /** The elements of a proxy, and all the others, in order. */
  function Own(es: seq<Element>, proxy: string): (r: seq<Element>)
    ensures forall e :: e in r <==> e in es && Managed(e, proxy)
  {
    if es == [] then []
    else
      var init, last := Own(es[..|es| - 1], proxy), es[|es| - 1];
      assert es == es[..|es| - 1] + [last];
      if Managed(last, proxy) then init + [last] else init
  }

  function Foreign(es: seq<Element>, proxy: string): (r: seq<Element>)
    ensures forall e :: e in r <==> e in es && !Managed(e, proxy)
  {
    if es == [] then []
    else
      var init, last := Foreign(es[..|es| - 1], proxy), es[|es| - 1];
      assert es == es[..|es| - 1] + [last];
      if Managed(last, proxy) then init else init + [last]
  }

  // ---------------------------------------------------------------------------------------------
  // Routing tables.

  /** The conversion of a floating-point number to an integer drops the fraction. */
  function Truncate(n: real): int {
    if n >= 0.0 then n.Floor else -(-n).Floor
  }

  /** The routing table of an element, when it is a policy route that names one. */
  function Table(e: Element): Option<int> {
    if e.cniArgs.Some? && e.name == POLICY_ROUTE_NAD && "tableId" in e.cniArgs.value && e.cniArgs.value["tableId"].Num?
    then Some(Truncate(e.cniArgs.value["tableId"].n)) else None
  }

  function Tables(es: seq<Element>): (r: set<int>)
    ensures forall t :: t in r <==> exists e :: e in es && Table(e) == Some(t)
  {
    set e | e in es && Table(e).Some? :: Table(e).value
  }

  /** The integers from FIRST_TABLE up to a bound. */
  function TablesBelow(n: nat): (r: set<int>)
    ensures forall t :: t in r <==> FIRST_TABLE <= t < FIRST_TABLE + n
    ensures |r| == n
  {
    if n == 0 then {} else TablesBelow(n - 1) + {FIRST_TABLE + n - 1}
  }

  /** A policy route on table `t`; the fraction of a table number is dropped. */
  ghost predicate UsesTable(e: Element, t: int) {
    && e.name == "policy-route" && e.cniArgs.Some? && "tableId" in e.cniArgs.value && e.cniArgs.value["tableId"].Num?
    && var n := e.cniArgs.value["tableId"].n;
       if n >= 0.0 then t as real <= n < (t + 1) as real else (t - 1) as real < n <= t as real
  }

  ghost predicate TableUsed(es: seq<Element>, t: int) {
    exists e :: e in es && UsesTable(e, t)
  }

  lemma TableIs(e: Element, t: int)
    ensures Table(e) == Some(t) <==> UsesTable(e, t)
  {
  }

  /** getFreeTableID: the least table that is not in use. As many steps as there are tables in use are enough. */
  method GetFreeTableID(es: seq<Element>) returns (tableID: int)
    ensures tableID >= FIRST_TABLE && tableID !in Tables(es)
    ensures forall t :: FIRST_TABLE <= t < tableID ==> t in Tables(es)
    ensures tableID >= 5000 && !TableUsed(es, tableID) && forall t :: 5000 <= t < tableID ==> TableUsed(es, t)
  {
    forall t ensures t in Tables(es) <==> TableUsed(es, t) {
      forall e ensures Table(e) == Some(t) <==> UsesTable(e, t) {
        TableIs(e, t);
      }
    }
    hide Table, TableUsed;
    var used: set<int> := {};
    for i := 0 to |es|
      invariant used == Tables(es[..i])
    {
      assert es[..i + 1] == es[..i] + [es[i]];
      if Table(es[i]).None? {
        continue;
      }
      used := used + {Table(es[i]).value};
    }
    assert es[..|es|] == es;
    tableID := FIRST_TABLE;
    for i := 0 to |used|
      invariant tableID == FIRST_TABLE + i && TablesBelow(i) <= used
    {
      if tableID !in used {
        return;
      }
      tableID := tableID + 1;
    }
    SubsetCount(TablesBelow(|used|), used);
  }

  /** There is only one least table: the call decides it. */
  lemma FreeTableIsUnique(es: seq<Element>, a: int, b: int)
    requires a >= FIRST_TABLE && a !in Tables(es) && forall t :: FIRST_TABLE <= t < a ==> t in Tables(es)
    requires b >= FIRST_TABLE && b !in Tables(es) && forall t :: FIRST_TABLE <= t < b ==> t in Tables(es)
    ensures a == b
  {
    assert a < b ==> a in Tables(es);
    assert b < a ==> b in Tables(es);
  }

  // ---------------------------------------------------------------------------------------------
  // The elements of a proxy.

  function ToStr(s: string): Json {
    Str(s)
  }

  function Strs(ss: seq<string>): seq<Json> {
    Mapped(ToStr, ss)
  }

  function VipElement(proxy: string, vip: string): Element {
    Element(VIP_NAD, Some(map[PROXY := Str(proxy), "vip" := Str(vip)]), "")
  }

  function VipElements(proxy: string, vips: seq<string>): seq<Element> {
    seq(|vips|, i requires 0 <= i < |vips| => VipElement(proxy, vips[i]))
  }

  function PolicyRoute(vip: string): Json {
    Object(map["srcPrefix" := Str(vip)])
  }

  function PolicyRoutes(vips: seq<string>): seq<Json> {
    Mapped(PolicyRoute, vips)
  }

  function RouteElement(proxy: string, tableID: int, gateways: seq<string>, vips: seq<string>): Element {
    Element(POLICY_ROUTE_NAD, Some(map[PROXY := Str(proxy), "tableId" := Num(tableID as real),
                                       "gateways" := List(Strs(gateways)),
                                       "policyRoutes" := List(PolicyRoutes(vips))]), "")
  }

  function RouteElements(proxy: string, tableID: int, gateways: seq<string>, vips: seq<string>): seq<Element> {
    if gateways != [] && vips != [] then [RouteElement(proxy, tableID, gateways, vips)] else []
  }

  /** What a call that rebuilds the elements of a proxy appends. */
  function Build(proxy: string, w: Wish, tableID: int): seq<Element> {
    VipElements(proxy, w.vip4) + VipElements(proxy, w.vip6)
    + RouteElements(proxy, tableID, w.gw4, w.vip4) + RouteElements(proxy, tableID, w.gw6, w.vip6)
  }

  /** The virtual IPs and the gateways that elements mention. */
  function VipOf(e: Element): Option<string> {
    if e.cniArgs.Some? && e.name == VIP_NAD && "vip" in e.cniArgs.value && e.cniArgs.value["vip"].Str?
    then Some(e.cniArgs.value["vip"].s) else None
  }

  function GatewaysOf(e: Element): set<string> {
    if e.cniArgs.Some? && e.name == POLICY_ROUTE_NAD && "gateways" in e.cniArgs.value
        && e.cniArgs.value["gateways"].List?
    then set g | g in e.cniArgs.value["gateways"].items && g.Str? :: g.s else {}
  }

  function Vips(es: seq<Element>): (r: set<string>)
    ensures forall v :: v in r <==> exists e :: e in es && VipOf(e) == Some(v)
  {
    set e | e in es && VipOf(e).Some? :: VipOf(e).value
  }

  function Gateways(es: seq<Element>): (r: set<string>)
    ensures forall g :: g in r <==> exists e :: e in es && g in GatewaysOf(e)
  {
    set e, g | e in es && g in GatewaysOf(e) :: g
  }

  /** getVIPsGatewaysFromNetworkSelectionElements. */
  method GetVIPsGateways(es: seq<Element>) returns (vips: set<string>, gateways: set<string>)
    ensures vips == Vips(es) && gateways == Gateways(es)
  {
    vips, gateways := {}, {};
    for i := 0 to |es|
      invariant vips == Vips(es[..i]) && gateways == Gateways(es[..i])
    {
      MentionedNext(es, i);
      var e := es[i];
      if e.cniArgs.None? {
        continue;
      }
      var args := e.cniArgs.value;
      if e.name == VIP_NAD {
        if "vip" !in args || !args["vip"].Str? {
          continue;
        }
        vips := vips + {args["vip"].s};
      } else if e.name == POLICY_ROUTE_NAD {
        if "gateways" !in args || !args["gateways"].List? {
          continue;
        }
        gateways := AddTexts(gateways, args["gateways"].items);
      }
    }
    assert es[..|es|] == es;
  }

  /** The inner loop: the texts of a list. */
  method AddTexts(before: set<string>, items: seq<Json>) returns (after: set<string>)
    ensures after == before + set g | g in items && g.Str? :: g.s
  {
    after := before;
    for k := 0 to |items|
      invariant after == before + (set g | g in items[..k] && g.Str? :: g.s)
    {
      assert items[..k + 1] == items[..k] + [items[k]];
      if items[k].Str? {
        after := after + {items[k].s};
      }
    }
    assert items[..|items|] == items;
  }

  lemma MentionedNext(es: seq<Element>, i: nat)
    requires i < |es|
    ensures Vips(es[..i + 1]) == Vips(es[..i]) + (if VipOf(es[i]).Some? then {VipOf(es[i]).value} else {})
    ensures Gateways(es[..i + 1]) == Gateways(es[..i]) + GatewaysOf(es[i])
  {
    assert es[..i + 1] == es[..i] + [es[i]];
    assert forall e :: e in es[..i + 1] <==> e in es[..i] || e == es[i];
  }

  /** equalMapSlice: the list has exactly the elements of the set (repetitions do not matter here). */
  method EqualMapSlice(m: set<string>, list: seq<string>) returns (equal: bool)
    ensures equal <==> Elements(list) == m
  {
    var sliceMap: set<string> := {};
    for i := 0 to |list|
      invariant sliceMap == Elements(list[..i]) <= m
    {
      assert list[..i + 1] == list[..i] + [list[i]];
      if list[i] !in m {
        assert list[i] in Elements(list);
        return false;
      }
      sliceMap := sliceMap + {list[i]};
    }
    assert list[..|list|] == list;
    SubsetCount(sliceMap, m);
    return |sliceMap| == |m|;
  }

  ghost predicate Accepts(es: seq<Element>, w: Wish) {
    && NoDup(w.vip4 + w.vip6) && Elements(w.vip4 + w.vip6) == Vips(es)
    && NoDup(w.gw4 + w.gw6) && Elements(w.gw4 + w.gw6) == Gateways(es)
  }

  /** equalVIPsGateways: the wishes repeat nothing, and are exactly what the elements mention. */
  method EqualVIPsGateways(es: seq<Element>, w: Wish) returns (equal: bool)
    ensures equal <==> Accepts(es, w)
  {
    var currentVIPs, currentGateways := GetVIPsGateways(es);
    DistinctCount(w.vip4 + w.vip6);
    DistinctCount(w.gw4 + w.gw6);
    if |currentVIPs| != |w.vip4| + |w.vip6| || |currentGateways| != |w.gw4| + |w.gw6| {
      return false;
    }
    var equalVIPs := EqualMapSlice(currentVIPs, w.vip4 + w.vip6);
    if !equalVIPs {
      return false;
    }
    equal := EqualMapSlice(currentGateways, w.gw4 + w.gw6);
  }

  ghost predicate IsFree(es: seq<Element>, t: int) {
    t >= FIRST_TABLE && t !in Tables(es) && forall k :: FIRST_TABLE <= k < t ==> k in Tables(es)
  }

  ghost predicate Rebuilt(es: seq<Element>, proxy: string, w: Wish, t: int, r: seq<Element>) {
    IsFree(es, t) && r == Foreign(es, proxy) + Build(proxy, w, t)
  }

  /** The list after one call: as it was when the elements of the proxy are accepted, rebuilt otherwise. */
  ghost predicate Updates(es: seq<Element>, proxy: string, w: Wish, r: seq<Element>) {
    if Accepts(Own(es, proxy), w) then r == es else exists t :: Rebuilt(es, proxy, w, t, r)
  }

  // ---------------------------------------------------------------------------------------------
  // What rebuilt elements say to a reader.

  datatype Reading =
    | VipReading(proxy: string, vip: string)
    | RouteReading(proxy: string, table: real, gateways: seq<string>, sources: seq<string>)
    | Unreadable

  predicate IsSource(j: Json) {
    j.Object? && j.fields.Keys == {"srcPrefix"} && j.fields["srcPrefix"].Str?
  }

  /** An element with its fields by their names: a virtual IP, or a policy route with its table, its gateways and the
      source prefixes that it is for. */
  function Read(e: Element): Reading {
    var args := if e.cniArgs.Some? then e.cniArgs.value else map[];
    if "service.kubernetes.io/service-proxy-name" !in args || !args["service.kubernetes.io/service-proxy-name"].Str?
    then Unreadable
    else
      var proxy := args["service.kubernetes.io/service-proxy-name"].s;
      if e.name == "vip" && "vip" in args && args["vip"].Str? then VipReading(proxy, args["vip"].s)
      else if e.name == "policy-route" && "tableId" in args && args["tableId"].Num?
              && "gateways" in args && args["gateways"].List? && "policyRoutes" in args && args["policyRoutes"].List?
              && (forall i :: 0 <= i < |args["gateways"].items| ==> args["gateways"].items[i].Str?)
              && (forall i :: 0 <= i < |args["policyRoutes"].items| ==> IsSource(args["policyRoutes"].items[i]))
      then
        var (gateways, sources) := (args["gateways"].items, args["policyRoutes"].items);
        RouteReading(proxy, args["tableId"].n, seq(|gateways|, i requires 0 <= i < |gateways| => gateways[i].s),
                     seq(|sources|, i requires 0 <= i < |sources| => sources[i].fields["srcPrefix"].s))
      else Unreadable
  }

  function Readings(es: seq<Element>): seq<Reading> {
    Mapped(Read, es)
  }

  function VipReadings(proxy: string, vips: seq<string>): seq<Reading> {
    seq(|vips|, i requires 0 <= i < |vips| => VipReading(proxy, vips[i]))
  }

  function RouteReadings(proxy: string, t: int, gateways: seq<string>, vips: seq<string>): seq<Reading> {
    if gateways != [] && vips != [] then [RouteReading(proxy, t as real, gateways, vips)] else []
  }

  /** The elements of all others, followed by one element per virtual IP, and one policy route per family that has
      gateways and virtual IPs: to these gateways, for these sources, on the free table. */
  ghost predicate RebuiltAs(es: seq<Element>, proxy: string, w: Wish, t: int, own: seq<Element>, r: seq<Element>) {
    && IsFree(es, t) && r == Foreign(es, proxy) + own
    && Readings(own) == VipReadings(proxy, w.vip4) + VipReadings(proxy, w.vip6)
                        + RouteReadings(proxy, t, w.gw4, w.vip4) + RouteReadings(proxy, t, w.gw6, w.vip6)
  }

  lemma ReadVips(proxy: string, vips: seq<string>)
    ensures Readings(VipElements(proxy, vips)) == VipReadings(proxy, vips)
  {
  }

  lemma ReadRoutes(proxy: string, t: int, gateways: seq<string>, vips: seq<string>)
    ensures Readings(RouteElements(proxy, t, gateways, vips)) == RouteReadings(proxy, t, gateways, vips)
  {
    if gateways != [] && vips != [] {
      var args := RouteElement(proxy, t, gateways, vips).cniArgs.value;
      assert args["gateways"] == List(Strs(gateways)) && args["policyRoutes"] == List(PolicyRoutes(vips));
      forall i | 0 <= i < |vips| ensures IsSource(PolicyRoutes(vips)[i]) {
        assert map["srcPrefix" := Str(vips[i])].Keys == {"srcPrefix"};
      }
      var reading := Read(RouteElement(proxy, t, gateways, vips));
      assert reading.RouteReading? && reading.gateways == gateways && reading.sources == vips;
    }
  }

  lemma ReadConcat(a: seq<Element>, b: seq<Element>)
    ensures Readings(a + b) == Readings(a) + Readings(b)
  {
    hide Read;
  }

  lemma ReadBuild(proxy: string, w: Wish, t: int)
    ensures Readings(Build(proxy, w, t)) ==
            VipReadings(proxy, w.vip4) + VipReadings(proxy, w.vip6)
            + RouteReadings(proxy, t, w.gw4, w.vip4) + RouteReadings(proxy, t, w.gw6, w.vip6)
  {
    var (a, b) := (VipElements(proxy, w.vip4), VipElements(proxy, w.vip6));
    var (c, d) := (RouteElements(proxy, t, w.gw4, w.vip4), RouteElements(proxy, t, w.gw6, w.vip6));
    ReadVips(proxy, w.vip4);
    ReadVips(proxy, w.vip6);
    ReadRoutes(proxy, t, w.gw4, w.vip4);
    ReadRoutes(proxy, t, w.gw6, w.vip6);
    ReadConcat(a, b);
    ReadConcat(a + b, c);
    ReadConcat(a + b + c, d);
    assert Build(proxy, w, t) == a + b + c + d;
    hide *;
  }

  /** getNetworkAttachmentAnnotation. */
  method GetNetworkAttachmentAnnotation(es: seq<Element>, proxy: string, w: Wish) returns (r: seq<Element>)
    ensures Updates(es, proxy, w, r)
    ensures !Accepts(Own(es, proxy), w) ==> exists t, own :: RebuiltAs(es, proxy, w, t, own, r)
  {
    var managed: seq<Element> := [];
    r := [];
    for i := 0 to |es|
      invariant managed == Own(es[..i], proxy) && r == Foreign(es[..i], proxy)
    {
      assert es[..i + 1][..i] == es[..i];
      if es[i].cniArgs.Some? && PROXY in es[i].cniArgs.value && es[i].cniArgs.value[PROXY] == Str(proxy) {
        managed := managed + [es[i]];
        continue;
      }
      r := r + [es[i]];
    }
    assert es[..|es|] == es;
    var equal := EqualVIPsGateways(managed, w);
    if equal {
      return es;
    }
    var tableID := GetFreeTableID(es);
    var policyRoutes4, policyRoutes6;
    r, policyRoutes4 := AppendVIPs(r, proxy, w.vip4);
    r, policyRoutes6 := AppendVIPs(r, proxy, w.vip6);
    r := AppendRoute(r, proxy, tableID, w.gw4, w.vip4, policyRoutes4);
    r := AppendRoute(r, proxy, tableID, w.gw6, w.vip6, policyRoutes6);
    BuildParts(Foreign(es, proxy), proxy, w, tableID);
    assert Rebuilt(es, proxy, w, tableID, r);
    ReadBuild(proxy, w, tableID);
    hide Accepts, Own, Foreign, Build, Readings, VipReadings, RouteReadings;
    assert RebuiltAs(es, proxy, w, tableID, Build(proxy, w, tableID), r);
  }

  lemma BuildParts(es: seq<Element>, proxy: string, w: Wish, t: int)
    ensures es + VipElements(proxy, w.vip4) + VipElements(proxy, w.vip6)
            + RouteElements(proxy, t, w.gw4, w.vip4) + RouteElements(proxy, t, w.gw6, w.vip6) == es + Build(proxy, w, t)
  {
    hide VipElements, RouteElements;
  }

  /** One element with all the gateways and policy routes of a family, when there are any of both. */
  method AppendRoute(es: seq<Element>, proxy: string, tableID: int, gateways: seq<string>, ghost vips: seq<string>,
                     policyRoutes: seq<Json>) returns (r: seq<Element>)
    requires policyRoutes == PolicyRoutes(vips)
    ensures r == es + RouteElements(proxy, tableID, gateways, vips)
  {
    r := es;
    if |gateways| > 0 && |policyRoutes| > 0 {
      r := r + [Element(POLICY_ROUTE_NAD, Some(map[PROXY := Str(proxy), "tableId" := Num(tableID as real),
                                                   "gateways" := List(Strs(gateways)),
                                                   "policyRoutes" := List(policyRoutes)]), "")];
    }
  }

  /** One element and one policy route per virtual IP. */
  method AppendVIPs(es: seq<Element>, proxy: string, vips: seq<string>)
    returns (r: seq<Element>, policyRoutes: seq<Json>)
    ensures r == es + VipElements(proxy, vips) && policyRoutes == PolicyRoutes(vips)
  {
    r, policyRoutes := es, [];
    for i := 0 to |vips|
      invariant r == es + VipElements(proxy, vips[..i]) && policyRoutes == PolicyRoutes(vips[..i])
    {
      r := r + [VipElement(proxy, vips[i])];
      policyRoutes := policyRoutes + [PolicyRoute(vips[i])];
      assert VipElements(proxy, vips[..i + 1]) == VipElements(proxy, vips[..i]) + [VipElement(proxy, vips[i])];
    }
    assert vips[..|vips|] == vips;
  }

  // ---------------------------------------------------------------------------------------------
  // The elements of others.

  lemma {:induction false} OwnConcat(a: seq<Element>, b: seq<Element>, proxy: string)
    ensures Own(a + b, proxy) == Own(a, proxy) + Own(b, proxy)
    ensures Foreign(a + b, proxy) == Foreign(a, proxy) + Foreign(b, proxy)
  {
    hide *;
    if b == [] {
      OwnNothing(proxy);
      assert a + b == a && Own(a, proxy) + [] == Own(a, proxy) && Foreign(a, proxy) + [] == Foreign(a, proxy);
    } else {
      var init, last := b[..|b| - 1], b[|b| - 1];
      OwnConcat(a, init, proxy);
      SnocInit(b);
      OwnConcatSnoc(a, init, last, proxy);
    }
  }

  lemma OwnConcatSnoc(a: seq<Element>, init: seq<Element>, last: Element, proxy: string)
    requires Own(a + init, proxy) == Own(a, proxy) + Own(init, proxy)
    requires Foreign(a + init, proxy) == Foreign(a, proxy) + Foreign(init, proxy)
    ensures Own(a + (init + [last]), proxy) == Own(a, proxy) + Own(init + [last], proxy)
    ensures Foreign(a + (init + [last]), proxy) == Foreign(a, proxy) + Foreign(init + [last], proxy)
  {
    hide *;
    Associative(a, init, [last]);
    OwnSnoc(a + init, last, proxy);
    OwnSnoc(init, last, proxy);
    Associative(Own(a, proxy), Own(init, proxy), [last]);
    Associative(Foreign(a, proxy), Foreign(init, proxy), [last]);
  }

  lemma OwnNothing(proxy: string)
    ensures Own([], proxy) == [] && Foreign([], proxy) == []
  {
  }

  lemma OwnSnoc(es: seq<Element>, e: Element, proxy: string)
    ensures Own(es + [e], proxy) == if Managed(e, proxy) then Own(es, proxy) + [e] else Own(es, proxy)
    ensures Foreign(es + [e], proxy) == if Managed(e, proxy) then Foreign(es, proxy) else Foreign(es, proxy) + [e]
  {
    assert (es + [e])[..|es|] == es;
  }

  lemma {:induction false} AllOwn(es: seq<Element>, proxy: string)
    requires forall e :: e in es ==> Managed(e, proxy)
    ensures Own(es, proxy) == es && Foreign(es, proxy) == []
    ensures forall q :: q != proxy ==> Own(es, q) == []
  {
    if es != [] {
      AllOwn(es[..|es| - 1], proxy);
      assert es == es[..|es| - 1] + [es[|es| - 1]];
    }
  }

  lemma {:induction false} OwnOfForeign(es: seq<Element>, proxy: string)
    ensures Own(Foreign(es, proxy), proxy) == [] && Foreign(Foreign(es, proxy), proxy) == Foreign(es, proxy)
    ensures forall q :: q != proxy ==> Own(Foreign(es, proxy), q) == Own(es, q)
  {
    if es != [] {
      var init, last := es[..|es| - 1], es[|es| - 1];
      OwnOfForeign(init, proxy);
      if !Managed(last, proxy) {
        assert (Foreign(init, proxy) + [last])[..|Foreign(init, proxy)|] == Foreign(init, proxy);
      }
    }
  }

  lemma BuildIsOwn(proxy: string, w: Wish, t: int)
    ensures forall e :: e in Build(proxy, w, t) ==> Managed(e, proxy)
    ensures Own(Build(proxy, w, t), proxy) == Build(proxy, w, t) && Foreign(Build(proxy, w, t), proxy) == []
    ensures forall q :: q != proxy ==> Own(Build(proxy, w, t), q) == []
  {
    AllOwn(Build(proxy, w, t), proxy);
  }

  /** A call leaves the elements of others as they are, in order. */
  lemma ForeignSurvive(es: seq<Element>, proxy: string, w: Wish, r: seq<Element>)
    requires Updates(es, proxy, w, r)
    ensures Foreign(r, proxy) == Foreign(es, proxy)
    ensures forall q :: q != proxy ==> Own(r, q) == Own(es, q)
    ensures !Accepts(Own(es, proxy), w) ==> exists t :: IsFree(es, t) && Own(r, proxy) == Build(proxy, w, t)
  {
    if !Accepts(Own(es, proxy), w) {
      var t :| Rebuilt(es, proxy, w, t, r);
      OwnOfForeign(es, proxy);
      BuildIsOwn(proxy, w, t);
      OwnConcat(Foreign(es, proxy), Build(proxy, w, t), proxy);
      forall q | q != proxy ensures Own(r, q) == Own(es, q) {
        OwnConcat(Foreign(es, proxy), Build(proxy, w, t), q);
      }
    }
  }

  /** No two proxies use one routing table. */
  ghost predicate TablesApart(es: seq<Element>) {
    forall p, q :: p != q ==> Tables(Own(es, p)) !! Tables(Own(es, q))
  }

  lemma BuildTables(proxy: string, w: Wish, t: int)
    ensures Tables(Build(proxy, w, t)) <= {t}
    ensures t in Tables(Build(proxy, w, t)) <==> HasRoutes(w)
  {
    forall e | e in Build(proxy, w, t) ensures Table(e) == None || Table(e) == Some(t) {
      assert (t as real).Floor == t && (-(t as real)).Floor == -t;
    }
    if w.gw4 != [] && w.vip4 != [] {
      assert RouteElement(proxy, t, w.gw4, w.vip4) in Build(proxy, w, t);
    }
    if w.gw6 != [] && w.vip6 != [] {
      assert RouteElement(proxy, t, w.gw6, w.vip6) in Build(proxy, w, t);
    }
    assert Table(RouteElement(proxy, t, w.gw4, w.vip4)) == Some(t) == Table(RouteElement(proxy, t, w.gw6, w.vip6)) by {
      assert (t as real).Floor == t && (-(t as real)).Floor == -t;
    }
  }

  /** A family has both gateways and virtual IPs, so that there are policy routes. */
  predicate HasRoutes(w: Wish) {
    (w.gw4 != [] && w.vip4 != []) || (w.gw6 != [] && w.vip6 != [])
  }

  /** A call takes a table nobody uses, or none. */
  lemma TablesStayApart(es: seq<Element>, proxy: string, w: Wish, r: seq<Element>)
    requires TablesApart(es) && Updates(es, proxy, w, r)
    ensures TablesApart(r)
  {
    ForeignSurvive(es, proxy, w, r);
    if !Accepts(Own(es, proxy), w) {
      var t :| IsFree(es, t) && Own(r, proxy) == Build(proxy, w, t);
      BuildTables(proxy, w, t);
      forall p, q | p != q ensures Tables(Own(r, p)) !! Tables(Own(r, q)) {
        assert Tables(Own(es, p)) <= Tables(es) && Tables(Own(es, q)) <= Tables(es);
        assert Tables(Own(es, p)) !! Tables(Own(es, q));
      }
    }
  }

  /** A sequence of calls, for any proxies with any wishes. */
  datatype Op = Op(proxy: string, wish: Wish)

  ghost predicate CallRun(lists: seq<seq<Element>>, ops: seq<Op>) {
    && |lists| == |ops| + 1
    && forall i :: 0 <= i < |ops| ==> Updates(lists[i], ops[i].proxy, ops[i].wish, lists[i + 1])
  }

  /** Over any sequence of calls different proxies never share a routing table. */
  lemma {:induction false} TablesApartOverRuns(lists: seq<seq<Element>>, ops: seq<Op>, n: nat)
    requires CallRun(lists, ops) && n < |lists| && TablesApart(lists[0])
    ensures TablesApart(lists[n])
  {
    hide Updates, TablesApart;
    if n > 0 {
      TablesApartOverRuns(lists, ops, n - 1);
      TablesStayApart(lists[n - 1], ops[n - 1].proxy, ops[n - 1].wish, lists[n]);
    }
  }

  /** Over any sequence of calls for other proxies the elements of a proxy stay as they are. */
  lemma {:induction false} OthersSurviveRuns(lists: seq<seq<Element>>, ops: seq<Op>, n: nat, q: string)
    requires CallRun(lists, ops) && n < |lists| && forall i :: 0 <= i < n ==> ops[i].proxy != q
    ensures Own(lists[n], q) == Own(lists[0], q)
  {
    if n > 0 {
      OthersSurviveRuns(lists, ops, n - 1, q);
      ForeignSurvive(lists[n - 1], ops[n - 1].proxy, ops[n - 1].wish, lists[n]);
    }
  }

  /** The elements that none of the proxies manages, in order: those of other proxies, and those without a label. */
  function Outside(es: seq<Element>, ps: set<string>): seq<Element> {
    if es == [] then []
    else
      var init, last := Outside(es[..|es| - 1], ps), es[|es| - 1];
      if ManagedByOne(last, ps) then init else init + [last]
  }

  predicate ManagedByOne(e: Element, ps: set<string>) {
    exists p :: p in ps && Managed(e, p)
  }

  lemma {:induction false} OutsideForeign(es: seq<Element>, ps: set<string>, p: string)
    requires p in ps
    ensures Outside(Foreign(es, p), ps) == Outside(es, ps)
  {
    if es != [] {
      var init, last := es[..|es| - 1], es[|es| - 1];
      OutsideForeign(init, ps, p);
      if !Managed(last, p) {
        assert Foreign(es, p)[..|Foreign(es, p)| - 1] == Foreign(init, p);
      }
    }
  }

  /** Over any sequence of calls for some proxies everything else stays as it is, in its order: the elements of other
      proxies and the networks without a label, also relative to each other. */
  lemma {:induction false} OutsideSurvivesRuns(lists: seq<seq<Element>>, ops: seq<Op>, n: nat, ps: set<string>)
    requires CallRun(lists, ops) && n < |lists| && forall i :: 0 <= i < n ==> ops[i].proxy in ps
    ensures Outside(lists[n], ps) == Outside(lists[0], ps)
  {
    if n > 0 {
      OutsideSurvivesRuns(lists, ops, n - 1, ps);
      var es, r, p := lists[n - 1], lists[n], ops[n - 1].proxy;
      ForeignSurvive(es, p, ops[n - 1].wish, r);
      OutsideForeign(es, ps, p);
      OutsideForeign(r, ps, p);
    }
  }

  // ---------------------------------------------------------------------------------------------
  // When a call changes nothing.

  function Routed(gateways: seq<string>, vips: seq<string>): seq<string> {
    if vips != [] then gateways else []
  }

  /** What rebuilt elements mention: gateways only of families that have virtual IPs. */
  lemma BuildMentions(proxy: string, w: Wish, t: int)
    ensures Vips(Build(proxy, w, t)) == Elements(w.vip4 + w.vip6)
    ensures Gateways(Build(proxy, w, t)) == Elements(Routed(w.gw4, w.vip4) + Routed(w.gw6, w.vip6))
  {
    VipsMentioned(proxy, w.vip4);
    VipsMentioned(proxy, w.vip6);
    RoutesMention(proxy, t, w.gw4, w.vip4);
    RoutesMention(proxy, t, w.gw6, w.vip6);
    var a, b := VipElements(proxy, w.vip4), VipElements(proxy, w.vip6);
    var c, d := RouteElements(proxy, t, w.gw4, w.vip4), RouteElements(proxy, t, w.gw6, w.vip6);
    hide VipElements, RouteElements;
    Mentioned(a, b);
    Mentioned(a + b, c);
    Mentioned(a + b + c, d);
    ElementsConcat(w.vip4, w.vip6);
    ElementsConcat(Routed(w.gw4, w.vip4), Routed(w.gw6, w.vip6));
  }

  lemma Mentioned(a: seq<Element>, b: seq<Element>)
    ensures Vips(a + b) == Vips(a) + Vips(b) && Gateways(a + b) == Gateways(a) + Gateways(b)
  {
    assert forall e :: e in a + b <==> e in a || e in b;
  }

  lemma ElementsConcat<T>(a: seq<T>, b: seq<T>)
    ensures Elements(a + b) == Elements(a) + Elements(b)
  {
    assert forall x :: x in a + b <==> x in a || x in b;
  }

  lemma VipsMentioned(proxy: string, vips: seq<string>)
    ensures Vips(VipElements(proxy, vips)) == Elements(vips) && Gateways(VipElements(proxy, vips)) == {}
  {
    var es := VipElements(proxy, vips);
    forall v | v in vips ensures v in Vips(es) {
      var i :| 0 <= i < |vips| && vips[i] == v;
      assert es[i] in es && VipOf(es[i]) == Some(v);
    }
  }

  lemma RoutesMention(proxy: string, t: int, gateways: seq<string>, vips: seq<string>)
    ensures Vips(RouteElements(proxy, t, gateways, vips)) == {}
    ensures Gateways(RouteElements(proxy, t, gateways, vips)) == Elements(Routed(gateways, vips))
  {
    if gateways != [] && vips != [] {
      var e := RouteElement(proxy, t, gateways, vips);
      assert GatewaysOf(e) == (set g | g in Strs(gateways) && g.Str? :: g.s);
      forall g | g in gateways ensures g in GatewaysOf(e) {
        var i :| 0 <= i < |gateways| && gateways[i] == g;
        assert Strs(gateways)[i] in Strs(gateways);
      }
      assert GatewaysOf(e) == Elements(gateways);
      assert forall x :: x in [e] <==> x == e;
    }
  }

  /** Nothing is wished twice, and no family has gateways without virtual IPs. */
  ghost predicate Settles(w: Wish) {
    && NoDup(w.vip4 + w.vip6) && NoDup(w.gw4 + w.gw6)
    && (w.gw4 != [] ==> w.vip4 != []) && (w.gw6 != [] ==> w.vip6 != [])
  }

  /** Rebuilt elements are accepted by the wishes they were built from exactly when the wishes settle. */
  lemma AcceptsItself(proxy: string, w: Wish, t: int)
    ensures Accepts(Build(proxy, w, t), w) <==> Settles(w)
  {
    BuildMentions(proxy, w, t);
    hide Build;
    ElementsConcat(w.gw4, w.gw6);
    ElementsConcat(Routed(w.gw4, w.vip4), Routed(w.gw6, w.vip6));
    if NoDup(w.gw4 + w.gw6) && Elements(w.gw4 + w.gw6) == Elements(Routed(w.gw4, w.vip4) + Routed(w.gw6, w.vip6)) {
      if w.gw4 != [] && w.vip4 == [] {
        assert w.gw4[0] in Elements(w.gw4);
        OnceOnly(w.gw4, w.gw6, w.gw4[0]);
      }
      if w.gw6 != [] && w.vip6 == [] {
        assert w.gw6[0] in Elements(w.gw6);
        OnceOnly(w.gw4, w.gw6, w.gw6[0]);
      }
    }
  }

  lemma OnceOnly(a: seq<string>, b: seq<string>, x: string)
    requires NoDup(a + b)
    ensures !(x in a && x in b)
  {
    forall i, j | 0 <= i < |a| && 0 <= j < |b| ensures a[i] != b[j] {
      assert (a + b)[i] == a[i] && (a + b)[|a| + j] == b[j];
    }
  }

  /** The same call again changes nothing exactly when the first call accepted the list, or the wishes settle, or no
      routing table is involved. Otherwise the second call takes another table. */
  lemma SecondCall(es: seq<Element>, proxy: string, w: Wish, r: seq<Element>, r2: seq<Element>)
    requires Updates(es, proxy, w, r) && Updates(r, proxy, w, r2)
    ensures r2 == r <==> Accepts(Own(es, proxy), w) || Settles(w) || !HasRoutes(w)
    ensures !Accepts(Own(es, proxy), w) ==> (Accepts(Own(r, proxy), w) <==> Settles(w))
  {
    ForeignSurvive(es, proxy, w, r);
    if !Accepts(Own(es, proxy), w) {
      var t :| Rebuilt(es, proxy, w, t, r);
      var t1 :| IsFree(es, t1) && Own(r, proxy) == Build(proxy, w, t1);
      FreeTableIsUnique(es, t, t1);
      AcceptsItself(proxy, w, t);
      if !Settles(w) {
        var t2 :| Rebuilt(r, proxy, w, t2, r2);
        hide Accepts, Settles, Build;
        AnotherTable(Foreign(es, proxy), proxy, w, t, t2);
      }
    }
  }

  lemma AnotherTable(others: seq<Element>, proxy: string, w: Wish, t: int, t2: int)
    requires t2 !in Tables(others + Build(proxy, w, t))
    ensures others + Build(proxy, w, t) == others + Build(proxy, w, t2) <==> !HasRoutes(w)
  {
    var b := Build(proxy, w, t2);
    BuildTables(proxy, w, t2);
    if HasRoutes(w) {
      var e :| e in b && Table(e) == Some(t2);
      assert e in others + b;
    }
  }

  /** Wishes with routes that do not settle never do: every further call rewrites the annotation. */
  lemma {:induction false} NeverSettles(lists: seq<seq<Element>>, ops: seq<Op>, proxy: string, w: Wish, n: nat)
    requires CallRun(lists, ops) && n < |ops| && (forall i :: 0 <= i < |ops| ==> ops[i] == Op(proxy, w))
    requires !Accepts(Own(lists[0], proxy), w) && !Settles(w) && HasRoutes(w)
    ensures !Accepts(Own(lists[n], proxy), w) && (n > 0 ==> lists[n + 1] != lists[n])
  {
    hide Accepts, Settles, HasRoutes, Updates;
    if n > 0 {
      NeverSettles(lists, ops, proxy, w, n - 1);
      SecondCall(lists[n - 1], proxy, w, lists[n], lists[n + 1]);
    }
  }
}
