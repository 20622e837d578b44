/** When keeping the elements of a proxy is as good as rebuilding them.
    pkg/controllers/statelessloadbalancer/podinjector/network/networkattachmentannotation.go. */
module AnnotationSkip {
  import opened Prelude
  import opened Annotation

  /** A text is an address of one family only. */
  ghost predicate Families(a4: seq<string>, a6: seq<string>, b4: seq<string>, b6: seq<string>) {
    forall s :: !((s in a4 || s in b4) && (s in a6 || s in b6))
  }

  ghost predicate InFamilies(w: Wish, built: Wish) {
    Families(w.vip4, w.vip6, built.vip4, built.vip6) && Families(w.gw4, w.gw6, built.gw4, built.gw6)
  }

  /** Nothing that went into the elements was wished twice. */
  ghost predicate NoRepeats(w: Wish) {
    NoDup(w.vip4) && NoDup(w.vip6) && NoDup(Routed(w.gw4, w.vip4)) && NoDup(Routed(w.gw6, w.vip6))
  }

  /** The wishes are the same up to order, gateways without virtual IPs aside. */
  ghost predicate SameUpToOrder(w: Wish, built: Wish) {
    && multiset(w.vip4) == multiset(built.vip4) && multiset(w.vip6) == multiset(built.vip6)
    && multiset(w.gw4) == multiset(Routed(built.gw4, built.vip4))
    && multiset(w.gw6) == multiset(Routed(built.gw6, built.vip6))
  }

  /** The new wishes repeat nothing and ask for the same addresses in each family. */
  ghost predicate SameAddresses(w: Wish, built: Wish) {
    && NoDup(w.vip4) && NoDup(w.vip6) && NoDup(w.gw4) && NoDup(w.gw6)
    && Elements(w.vip4) == Elements(built.vip4) && Elements(w.vip6) == Elements(built.vip6)
    && Elements(w.gw4) == Elements(Routed(built.gw4, built.vip4))
    && Elements(w.gw6) == Elements(Routed(built.gw6, built.vip6))
  }

  /** Rebuilt elements are accepted for other wishes exactly when those repeat nothing and ask for the same
      addresses. */
  lemma AcceptsExactly(proxy: string, built: Wish, t: int, w: Wish)
    requires InFamilies(w, built)
    ensures Accepts(Build(proxy, built, t), w) <==> SameAddresses(w, built)
  {
    BuildMentions(proxy, built, t);
    hide Build;
    SameByFamily(w.vip4, w.vip6, built.vip4, built.vip6);
    SameByFamily(w.gw4, w.gw6, Routed(built.gw4, built.vip4), Routed(built.gw6, built.vip6));
  }

  lemma SameByFamily(a4: seq<string>, a6: seq<string>, b4: seq<string>, b6: seq<string>)
    requires Families(a4, a6, b4, b6)
    ensures NoDup(a4 + a6) && Elements(a4 + a6) == Elements(b4 + b6) <==>
            NoDup(a4) && NoDup(a6) && Elements(a4) == Elements(b4) && Elements(a6) == Elements(b6)
  {
    ElementsConcat(a4, a6);
    ElementsConcat(b4, b6);
    NoDupByFamily(a4, a6);
    if Elements(a4 + a6) == Elements(b4 + b6) {
      forall s ensures (s in a4 <==> s in b4) && (s in a6 <==> s in b6) {
        assert s in Elements(a4 + a6) <==> s in Elements(b4 + b6);
      }
    }
  }

  lemma NoDupByFamily(a4: seq<string>, a6: seq<string>)
    requires forall s :: !(s in a4 && s in a6)
    ensures NoDup(a4 + a6) <==> NoDup(a4) && NoDup(a6)
  {
    var all := a4 + a6;
    if NoDup(all) {
      assert forall i :: 0 <= i < |a4| ==> a4[i] == all[i];
      assert forall i :: 0 <= i < |a6| ==> a6[i] == all[|a4| + i];
    }
    if NoDup(a4) && NoDup(a6) {
      forall i, j | 0 <= i < j < |all| ensures all[i] != all[j] {
        if i < |a4| <= j {
          assert a4[i] in a4 && a6[j - |a4|] in a6;
        }
      }
    }
  }

  lemma BagNoDup(a: seq<string>, b: seq<string>)
    requires NoDup(a)
    ensures multiset(a) == multiset(b) <==> NoDup(b) && Elements(a) == Elements(b)
  {
    if multiset(a) == multiset(b) {
      forall x ensures x in Elements(a) <==> x in Elements(b) {
        assert x in multiset(a) <==> x in multiset(b);
      }
      assert Elements(a) == Elements(b);
      assert |multiset(a)| == |a| && |multiset(b)| == |b|;
      DistinctCount(a);
      DistinctCount(b);
    }
    if NoDup(b) {
      SameElementsSameBag(a, b);
    }
  }

  /** Accepted wishes are the same up to order exactly when the elements were built without repetitions. */
  lemma AcceptedSameExactly(proxy: string, built: Wish, t: int, w: Wish)
    requires InFamilies(w, built) && Accepts(Build(proxy, built, t), w)
    ensures SameUpToOrder(w, built) <==> NoRepeats(built)
  {
    AcceptsExactly(proxy, built, t, w);
    hide Accepts, Build;
    BagNoDup(w.vip4, built.vip4);
    BagNoDup(w.vip6, built.vip6);
    BagNoDup(w.gw4, Routed(built.gw4, built.vip4));
    BagNoDup(w.gw6, Routed(built.gw6, built.vip6));
  }

  /** Elements built without repetitions are accepted exactly for the same wishes up to order. */
  lemma SkipExactly(proxy: string, built: Wish, t: int, w: Wish)
    requires InFamilies(w, built) && NoRepeats(built)
    ensures Accepts(Build(proxy, built, t), w) <==> SameUpToOrder(w, built)
  {
    AcceptsExactly(proxy, built, t, w);
    hide Accepts, Build;
    BagNoDup(built.vip4, w.vip4);
    BagNoDup(built.vip6, w.vip6);
    BagNoDup(Routed(built.gw4, built.vip4), w.gw4);
    BagNoDup(Routed(built.gw6, built.vip6), w.gw6);
  }

  // ---------------------------------------------------------------------------------------------
  // Elements up to order and routing table.

  /** What is left of an element when its routing table and the order of its lists are forgotten. */
  datatype Shape = Shape(name: string, args: Option<map<string, Json>>, gateways: multiset<Json>,
                         policyRoutes: multiset<Json>,
                         rest: string)

  function ListAt(args: Option<map<string, Json>>, key: string): multiset<Json> {
    if args.Some? && key in args.value && args.value[key].List? then multiset(args.value[key].items) else multiset{}
  }

  function ShapeOf(e: Element): Shape {
    Shape(e.name, if e.cniArgs.None? then None else Some(e.cniArgs.value - {"tableId", "gateways", "policyRoutes"}),
          ListAt(e.cniArgs, "gateways"), ListAt(e.cniArgs, "policyRoutes"), e.rest)
  }

  /** The elements as a bag of shapes. */
  function Shapes(es: seq<Element>): multiset<Shape> {
    multiset(Mapped(ShapeOf, es))
  }

  ghost predicate SameElements(a: seq<Element>, b: seq<Element>) {
    Shapes(a) == Shapes(b)
  }

  lemma ShapesConcat(a: seq<Element>, b: seq<Element>)
    ensures Shapes(a + b) == Shapes(a) + Shapes(b)
  {
    assert Mapped(ShapeOf, a + b) == Mapped(ShapeOf, a) + Mapped(ShapeOf, b);
  }

  ghost function VipShape(proxy: string): string -> Shape {
    vip => ShapeOf(VipElement(proxy, vip))
  }

  lemma ShapeOfVip(proxy: string, vip: string)
    ensures var shape := ShapeOf(VipElement(proxy, vip));
            shape.name == VIP_NAD && shape.args.Some? && "vip" in shape.args.value
                && shape.args.value["vip"] == Str(vip)
  {
  }

  lemma VipShapes(proxy: string, vips: seq<string>)
    ensures OneToOne(VipShape(proxy)) && Shapes(VipElements(proxy, vips)) == multiset(Mapped(VipShape(proxy), vips))
    ensures forall x :: x in Shapes(VipElements(proxy, vips)) ==> x.name == VIP_NAD
  {
    forall x, y | VipShape(proxy)(x) == VipShape(proxy)(y) ensures x == y {
      ShapeOfVip(proxy, x);
      ShapeOfVip(proxy, y);
    }
    forall x | x in Mapped(VipShape(proxy), vips) ensures x.name == VIP_NAD {
      var i :| 0 <= i < |vips| && Mapped(VipShape(proxy), vips)[i] == x;
      ShapeOfVip(proxy, vips[i]);
    }
    hide ShapeOf, VipElement;
    assert Mapped(ShapeOf, VipElements(proxy, vips)) == Mapped(VipShape(proxy), vips);
  }

  lemma VipsOnly(proxy: string, vips: seq<string>)
    ensures forall x :: x in Mapped(VipShape(proxy), vips) ==> x.name == VIP_NAD
  {
    VipShapes(proxy, vips);
    hide ShapeOf, VipElement, VipShape;
    forall x | x in Mapped(VipShape(proxy), vips) ensures x.name == VIP_NAD {
      assert x in multiset(Mapped(VipShape(proxy), vips));
    }
  }

  function RouteShape(proxy: string, gateways: seq<string>, vips: seq<string>): Shape {
    Shape(POLICY_ROUTE_NAD, Some(map[PROXY := Str(proxy)]), multiset(Strs(gateways)), multiset(PolicyRoutes(vips)), "")
  }

  /** The shape of a policy-route element does not tell its routing table, and the order of its lists only. */
  lemma RouteShapes(proxy: string, t: int, gateways: seq<string>, vips: seq<string>)
    ensures Shapes(RouteElements(proxy, t, gateways, vips)) ==
            if gateways != [] && vips != [] then multiset{RouteShape(proxy, gateways, vips)} else multiset{}
  {
    if gateways != [] && vips != [] {
      var e := RouteElement(proxy, t, gateways, vips);
      assert PROXY[0] == 's';
      assert e.cniArgs.value - {"tableId", "gateways", "policyRoutes"} == map[PROXY := Str(proxy)];
      assert Mapped(ShapeOf, [e]) == [ShapeOf(e)];
    }
  }

  lemma SameRouteShape(proxy: string, g: seq<string>, v: seq<string>, g': seq<string>, v': seq<string>)
    ensures RouteShape(proxy, g, v) == RouteShape(proxy, g', v') <==>
              multiset(g) == multiset(g') && multiset(v) == multiset(v')
  {
    assert OneToOne(ToStr);
    forall x, y | PolicyRoute(x) == PolicyRoute(y) ensures x == y {
      assert PolicyRoute(x).fields["srcPrefix"] == PolicyRoute(y).fields["srcPrefix"];
    }
    MappedBag(ToStr, g, g');
    MappedBag(PolicyRoute, v, v');
  }

  lemma BuildShapes(proxy: string, w: Wish, t: int)
    ensures Shapes(Build(proxy, w, t)) ==
            multiset(Mapped(VipShape(proxy), w.vip4 + w.vip6))
            + Shapes(RouteElements(proxy, t, w.gw4, w.vip4)) + Shapes(RouteElements(proxy, t, w.gw6, w.vip6))
    ensures OneToOne(VipShape(proxy)) && forall x :: x in Mapped(VipShape(proxy), w.vip4 + w.vip6) ==> x.name == VIP_NAD
  {
    var a, b := VipElements(proxy, w.vip4), VipElements(proxy, w.vip6);
    var c, d := RouteElements(proxy, t, w.gw4, w.vip4), RouteElements(proxy, t, w.gw6, w.vip6);
    assert VipElements(proxy, w.vip4 + w.vip6) == a + b;
    assert Build(proxy, w, t) == a + b + c + d;
    hide *;
    VipShapes(proxy, w.vip4 + w.vip6);
    VipsOnly(proxy, w.vip4 + w.vip6);
    ShapesConcat(a + b, c);
    ShapesConcat(a + b + c, d);
  }

  lemma SameRoutes(proxy: string, t: int, g: seq<string>, v: seq<string>, t': int, g': seq<string>, v': seq<string>)
    requires multiset(v) == multiset(v') && multiset(g) == multiset(Routed(g', v'))
    ensures Shapes(RouteElements(proxy, t, g, v)) == Shapes(RouteElements(proxy, t', g', v'))
  {
    assert |v| == |multiset(v)| == |v'| && |g| == |multiset(g)| == |Routed(g', v')|;
    RouteShapes(proxy, t, g, v);
    RouteShapes(proxy, t', g', v');
    SameRouteShape(proxy, g, v, g', v');
  }

  /** Wishes that are the same up to order build the same elements up to order and routing table. */
  lemma SameBuilds(proxy: string, w: Wish, t: int, built: Wish, t': int)
    requires SameUpToOrder(w, built)
    ensures SameElements(Build(proxy, w, t), Build(proxy, built, t'))
  {
    BuildShapes(proxy, w, t);
    BuildShapes(proxy, built, t');
    assert multiset(w.vip4 + w.vip6) == multiset(w.vip4) + multiset(w.vip6);
    assert multiset(built.vip4 + built.vip6) == multiset(built.vip4) + multiset(built.vip6);
    hide Build, Shapes, RouteElements;
    MappedBag(VipShape(proxy), w.vip4 + w.vip6, built.vip4 + built.vip6);
    SameRoutes(proxy, t, w.gw4, w.vip4, t', built.gw4, built.vip4);
    SameRoutes(proxy, t, w.gw6, w.vip6, t', built.gw6, built.vip6);
  }

  lemma VipCount(proxy: string, w: Wish, t: int, x: string)
    ensures Shapes(Build(proxy, w, t))[VipShape(proxy)(x)] == multiset(w.vip4)[x] + multiset(w.vip6)[x]
  {
    BuildShapes(proxy, w, t);
    MappedCount(VipShape(proxy), w.vip4 + w.vip6, x);
    RouteShapes(proxy, t, w.gw4, w.vip4);
    RouteShapes(proxy, t, w.gw6, w.vip6);
    assert multiset(w.vip4 + w.vip6) == multiset(w.vip4) + multiset(w.vip6);
    assert VipShape(proxy)(x).name == VIP_NAD != POLICY_ROUTE_NAD;
  }

  /** A policy route that both lists contain is the one of the same family. */
  lemma RouteFound(proxy: string, w: Wish, t: int, g: seq<string>, v: seq<string>)
    requires g != [] && v != [] && RouteShape(proxy, g, v) in Shapes(Build(proxy, w, t))
    ensures multiset(g) == multiset(w.gw4) || multiset(g) == multiset(w.gw6)
  {
    var s := RouteShape(proxy, g, v);
    BuildShapes(proxy, w, t);
    RouteShapes(proxy, t, w.gw4, w.vip4);
    RouteShapes(proxy, t, w.gw6, w.vip6);
    assert s.name == POLICY_ROUTE_NAD != VIP_NAD;
    assert s !in Mapped(VipShape(proxy), w.vip4 + w.vip6);
    SameRouteShape(proxy, g, v, w.gw4, w.vip4);
    SameRouteShape(proxy, g, v, w.gw6, w.vip6);
  }

  lemma RoutePresent(proxy: string, w: Wish, t: int)
    ensures w.gw4 != [] && w.vip4 != [] ==> RouteShape(proxy, w.gw4, w.vip4) in Shapes(Build(proxy, w, t))
    ensures w.gw6 != [] && w.vip6 != [] ==> RouteShape(proxy, w.gw6, w.vip6) in Shapes(Build(proxy, w, t))
  {
    BuildShapes(proxy, w, t);
    RouteShapes(proxy, t, w.gw4, w.vip4);
    RouteShapes(proxy, t, w.gw6, w.vip6);
  }

  lemma BagByFamily(a4: seq<string>, a6: seq<string>, b4: seq<string>, b6: seq<string>)
    requires Families(a4, a6, b4, b6)
    requires forall x :: multiset(a4)[x] + multiset(a6)[x] == multiset(b4)[x] + multiset(b6)[x]
    ensures multiset(a4) == multiset(b4) && multiset(a6) == multiset(b6)
  {
    forall x ensures multiset(a4)[x] == multiset(b4)[x] && multiset(a6)[x] == multiset(b6)[x] {
      assert (x in a4 <==> x in multiset(a4)) && (x in a6 <==> x in multiset(a6));
      assert (x in b4 <==> x in multiset(b4)) && (x in b6 <==> x in multiset(b6));
    }
  }

  lemma SameFirst(a: seq<string>, b: seq<string>)
    requires multiset(a) == multiset(b) && a != []
    ensures a[0] in b
  {
    assert a[0] in multiset(a);
  }

  /** Keeping the elements of accepted wishes is what a rebuild gives, up to order and routing table, exactly when the
      elements were built without repetitions. */
  lemma SkipSoundExactly(proxy: string, built: Wish, t: int, w: Wish, t': int)
    requires InFamilies(w, built) && Accepts(Build(proxy, built, t), w)
    ensures SameElements(Build(proxy, w, t'), Build(proxy, built, t)) <==> NoRepeats(built)
  {
    AcceptsExactly(proxy, built, t, w);
    AcceptedSameExactly(proxy, built, t, w);
    hide Accepts, Build, NoRepeats;
    if SameUpToOrder(w, built) {
      SameBuilds(proxy, w, t', built, t);
    }
    if SameElements(Build(proxy, w, t'), Build(proxy, built, t)) {
      SameElementsSameWishes(proxy, built, t, w, t');
    }
  }

  lemma SameElementsSameWishes(proxy: string, built: Wish, t: int, w: Wish, t': int)
    requires InFamilies(w, built) && SameAddresses(w, built)
    requires SameElements(Build(proxy, w, t'), Build(proxy, built, t))
    ensures SameUpToOrder(w, built)
  {
    forall x ensures multiset(w.vip4)[x] + multiset(w.vip6)[x] == multiset(built.vip4)[x] + multiset(built.vip6)[x] {
      VipCount(proxy, w, t', x);
      VipCount(proxy, built, t, x);
    }
    BagByFamily(w.vip4, w.vip6, built.vip4, built.vip6);
    RoutePresent(proxy, built, t);
    hide *;
    if built.gw4 != [] && built.vip4 != [] {
      RouteFound(proxy, w, t', built.gw4, built.vip4);
      if multiset(built.gw4) == multiset(w.gw6) {
        SameFirst(built.gw4, w.gw6);
      }
    }
    if built.gw6 != [] && built.vip6 != [] {
      RouteFound(proxy, w, t', built.gw6, built.vip6);
      if multiset(built.gw6) == multiset(w.gw4) {
        SameFirst(built.gw6, w.gw4);
      }
    }
    NoElements(w.gw4);
    NoElements(w.gw6);
  }

  lemma NoElements(a: seq<string>)
    ensures Elements(a) == {} ==> a == []
  {
    assert a != [] ==> a[0] in Elements(a);
  }

  /** A gateway that was listed twice: the elements stay although a rebuild would list it once. */
  lemma RepeatedGatewayIsSkipped(proxy: string, t: int, t': int)
    ensures var built, w := Wish(["10.0.0.1"], [], ["10.1.0.1", "10.1.0.1"], []),
             Wish(["10.0.0.1"], [], ["10.1.0.1"], []);
            && Accepts(Build(proxy, built, t), w)
            && !SameElements(Build(proxy, w, t'), Build(proxy, built, t))
  {
    var built, w := Wish(["10.0.0.1"], [], ["10.1.0.1", "10.1.0.1"], []), Wish(["10.0.0.1"], [], ["10.1.0.1"], []);
    assert !NoRepeats(built) by {
      assert built.gw4[0] == built.gw4[1];
    }
    AcceptsExactly(proxy, built, t, w);
    SkipSoundExactly(proxy, built, t, w, t');
  }
}
