/** pkg/endpointslice: endpoints, and merging / splitting the per-family slices of a service. */
module EndpointSlice {
  import opened Prelude
  import opened Identifier

  datatype Family = V4 | V6

  /** An IP address value. */
  datatype IP = IP(family: Family, value: nat)

  /** The text of an address: one of the spellings of an IP, or something that does not parse. */
  datatype Address = Text(ip: IP, spelling: nat) | Malformed(text: string)

  /** Parsing an address (absent when the text is not an address). */
  function ParseIP(a: Address): Option<IP> {
    match a
    case Text(ip, _) => Some(ip)
    case Malformed(_) => None
  }

  /** Printing an address always picks the same spelling. */
  function Print(ip: IP): Address {
    Text(ip, 0)
  }

  predicate OfFamily(a: Address, f: Family) {
    ParseIP(a).Some? && ParseIP(a).value.family == f
  }

  datatype Endpoint = Endpoint(uid: string, addresses: seq<Address>, zone: Option<string>, ready: Option<bool>)

  datatype Slice = Slice(meta: string, family: Option<Family>, endpoints: seq<Endpoint>)

  function GetIdentifier(e: Endpoint): Option<int> {
    if e.zone.None? then None else Atoi(e.zone.value)
  }

  function SetIdentifier(e: Endpoint, identifier: int): Endpoint {
    e.(zone := Some(Itoa(identifier)))
  }

  /** Reading an identifier back gives the one that was stored. */
  lemma IdentifierRoundTrip(e: Endpoint, identifier: int)
    ensures GetIdentifier(SetIdentifier(e, identifier)) ==
            if InRange(identifier) then Some(identifier) else None
  {
    AtoiItoa(identifier);
  }

  ghost predicate UniqueUids(es: seq<Endpoint>) {
    forall i, j :: 0 <= i < j < |es| ==> es[i].uid != es[j].uid
  }

  /** Endpoints by UID; the later of two endpoints with one UID wins. */
  function ByUid(es: seq<Endpoint>): (m: map<string, Endpoint>)
    ensures forall u :: u in m ==> m[u].uid == u
  {
    if es == [] then map[] else ByUid(es[..|es| - 1])[es[|es| - 1].uid := es[|es| - 1]]
  }

  /** The last endpoint with a UID is the one found under it. */
  lemma {:induction false} ByUidLast(es: seq<Endpoint>, i: nat)
    requires i < |es| && forall j :: i < j < |es| ==> es[j].uid != es[i].uid
    ensures es[i].uid in ByUid(es) && ByUid(es)[es[i].uid] == es[i]
  {
    if i < |es| - 1 {
      ByUidLast(es[..|es| - 1], i);
    }
  }

  lemma {:induction false} ByUidMembers(es: seq<Endpoint>)
    ensures forall u :: u in ByUid(es) ==> ByUid(es)[u] in es
    ensures forall e :: e in es ==> e.uid in ByUid(es)
  {
    if es != [] {
      ByUidMembers(es[..|es| - 1]);
    }
  }

  lemma ByUidSnoc(es: seq<Endpoint>, e: Endpoint)
    ensures ByUid(es + [e]) == ByUid(es)[e.uid := e]
    ensures UniqueUids(es) && e.uid !in ByUid(es) ==> UniqueUids(es + [e])
  {
    assert (es + [e])[..|es|] == es;
    ByUidMembers(es);
    forall i | 0 <= i < |es| ensures es[i].uid in ByUid(es) {
      assert es[i] in es;
    }
  }

  lemma NotSeenBefore(es: seq<Endpoint>, i: nat)
    requires UniqueUids(es) && i < |es|
    ensures es[i].uid !in ByUid(es[..i])
    ensures es[..i + 1] == es[..i] + [es[i]]
  {
    ByUidMembers(es[..i]);
  }

  /** The same UID seen in the second slice: addresses are appended, a missing zone is filled in. */
  function Absorb(x: Endpoint, y: Endpoint): Endpoint {
    x.(addresses := x.addresses + y.addresses, zone := if x.zone.None? then y.zone else x.zone)
  }

  function AbsorbAll(m: map<string, Endpoint>, es: seq<Endpoint>): (r: map<string, Endpoint>)
    requires forall u :: u in m ==> m[u].uid == u
    ensures forall u :: u in r ==> r[u].uid == u
  {
    if es == [] then m
    else
      var r := AbsorbAll(m, es[..|es| - 1]);
      var e := es[|es| - 1];
      if e.uid in r then r[e.uid := Absorb(r[e.uid], e)] else r[e.uid := e]
  }

  /** What merging two lists of endpoints publishes, by UID. */
  function Merged(a: seq<Endpoint>, b: seq<Endpoint>): (r: map<string, Endpoint>)
    ensures forall u :: u in r ==> r[u].uid == u
  {
    AbsorbAll(ByUid(a), b)
  }

  /** A list that holds exactly the endpoints of a UID-keyed map, each once, in some order. */
  ghost predicate Lists(es: seq<Endpoint>, m: map<string, Endpoint>) {
    && UniqueUids(es)
    && (forall i :: 0 <= i < |es| ==> es[i].uid in m && m[es[i].uid] == es[i])
    && (forall u :: u in m ==> m[u] in es)
  }

  /** MergeEndpointSlices: an absent slice leaves the other; otherwise the metadata of the first
      slice and the merged endpoints, listed in an arbitrary order. */
  method MergeEndpointSlices(a: Option<Slice>, b: Option<Slice>) returns (r: Option<Slice>)
    ensures b.None? ==> r == a
    ensures a.None? ==> r == b
    ensures a.Some? && b.Some? ==>
              && r.Some? && r.value.meta == a.value.meta && r.value.family == None
              && Lists(r.value.endpoints, Merged(a.value.endpoints, b.value.endpoints))
  {
    if b.None? {
      return a;
    }
    if a.None? {
      return b;
    }
    var endpointsMap: map<string, Endpoint> := map[];
    for i := 0 to |a.value.endpoints|
      invariant endpointsMap == ByUid(a.value.endpoints[..i])
    {
      assert a.value.endpoints[..i + 1][..i] == a.value.endpoints[..i];
      endpointsMap := endpointsMap[a.value.endpoints[i].uid := a.value.endpoints[i]];
    }
    assert a.value.endpoints[..|a.value.endpoints|] == a.value.endpoints;
    ghost var first := endpointsMap;
    for i := 0 to |b.value.endpoints|
      invariant endpointsMap == AbsorbAll(first, b.value.endpoints[..i])
    {
      assert b.value.endpoints[..i + 1][..i] == b.value.endpoints[..i];
      var current := b.value.endpoints[i];
      if current.uid !in endpointsMap {
        endpointsMap := endpointsMap[current.uid := current];
        continue;
      }
      var existing := endpointsMap[current.uid];
      existing := existing.(addresses := existing.addresses + current.addresses);
      if existing.zone.None? {
        existing := existing.(zone := current.zone);
      }
      endpointsMap := endpointsMap[current.uid := existing];
    }
    assert b.value.endpoints[..|b.value.endpoints|] == b.value.endpoints;
    var listed := ListEndpoints(endpointsMap);
    r := Some(Slice(a.value.meta, None, listed));
  }

  /** Go's iteration over a UID-keyed map: every entry once, in an arbitrary order. */
  method ListEndpoints(m: map<string, Endpoint>) returns (es: seq<Endpoint>)
    requires forall u :: u in m ==> m[u].uid == u
    ensures Lists(es, m)
  {
    es := [];
    var todo := m.Keys;
    while todo != {}
      invariant todo <= m.Keys && UniqueUids(es)
      invariant forall i :: 0 <= i < |es| ==> es[i].uid in m && es[i].uid !in todo && m[es[i].uid] == es[i]
      invariant forall u :: u in m && u !in todo ==> m[u] in es
      decreases |todo|
    {
      var u :| u in todo;
      todo := todo - {u};
      es := es + [m[u]];
    }
  }

  /** The addresses of one family, in order and in canonical spelling. */
  function FamilyAddresses(addresses: seq<Address>, f: Family): (r: seq<Address>)
    ensures forall x :: x in r ==> OfFamily(x, f) && x == Print(x.ip)
  {
    if addresses == [] then []
    else
      var last := addresses[|addresses| - 1];
      FamilyAddresses(addresses[..|addresses| - 1], f) +
      if OfFamily(last, f) then [Print(last.ip)] else []
  }

  /** An address that is a spelling of an IP of the family. */
  predicate Spells(a: Address, f: Family) {
    a.Text? && a.ip.family == f
  }

  /** What the restriction holds, without regard to order: the one spelling of every IP of the family, as often as the
      IP is there in any spelling; nothing else. */
  lemma {:induction false} FamilyCount(addresses: seq<Address>, f: Family, x: Address)
    ensures multiset(FamilyAddresses(addresses, f))[x] ==
            if Spells(x, f) && x.spelling == 0 then TimesSpelled(addresses, x.ip) else 0
  {
    if addresses != [] {
      FamilyCount(addresses[..|addresses| - 1], f, x);
    }
  }

  lemma {:induction false} FamilySome(addresses: seq<Address>, f: Family)
    ensures FamilyAddresses(addresses, f) != [] <==> exists x :: x in addresses && Spells(x, f)
  {
    if addresses != [] {
      var init, last := addresses[..|addresses| - 1], addresses[|addresses| - 1];
      FamilySome(init, f);
      assert last in addresses && (Spells(last, f) <==> OfFamily(last, f));
      assert forall x :: x in addresses <==> x in init || x == last;
      hide OfFamily, Spells;
      if FamilyAddresses(init, f) != [] {
        var x :| x in init && Spells(x, f);
        assert x in addresses;
      }
    }
  }

  /** How often an IP is there, in any spelling. */
  function TimesSpelled(addresses: seq<Address>, ip: IP): nat {
    if addresses == [] then 0
    else
      var last := addresses[|addresses| - 1];
      TimesSpelled(addresses[..|addresses| - 1], ip) + if last.Text? && last.ip == ip then 1 else 0
  }

  /** The endpoints that have addresses of one family, restricted to them. */
  function FamilyEndpoints(es: seq<Endpoint>, f: Family): (r: seq<Endpoint>) {
    if es == [] then []
    else
      var last := es[|es| - 1];
      var addresses := FamilyAddresses(last.addresses, f);
      FamilyEndpoints(es[..|es| - 1], f) + if addresses == [] then [] else [last.(addresses := addresses)]
  }

  /** SplitEndpointSlices: one slice per family; only endpoints are kept. */
  method SplitEndpointSlices(slice: Option<Slice>) returns (v4: Slice, v6: Slice)
    ensures v4 == Slice("", Some(V4), if slice.None? then [] else FamilyEndpoints(slice.value.endpoints, V4))
    ensures v6 == Slice("", Some(V6), if slice.None? then [] else FamilyEndpoints(slice.value.endpoints, V6))
  {
    v4, v6 := Slice("", Some(V4), []), Slice("", Some(V6), []);
    if slice.None? {
      return;
    }
    var es := slice.value.endpoints;
    assert es[..0] == [];
    hide FamilyEndpoints, FamilyAddresses;
    for i := 0 to |es|
      invariant v4 == Slice("", Some(V4), FamilyEndpoints(es[..i], V4))
      invariant v6 == Slice("", Some(V6), FamilyEndpoints(es[..i], V6))
    {
      FamilyEndpointsNext(es, i, V4);
      FamilyEndpointsNext(es, i, V6);
      var addresses4, addresses6 := SplitAddresses(es[i].addresses);
      if |addresses4| > 0 {
        v4 := v4.(endpoints := v4.endpoints + [es[i].(addresses := addresses4)]);
      }
      if |addresses6| > 0 {
        v6 := v6.(endpoints := v6.endpoints + [es[i].(addresses := addresses6)]);
      }
    }
    assert es[..|es|] == es;
  }

  lemma FamilyEndpointsNext(es: seq<Endpoint>, i: nat, f: Family)
    requires i < |es|
    ensures var ips := FamilyAddresses(es[i].addresses, f);
            FamilyEndpoints(es[..i + 1], f) ==
            FamilyEndpoints(es[..i], f) + if ips == [] then [] else [es[i].(addresses := ips)]
  {
    assert es[..i + 1][..i] == es[..i];
  }

  /** The inner loop: the parseable addresses by family. */
  method SplitAddresses(addresses: seq<Address>) returns (addresses4: seq<Address>, addresses6: seq<Address>)
    ensures addresses4 == FamilyAddresses(addresses, V4) && addresses6 == FamilyAddresses(addresses, V6)
  {
    addresses4, addresses6 := [], [];
    for k := 0 to |addresses|
      invariant addresses4 == FamilyAddresses(addresses[..k], V4)
      invariant addresses6 == FamilyAddresses(addresses[..k], V6)
    {
      assert addresses[..k + 1][..k] == addresses[..k];
      var ip := ParseIP(addresses[k]);
      if ip.None? {
        continue;
      }
      if ip.value.family == V4 {
        addresses4 := addresses4 + [Print(ip.value)];
        continue;
      }
      addresses6 := addresses6 + [Print(ip.value)];
    }
    assert addresses[..|addresses|] == addresses;
  }

  // ---------------------------------------------------------------------------------------------
  // What merging and splitting mean, by UID.

  lemma {:induction false} UniqueByUid(es: seq<Endpoint>)
    requires UniqueUids(es)
    ensures forall i :: 0 <= i < |es| ==> es[i].uid in ByUid(es) && ByUid(es)[es[i].uid] == es[i]
    ensures Lists(es, ByUid(es))
  {
    if es != [] {
      UniqueByUid(es[..|es| - 1]);
    }
  }

  lemma ListsByUid(es: seq<Endpoint>, m: map<string, Endpoint>)
    requires Lists(es, m) && forall u :: u in m ==> m[u].uid == u
    ensures ByUid(es) == m
  {
    UniqueByUid(es);
    forall u | u in m ensures u in ByUid(es) && ByUid(es)[u] == m[u] {
      var i :| 0 <= i < |es| && es[i] == m[u];
    }
  }

  /** Merging, one UID at a time. */
  lemma {:induction false} MergedAt(a: seq<Endpoint>, b: seq<Endpoint>, u: string)
    requires UniqueUids(b)
    ensures u in Merged(a, b) <==> u in ByUid(a) || u in ByUid(b)
    ensures u in ByUid(a) && u in ByUid(b) ==>
              var (x, y, m) := (ByUid(a)[u], ByUid(b)[u], Merged(a, b)[u]);
              && m.uid == u && m.addresses == x.addresses + y.addresses
              && m.zone == (if x.zone.Some? then x.zone else y.zone) && m.ready == x.ready
    ensures u in ByUid(a) && u !in ByUid(b) ==> Merged(a, b)[u] == ByUid(a)[u]
    ensures u !in ByUid(a) && u in ByUid(b) ==> Merged(a, b)[u] == ByUid(b)[u]
  {
    if b != [] {
      var init := b[..|b| - 1];
      MergedAt(a, init, u);
      NotSeenBefore(b, |b| - 1);
    }
  }

  /** The endpoints of a UID-keyed collection that have addresses of one family. */
  function FamilyMap(m: map<string, Endpoint>, f: Family): map<string, Endpoint> {
    map u | u in m && FamilyAddresses(m[u].addresses, f) != [] ::
      m[u].(addresses := FamilyAddresses(m[u].addresses, f))
  }

  /** Restricting a list of endpoints to one family, one UID at a time. */
  lemma {:induction false} FamilyEndpointAt(es: seq<Endpoint>, f: Family, u: string)
    requires UniqueUids(es)
    ensures u in ByUid(FamilyEndpoints(es, f)) <==>
            u in ByUid(es) && FamilyAddresses(ByUid(es)[u].addresses, f) != []
    ensures u in ByUid(FamilyEndpoints(es, f)) ==>
              ByUid(FamilyEndpoints(es, f))[u] ==
              ByUid(es)[u].(addresses := FamilyAddresses(ByUid(es)[u].addresses, f))
  {
    hide FamilyAddresses;
    if es != [] {
      var last, init := es[|es| - 1], es[..|es| - 1];
      FamilyEndpointAt(init, f, u);
      var r, r' := FamilyEndpoints(es, f), FamilyEndpoints(init, f);
      NotSeenBefore(es, |es| - 1);
      if FamilyAddresses(last.addresses, f) != [] {
        assert r[..|r| - 1] == r';
      } else {
        assert r == r';
      }
    }
  }

  lemma FamilyEndpointsMap(es: seq<Endpoint>, f: Family)
    requires UniqueUids(es)
    ensures UniqueUids(FamilyEndpoints(es, f))
    ensures ByUid(FamilyEndpoints(es, f)) == FamilyMap(ByUid(es), f)
  {
    FamilyEndpointsUnique(es, f);
    forall u ensures SameAt(ByUid(FamilyEndpoints(es, f)), FamilyMap(ByUid(es), f), u) {
      FamilyEndpointAt(es, f, u);
    }
    SameEverywhere(ByUid(FamilyEndpoints(es, f)), FamilyMap(ByUid(es), f));
  }

  lemma {:induction false} FamilyEndpointsUnique(es: seq<Endpoint>, f: Family)
    requires UniqueUids(es)
    ensures UniqueUids(FamilyEndpoints(es, f))
    ensures forall e :: e in FamilyEndpoints(es, f) ==> exists x :: x in es && x.uid == e.uid
  {
    if es != [] {
      var init := es[..|es| - 1];
      FamilyEndpointsUnique(init, f);
      assert forall e :: e in init ==> e in es && e.uid != es[|es| - 1].uid;
    }
  }

  /** The parseable addresses in canonical spelling. */
  function Canonical(addresses: seq<Address>): seq<Address> {
    if addresses == [] then []
    else
      var last := addresses[|addresses| - 1];
      Canonical(addresses[..|addresses| - 1]) + if ParseIP(last).Some? then [Print(last.ip)] else []
  }

  lemma {:induction false} FamiliesPartition(addresses: seq<Address>)
    ensures multiset(FamilyAddresses(addresses, V4) + FamilyAddresses(addresses, V6)) ==
            multiset(Canonical(addresses))
  {
    if addresses != [] {
      FamiliesPartition(addresses[..|addresses| - 1]);
    }
  }

  lemma {:induction false} FamilyAddressesConcat(a: seq<Address>, b: seq<Address>, f: Family)
    ensures FamilyAddresses(a + b, f) == FamilyAddresses(a, f) + FamilyAddresses(b, f)
  {
    if b == [] {
      assert a + b == a;
    } else {
      var init, last := b[..|b| - 1], b[|b| - 1];
      FamilyAddressesConcat(a, init, f);
      assert (a + b)[..|a + b| - 1] == a + init && (a + b)[|a + b| - 1] == last;
      hide OfFamily, Print;
      Associative(FamilyAddresses(a, f), FamilyAddresses(init, f), if OfFamily(last, f) then [Print(last.ip)] else []);
    }
  }

  /** Merging the two halves of a split restores every endpoint that has a parseable address:
      its zone (hence its identifier), its readiness, and its addresses up to order and spelling.
      Exactly the endpoints without one are lost. */
  lemma MergeOfSplit(es: seq<Endpoint>)
    requires UniqueUids(es)
    ensures var m := Merged(FamilyEndpoints(es, V4), FamilyEndpoints(es, V6));
            forall u ::
              && (u in m <==> u in ByUid(es) && Canonical(ByUid(es)[u].addresses) != [])
              && (u in m ==>
                    && multiset(m[u].addresses) == multiset(Canonical(ByUid(es)[u].addresses))
                    && m[u] == ByUid(es)[u].(addresses := m[u].addresses))
  {
    FamilyEndpointsUnique(es, V6);
    var v4, v6 := FamilyEndpoints(es, V4), FamilyEndpoints(es, V6);
    forall u
      ensures u in Merged(v4, v6) <==> u in ByUid(es) && Canonical(ByUid(es)[u].addresses) != []
      ensures u in Merged(v4, v6) ==>
                && multiset(Merged(v4, v6)[u].addresses) == multiset(Canonical(ByUid(es)[u].addresses))
                && Merged(v4, v6)[u] == ByUid(es)[u].(addresses := Merged(v4, v6)[u].addresses)
    {
      FamilyEndpointAt(es, V4, u);
      FamilyEndpointAt(es, V6, u);
      MergedAt(v4, v6, u);
      if u in ByUid(es) {
        var x := ByUid(es)[u].addresses;
        FamiliesPartition(x);
        assert |multiset(Canonical(x))| == |FamilyAddresses(x, V4)| + |FamilyAddresses(x, V6)|;
        var a, b := FamilyAddresses(x, V4), FamilyAddresses(x, V6);
        assert a == [] ==> a + b == b;
        assert b == [] ==> a + b == a;
      }
    }
  }

  /** A slice as this controller publishes it for one family. */
  ghost predicate FamilyPure(es: seq<Endpoint>, f: Family) {
    && UniqueUids(es)
    && forall e :: e in es ==>
         e.addresses != [] && forall x :: x in e.addresses ==> OfFamily(x, f) && x == Print(x.ip)
  }

  lemma {:induction false} PureAddresses(addresses: seq<Address>, f: Family, g: Family)
    requires forall x :: x in addresses ==> OfFamily(x, f) && x == Print(x.ip)
    ensures FamilyAddresses(addresses, g) == if f == g then addresses else []
  {
    if addresses != [] {
      PureAddresses(addresses[..|addresses| - 1], f, g);
      assert addresses[|addresses| - 1] in addresses;
    }
  }

  /** A split publishes family-pure slices. */
  lemma SplitIsPure(es: seq<Endpoint>, f: Family)
    requires UniqueUids(es)
    ensures FamilyPure(FamilyEndpoints(es, f), f)
  {
    FamilyEndpointsUnique(es, f);
    var r := FamilyEndpoints(es, f);
    UniqueByUid(r);
    forall e | e in r
      ensures e.addresses != [] && forall x :: x in e.addresses ==> OfFamily(x, f) && x == Print(x.ip)
    {
      FamilyEndpointAt(es, f, e.uid);
      assert ByUid(r)[e.uid] == e;
    }
  }

  ghost predicate AgreeAt(a: map<string, Endpoint>, b: map<string, Endpoint>, u: string) {
    u in a && u in b ==> a[u].zone == b[u].zone && a[u].ready == b[u].ready
  }

  ghost predicate AgreeOnShared(a: map<string, Endpoint>, b: map<string, Endpoint>) {
    forall u :: AgreeAt(a, b, u)
  }

  ghost predicate SameAt(m: map<string, Endpoint>, n: map<string, Endpoint>, u: string) {
    && (u in m <==> u in n)
    && (u in m && u in n ==> m[u] == n[u])
  }

  lemma SameEverywhere(m: map<string, Endpoint>, n: map<string, Endpoint>)
    ensures m == n <==> forall u :: SameAt(m, n, u)
  {
    if forall u :: SameAt(m, n, u) {
      forall u ensures u in m <==> u in n {
        assert SameAt(m, n, u);
      }
      forall u | u in m ensures m[u] == n[u] {
        assert SameAt(m, n, u);
      }
    }
  }

  /** Splitting a merge, however the merge is listed, gives both slices back (up to order)
      exactly when they agree on the zone and readiness of every shared UID. */
  lemma SplitOfMerge(a: seq<Endpoint>, b: seq<Endpoint>, merged: seq<Endpoint>)
    requires FamilyPure(a, V4) && FamilyPure(b, V6) && Lists(merged, Merged(a, b))
    ensures (ByUid(FamilyEndpoints(merged, V4)) == ByUid(a) && ByUid(FamilyEndpoints(merged, V6)) == ByUid(b))
            <==> AgreeOnShared(ByUid(a), ByUid(b))
  {
    var m, n := ByUid(FamilyEndpoints(merged, V4)), ByUid(FamilyEndpoints(merged, V6));
    var x, y := ByUid(a), ByUid(b);
    forall u ensures SameAt(m, x, u) && SameAt(n, y, u) <==> AgreeAt(x, y, u) {
      SplitOfMergeAt(a, b, merged, u);
    }
    RestoredEverywhere(m, x, n, y);
  }

  lemma RestoredEverywhere(m: map<string, Endpoint>, x: map<string, Endpoint>,
                           n: map<string, Endpoint>, y: map<string, Endpoint>)
    requires forall u :: SameAt(m, x, u) && SameAt(n, y, u) <==> AgreeAt(x, y, u)
    ensures m == x && n == y <==> AgreeOnShared(x, y)
  {
    SameEverywhere(m, x);
    SameEverywhere(n, y);
  }

  lemma SplitOfMergeAt(a: seq<Endpoint>, b: seq<Endpoint>, merged: seq<Endpoint>, u: string)
    requires FamilyPure(a, V4) && FamilyPure(b, V6) && Lists(merged, Merged(a, b))
    ensures && SameAt(ByUid(FamilyEndpoints(merged, V4)), ByUid(a), u)
            && SameAt(ByUid(FamilyEndpoints(merged, V6)), ByUid(b), u)
            <==> AgreeAt(ByUid(a), ByUid(b), u)
  {
    ListsByUid(merged, Merged(a, b));
    FamilyEndpointAt(merged, V4, u);
    FamilyEndpointAt(merged, V6, u);
    MergedAt(a, b, u);
    if u in Merged(a, b) {
      SplitOfMergeAddresses(a, b, u);
    }
  }

  lemma PureAt(es: seq<Endpoint>, f: Family, u: string)
    requires FamilyPure(es, f) && u in ByUid(es)
    ensures ByUid(es)[u].addresses != []
    ensures forall g :: FamilyAddresses(ByUid(es)[u].addresses, g) == if f == g then ByUid(es)[u].addresses else []
  {
    ByUidMembers(es);
    forall g
      ensures FamilyAddresses(ByUid(es)[u].addresses, g) == if f == g then ByUid(es)[u].addresses else []
    {
      PureAddresses(ByUid(es)[u].addresses, f, g);
    }
  }

  lemma SplitOfMergeAddresses(a: seq<Endpoint>, b: seq<Endpoint>, u: string)
    requires FamilyPure(a, V4) && FamilyPure(b, V6) && u in Merged(a, b)
    ensures FamilyAddresses(Merged(a, b)[u].addresses, V4) == if u in ByUid(a) then ByUid(a)[u].addresses else []
    ensures FamilyAddresses(Merged(a, b)[u].addresses, V6) == if u in ByUid(b) then ByUid(b)[u].addresses else []
    ensures u in ByUid(a) ==> ByUid(a)[u].addresses != []
    ensures u in ByUid(b) ==> ByUid(b)[u].addresses != []
  {
    MergedAt(a, b, u);
    if u in ByUid(a) {
      PureAt(a, V4, u);
    }
    if u in ByUid(b) {
      PureAt(b, V6, u);
    }
    if u in ByUid(a) && u in ByUid(b) {
      FamilyAddressesConcat(ByUid(a)[u].addresses, ByUid(b)[u].addresses, V4);
      FamilyAddressesConcat(ByUid(a)[u].addresses, ByUid(b)[u].addresses, V6);
    }
  }

  // ---------------------------------------------------------------------------------------------
  // The slice computed from the pods of a service.

  datatype Pod = Pod(uid: string, ips: seq<Address>, containersReady: seq<bool>, running: bool)

  predicate PodReady(pod: Pod) {
    (forall i :: 0 <= i < |pod.containersReady| ==> pod.containersReady[i]) && pod.running
  }

  /** The addresses of one family, as spelled. */
  function OfFamilyOnly(ips: seq<Address>, f: Family): (r: seq<Address>)
    ensures forall x :: x in r <==> x in ips && OfFamily(x, f)
  {
    if ips == [] then []
    else
      var last := ips[|ips| - 1];
      OfFamilyOnly(ips[..|ips| - 1], f) + if OfFamily(last, f) then [last] else []
  }

  /** A freshly computed slice of one family: distinct UIDs, at least one address each, all of the family. */
  ghost predicate Fresh(es: seq<Endpoint>, f: Family) {
    && UniqueUids(es)
    && forall i :: 0 <= i < |es| ==> es[i].addresses != [] && forall x :: x in es[i].addresses ==> OfFamily(x, f)
  }

  /** One endpoint per pod that has an address of the family, without an identifier yet. */
  function PodEndpoints(pods: seq<Pod>, f: Family): seq<Endpoint> {
    if pods == [] then []
    else
      var last := pods[|pods| - 1];
      var ips := OfFamilyOnly(last.ips, f);
      PodEndpoints(pods[..|pods| - 1], f) +
      if ips == [] then [] else [Endpoint(last.uid, ips, None, Some(PodReady(last)))]
  }

  /** The positions of a subsequence. */
  ghost predicate Ascending(at: seq<nat>, n: nat) {
    (forall k :: 0 <= k < |at| ==> at[k] < n) && (forall j, k :: 0 <= j < k < |at| ==> at[j] < at[k])
  }

  /** The addresses of the family among some, in their order. */
  ghost predicate PickedAt(at: seq<nat>, picked: seq<Address>, ips: seq<Address>, f: Family) {
    && |at| == |picked| && Ascending(at, |ips|)
    && (forall k :: 0 <= k < |at| ==> picked[k] == ips[at[k]] && Spells(ips[at[k]], f))
    && (forall i: nat :: i < |ips| && Spells(ips[i], f) ==> i in at)
  }

  ghost predicate Picked(picked: seq<Address>, ips: seq<Address>, f: Family) {
    exists at :: PickedAt(at, picked, ips, f)
  }

  /** The endpoint of a pod: its UID, no zone, its addresses of the family in order, and ready exactly when the pod runs
      and all its containers are ready. */
  ghost predicate EndpointOf(e: Endpoint, pod: Pod, f: Family) {
    && e.uid == pod.uid && e.zone == None && Picked(e.addresses, pod.ips, f)
    && e.ready == Some(pod.running && forall i :: 0 <= i < |pod.containersReady| ==> pod.containersReady[i])
  }

  ghost predicate HasAddress(pod: Pod, f: Family) {
    exists j :: 0 <= j < |pod.ips| && Spells(pod.ips[j], f)
  }

  /** One endpoint for each pod that has an address of the family, and for no other, in the order of the pods. */
  ghost predicate OnePerPod(at: seq<nat>, es: seq<Endpoint>, pods: seq<Pod>, f: Family) {
    && |at| == |es| && Ascending(at, |pods|)
    && (forall k :: 0 <= k < |es| ==> EndpointOf(es[k], pods[at[k]], f))
    && (forall i: nat :: i < |pods| ==> (i in at <==> HasAddress(pods[i], f)))
  }

  lemma AscendingSnoc(at: seq<nat>, n: nat)
    requires Ascending(at, n)
    ensures Ascending(at, n + 1) && Ascending(at + [n], n + 1)
    ensures forall i: nat :: i in at + [n] <==> i in at || i == n
    ensures n !in at
  {
    assert (at + [n])[|at|] == n && forall k :: 0 <= k < |at| ==> (at + [n])[k] == at[k];
  }

  lemma PickedSnoc(at: seq<nat>, picked: seq<Address>, ips: seq<Address>, f: Family, x: Address)
    requires PickedAt(at, picked, ips, f)
    ensures Spells(x, f) ==> PickedAt(at + [|ips|], picked + [x], ips + [x], f)
    ensures !Spells(x, f) ==> PickedAt(at, picked, ips + [x], f)
  {
    AscendingSnoc(at, |ips|);
    hide Ascending, Spells;
    assert forall k :: 0 <= k < |at| ==> at[k] < |ips| by {
      hide *;
      AscendingBelow(at, |ips|);
    }
  }

  lemma AscendingBelow(at: seq<nat>, n: nat)
    requires Ascending(at, n)
    ensures forall k :: 0 <= k < |at| ==> at[k] < n
  {
  }

  lemma {:induction false} OnlyPicked(ips: seq<Address>, f: Family) returns (at: seq<nat>)
    ensures PickedAt(at, OfFamilyOnly(ips, f), ips, f)
  {
    at := [];
    if ips != [] {
      var init, last := ips[..|ips| - 1], ips[|ips| - 1];
      at := OnlyPicked(init, f);
      PickedSnoc(at, OfFamilyOnly(init, f), init, f, last);
      hide PickedAt;
      SnocInit(ips);
      if Spells(last, f) {
        at := at + [|ips| - 1];
      } else {
        assert OfFamilyOnly(init, f) + [] == OfFamilyOnly(init, f);
      }
    }
  }

  lemma SomePicked(pod: Pod, f: Family)
    ensures OfFamilyOnly(pod.ips, f) != [] <==> HasAddress(pod, f)
  {
    var picked := OfFamilyOnly(pod.ips, f);
    hide OfFamilyOnly;
    if picked != [] {
      assert picked[0] in picked;
    }
    if HasAddress(pod, f) {
      var j :| 0 <= j < |pod.ips| && Spells(pod.ips[j], f);
      assert pod.ips[j] in pod.ips && pod.ips[j] in picked;
    }
  }

  /** The endpoint computed for a pod, if it has an address of the family. */
  lemma PodEndpointIs(pod: Pod, f: Family)
    ensures OfFamilyOnly(pod.ips, f) != [] <==> HasAddress(pod, f)
    ensures EndpointOf(Endpoint(pod.uid, OfFamilyOnly(pod.ips, f), None, Some(PodReady(pod))), pod, f)
  {
    SomePicked(pod, f);
    var at := OnlyPicked(pod.ips, f);
    hide PickedAt, OfFamilyOnly, HasAddress;
  }

  lemma OnePerPodSnoc(at: seq<nat>, es: seq<Endpoint>, pods: seq<Pod>, f: Family, pod: Pod, e: Endpoint)
    requires OnePerPod(at, es, pods, f)
    ensures HasAddress(pod, f) && EndpointOf(e, pod, f) ==> OnePerPod(at + [|pods|], es + [e], pods + [pod], f)
    ensures !HasAddress(pod, f) ==> OnePerPod(at, es, pods + [pod], f)
  {
    AscendingSnoc(at, |pods|);
    AscendingBelow(at, |pods|);
    hide Ascending, EndpointOf, HasAddress;
  }

  lemma {:induction false} PodEndpointsAre(pods: seq<Pod>, f: Family) returns (at: seq<nat>)
    ensures OnePerPod(at, PodEndpoints(pods, f), pods, f)
  {
    at := [];
    if pods != [] {
      var init, last := pods[..|pods| - 1], pods[|pods| - 1];
      at := PodEndpointsAre(init, f);
      PodEndpointIs(last, f);
      OnePerPodSnoc(at, PodEndpoints(init, f), init, f, last,
                    Endpoint(last.uid, OfFamilyOnly(last.ips, f), None, Some(PodReady(last))));
      hide OnePerPod, EndpointOf, HasAddress, OfFamilyOnly;
      SnocInit(pods);
      if HasAddress(last, f) {
        at := at + [|pods| - 1];
      } else {
        assert PodEndpoints(init, f) + [] == PodEndpoints(init, f);
      }
    }
  }

  method GetEndpoints(pods: seq<Pod>, f: Family) returns (es: seq<Endpoint>)
    ensures es == PodEndpoints(pods, f)
    ensures exists at :: OnePerPod(at, es, pods, f)
  {
    es := [];
    for i := 0 to |pods|
      invariant es == PodEndpoints(pods[..i], f)
    {
      assert pods[..i + 1][..i] == pods[..i];
      var endpointIPs := SelectFamily(pods[i].ips, f);
      if |endpointIPs| == 0 {
        continue;
      }
      es := es + [Endpoint(pods[i].uid, endpointIPs, None, Some(PodReady(pods[i])))];
    }
    assert pods[..|pods|] == pods;
    ghost var at := PodEndpointsAre(pods, f);
  }

  /** The inner loop: the addresses of the family. */
  method SelectFamily(ips: seq<Address>, f: Family) returns (endpointIPs: seq<Address>)
    ensures endpointIPs == OfFamilyOnly(ips, f)
  {
    endpointIPs := [];
    for k := 0 to |ips|
      invariant endpointIPs == OfFamilyOnly(ips[..k], f)
    {
      assert ips[..k + 1][..k] == ips[..k];
      if OfFamily(ips[k], f) {
        endpointIPs := endpointIPs + [ips[k]];
      }
    }
    assert ips[..|ips|] == ips;
  }

  /** Pods with distinct UIDs give slices the identifier allocator can work with. */
  lemma {:induction false} PodEndpointsFresh(pods: seq<Pod>, f: Family)
    requires forall i, j :: 0 <= i < j < |pods| ==> pods[i].uid != pods[j].uid
    ensures Fresh(PodEndpoints(pods, f), f)
    ensures forall i :: 0 <= i < |PodEndpoints(pods, f)| ==>
              exists k :: 0 <= k < |pods| && pods[k].uid == PodEndpoints(pods, f)[i].uid
  {
    if pods != [] {
      PodEndpointsFresh(pods[..|pods| - 1], f);
    }
  }
}
