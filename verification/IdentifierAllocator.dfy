/** pkg/controllers/statelessloadbalancer/controllermanager/endpointslice.go: identifiers are
    kept for the pods that stay, handed out lowest-first to newcomers, and published in two slices. */
module IdentifierAllocator {
  import opened Prelude
  import opened Identifier
  import opened EndpointSlice

  const DEFAULT_MAX_ENDPOINTS: nat := 100
  const UINT32: nat := 0x1_0000_0000

  /** The label of the service, converted to an unsigned 32-bit number; 100 when absent or unreadable. */
  function MaxEndpoints(value: Option<string>): (max: nat)
    ensures max < UINT32
  {
    if value.Some? && Atoi(value.value).Some? then Atoi(value.value).value % UINT32
    else DEFAULT_MAX_ENDPOINTS
  }

  /** getIdentifier: the least identifier below max that is not in use, -1 when there is none. */
  method GetFreeIdentifier(inUse: set<int>, max: nat) returns (id: int)
    ensures id == -1 || (0 <= id < max && id !in inUse)
    ensures forall i :: 0 <= i < (if id == -1 then max else id) ==> i in inUse
  {
    var i := 0;
    while i < max
      invariant 0 <= i <= max
      invariant forall k :: 0 <= k < i ==> k in inUse
    {
      if i !in inUse {
        return i;
      }
      i := i + 1;
    }
    return -1;
  }

  /** The identifiers that stay: those of published UIDs that are still wanted. */
  function Survivors(stored: map<string, Endpoint>, wanted: map<string, Endpoint>): map<string, int> {
    map u | u in wanted && u in stored && GetIdentifier(stored[u]).Some? :: GetIdentifier(stored[u]).value
  }

  ghost predicate Injective(ids: map<string, int>) {
    forall u, v :: u in ids && v in ids && ids[u] == ids[v] ==> u == v
  }

  ghost predicate Taken(ids: map<string, int>, i: int) {
    exists u :: u in ids && ids[u] == i
  }

  /** What the allocator promises for UIDs `uids`, whatever the order in which newcomers are met. */
  ghost predicate Allocation(survivors: map<string, int>, uids: set<string>, max: nat, ids: map<string, int>) {
    // nobody who stays loses or changes its identifier
    && survivors.Keys <= ids.Keys <= uids
    && (forall u :: u in survivors ==> ids[u] == survivors[u])
    // a newcomer gets a free identifier below the limit, and no other newcomer gets the same
    && (forall u :: u in ids && u !in survivors ==> 0 <= ids[u] < max && !Taken(survivors, ids[u]))
    && (forall u, v :: u in ids && v in ids && u !in survivors && v !in survivors && ids[u] == ids[v] ==> u == v)
    // lowest first, and nobody is left out while something is free
    && (forall u, i :: u in ids && u !in survivors && 0 <= i < ids[u] ==> Taken(ids, i))
    && (forall u, i :: u in uids && u !in ids && 0 <= i < max ==> Taken(ids, i))
  }

  function Publish(wanted: map<string, Endpoint>, ids: map<string, int>): map<string, Endpoint> {
    map u | u in wanted && u in ids :: SetIdentifier(wanted[u], ids[u])
  }

  /** A list published for one family. */
  ghost predicate Holds(es: seq<Endpoint>, m: map<string, Endpoint>) {
    UniqueUids(es) && ByUid(es) == m
  }

  /** What is published for a UID in the slice of a family, from what the two new slices hold for it: its identifier as
      the zone, the readiness of the first slice that has it, and the IPs of the family in their one spelling, each as
      often as it is there. UIDs without an identifier or an IP of the family are not published. */
  ghost predicate PublishedFor(es: seq<Endpoint>, f: Family, new4: seq<Endpoint>, new6: seq<Endpoint>,
                               ids: map<string, int>, u: string)
  {
    var (m, a, b, ips) := (ByUid(es), ByUid(new4), ByUid(new6), Both(new4, new6, u));
    && (u in m <==> u in ids && exists x :: x in ips && Spells(x, f))
    && (u in m ==>
          && m[u].uid == u && m[u].zone == Some(Itoa(ids[u]))
          && m[u].ready == (if u in a then a[u].ready else if u in b then b[u].ready else None)
          && forall x :: multiset(m[u].addresses)[x] ==
                         if Spells(x, f) && x.spelling == 0 then TimesSpelled(ips, x.ip) else 0)
  }

  lemma PublishedMap(wanted: map<string, Endpoint>, ids: map<string, int>, f: Family, u: string)
    ensures var m := FamilyMap(Publish(wanted, ids), f);
            && (u in m <==> u in wanted && u in ids && FamilyAddresses(wanted[u].addresses, f) != [])
            && (u in m ==> m[u] == Endpoint(wanted[u].uid, FamilyAddresses(wanted[u].addresses, f), Some(Itoa(ids[u])),
                                            wanted[u].ready))
  {
    hide FamilyAddresses, Itoa;
  }

  /** The addresses that two slices hold for a UID. */
  function Both(new4: seq<Endpoint>, new6: seq<Endpoint>, u: string): seq<Address> {
    (if u in ByUid(new4) then ByUid(new4)[u].addresses else []) +
    (if u in ByUid(new6) then ByUid(new6)[u].addresses else [])
  }

  lemma MergedFields(new4: seq<Endpoint>, new6: seq<Endpoint>, u: string)
    requires UniqueUids(new6) && u in Merged(new4, new6)
    ensures Merged(new4, new6)[u].uid == u && Merged(new4, new6)[u].addresses == Both(new4, new6, u)
    ensures Merged(new4, new6)[u].ready ==
            if u in ByUid(new4) then ByUid(new4)[u].ready else if u in ByUid(new6) then ByUid(new6)[u].ready else None
  {
    MergedAt(new4, new6, u);
    hide Merged, ByUid;
  }

  lemma FamilyBag(ips: seq<Address>, f: Family)
    ensures FamilyAddresses(ips, f) != [] <==> exists x :: x in ips && Spells(x, f)
    ensures forall x :: multiset(FamilyAddresses(ips, f))[x] ==
                        if Spells(x, f) && x.spelling == 0 then TimesSpelled(ips, x.ip) else 0
  {
    FamilySome(ips, f);
    forall x ensures multiset(FamilyAddresses(ips, f))[x] ==
                     if Spells(x, f) && x.spelling == 0 then TimesSpelled(ips, x.ip) else 0
    {
      FamilyCount(ips, f, x);
    }
  }

  lemma PublishedFields(es: seq<Endpoint>, f: Family, new4: seq<Endpoint>, new6: seq<Endpoint>, ids: map<string, int>,
                        u: string)
    requires UniqueUids(new6) && ids.Keys <= Merged(new4, new6).Keys
    requires Holds(es, FamilyMap(Publish(Merged(new4, new6), ids), f))
    ensures PublishedFor(es, f, new4, new6, ids, u)
  {
    PublishedMap(Merged(new4, new6), ids, f, u);
    FamilyBag(Both(new4, new6, u), f);
    if u in Merged(new4, new6) {
      MergedFields(new4, new6, u);
    }
    hide Merged, ByUid, FamilyAddresses, TimesSpelled, Itoa, Spells, FamilyMap, Publish;
  }

  /** getEndpointSlicesWithIdentifiers. */
  method GetEndpointSlicesWithIdentifiers(old4: Slice, old6: Slice, new4: Slice, new6: Slice, max: nat)
      returns (v4: Slice, v6: Slice, ghost ids: map<string, int>)
    ensures var wanted := Merged(new4.endpoints, new6.endpoints);
            && Allocation(Survivors(Merged(old4.endpoints, old6.endpoints), wanted), wanted.Keys, max, ids)
            && Holds(v4.endpoints, FamilyMap(Publish(wanted, ids), V4))
            && Holds(v6.endpoints, FamilyMap(Publish(wanted, ids), V6))
    ensures v4.meta == new4.meta && v4.family == Some(V4) && v6.meta == new6.meta && v6.family == Some(V6)
    ensures UniqueUids(new6.endpoints) ==> forall u ::
              && PublishedFor(v4.endpoints, V4, new4.endpoints, new6.endpoints, ids, u)
              && PublishedFor(v6.endpoints, V6, new4.endpoints, new6.endpoints, ids, u)
  {
    var oldSlice := MergeEndpointSlices(Some(old4), Some(old6));
    var newSlice := MergeEndpointSlices(Some(new4), Some(new6));
    var final;
    final, ids := AssignIdentifiers(oldSlice.value.endpoints, newSlice.value.endpoints, max);
    ListsByUid(oldSlice.value.endpoints, Merged(old4.endpoints, old6.endpoints));
    ListsByUid(newSlice.value.endpoints, Merged(new4.endpoints, new6.endpoints));
    v4, v6 := SplitEndpointSlices(Some(Slice("", None, final)));
    FamilyEndpointsMap(final, V4);
    FamilyEndpointsMap(final, V6);
    v4 := v4.(meta := new4.meta);
    v6 := v6.(meta := new6.meta);
    if UniqueUids(new6.endpoints) {
      forall u
        ensures PublishedFor(v4.endpoints, V4, new4.endpoints, new6.endpoints, ids, u)
        ensures PublishedFor(v6.endpoints, V6, new4.endpoints, new6.endpoints, ids, u)
      {
        PublishedFields(v4.endpoints, V4, new4.endpoints, new6.endpoints, ids, u);
        PublishedFields(v6.endpoints, V6, new4.endpoints, new6.endpoints, ids, u);
      }
    }
  }

  /** The loops of the allocator over the merged stored and new endpoints. */
  method AssignIdentifiers(stored: seq<Endpoint>, wanted: seq<Endpoint>, max: nat)
      returns (final: seq<Endpoint>, ghost ids: map<string, int>)
    requires UniqueUids(stored) && UniqueUids(wanted)
    ensures Allocation(Survivors(ByUid(stored), ByUid(wanted)), ByUid(wanted).Keys, max, ids)
    ensures Holds(final, Publish(ByUid(wanted), ids))
  {
    var endpointIdentifier, inUse := KeepIdentifiers(stored, wanted);
    ghost var survivors := endpointIdentifier;
    final, ids := [], map[];
    AssignedNone(survivors, inUse, max);
    SeenNone(wanted);
    hide *;
    for i := 0 to |wanted|
      invariant Assigned(survivors, ByUid(wanted[..i]), max, final, ids, inUse)
    {
      NotSeenBefore(wanted, i);
      var e := wanted[i];
      ByUidSnoc(wanted[..i], e);
      if e.uid in endpointIdentifier {
        var id := endpointIdentifier[e.uid];
        AssignedSurvivor(survivors, ByUid(wanted[..i]), max, final, ids, inUse, e);
        final := final + [SetIdentifier(e, id)];
        ids := ids[e.uid := id];
        continue;
      }
      var id := GetFreeIdentifier(inUse, max);
      AssignedNewcomer(survivors, ByUid(wanted[..i]), max, final, ids, inUse, e, id);
      if id < 0 {
        continue;
      }
      inUse := inUse + {id};
      final := final + [SetIdentifier(e, id)];
      ids := ids[e.uid := id];
    }
    assert wanted[..|wanted|] == wanted;
    AllAssigned(survivors, ByUid(wanted), max, final, ids, inUse);
  }

  /** The first loops: the identifiers of the UIDs that stay, and the identifiers in use. */
  method KeepIdentifiers(stored: seq<Endpoint>, wanted: seq<Endpoint>)
      returns (endpointIdentifier: map<string, int>, inUse: set<int>)
    requires UniqueUids(stored)
    ensures endpointIdentifier == Survivors(ByUid(stored), ByUid(wanted))
    ensures forall i :: i in inUse <==> Taken(endpointIdentifier, i)
  {
    var newEndpoints: set<string> := {};
    for i := 0 to |wanted|
      invariant newEndpoints == ByUid(wanted[..i]).Keys
    {
      assert wanted[..i + 1][..i] == wanted[..i];
      newEndpoints := newEndpoints + {wanted[i].uid};
    }
    assert wanted[..|wanted|] == wanted;
    endpointIdentifier, inUse := KeepKnown(stored, newEndpoints, ByUid(wanted));
  }

  method KeepKnown(stored: seq<Endpoint>, newEndpoints: set<string>, ghost wanted: map<string, Endpoint>)
      returns (endpointIdentifier: map<string, int>, inUse: set<int>)
    requires UniqueUids(stored) && newEndpoints == wanted.Keys
    ensures endpointIdentifier == Survivors(ByUid(stored), wanted)
    ensures forall i :: i in inUse <==> Taken(endpointIdentifier, i)
  {
    endpointIdentifier, inUse := map[], {};
    ghost var done: map<string, Endpoint> := map[];
    for i := 0 to |stored|
      invariant done == ByUid(stored[..i])
      invariant endpointIdentifier == Survivors(done, wanted)
      invariant forall k :: k in inUse <==> Taken(endpointIdentifier, k)
    {
      NotSeenBefore(stored, i);
      var e := stored[i];
      ByUidSnoc(stored[..i], e);
      SurvivorsSnoc(done, wanted, e);
      done := done[e.uid := e];
      var id := GetIdentifier(e);
      if id.None? {
        continue;
      }
      if e.uid !in newEndpoints {
        continue;
      }
      TakenAfter(endpointIdentifier, e.uid, id.value);
      endpointIdentifier := endpointIdentifier[e.uid := id.value];
      inUse := inUse + {id.value};
    }
    assert stored[..|stored|] == stored;
  }

  lemma SurvivorsSnoc(stored: map<string, Endpoint>, wanted: map<string, Endpoint>, e: Endpoint)
    requires e.uid !in stored
    ensures Survivors(stored[e.uid := e], wanted) ==
            if GetIdentifier(e).Some? && e.uid in wanted
            then Survivors(stored, wanted)[e.uid := GetIdentifier(e).value]
            else Survivors(stored, wanted)
  {
  }

  // ---------------------------------------------------------------------------------------------
  // The state of the allocation loop after the UIDs `seen`.

  ghost predicate Progress(survivors: map<string, int>, seen: set<string>, max: nat,
                           ids: map<string, int>, inUse: set<int>) {
    && ids.Keys <= seen
    && (forall u :: u in seen && u in survivors ==> u in ids && ids[u] == survivors[u])
    && (forall i :: i in inUse <==> Taken(survivors, i) || Taken(ids, i))
    && (forall u :: u in ids && u !in survivors ==> 0 <= ids[u] < max && !Taken(survivors, ids[u]))
    && (forall u, v :: u in ids && v in ids && u !in survivors && v !in survivors && ids[u] == ids[v] ==> u == v)
    && (forall u, i :: u in ids && u !in survivors && 0 <= i < ids[u] ==> i in inUse)
    && (forall u, i :: u in seen && u !in ids && 0 <= i < max ==> i in inUse)
  }

  /** The state of the loop with what it has published. */
  ghost predicate Assigned(survivors: map<string, int>, done: map<string, Endpoint>, max: nat,
                           final: seq<Endpoint>, ids: map<string, int>, inUse: set<int>)
  {
    Progress(survivors, done.Keys, max, ids, inUse) && Holds(final, Publish(done, ids))
  }

  lemma AssignedNone(survivors: map<string, int>, inUse: set<int>, max: nat)
    requires forall i :: i in inUse <==> Taken(survivors, i)
    ensures Assigned(survivors, map[], max, [], map[], inUse)
  {
    assert forall i :: !Taken(map[], i);
  }

  lemma SeenNone(wanted: seq<Endpoint>)
    ensures ByUid(wanted[..0]) == map[]
  {
  }

  lemma AssignedSurvivor(survivors: map<string, int>, done: map<string, Endpoint>, max: nat,
                         final: seq<Endpoint>, ids: map<string, int>, inUse: set<int>, e: Endpoint)
    requires Assigned(survivors, done, max, final, ids, inUse) && e.uid !in done && e.uid in survivors
    ensures var id := survivors[e.uid];
            Assigned(survivors, done[e.uid := e], max, final + [SetIdentifier(e, id)], ids[e.uid := id], inUse)
  {
    assert done[e.uid := e].Keys == done.Keys + {e.uid} && ids.Keys <= done.Keys;
    hide *;
    ProgressSurvivor(survivors, done.Keys, max, ids, inUse, e.uid);
    PublishOne(done, e, final, ids, survivors[e.uid]);
  }

  lemma AssignedNewcomer(survivors: map<string, int>, done: map<string, Endpoint>, max: nat,
                         final: seq<Endpoint>, ids: map<string, int>, inUse: set<int>, e: Endpoint, id: int)
    requires Assigned(survivors, done, max, final, ids, inUse) && e.uid !in done && e.uid !in survivors
    requires id == -1 || (0 <= id < max && id !in inUse)
    requires forall i :: 0 <= i < (if id == -1 then max else id) ==> i in inUse
    ensures if id == -1 then Assigned(survivors, done[e.uid := e], max, final, ids, inUse)
            else Assigned(survivors, done[e.uid := e], max, final + [SetIdentifier(e, id)], ids[e.uid := id],
                inUse + {id})
  {
    assert done[e.uid := e].Keys == done.Keys + {e.uid} && ids.Keys <= done.Keys;
    if id == -1 {
      PublishNone(done, e, final, ids);
    } else {
      ProgressNewcomer(survivors, done.Keys, max, ids, inUse, e.uid, id);
      PublishOne(done, e, final, ids, id);
      hide *;
    }
  }

  lemma AllAssigned(survivors: map<string, int>, done: map<string, Endpoint>, max: nat,
                    final: seq<Endpoint>, ids: map<string, int>, inUse: set<int>)
    requires Assigned(survivors, done, max, final, ids, inUse)
    ensures survivors.Keys <= done.Keys ==> Allocation(survivors, done.Keys, max, ids)
    ensures Holds(final, Publish(done, ids))
  {
    if survivors.Keys <= done.Keys {
      ProgressDone(survivors, done.Keys, max, ids, inUse);
    }
  }

  lemma TakenAfter(ids: map<string, int>, u: string, id: int)
    requires u !in ids
    ensures forall i :: Taken(ids[u := id], i) <==> Taken(ids, i) || i == id
  {
    forall i ensures Taken(ids[u := id], i) <==> Taken(ids, i) || i == id {
      assert ids[u := id][u] == id;
      if Taken(ids, i) {
        var v :| v in ids && ids[v] == i;
        assert ids[u := id][v] == i;
      }
    }
  }

  lemma ProgressSurvivor(survivors: map<string, int>, seen: set<string>, max: nat,
                         ids: map<string, int>, inUse: set<int>, u: string)
    requires Progress(survivors, seen, max, ids, inUse) && u !in seen && u in survivors
    ensures Progress(survivors, seen + {u}, max, ids[u := survivors[u]], inUse)
  {
    TakenAfter(ids, u, survivors[u]);
    assert Taken(survivors, survivors[u]);
  }

  lemma ProgressNewcomer(survivors: map<string, int>, seen: set<string>, max: nat,
                         ids: map<string, int>, inUse: set<int>, u: string, id: int)
    requires Progress(survivors, seen, max, ids, inUse) && u !in seen && u !in survivors
    requires 0 <= id < max && id !in inUse && forall i :: 0 <= i < id ==> i in inUse
    ensures Progress(survivors, seen + {u}, max, ids[u := id], inUse + {id})
  {
    TakenAfter(ids, u, id);
    forall v | v in ids ensures ids[v] != id {
      assert Taken(ids, ids[v]);
    }
  }

  lemma ProgressDone(survivors: map<string, int>, seen: set<string>, max: nat,
                     ids: map<string, int>, inUse: set<int>)
    requires Progress(survivors, seen, max, ids, inUse) && survivors.Keys <= seen
    ensures Allocation(survivors, seen, max, ids)
  {
    forall i | i in inUse ensures Taken(ids, i) {
      if Taken(survivors, i) {
        var u :| u in survivors && survivors[u] == i;
        assert u in seen && ids[u] == i;
      }
    }
  }

  lemma PublishOne(wanted: map<string, Endpoint>, e: Endpoint, final: seq<Endpoint>, ids: map<string, int>, id: int)
    requires e.uid !in wanted && ids.Keys <= wanted.Keys
    requires Holds(final, Publish(wanted, ids))
    ensures Holds(final + [SetIdentifier(e, id)], Publish(wanted[e.uid := e], ids[e.uid := id]))
  {
    ByUidSnoc(final, SetIdentifier(e, id));
    PublishSnoc(wanted, ids, e, id);
  }

  lemma PublishSnoc(wanted: map<string, Endpoint>, ids: map<string, int>, e: Endpoint, id: int)
    requires e.uid !in wanted && e.uid !in ids
    ensures Publish(wanted[e.uid := e], ids[e.uid := id]) == Publish(wanted, ids)[e.uid := SetIdentifier(e, id)]
  {
  }

  lemma PublishNone(wanted: map<string, Endpoint>, e: Endpoint, final: seq<Endpoint>, ids: map<string, int>)
    requires e.uid !in wanted && e.uid !in ids
    requires Holds(final, Publish(wanted, ids))
    ensures Holds(final, Publish(wanted[e.uid := e], ids))
  {
    assert Publish(wanted[e.uid := e], ids) == Publish(wanted, ids);
  }
}
