/** Runs of the identifier allocator: every reconcile reads back what the previous ones stored.
    pkg/controllers/statelessloadbalancer/controllermanager/endpointslice.go. */
module IdentifierRuns {
  import opened Prelude
  import opened Identifier
  import opened EndpointSlice
  import opened IdentifierAllocator

  /** What the API server holds for a service; an absent slice reads as an empty one. */
  datatype Stored = Stored(v4: seq<Endpoint>, v6: seq<Endpoint>)

  /** The slices computed from the pods in one reconcile. */
  datatype Input = Input(v4: seq<Endpoint>, v6: seq<Endpoint>)

  ghost predicate ValidInput(input: Input) {
    Fresh(input.v4, V4) && Fresh(input.v6, V6)
  }

  function Wanted(input: Input): map<string, Endpoint> {
    Merged(input.v4, input.v6)
  }

  function Known(s: Stored): map<string, Endpoint> {
    Merged(s.v4, s.v6)
  }

  /** The identifier every stored UID carries, read through the merge of both slices. */
  function Ids(s: Stored): map<string, int> {
    map u | u in Known(s) && GetIdentifier(Known(s)[u]).Some? :: GetIdentifier(Known(s)[u]).value
  }

  /** A reconcile that writes both slices. */
  ghost predicate FullStep(s: Stored, input: Input, max: nat, ids: map<string, int>, s': Stored) {
    && Allocation(Survivors(Known(s), Wanted(input)), Wanted(input).Keys, max, ids)
    && Holds(s'.v4, FamilyMap(Publish(Wanted(input), ids), V4))
    && Holds(s'.v6, FamilyMap(Publish(Wanted(input), ids), V6))
  }

  /** A reconcile that stops between the two writes. */
  ghost predicate PartialStep(s: Stored, input: Input, max: nat, ids: map<string, int>, s': Stored) {
    exists v6 :: FullStep(s, input, max, ids, Stored(s'.v4, v6)) && s'.v6 == s.v6
  }

  /** The limit that the label of a service states: its number, cut to 32 unsigned bits, or 100 when there is none. */
  ghost predicate Limits(text: Option<string>, n: nat) {
    if text.Some? && Atoi(text.value).Some?
    then n < 0x1_0000_0000 && (Atoi(text.value).value - n) % 0x1_0000_0000 == 0
    else n == 100
  }

  /** A printed number below 2^32 states itself; a missing or unreadable label states 100. */
  lemma PrintedLimit(n: nat)
    ensures n < 0x1_0000_0000 ==> Limits(Some(Itoa(n)), n)
    ensures Limits(None, 100) && forall text: string :: Atoi(text).None? ==> Limits(Some(text), 100)
  {
    AtoiItoa(n);
  }

  lemma LimitIsOne(text: Option<string>, n: nat)
    requires Limits(text, n)
    ensures MaxEndpoints(text) == n
  {
    if text.Some? && Atoi(text.value).Some? {
      SameRemainder(Atoi(text.value).value, n);
    }
  }

  lemma SameRemainder(k: int, n: nat)
    requires n < 0x1_0000_0000 && (k - n) % 0x1_0000_0000 == 0
    ensures k % 0x1_0000_0000 == n
  {
    var q := (k - n) / 0x1_0000_0000;
    assert k == q * 0x1_0000_0000 + n;
  }

  /** As many of the wanted UIDs are stored as the limit allows, with identifiers below it. */
  ghost predicate Fills(s: Stored, input: Input, n: nat) {
    && Ids(s).Keys <= Wanted(input).Keys && |Ids(s)| == (if |Wanted(input)| <= n then |Wanted(input)| else n)
    && forall u :: u in Ids(s) ==> 0 <= Ids(s)[u] < n
  }

  lemma StepFills(s: Stored, input: Input, text: Option<string>, n: nat, ids: map<string, int>, s': Stored)
    requires ValidInput(input) && FullStep(s, input, MaxEndpoints(text), ids, s') && Limits(text, n) && StoredInv(s, n)
    ensures Fills(s', input, n)
  {
    LimitIsOne(text, n);
    StepKeeps(s, input, n, ids, s');
    IdsInRange(s', n);
    hide *;
    assert Ids(s').Keys <= Wanted(input).Keys && forall u :: u in Ids(s') ==> 0 <= Ids(s')[u] < n;
    FillsFrom(s', input, n);
  }

  lemma IdsInRange(s: Stored, n: nat)
    requires StoredInv(s, n)
    ensures forall u :: u in Ids(s) ==> 0 <= Ids(s)[u] < n
  {
    assert Ids(s).Keys <= Known(s).Keys;
    hide Ids, Known;
  }

  lemma FillsFrom(s: Stored, input: Input, n: nat)
    requires Ids(s).Keys <= Wanted(input).Keys && |Ids(s)| == (if |Wanted(input)| <= n then |Wanted(input)| else n)
    requires forall u :: u in Ids(s) ==> 0 <= Ids(s)[u] < n
    ensures Fills(s, input, n)
  {
  }

  /** The controller's view of one service in the API server. */
  class Controller {
    var stored4: Option<Slice>
    var stored6: Option<Slice>

    constructor ()
      ensures Contents() == Stored([], [])
    {
      stored4, stored6 := None, None;
    }

    function Contents(): Stored
      reads this
    {
      Stored(if stored4.None? then [] else stored4.value.endpoints,
          if stored6.None? then [] else stored6.value.endpoints)
    }

    method Write4(slice: Slice) returns (ok: bool)
      modifies this`stored4
      ensures stored4 == if ok then Some(slice) else old(stored4)
    {
      ok := *;
      if ok {
        stored4 := Some(slice);
      }
    }

    method Write6(slice: Slice) returns (ok: bool)
      modifies this`stored6
      ensures stored6 == if ok then Some(slice) else old(stored6)
    {
      ok := *;
      if ok {
        stored6 := Some(slice);
      }
    }

    /** reconcileEndpointSlice: allocate, then write the IPv4 slice, then the IPv6 slice; any write may fail. */
    method ReconcileEndpointSlice(new4: Slice, new6: Slice, maxEndpoints: Option<string>)
        returns (err: bool, ghost ids: map<string, int>)
      modifies this
      ensures var input := Input(new4.endpoints, new6.endpoints);
              var max := MaxEndpoints(maxEndpoints);
              && (!err ==> FullStep(old(Contents()), input, max, ids, Contents()))
              && (err ==> Contents() == old(Contents()) || PartialStep(old(Contents()), input, max, ids, Contents()))
      ensures var input := Input(new4.endpoints, new6.endpoints);
              !err && ValidInput(input) ==>
                forall n: nat :: Limits(maxEndpoints, n) && StoredInv(old(Contents()), n) ==>
                    Fills(Contents(), input, n)
    {
      var old4 := if stored4.None? then Slice("", None, []) else stored4.value;
      var old6 := if stored6.None? then Slice("", None, []) else stored6.value;
      var v4, v6;
      v4, v6, ids := GetEndpointSlicesWithIdentifiers(old4, old6, new4, new6, MaxEndpoints(maxEndpoints));
      assert FullStep(old(Contents()), Input(new4.endpoints, new6.endpoints), MaxEndpoints(maxEndpoints), ids,
                      Stored(v4.endpoints, v6.endpoints));
      var ok := Write4(v4);
      if !ok {
        return true, ids;
      }
      ok := Write6(v6);
      ghost var input := Input(new4.endpoints, new6.endpoints);
      hide *;
      if ok && ValidInput(input) {
        forall n: nat | Limits(maxEndpoints, n) && StoredInv(old(Contents()), n) ensures Fills(Contents(), input, n) {
          StepFills(old(Contents()), input, maxEndpoints, n, ids, Contents());
        }
      }
      return !ok, ids;
    }
  }

  // ---------------------------------------------------------------------------------------------
  // One allocation.

  /** Newcomers never introduce a collision or leave the range: the identifiers handed out are distinct (below
      the limit) exactly when those of the UIDs that stay are. */
  lemma AllocationDistinct(survivors: map<string, int>, uids: set<string>, max: nat, ids: map<string, int>)
    requires Allocation(survivors, uids, max, ids)
    ensures Injective(ids) <==> Injective(survivors)
    ensures (forall u :: u in ids ==> 0 <= ids[u] < max) <==> (forall u :: u in survivors ==> 0 <= survivors[u] < max)
  {
    forall u | u in survivors ensures u in ids && ids[u] == survivors[u] && Taken(survivors, survivors[u]) {
    }
  }

  lemma {:induction false} InjectiveCount(ids: map<string, int>)
    requires Injective(ids)
    ensures |ids.Values| == |ids|
  {
    if ids != map[] {
      var u :| u in ids;
      var rest := ids - {u};
      assert ids == rest[u := ids[u]];
      InjectiveCount(rest);
      assert ids.Values == rest.Values + {ids[u]};
      assert ids[u] !in rest.Values;
      assert |ids.Keys| == |rest.Keys| + 1 by {
        assert ids.Keys == rest.Keys + {u};
      }
    }
  }

  function Below(max: nat): (r: set<int>)
    ensures forall i :: i in r <==> 0 <= i < max
  {
    set i: int {:trigger Identity(i)} | 0 <= i < max && Identity(i) == i
  }

  function Identity(i: int): int {
    i
  }

  lemma {:induction false} BelowCount(max: nat)
    ensures |Below(max)| == max
  {
    if max > 0 {
      BelowCount(max - 1);
      assert Below(max) == Below(max - 1) + {max - 1};
    }
  }

  /** Capacity: as many UIDs are published as fit, and everyone who stays is among them. */
  lemma Capacity(survivors: map<string, int>, uids: set<string>, max: nat, ids: map<string, int>)
    requires Allocation(survivors, uids, max, ids)
    requires Injective(survivors) && forall u :: u in survivors ==> 0 <= survivors[u] < max
    ensures |ids| == if |uids| <= max then |uids| else max
    ensures survivors.Keys <= ids.Keys
  {
    AllocationDistinct(survivors, uids, max, ids);
    InjectiveCount(ids);
    BelowCount(max);
    assert ids.Values <= Below(max);
    SubsetCount(ids.Values, Below(max));
    SubsetCount(ids.Keys, uids);
    assert |ids.Keys| == |ids|;
    if ids.Keys != uids {
      var u :| u in uids && u !in ids;
      forall i | i in Below(max) ensures i in ids.Values {
        assert Taken(ids, i);
      }
      assert ids.Values == Below(max);
    }
  }

  // ---------------------------------------------------------------------------------------------
  // One reconcile.

  /** A UID stored in both slices carries one identifier. */
  ghost predicate OneIdentifier(s: Stored, u: string) {
    u in ByUid(s.v4) && u in ByUid(s.v6) ==> GetIdentifier(ByUid(s.v4)[u]) == GetIdentifier(ByUid(s.v6)[u])
  }

  /** The invariant of runs that always write both slices. */
  ghost predicate StoredInv(s: Stored, max: nat) {
    && UniqueUids(s.v4) && UniqueUids(s.v6)
    && (forall u :: OneIdentifier(s, u))
    && (forall u :: u in Known(s) ==> u in Ids(s) && 0 <= Ids(s)[u] < max)
    && Injective(Ids(s))
  }

  lemma {:induction false} HasFamily(addresses: seq<Address>, f: Family)
    requires exists x :: x in addresses && OfFamily(x, f)
    ensures FamilyAddresses(addresses, f) != []
  {
    var x :| x in addresses && OfFamily(x, f);
    var last := addresses[|addresses| - 1];
    if !OfFamily(last, f) {
      assert x in addresses[..|addresses| - 1];
      HasFamily(addresses[..|addresses| - 1], f);
    }
  }

  lemma FreshAt(es: seq<Endpoint>, f: Family, u: string)
    requires Fresh(es, f) && u in ByUid(es)
    ensures FamilyAddresses(ByUid(es)[u].addresses, f) != []
    ensures forall x :: x in ByUid(es)[u].addresses ==> OfFamily(x, f)
  {
    ByUidMembers(es);
    var i :| 0 <= i < |es| && es[i] == ByUid(es)[u];
    assert es[i].addresses[0] in es[i].addresses;
    HasFamily(es[i].addresses, f);
  }

  lemma {:induction false} NoFamily(addresses: seq<Address>, f: Family)
    requires forall x :: x in addresses ==> !OfFamily(x, f)
    ensures FamilyAddresses(addresses, f) == []
  {
    if addresses != [] {
      assert addresses[|addresses| - 1] in addresses;
      NoFamily(addresses[..|addresses| - 1], f);
    }
  }

  /** A computed endpoint is published for exactly the families it was computed for. */
  lemma WantedFamilies(input: Input, u: string)
    requires ValidInput(input)
    ensures u in Wanted(input) <==> u in ByUid(input.v4) || u in ByUid(input.v6)
    ensures u in Wanted(input) ==>
              && (FamilyAddresses(Wanted(input)[u].addresses, V4) != [] <==> u in ByUid(input.v4))
              && (FamilyAddresses(Wanted(input)[u].addresses, V6) != [] <==> u in ByUid(input.v6))
  {
    MergedAt(input.v4, input.v6, u);
    if u in ByUid(input.v4) {
      FreshAt(input.v4, V4, u);
      NoFamily(ByUid(input.v4)[u].addresses, V6);
    }
    if u in ByUid(input.v6) {
      FreshAt(input.v6, V6, u);
      NoFamily(ByUid(input.v6)[u].addresses, V4);
    }
    if u in ByUid(input.v4) && u in ByUid(input.v6) {
      FamilyAddressesConcat(ByUid(input.v4)[u].addresses, ByUid(input.v6)[u].addresses, V4);
      FamilyAddressesConcat(ByUid(input.v4)[u].addresses, ByUid(input.v6)[u].addresses, V6);
    }
  }

  lemma AllocationInRange(s: Stored, wanted: map<string, Endpoint>, max: nat, ids: map<string, int>)
    requires max < UINT32 && Allocation(Survivors(Known(s), wanted), wanted.Keys, max, ids)
    ensures forall u :: u in ids ==> InRange(ids[u])
  {
  }

  /** What one family slice holds for a UID after an allocation. */
  lemma PublishedAt(s: Stored, input: Input, max: nat, ids: map<string, int>, es: seq<Endpoint>, f: Family, u: string)
    requires ValidInput(input) && max < UINT32
    requires Allocation(Survivors(Known(s), Wanted(input)), Wanted(input).Keys, max, ids)
    requires Holds(es, FamilyMap(Publish(Wanted(input), ids), f))
    ensures u in ByUid(es) <==> u in ids && u in ByUid(if f == V4 then input.v4 else input.v6)
    ensures u in ByUid(es) ==> ByUid(es)[u].zone == Some(Itoa(ids[u])) && GetIdentifier(ByUid(es)[u]) == Some(ids[u])
  {
    WantedFamilies(input, u);
    AllocationInRange(s, Wanted(input), max, ids);
    if u in ids {
      AtoiItoa(ids[u]);
    }
  }

  /** After both writes every UID of the allocation is stored, and carries its identifier in every slice it is in. */
  lemma FullStepAt(s: Stored, input: Input, max: nat, ids: map<string, int>, s': Stored, u: string)
    requires ValidInput(input) && max < UINT32 && FullStep(s, input, max, ids, s')
    ensures OneIdentifier(s', u)
    ensures u in Known(s') <==> u in ids
    ensures u in Ids(s') <==> u in ids
    ensures u in ids ==> Ids(s')[u] == ids[u]
  {
    PublishedAt(s, input, max, ids, s'.v4, V4, u);
    PublishedAt(s, input, max, ids, s'.v6, V6, u);
    WantedFamilies(input, u);
    MergedAt(s'.v4, s'.v6, u);
  }

  /** Reading back what a reconcile wrote gives exactly its allocation: the identifiers survive being printed,
      split over the families, stored, merged and parsed. */
  lemma ReadBack(s: Stored, input: Input, max: nat, ids: map<string, int>, s': Stored)
    requires ValidInput(input) && max < UINT32 && FullStep(s, input, max, ids, s')
    ensures Ids(s') == ids && Known(s').Keys == ids.Keys
  {
    forall u ensures u in Ids(s') <==> u in ids
             ensures u in ids ==> Ids(s')[u] == ids[u]
             ensures u in Known(s') <==> u in ids
    {
      FullStepAt(s, input, max, ids, s', u);
    }
  }

  lemma SurvivorsOf(s: Stored, wanted: map<string, Endpoint>, u: string)
    ensures u in Survivors(Known(s), wanted) <==> u in Ids(s) && u in wanted
    ensures u in Survivors(Known(s), wanted) ==> Survivors(Known(s), wanted)[u] == Ids(s)[u]
  {
  }

  /** One reconcile keeps the invariant, keeps the identifier of everyone who stays, and publishes
      as many UIDs as fit. */
  lemma StepKeeps(s: Stored, input: Input, max: nat, ids: map<string, int>, s': Stored)
    requires ValidInput(input) && max < UINT32 && FullStep(s, input, max, ids, s') && StoredInv(s, max)
    ensures StoredInv(s', max)
    ensures forall u :: u in Ids(s) && u in Wanted(input) ==> u in Ids(s') && Ids(s')[u] == Ids(s)[u]
    ensures Ids(s').Keys <= Wanted(input).Keys
    ensures |Ids(s')| == if |Wanted(input)| <= max then |Wanted(input)| else max
  {
    StepAllocates(s, input, max, ids, s');
    SurvivorsKept(s, Wanted(input), max);
    hide *;
    var survivors := Survivors(Known(s), Wanted(input));
    ReadBack(s, input, max, ids, s');
    AllocationDistinct(survivors, Wanted(input).Keys, max, ids);
    Capacity(survivors, Wanted(input).Keys, max, ids);
    AllocationKeeps(survivors, Wanted(input).Keys, max, ids);
    assert |Wanted(input).Keys| == |Wanted(input)|;
    forall u ensures OneIdentifier(s', u) {
      FullStepAt(s, input, max, ids, s', u);
    }
    InvariantFrom(s', max);
  }

  lemma StepAllocates(s: Stored, input: Input, max: nat, ids: map<string, int>, s': Stored)
    requires FullStep(s, input, max, ids, s')
    ensures Allocation(Survivors(Known(s), Wanted(input)), Wanted(input).Keys, max, ids)
    ensures UniqueUids(s'.v4) && UniqueUids(s'.v6)
  {
  }

  lemma AllocationKeeps(survivors: map<string, int>, uids: set<string>, max: nat, ids: map<string, int>)
    requires Allocation(survivors, uids, max, ids)
    ensures ids.Keys <= uids && forall u :: u in survivors ==> u in ids && ids[u] == survivors[u]
  {
  }

  lemma SurvivorsKept(s: Stored, wanted: map<string, Endpoint>, max: nat)
    requires StoredInv(s, max)
    ensures Injective(Survivors(Known(s), wanted))
    ensures forall u :: u in Survivors(Known(s), wanted) ==> 0 <= Survivors(Known(s), wanted)[u] < max
    ensures forall u :: u in Ids(s) && u in wanted ==>
                          u in Survivors(Known(s), wanted) && Survivors(Known(s), wanted)[u] == Ids(s)[u]
  {
    forall u ensures u in Survivors(Known(s), wanted) <==> u in Ids(s) && u in wanted
             ensures u in Survivors(Known(s), wanted) ==> Survivors(Known(s), wanted)[u] == Ids(s)[u]
    {
      SurvivorsOf(s, wanted, u);
    }
    assert Ids(s).Keys <= Known(s).Keys;
    hide Survivors, Known, Ids;
  }

  lemma InvariantFrom(s: Stored, max: nat)
    requires UniqueUids(s.v4) && UniqueUids(s.v6) && (forall u :: OneIdentifier(s, u))
    requires Known(s).Keys == Ids(s).Keys && Injective(Ids(s)) && forall u :: u in Ids(s) ==> 0 <= Ids(s)[u] < max
    ensures StoredInv(s, max)
  {
  }

  // ---------------------------------------------------------------------------------------------
  // Runs in which every reconcile writes both slices.

  ghost predicate Step(s: Stored, input: Input, max: nat, s': Stored) {
    exists ids :: FullStep(s, input, max, ids, s')
  }

  ghost predicate FullRun(states: seq<Stored>, inputs: seq<Input>, max: nat)
    ensures FullRun(states, inputs, max) ==> |states| == |inputs| + 1
  {
    && |states| == |inputs| + 1
    && states[0] == Stored([], [])
    && (forall i :: 0 <= i < |inputs| ==> ValidInput(inputs[i]))
    && (forall i :: 0 <= i < |inputs| ==> Step(states[i], inputs[i], max, states[i + 1]))
  }

  ghost predicate Stable(s: Stored, input: Input, s': Stored) {
    forall u :: u in Ids(s) && u in Wanted(input) ==> u in Ids(s') && Ids(s')[u] == Ids(s)[u]
  }

  lemma StepInvariant(s: Stored, input: Input, max: nat, s': Stored)
    requires ValidInput(input) && max < UINT32 && Step(s, input, max, s') && StoredInv(s, max)
    ensures StoredInv(s', max) && Stable(s, input, s')
  {
    var ids :| FullStep(s, input, max, ids, s');
    StepKeeps(s, input, max, ids, s');
  }

  lemma InitialInvariant(max: nat)
    ensures StoredInv(Stored([], []), max)
  {
    assert Known(Stored([], [])) == map[];
  }

  /** At every point of every run: distinct UIDs carry distinct identifiers in [0, max), and a UID stored
      for both families carries one identifier. */
  lemma {:induction false} RunKeepsInvariant(states: seq<Stored>, inputs: seq<Input>, max: nat, n: nat)
    requires FullRun(states, inputs, max) && max < UINT32 && n < |states|
    ensures StoredInv(states[n], max)
    decreases n
  {
    hide *;
    if n == 0 {
      RunAtFirst(states, inputs, max);
      InitialInvariant(max);
    } else {
      RunKeepsInvariant(states, inputs, max, n - 1);
      RunStep(states, inputs, max, n - 1);
      StepInvariant(states[n - 1], inputs[n - 1], max, states[n]);
    }
  }

  lemma RunAtFirst(states: seq<Stored>, inputs: seq<Input>, max: nat)
    requires FullRun(states, inputs, max)
    ensures states[0] == Stored([], [])
  {
  }

  lemma RunStep(states: seq<Stored>, inputs: seq<Input>, max: nat, n: nat)
    requires FullRun(states, inputs, max) && n < |inputs|
    ensures n + 1 < |states| && ValidInput(inputs[n]) && Step(states[n], inputs[n], max, states[n + 1])
  {
  }

  /** A published UID that stays wanted stays published with the same identifier. */
  lemma {:induction false} RunIsStable(states: seq<Stored>, inputs: seq<Input>, max: nat, start: nat, end: nat,
                                       u: string)
    requires FullRun(states, inputs, max) && max < UINT32 && start <= end < |states|
    requires u in Ids(states[start])
    requires forall i :: start <= i < end ==> u in Wanted(inputs[i])
    ensures u in Ids(states[end]) && Ids(states[end])[u] == Ids(states[start])[u]
    decreases end
  {
    hide *;
    if end > start {
      RunIsStable(states, inputs, max, start, end - 1, u);
      StableAt(states, inputs, max, end - 1, u);
    }
  }

  lemma StableAt(states: seq<Stored>, inputs: seq<Input>, max: nat, n: nat, u: string)
    requires FullRun(states, inputs, max) && max < UINT32 && n < |inputs|
    requires u in Ids(states[n]) && u in Wanted(inputs[n])
    ensures n + 1 < |states| && u in Ids(states[n + 1]) && Ids(states[n + 1])[u] == Ids(states[n])[u]
  {
    RunKeepsInvariant(states, inputs, max, n);
    RunStep(states, inputs, max, n);
    StepInvariant(states[n], inputs[n], max, states[n + 1]);
  }

  // ---------------------------------------------------------------------------------------------
  // Runs in which a reconcile may fail before the first write or between the two writes.

  ghost predicate AnyStep(s: Stored, input: Input, max: nat, s': Stored) {
    || s' == s
    || (exists ids :: FullStep(s, input, max, ids, s'))
    || (exists ids :: PartialStep(s, input, max, ids, s'))
  }

  /** What every reconcile keeps, whatever it writes: a UID is stored once in each slice, with one identifier in
      range. */
  ghost predicate PublishedInv(s: Stored, max: nat) {
    && UniqueUids(s.v4) && UniqueUids(s.v6)
    && (forall u :: OneIdentifier(s, u))
    && (forall u :: u in Known(s) ==> u in Ids(s) && 0 <= Ids(s)[u] < max)
  }

  lemma PublishedOnce(s: Stored, max: nat, u: string)
    requires PublishedInv(s, max)
    ensures UniqueUids(s.v4) && UniqueUids(s.v6) && OneIdentifier(s, u)
    ensures u in Known(s) ==> u in Ids(s) && 0 <= Ids(s)[u] < max
    ensures u in Ids(s) ==> u in Known(s)
  {
  }

  /** What is stored for a UID that is still wanted after a reconcile that stopped between the writes: it is
      found in the new IPv4 slice or in the old IPv6 slice or not at all. */
  lemma PartialStepAt(s: Stored, input: Input, max: nat, ids: map<string, int>, s': Stored, u: string)
    requires ValidInput(input) && max < UINT32 && PartialStep(s, input, max, ids, s')
    requires UniqueUids(s.v6) && OneIdentifier(s, u) && u in Wanted(input) && (u in Known(s) ==> u in Ids(s))
    ensures OneIdentifier(s', u)
    ensures u in Known(s') <==> (u in ids && u in ByUid(input.v4)) || u in ByUid(s.v6)
    ensures u in Known(s') ==> u in ids && u in Ids(s') && Ids(s')[u] == ids[u]
  {
    var v6 :| FullStep(s, input, max, ids, Stored(s'.v4, v6)) && s'.v6 == s.v6;
    PublishedAt(s, input, max, ids, s'.v4, V4, u);
    if u in ByUid(s.v6) {
      OldIdentifierAt(s, input, max, ids, u);
    }
    MergedAt(s'.v4, s.v6, u);
  }

  lemma OldIdentifierAt(s: Stored, input: Input, max: nat, ids: map<string, int>, u: string)
    requires Allocation(Survivors(Known(s), Wanted(input)), Wanted(input).Keys, max, ids)
    requires UniqueUids(s.v6) && OneIdentifier(s, u) && u in Wanted(input) && (u in Known(s) ==> u in Ids(s))
    requires u in ByUid(s.v6)
    ensures u in Ids(s) && u in ids && ids[u] == Ids(s)[u] && GetIdentifier(ByUid(s.v6)[u]) == Some(ids[u])
  {
    StoredIdentifier(s, u);
    SurvivorsOf(s, Wanted(input), u);
  }

  /** A UID stored in the IPv6 slice carries the identifier of the merge there. */
  lemma StoredIdentifier(s: Stored, u: string)
    requires UniqueUids(s.v6) && OneIdentifier(s, u) && u in ByUid(s.v6)
    ensures u in Known(s) && GetIdentifier(ByUid(s.v6)[u]) == GetIdentifier(Known(s)[u])
  {
    MergedAt(s.v4, s.v6, u);
  }

  /** A UID that is not wanted any more is left in the IPv6 slice only, as it was. */
  lemma PartialStepLeaves(s: Stored, input: Input, max: nat, ids: map<string, int>, s': Stored, u: string)
    requires ValidInput(input) && max < UINT32 && PartialStep(s, input, max, ids, s')
    requires UniqueUids(s.v6) && OneIdentifier(s, u) && u !in Wanted(input)
    ensures u !in ByUid(s'.v4) && OneIdentifier(s', u) && (u in Known(s') <==> u in ByUid(s.v6))
    ensures u in Known(s') ==> u in Known(s) && (u in Ids(s) ==> u in Ids(s') && Ids(s')[u] == Ids(s)[u])
  {
    var v6 :| FullStep(s, input, max, ids, Stored(s'.v4, v6)) && s'.v6 == s.v6;
    PublishedAt(s, input, max, ids, s'.v4, V4, u);
    MergedAt(s'.v4, s.v6, u);
    if u in ByUid(s.v6) {
      StoredIdentifier(s, u);
    }
  }

  /** The identifiers of survivors are in range, so those of the allocation are. */
  lemma AllocatedInRange(s: Stored, input: Input, max: nat, ids: map<string, int>)
    requires Allocation(Survivors(Known(s), Wanted(input)), Wanted(input).Keys, max, ids) && PublishedInv(s, max)
    ensures forall u :: u in ids ==> 0 <= ids[u] < max
  {
    AllocationDistinct(Survivors(Known(s), Wanted(input)), Wanted(input).Keys, max, ids);
    forall u | u in Survivors(Known(s), Wanted(input)) ensures 0 <= Survivors(Known(s), Wanted(input))[u] < max {
      SurvivorsOf(s, Wanted(input), u);
    }
  }

  lemma PartialStepAllocates(s: Stored, input: Input, max: nat, ids: map<string, int>, s': Stored)
    requires PartialStep(s, input, max, ids, s')
    ensures Allocation(Survivors(Known(s), Wanted(input)), Wanted(input).Keys, max, ids)
    ensures UniqueUids(s'.v4) && s'.v6 == s.v6
  {
  }

  lemma PartialStepPublished(s: Stored, input: Input, max: nat, ids: map<string, int>, s': Stored)
    requires ValidInput(input) && max < UINT32 && PartialStep(s, input, max, ids, s') && PublishedInv(s, max)
    ensures PublishedInv(s', max)
  {
    PartialStepAllocates(s, input, max, ids, s');
    AllocatedInRange(s, input, max, ids);
    PublishedOnce(s, max, "");
    hide *;
    forall u ensures OneIdentifier(s', u) && (u in Known(s') ==> u in Ids(s') && 0 <= Ids(s')[u] < max) {
      PublishedOnce(s, max, u);
      if u in Wanted(input) {
        PartialStepAt(s, input, max, ids, s', u);
      } else {
        PartialStepLeaves(s, input, max, ids, s', u);
      }
    }
    PublishedFrom(s', max);
  }

  lemma FullStepPublished(s: Stored, input: Input, max: nat, ids: map<string, int>, s': Stored)
    requires ValidInput(input) && max < UINT32 && FullStep(s, input, max, ids, s') && PublishedInv(s, max)
    ensures PublishedInv(s', max)
  {
    StepAllocates(s, input, max, ids, s');
    AllocatedInRange(s, input, max, ids);
    hide *;
    forall u ensures OneIdentifier(s', u) && (u in Known(s') ==> u in Ids(s') && 0 <= Ids(s')[u] < max) {
      FullStepAt(s, input, max, ids, s', u);
    }
    PublishedFrom(s', max);
  }

  lemma PublishedFrom(s: Stored, max: nat)
    requires UniqueUids(s.v4) && UniqueUids(s.v6)
    requires forall u :: OneIdentifier(s, u) && (u in Known(s) ==> u in Ids(s) && 0 <= Ids(s)[u] < max)
    ensures PublishedInv(s, max)
  {
  }

  /** Whatever happens to the two writes, the slices keep one identifier in range for every UID. */
  lemma AnyStepPublished(s: Stored, input: Input, max: nat, s': Stored)
    requires ValidInput(input) && max < UINT32 && AnyStep(s, input, max, s') && PublishedInv(s, max)
    ensures PublishedInv(s', max)
  {
    hide PublishedInv;
    if ids :| FullStep(s, input, max, ids, s') {
      FullStepPublished(s, input, max, ids, s');
    } else if ids :| PartialStep(s, input, max, ids, s') {
      PartialStepPublished(s, input, max, ids, s');
    }
  }

  ghost predicate AnyRun(states: seq<Stored>, inputs: seq<Input>, max: nat)
    ensures AnyRun(states, inputs, max) ==> |states| == |inputs| + 1
  {
    && |states| == |inputs| + 1
    && states[0] == Stored([], [])
    && (forall i :: 0 <= i < |inputs| ==> ValidInput(inputs[i]))
    && (forall i :: 0 <= i < |inputs| ==> AnyStep(states[i], inputs[i], max, states[i + 1]))
  }

  lemma AnyRunStart(states: seq<Stored>, inputs: seq<Input>, max: nat)
    requires AnyRun(states, inputs, max)
    ensures states[0] == Stored([], []) && PublishedInv(states[0], max)
  {
    assert Known(Stored([], [])) == map[];
  }

  lemma AnyRunStep(states: seq<Stored>, inputs: seq<Input>, max: nat, n: nat)
    requires AnyRun(states, inputs, max) && n < |inputs|
    ensures ValidInput(inputs[n]) && AnyStep(states[n], inputs[n], max, states[n + 1])
  {
  }

  /** At every point of every run, whatever its reconciles wrote: every UID that is stored, wanted or departed, has one
      identifier, the same in both slices, and it is in range. */
  lemma {:induction false} AnyRunPublished(states: seq<Stored>, inputs: seq<Input>, max: nat, n: nat)
    requires AnyRun(states, inputs, max) && max < UINT32 && n < |states|
    ensures PublishedInv(states[n], max)
    decreases n
  {
    AnyRunStart(states, inputs, max);
    hide *;
    if n > 0 {
      AnyRunPublished(states, inputs, max, n - 1);
      AnyRunStep(states, inputs, max, n - 1);
      AnyStepPublished(states[n - 1], inputs[n - 1], max, states[n]);
    }
  }

  // ---------------------------------------------------------------------------------------------
  // Who keeps an identifier, and when two wanted UIDs share one.

  ghost predicate Carries(s: Stored, u: string, id: int) {
    u in Ids(s) && Ids(s)[u] == id
  }

  /** A stored UID that stays wanted keeps its identifier, or is lost: it is lost exactly when the reconcile
      stops between the writes while the UID moves from IPv4 only to IPv6 only. */
  lemma PartialPublicationStable(s: Stored, input: Input, max: nat, ids: map<string, int>, s': Stored, u: string)
    requires ValidInput(input) && max < UINT32 && PartialStep(s, input, max, ids, s')
    requires UniqueUids(s.v4) && UniqueUids(s.v6) && OneIdentifier(s, u) && u in Ids(s) && u in Wanted(input)
    ensures Carries(s', u, Ids(s)[u]) <==> u in ByUid(input.v4) || u in ByUid(s.v6)
    ensures u !in Known(s') <==> u !in ByUid(input.v4) && u !in ByUid(s.v6)
  {
    PartialStepAt(s, input, max, ids, s', u);
    SurvivorsOf(s, Wanted(input), u);
    assert u in Survivors(Known(s), Wanted(input));
  }

  /** A reconcile stops between the writes. */
  ghost predicate Stops(s: Stored, input: Input, max: nat, s': Stored) {
    exists ids :: PartialStep(s, input, max, ids, s')
  }

  /** What keeps a UID stored: both writes happened (or none), or the IPv4 write covers it, or it is in IPv6 already. */
  ghost predicate StaysStored(s: Stored, input: Input, max: nat, s': Stored, u: string) {
    u in ByUid(input.v4) || u in ByUid(s.v6) || !Stops(s, input, max, s')
  }

  /** Whatever happens to the two writes, a wanted UID keeps its identifier exactly when it stays stored. */
  lemma AnyStepStable(s: Stored, input: Input, max: nat, s': Stored, u: string)
    requires ValidInput(input) && max < UINT32 && AnyStep(s, input, max, s')
    requires PublishedInv(s, max) && u in Ids(s) && u in Wanted(input)
    ensures Carries(s', u, Ids(s)[u]) <==> StaysStored(s, input, max, s', u)
  {
    PublishedOnce(s, max, u);
    hide PublishedInv;
    if ids :| PartialStep(s, input, max, ids, s') {
      PartialPublicationStable(s, input, max, ids, s', u);
    } else if ids :| FullStep(s, input, max, ids, s') {
      FullStepKeepsOne(s, input, max, ids, s', u);
    }
  }

  lemma FullStepKeepsOne(s: Stored, input: Input, max: nat, ids: map<string, int>, s': Stored, u: string)
    requires ValidInput(input) && max < UINT32 && FullStep(s, input, max, ids, s')
    requires u in Ids(s) && u in Wanted(input)
    ensures Carries(s', u, Ids(s)[u])
  {
    SurvivorsOf(s, Wanted(input), u);
    FullStepAt(s, input, max, ids, s', u);
  }

  /** Over every run, whatever its reconciles wrote: a UID that is published and stays wanted carries its identifier all
      the way exactly when it stays stored at every step. */
  lemma {:induction false} AnyRunIsStable(states: seq<Stored>, inputs: seq<Input>, max: nat, start: nat, end: nat,
                                          u: string)
    requires AnyRun(states, inputs, max) && max < UINT32 && start <= end < |states|
    requires u in Ids(states[start]) && forall i :: start <= i < end ==> u in Wanted(inputs[i])
    ensures (forall k :: start <= k <= end ==> Carries(states[k], u, Ids(states[start])[u])) <==>
            (forall i :: start <= i < end ==> StaysStored(states[i], inputs[i], max, states[i + 1], u))
  {
    hide AnyRun, StaysStored, Wanted, Ids;
    var id := Ids(states[start])[u];
    assert Carries(states[start], u, id);
    hide Carries;
    if start < end {
      var n := end - 1;
      AnyRunIsStable(states, inputs, max, start, n, u);
      if Carries(states[n], u, id) {
        AnyRunStepStable(states, inputs, max, n, u, id);
      }
    }
  }

  lemma AnyRunStepStable(states: seq<Stored>, inputs: seq<Input>, max: nat, n: nat, u: string, id: int)
    requires AnyRun(states, inputs, max) && max < UINT32 && n < |inputs| < |states|
    requires Carries(states[n], u, id) && u in Wanted(inputs[n])
    ensures Carries(states[n + 1], u, id) <==> StaysStored(states[n], inputs[n], max, states[n + 1], u)
  {
    assert u in Ids(states[n]) && Ids(states[n])[u] == id;
    hide *;
    AnyRunPublished(states, inputs, max, n);
    AnyRunStep(states, inputs, max, n);
    AnyStepStable(states[n], inputs[n], max, states[n + 1], u);
  }

  /** No two of the given UIDs carry one identifier. */
  ghost predicate ApartOn(ids: map<string, int>, uids: set<string>) {
    forall u, v :: u in ids && v in ids && u in uids && v in uids && ids[u] == ids[v] ==> u == v
  }

  /** Two wanted UIDs are stored with one identifier, and both stay stored. */
  ghost predicate Clash(s: Stored, input: Input, max: nat, s': Stored, u: string, v: string) {
    && u != v && u in Ids(s) && v in Ids(s) && u in Wanted(input) && v in Wanted(input) && Ids(s)[u] == Ids(s)[v]
    && StaysStored(s, input, max, s', u) && StaysStored(s, input, max, s', v)
  }

  ghost predicate Clashes(s: Stored, input: Input, max: nat, s': Stored) {
    exists u, v :: Clash(s, input, max, s', u, v)
  }

  /** A reconcile lets two wanted UIDs share an identifier only when both had it before and stay stored. */
  lemma SharedBefore(s: Stored, input: Input, max: nat, s': Stored, u: string, v: string)
    requires ValidInput(input) && max < UINT32 && AnyStep(s, input, max, s') && PublishedInv(s, max)
    requires u != v && u in Ids(s') && v in Ids(s') && u in Wanted(input) && v in Wanted(input)
             && Ids(s')[u] == Ids(s')[v]
    ensures Clash(s, input, max, s', u, v)
  {
    PublishedOnce(s, max, u);
    PublishedOnce(s, max, v);
    hide PublishedInv, ByUid;
    assert Ids(s').Keys <= Known(s').Keys;
    if ids :| PartialStep(s, input, max, ids, s') {
      PartialStepAt(s, input, max, ids, s', u);
      PartialStepAt(s, input, max, ids, s', v);
      PartialStepAllocates(s, input, max, ids, s');
      hide PartialStep, Ids, Known, Wanted, Survivors;
      BothSurvive(s, input, max, ids, u, v);
    } else if ids :| FullStep(s, input, max, ids, s') {
      FullStepAt(s, input, max, ids, s', u);
      FullStepAt(s, input, max, ids, s', v);
      StepAllocates(s, input, max, ids, s');
      hide FullStep, Ids, Known, Wanted, Survivors;
      BothSurvive(s, input, max, ids, u, v);
    }
  }

  /** Newcomers get identifiers of their own. */
  lemma BothSurvive(s: Stored, input: Input, max: nat, ids: map<string, int>, u: string, v: string)
    requires Allocation(Survivors(Known(s), Wanted(input)), Wanted(input).Keys, max, ids)
    requires u != v && u in ids && v in ids && ids[u] == ids[v]
    ensures u in Ids(s) && v in Ids(s) && Ids(s)[u] == Ids(s)[v] == ids[u]
  {
    SurvivorsOf(s, Wanted(input), u);
    SurvivorsOf(s, Wanted(input), v);
    var survivors := Survivors(Known(s), Wanted(input));
    hide Survivors, Known, Wanted, Ids;
    assert u in survivors ==> Taken(survivors, survivors[u]);
    assert v in survivors ==> Taken(survivors, survivors[v]);
  }

  /** After every reconcile, whatever it writes: the wanted UIDs that are stored carry different identifiers exactly
      when no two of them had one before and both stay stored. */
  lemma AnyStepApart(s: Stored, input: Input, max: nat, s': Stored)
    requires ValidInput(input) && max < UINT32 && AnyStep(s, input, max, s') && PublishedInv(s, max)
    ensures ApartOn(Ids(s'), Wanted(input).Keys) <==> !Clashes(s, input, max, s')
  {
    if u, v :| Clash(s, input, max, s', u, v) {
      AnyStepStable(s, input, max, s', u);
      AnyStepStable(s, input, max, s', v);
    }
    hide AnyStep, PublishedInv, Clash, Ids, Wanted;
    if u, v :|
      u != v && u in Ids(s') && v in Ids(s') && u in Wanted(input) && v in Wanted(input) && Ids(s')[u] == Ids(s')[v]
    {
      SharedBefore(s, input, max, s', u, v);
    }
  }

  /** The same at every step of every run. */
  lemma AnyRunIsApart(states: seq<Stored>, inputs: seq<Input>, max: nat, n: nat)
    requires AnyRun(states, inputs, max) && max < UINT32 && n < |inputs|
    ensures ApartOn(Ids(states[n + 1]), Wanted(inputs[n]).Keys) <==> !Clashes(states[n], inputs[n], max, states[n + 1])
  {
    hide *;
    AnyRunPublished(states, inputs, max, n);
    AnyRunStep(states, inputs, max, n);
    AnyStepApart(states[n], inputs[n], max, states[n + 1]);
  }

  // ---------------------------------------------------------------------------------------------
  // When it never happens: no UID comes back while it is still stored.

  /** A UID that is computed again after it was missing is not stored any more. */
  ghost predicate ReturnsClean(states: seq<Stored>, inputs: seq<Input>) {
    |inputs| < |states| && forall i :: 0 < i < |inputs| ==> ReturnsCleanAt(states, inputs, i)
  }

  ghost predicate ReturnsCleanAt(states: seq<Stored>, inputs: seq<Input>, i: nat)
    requires 0 < i < |inputs| < |states|
  {
    Wanted(inputs[i]).Keys * Known(states[i]).Keys <= Wanted(inputs[i - 1]).Keys
  }

  /** No two UIDs of one slice carry one identifier. */
  ghost predicate SlicesApart(s: Stored) {
    ApartOn(Ids(s), ByUid(s.v4).Keys) && ApartOn(Ids(s), ByUid(s.v6).Keys)
  }

  /** A reconcile that meets different identifiers for the UIDs that stay publishes different ones. */
  lemma AnyStepKeepsApart(s: Stored, input: Input, max: nat, s': Stored)
    requires ValidInput(input) && max < UINT32 && AnyStep(s, input, max, s') && PublishedInv(s, max)
    requires ApartOn(Ids(s), Wanted(input).Keys) && SlicesApart(s)
    ensures ApartOn(Ids(s'), Wanted(input).Keys) && SlicesApart(s')
  {
    AnyStepApart(s, input, max, s');
    assert ApartOn(Ids(s'), Wanted(input).Keys);
    hide PublishedInv;
    if ids :| FullStep(s, input, max, ids, s') {
      WantedSlices(s, input, max, ids, s');
    } else if ids :| PartialStep(s, input, max, ids, s') {
      PartialSlices(s, input, max, ids, s');
    }
  }

  lemma WantedSlices(s: Stored, input: Input, max: nat, ids: map<string, int>, s': Stored)
    requires ValidInput(input) && max < UINT32 && FullStep(s, input, max, ids, s')
             && ApartOn(Ids(s'), Wanted(input).Keys)
    ensures SlicesApart(s')
  {
    forall u ensures u in ByUid(s'.v4) || u in ByUid(s'.v6) ==> u in Wanted(input) {
      PublishedAt(s, input, max, ids, s'.v4, V4, u);
      PublishedAt(s, input, max, ids, s'.v6, V6, u);
    }
    hide FullStep, Ids, Wanted, ByUid;
  }

  lemma PartialSlices(s: Stored, input: Input, max: nat, ids: map<string, int>, s': Stored)
    requires ValidInput(input) && max < UINT32 && PartialStep(s, input, max, ids, s') && PublishedInv(s, max)
    requires SlicesApart(s) && ApartOn(Ids(s'), Wanted(input).Keys)
    ensures SlicesApart(s')
  {
    PartialStepAllocates(s, input, max, ids, s');
    forall u
      ensures u in ByUid(s'.v4) ==> u in Wanted(input)
      ensures u in ByUid(s.v6) ==> u in Ids(s) && (u in Ids(s') ==> Ids(s')[u] == Ids(s)[u])
    {
      PublishedOnce(s, max, u);
      PartialStepKeepsV6(s, input, max, ids, s', u);
    }
    hide PartialStep, PublishedInv, Ids, Wanted, ByUid;
  }

  /** What the IPv6 slice holds is left as it was, and the identifiers agree with it. */
  lemma PartialStepKeepsV6(s: Stored, input: Input, max: nat, ids: map<string, int>, s': Stored, u: string)
    requires ValidInput(input) && max < UINT32 && PartialStep(s, input, max, ids, s') && PublishedInv(s, max)
    ensures u in ByUid(s'.v4) ==> u in Wanted(input)
    ensures u in ByUid(s.v6) ==> u in Ids(s) && (u in Ids(s') ==> Ids(s')[u] == Ids(s)[u])
  {
    PublishedOnce(s, max, u);
    hide PublishedInv;
    if u in ByUid(s.v6) {
      StoredIdentifier(s, u);
    }
    if u !in Wanted(input) {
      PartialStepLeaves(s, input, max, ids, s', u);
    } else if u in Ids(s) {
      PartialPublicationStable(s, input, max, ids, s', u);
    }
  }

  lemma ReturnsCleanLater(states: seq<Stored>, inputs: seq<Input>, n: nat)
    requires ReturnsClean(states, inputs) && 0 < n < |inputs|
    requires ApartOn(Ids(states[n]), Wanted(inputs[n - 1]).Keys)
    ensures ApartOn(Ids(states[n]), Wanted(inputs[n]).Keys)
  {
    assert ReturnsCleanAt(states, inputs, n);
    assert Ids(states[n]).Keys <= Known(states[n]).Keys;
    hide Ids, Known, Wanted;
    forall u | u in Ids(states[n]) && u in Wanted(inputs[n]) ensures u in Wanted(inputs[n - 1]) {
      assert u in Wanted(inputs[n]).Keys * Known(states[n]).Keys;
    }
  }

  /** As long as no UID comes back while it is stored, neither wanted UIDs nor the UIDs of one slice ever share. */
  lemma {:induction false} CleanRunIsApart(states: seq<Stored>, inputs: seq<Input>, max: nat, n: nat)
    requires AnyRun(states, inputs, max) && ReturnsClean(states, inputs) && max < UINT32 && n < |inputs|
    ensures ApartOn(Ids(states[n + 1]), Wanted(inputs[n]).Keys) && SlicesApart(states[n + 1])
    decreases n
  {
    hide *;
    if n == 0 {
      NothingShared(states, inputs, max);
    } else {
      CleanRunIsApart(states, inputs, max, n - 1);
      ReturnsCleanLater(states, inputs, n);
    }
    AnyRunPublished(states, inputs, max, n);
    AnyRunStep(states, inputs, max, n);
    AnyStepKeepsApart(states[n], inputs[n], max, states[n + 1]);
  }

  lemma NothingShared(states: seq<Stored>, inputs: seq<Input>, max: nat)
    requires AnyRun(states, inputs, max) && inputs != []
    ensures ApartOn(Ids(states[0]), Wanted(inputs[0]).Keys) && SlicesApart(states[0])
  {
    NothingStored(states, inputs, max);
    assert Ids(states[0]) == map[];
    hide Ids;
  }

  lemma NothingStored(states: seq<Stored>, inputs: seq<Input>, max: nat)
    requires AnyRun(states, inputs, max)
    ensures Known(states[0]) == map[]
  {
  }

  /** A UID that has gone missing from the computed slices is never computed again. */
  ghost predicate NoReturn(inputs: seq<Input>) {
    forall i, j, k, u :: 0 <= i < j < k < |inputs| && u in Wanted(inputs[i]) && u !in Wanted(inputs[j]) ==>
                           u !in Wanted(inputs[k])
  }

  lemma StepKnown(s: Stored, input: Input, max: nat, s': Stored, u: string)
    requires ValidInput(input) && max < UINT32 && AnyStep(s, input, max, s') && PublishedInv(s, max) && u in Known(s')
    ensures u in Known(s) || u in Wanted(input)
  {
    PublishedOnce(s, max, u);
    hide PublishedInv;
    if ids :| FullStep(s, input, max, ids, s') {
      FullStepAt(s, input, max, ids, s', u);
    } else if ids :| PartialStep(s, input, max, ids, s') {
      if u !in Wanted(input) {
        PartialStepLeaves(s, input, max, ids, s', u);
      }
    }
  }

  /** Everything stored was computed once. */
  lemma {:induction false} StoredWasWanted(states: seq<Stored>, inputs: seq<Input>, max: nat, n: nat, u: string)
      returns (i: nat)
    requires AnyRun(states, inputs, max) && max < UINT32 && n < |states| && u in Known(states[n])
    ensures i < n && u in Wanted(inputs[i])
    decreases n
  {
    hide *;
    NothingStored(states, inputs, max);
    assert n > 0;
    AnyRunPublished(states, inputs, max, n - 1);
    AnyRunStep(states, inputs, max, n - 1);
    StepKnown(states[n - 1], inputs[n - 1], max, states[n], u);
    if u in Wanted(inputs[n - 1]) {
      i := n - 1;
    } else {
      i := StoredWasWanted(states, inputs, max, n - 1, u);
    }
  }

  /** A UID that never comes back does not come back while it is stored. */
  lemma NoReturnIsClean(states: seq<Stored>, inputs: seq<Input>, max: nat)
    requires AnyRun(states, inputs, max) && max < UINT32 && NoReturn(inputs)
    ensures ReturnsClean(states, inputs)
  {
    hide Known, Wanted, AnyStep, ValidInput;
    forall k | 0 < k < |inputs| ensures ReturnsCleanAt(states, inputs, k) {
      forall u | u in Wanted(inputs[k]) && u in Known(states[k]) ensures u in Wanted(inputs[k - 1]) {
        var i := StoredWasWanted(states, inputs, max, k, u);
        assert i < k - 1 ==> u in Wanted(inputs[k - 1]);
      }
    }
  }

  /** Reconciles that stop after any write never make two wanted UIDs share an identifier, provided no UID comes back
      while it is stored; in particular when no departed UID ever comes back. */
  lemma PartialPublicationUnique(states: seq<Stored>, inputs: seq<Input>, max: nat, n: nat, u: string, v: string)
    requires AnyRun(states, inputs, max) && max < UINT32 && n < |inputs|
    requires ReturnsClean(states, inputs) || NoReturn(inputs)
    requires u in Wanted(inputs[n]) && v in Wanted(inputs[n]) && u in Ids(states[n + 1]) && v in Ids(states[n + 1])
    ensures Ids(states[n + 1])[u] == Ids(states[n + 1])[v] ==> u == v
    ensures 0 <= Ids(states[n + 1])[u] < max
  {
    hide AnyRun, ReturnsClean, NoReturn, Ids, Wanted;
    if NoReturn(inputs) {
      NoReturnIsClean(states, inputs, max);
    }
    CleanRunIsApart(states, inputs, max, n);
    AnyRunPublished(states, inputs, max, n + 1);
    PublishedOnce(states[n + 1], max, u);
  }

  // ---------------------------------------------------------------------------------------------
  // Why a UID must not come back while it is stored: a concrete run.

  const ADDRESS4 := Text(IP(V4, 1), 0)
  const ADDRESS6 := Text(IP(V6, 1), 0)

  function Pod4(uid: string): Endpoint {
    Endpoint(uid, [ADDRESS4], None, Some(true))
  }

  function Pod6(uid: string): Endpoint {
    Endpoint(uid, [ADDRESS6], None, Some(true))
  }

  lemma SingletonFacts(e: Endpoint)
    ensures ByUid([e]) == map[e.uid := e] && UniqueUids([e])
    ensures Merged([e], []) == map[e.uid := e] && Merged([], [e]) == map[e.uid := e]
  {
    assert [e][..0] == [];
    assert AbsorbAll(map[], [e]) == map[e.uid := e];
  }

  lemma FamilyFacts(f: Family)
    ensures FamilyAddresses([ADDRESS4], f) == if f == V4 then [ADDRESS4] else []
    ensures FamilyAddresses([ADDRESS6], f) == if f == V6 then [ADDRESS6] else []
  {
    assert [ADDRESS4][..0] == [] && [ADDRESS6][..0] == [];
  }

  lemma PublishedOne(e: Endpoint, f: Family)
    requires e == if f == V4 then Pod4(e.uid) else Pod6(e.uid)
    ensures var published := Publish(map[e.uid := e], map[e.uid := 0]);
            && FamilyMap(published, f) == map[e.uid := SetIdentifier(e, 0)]
            && FamilyMap(published, if f == V4 then V6 else V4) == map[]
  {
    FamilyFacts(V4);
    FamilyFacts(V6);
    var x := SetIdentifier(e, 0);
    assert Publish(map[e.uid := e], map[e.uid := 0]) == map[e.uid := x];
    FamilyMapOne(x, V4);
    FamilyMapOne(x, V6);
  }

  lemma FamilyMapOne(x: Endpoint, f: Family)
    ensures FamilyAddresses(x.addresses, f) == x.addresses != [] ==> FamilyMap(map[x.uid := x], f) == map[x.uid := x]
    ensures FamilyAddresses(x.addresses, f) == [] ==> FamilyMap(map[x.uid := x], f) == map[]
  {
    hide FamilyAddresses;
    var m := map[x.uid := x];
    assert m.Keys == {x.uid} && m[x.uid] == x;
    assert x.(addresses := x.addresses) == x;
  }

  lemma AllocatedOne(u: string, max: nat)
    requires max > 0
    ensures Allocation(map[], {u}, max, map[u := 0]) && Allocation(map[u := 0], {u}, max, map[u := 0])
  {
  }

  lemma StoreOne4(s: Stored, e: Endpoint, max: nat)
    requires max > 0 && e == Pod4(e.uid)
    requires Survivors(Known(s), map[e.uid := e]) in {map[], map[e.uid := 0]}
    ensures FullStep(s, Input([e], []), max, map[e.uid := 0], Stored([SetIdentifier(e, 0)], []))
  {
    SingletonFacts(e);
    SingletonFacts(SetIdentifier(e, 0));
    PublishedOne(e, V4);
    AllocatedOne(e.uid, max);
  }

  lemma StoreOne6(s: Stored, e: Endpoint, max: nat)
    requires max > 0 && e == Pod6(e.uid)
    requires Survivors(Known(s), map[e.uid := e]) in {map[], map[e.uid := 0]}
    ensures FullStep(s, Input([], [e]), max, map[e.uid := 0], Stored([], [SetIdentifier(e, 0)]))
  {
    SingletonFacts(e);
    SingletonFacts(SetIdentifier(e, 0));
    PublishedOne(e, V6);
    AllocatedOne(e.uid, max);
  }

  const DEPARTING := Pod6("d")
  const NEWCOMER := Pod4("n")
  const FIRST := Stored([], [SetIdentifier(DEPARTING, 0)])
  const INTERRUPTED := Stored([SetIdentifier(NEWCOMER, 0)], [SetIdentifier(DEPARTING, 0)])
  const BACK := Input([NEWCOMER], [DEPARTING])

  /** UID "d" is stored; it departs while "n" arrives, and the reconcile stops between the writes; when "d" is
      computed again, every complete reconcile publishes both with identifier 0. */
  lemma ReturningUidCollides(max: nat, ids: map<string, int>, s: Stored)
    requires 0 < max < UINT32
    ensures Step(Stored([], []), Input([], [DEPARTING]), max, FIRST)
    ensures PartialStep(FIRST, Input([NEWCOMER], []), max, map["n" := 0], INTERRUPTED)
    ensures ValidInput(BACK) && Wanted(BACK).Keys == {"d", "n"}
    ensures FullStep(INTERRUPTED, BACK, max, ids, s) ==> Carries(s, "d", 0) && Carries(s, "n", 0)
  {
    StoreOne6(Stored([], []), DEPARTING, max);
    Interrupted(max);
    BothStored();
    if FullStep(INTERRUPTED, BACK, max, ids, s) {
      ReadBack(INTERRUPTED, BACK, max, ids, s);
    }
  }

  lemma DistinctNames()
    ensures "d" != "n"
  {
    assert "d"[0] != "n"[0];
  }

  lemma Interrupted(max: nat)
    requires 0 < max < UINT32
    ensures PartialStep(FIRST, Input([NEWCOMER], []), max, map["n" := 0], INTERRUPTED)
  {
    DistinctNames();
    SingletonFacts(SetIdentifier(DEPARTING, 0));
    StoreOne4(FIRST, NEWCOMER, max);
    assert FullStep(FIRST, Input([NEWCOMER], []), max, map["n" := 0], Stored(INTERRUPTED.v4, []));
  }

  lemma BothStored()
    ensures ValidInput(BACK) && Wanted(BACK).Keys == {"d", "n"}
    ensures Survivors(Known(INTERRUPTED), Wanted(BACK)) == map["d" := 0, "n" := 0]
  {
    DistinctNames();
    SingletonFacts(DEPARTING);
    SingletonFacts(NEWCOMER);
    SingletonFacts(SetIdentifier(DEPARTING, 0));
    SingletonFacts(SetIdentifier(NEWCOMER, 0));
    forall u ensures u in Wanted(BACK) <==> u == "d" || u == "n" {
      MergedAt(BACK.v4, BACK.v6, u);
    }
    IdentifierRoundTrip(DEPARTING, 0);
    IdentifierRoundTrip(NEWCOMER, 0);
    InterruptedKnown();
    hide Known, Wanted, GetIdentifier, SetIdentifier;
  }

  const COMPLETED := Stored([SetIdentifier(NEWCOMER, 0)], [])

  /** Between the two writes both UIDs are stored as ready endpoints with identifier 0; the next reconcile that writes
      both slices leaves "n" as it is and takes "d" out. */
  lemma InterruptedCompletes(max: nat)
    requires 0 < max < UINT32
    ensures "d" != "n" && Step(INTERRUPTED, Input([NEWCOMER], []), max, COMPLETED)
    ensures Known(INTERRUPTED) == map["d" := SetIdentifier(DEPARTING, 0), "n" := SetIdentifier(NEWCOMER, 0)]
    ensures Known(COMPLETED) == map["n" := SetIdentifier(NEWCOMER, 0)]
    ensures GetIdentifier(SetIdentifier(DEPARTING, 0)) == GetIdentifier(SetIdentifier(NEWCOMER, 0)) == Some(0)
    ensures SetIdentifier(DEPARTING, 0).ready == SetIdentifier(NEWCOMER, 0).ready == Some(true)
  {
    DistinctNames();
    IdentifierRoundTrip(DEPARTING, 0);
    IdentifierRoundTrip(NEWCOMER, 0);
    SingletonFacts(SetIdentifier(NEWCOMER, 0));
    InterruptedKnown();
    assert Survivors(Known(INTERRUPTED), map["n" := NEWCOMER]) == map["n" := 0];
    StoreOne4(INTERRUPTED, NEWCOMER, max);
  }

  lemma InterruptedKnown()
    ensures Known(INTERRUPTED) == map["d" := SetIdentifier(DEPARTING, 0), "n" := SetIdentifier(NEWCOMER, 0)]
  {
    DistinctNames();
    var d, n := SetIdentifier(DEPARTING, 0), SetIdentifier(NEWCOMER, 0);
    SingletonFacts(d);
    SingletonFacts(n);
    forall u ensures u in Known(INTERRUPTED) <==> u == "d" || u == "n" {
      MergedAt([n], [d], u);
    }
    MergedAt([n], [d], "d");
    MergedAt([n], [d], "n");
  }

  // ---------------------------------------------------------------------------------------------
  // How a UID loses its identifier: a concrete run.

  const MOVING := Stored([SetIdentifier(Pod4("u"), 0)], [])

  /** UID "u" is stored in IPv4 and moves to IPv6; the reconcile stops between the writes, and nothing is stored. */
  lemma MovingUidIsLost(max: nat)
    requires 0 < max < UINT32
    ensures Step(Stored([], []), Input([Pod4("u")], []), max, MOVING)
    ensures PartialStep(MOVING, Input([], [Pod6("u")]), max, map["u" := 0], Stored([], []))
    ensures "u" in Ids(MOVING) && "u" in Wanted(Input([], [Pod6("u")])) && "u" !in Known(Stored([], []))
  {
    MovingStarts(max);
    MovingSurvives();
    hide FullStep, Known, Survivors, Wanted;
    StoreOne6(MOVING, Pod6("u"), max);
    assert FullStep(MOVING, Input([], [Pod6("u")]), max, map["u" := 0], Stored([], [SetIdentifier(Pod6("u"), 0)]));
  }

  lemma MovingStarts(max: nat)
    requires max > 0
    ensures Step(Stored([], []), Input([Pod4("u")], []), max, MOVING)
    ensures Known(Stored([], [])) == map[]
  {
    StoreOne4(Stored([], []), Pod4("u"), max);
  }

  lemma MovingSurvives()
    ensures Known(MOVING) == map["u" := SetIdentifier(Pod4("u"), 0)] && "u" in Ids(MOVING)
    ensures Survivors(Known(MOVING), map["u" := Pod6("u")]) == map["u" := 0]
    ensures Wanted(Input([], [Pod6("u")])) == map["u" := Pod6("u")]
  {
    SingletonFacts(SetIdentifier(Pod4("u"), 0));
    SingletonFacts(Pod6("u"));
    IdentifierRoundTrip(Pod4("u"), 0);
  }
}
