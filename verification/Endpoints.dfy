/** The bookkeeping of Manager.SetEndpoints on values: which endpoints stay, and what the targets become.
    pkg/controllers/statelessloadbalancer/manager.go. */
module Endpoints {
  import opened Prelude
  import opened EndpointSlice

  /** sameStringSlice: whether two lists are equal up to order, by a running difference of counts. */
  method SameStringSlice(a: seq<Address>, b: seq<Address>) returns (same: bool)
    ensures same <==> multiset(a) == multiset(b)
  {
    if |a| != |b| {
      assert |multiset(a)| != |multiset(b)|;
      return false;
    }
    var diff: map<Address, int> := map[];
    ghost var bag: multiset<Address> := multiset{};
    for i := 0 to |a|
      invariant bag == multiset(a[..i]) && Counts(diff, bag)
    {
      assert a[..i + 1] == a[..i] + [a[i]];
      CountUp(diff, bag, a[i]);
      diff := diff[a[i] := (if a[i] in diff then diff[a[i]] else 0) + 1];
      bag := bag + multiset{a[i]};
    }
    assert a[..|a|] == a;
    for i := 0 to |b|
      invariant bag + multiset(b[..i]) == multiset(a) && Counts(diff, bag)
    {
      assert b[..i + 1] == b[..i] + [b[i]];
      if b[i] !in diff {
        MoreOf(multiset(a), bag, b, i);
        return false;
      }
      CountDown(diff, bag, b[i]);
      diff := diff[b[i] := diff[b[i]] - 1];
      if diff[b[i]] == 0 {
        diff := diff - {b[i]};
      }
      bag := bag - multiset{b[i]};
    }
    assert b[..|b|] == b;
    assert |multiset(a)| == |bag| + |multiset(b)|;
    return |diff| == 0;
  }

  /** The running map holds exactly the positive counts of a bag: the difference of the two lists so far. */
  ghost predicate Counts(diff: map<Address, int>, bag: multiset<Address>) {
    && (forall x :: x in diff <==> x in bag)
    && (forall x :: x in diff ==> diff[x] == bag[x])
  }

  lemma CountUp(diff: map<Address, int>, bag: multiset<Address>, x: Address)
    requires Counts(diff, bag)
    ensures Counts(diff[x := (if x in diff then diff[x] else 0) + 1], bag + multiset{x})
  {
  }

  lemma CountDown(diff: map<Address, int>, bag: multiset<Address>, x: Address)
    requires Counts(diff, bag) && x in diff
    ensures Counts(if diff[x] == 1 then diff - {x} else diff[x := diff[x] - 1], bag - multiset{x})
  {
  }

  lemma MoreOf(all: multiset<Address>, bag: multiset<Address>, b: seq<Address>, i: nat)
    requires i < |b| && bag + multiset(b[..i]) == all && b[i] !in bag
    ensures all != multiset(b)
  {
    assert b == b[..i] + [b[i]] + b[i + 1..];
    assert multiset(b)[b[i]] >= multiset(b[..i])[b[i]] + 1;
  }

  /** An endpoint that is to be a target: it has an identifier and is ready. */
  predicate Usable(e: Endpoint) {
    GetIdentifier(e).Some? && e.ready == Some(true)
  }

  /** A recorded endpoint that is still wanted as it is. */
  ghost predicate Unchanged(e: Endpoint, wanted: map<string, Endpoint>) {
    && e.uid in wanted && GetIdentifier(e).Some? && Usable(wanted[e.uid])
    && GetIdentifier(wanted[e.uid]) == GetIdentifier(e)
    && multiset(wanted[e.uid].addresses) == multiset(e.addresses)
  }

  /** The test of removeEndpoints: the endpoint has not changed and is still ready. */
  method IsUnchanged(e: Endpoint, wanted: map<string, Endpoint>) returns (stays: bool)
    ensures stays <==> Unchanged(e, wanted)
  {
    if e.uid !in wanted || GetIdentifier(e).None? {
      return false;
    }
    var newID := GetIdentifier(wanted[e.uid]);
    if newID.None? || newID != GetIdentifier(e) {
      return false;
    }
    var same := SameStringSlice(e.addresses, wanted[e.uid].addresses);
    return same && wanted[e.uid].ready == Some(true);
  }

  /** The targets that a list of recorded endpoints stands for. */
  function TargetsOf(es: seq<Endpoint>): map<int, seq<Address>> {
    if es == [] then map[]
    else
      var last := es[|es| - 1];
      var init := TargetsOf(es[..|es| - 1]);
      if GetIdentifier(last).Some? then init[GetIdentifier(last).value := last.addresses] else init
  }

  ghost predicate DistinctIdentifiers(es: seq<Endpoint>) {
    && (forall i :: 0 <= i < |es| ==> GetIdentifier(es[i]).Some?)
    && (forall i, j :: 0 <= i < j < |es| ==> GetIdentifier(es[i]) != GetIdentifier(es[j]))
  }

  lemma {:induction false} TargetsOfHas(es: seq<Endpoint>, i: nat)
    requires DistinctIdentifiers(es) && i < |es|
    ensures GetIdentifier(es[i]).value in TargetsOf(es) && TargetsOf(es)[GetIdentifier(es[i]).value] == es[i].addresses
  {
    hide GetIdentifier;
    if i < |es| - 1 {
      TargetsOfHas(es[..|es| - 1], i);
    }
  }

  lemma {:induction false} TargetsOfOnly(es: seq<Endpoint>, id: int) returns (i: nat)
    requires id in TargetsOf(es)
    ensures i < |es| && GetIdentifier(es[i]) == Some(id)
  {
    hide GetIdentifier;
    if GetIdentifier(es[|es| - 1]) == Some(id) {
      i := |es| - 1;
    } else {
      i := TargetsOfOnly(es[..|es| - 1], id);
    }
  }

  lemma TargetsOfAt(es: seq<Endpoint>)
    requires DistinctIdentifiers(es)
    ensures forall i :: 0 <= i < |es| ==>
              GetIdentifier(es[i]).value in TargetsOf(es)
                  && TargetsOf(es)[GetIdentifier(es[i]).value] == es[i].addresses
    ensures forall id :: id in TargetsOf(es) ==> exists i :: 0 <= i < |es| && GetIdentifier(es[i]) == Some(id)
  {
    hide TargetsOf, GetIdentifier;
    forall i | 0 <= i < |es|
      ensures GetIdentifier(es[i]).value in TargetsOf(es)
               && TargetsOf(es)[GetIdentifier(es[i]).value] == es[i].addresses
    {
      TargetsOfHas(es, i);
    }
    forall id | id in TargetsOf(es) ensures exists i :: 0 <= i < |es| && GetIdentifier(es[i]) == Some(id) {
      var i := TargetsOfOnly(es, id);
    }
  }

  /** Distinct identifiers make the targets independent of the order. */
  lemma TargetsMember(es: seq<Endpoint>, id: int)
    requires DistinctIdentifiers(es)
    ensures id in TargetsOf(es) <==> exists i :: 0 <= i < |es| && GetIdentifier(es[i]) == Some(id)
    ensures forall i :: 0 <= i < |es| && GetIdentifier(es[i]) == Some(id) ==> TargetsOf(es)[id] == es[i].addresses
  {
    TargetsOfAt(es);
  }

  /** Taking one endpoint out of a list of recorded ones takes out its target. */
  lemma TargetsWithout(a: seq<Endpoint>, e: Endpoint, b: seq<Endpoint>)
    requires DistinctIdentifiers(a + [e] + b)
    ensures GetIdentifier(e).Some? && DistinctIdentifiers(a + b)
    ensures TargetsOf(a + b) == TargetsOf(a + [e] + b) - {GetIdentifier(e).value}
    ensures GetIdentifier(e).value in TargetsOf(a + [e] + b)
             && TargetsOf(a + [e] + b)[GetIdentifier(e).value] == e.addresses
  {
    var all, rest := a + [e] + b, a + b;
    assert all[|a|] == e;
    Shifted(a, e, b);
    TargetsMember(all, GetIdentifier(e).value);
    forall id ensures SameTarget(TargetsOf(rest), TargetsOf(all) - {GetIdentifier(e).value}, id) {
      TargetsMember(all, id);
      TargetsMember(rest, id);
      WithoutAt(a, e, b, id);
    }
    SameTargets(TargetsOf(rest), TargetsOf(all) - {GetIdentifier(e).value});
  }

  ghost predicate SameTarget(m: map<int, seq<Address>>, n: map<int, seq<Address>>, id: int) {
    && (id in m <==> id in n)
    && (id in m && id in n ==> m[id] == n[id])
  }

  lemma SameTargets(m: map<int, seq<Address>>, n: map<int, seq<Address>>)
    requires forall id :: SameTarget(m, n, id)
    ensures m == n
  {
    forall id ensures id in m <==> id in n {
      assert SameTarget(m, n, id);
    }
    forall id | id in m ensures m[id] == n[id] {
      assert SameTarget(m, n, id);
    }
  }

  lemma Shifted(a: seq<Endpoint>, e: Endpoint, b: seq<Endpoint>)
    requires DistinctIdentifiers(a + [e] + b)
    ensures DistinctIdentifiers(a + b)
  {
    var all, rest := a + [e] + b, a + b;
    forall i | 0 <= i < |rest| ensures rest[i] == all[if i < |a| then i else i + 1] {
    }
  }

  lemma WithoutAt(a: seq<Endpoint>, e: Endpoint, b: seq<Endpoint>, id: int)
    requires DistinctIdentifiers(a + [e] + b) && DistinctIdentifiers(a + b)
    ensures SameTarget(TargetsOf(a + b), TargetsOf(a + [e] + b) - {GetIdentifier((a + [e] + b)[|a|]).value}, id)
  {
    hide TargetsOf, GetIdentifier;
    var all, rest := a + [e] + b, a + b;
    assert all[|a|] == e;
    assert GetIdentifier(e).Some? && forall i :: 0 <= i < |all| && i != |a| ==>
        GetIdentifier(all[i]) != GetIdentifier(e);
    hide DistinctIdentifiers;
    TargetsMember(all, id);
    TargetsMember(rest, id);
    if id in TargetsOf(rest) {
      var i :| 0 <= i < |rest| && GetIdentifier(rest[i]) == Some(id);
      var k := if i < |a| then i else i + 1;
      assert all[k] == rest[i];
    }
    if id in TargetsOf(all) && Some(id) != GetIdentifier(e) {
      var i :| 0 <= i < |all| && GetIdentifier(all[i]) == Some(id);
      var k := if i < |a| then i else i - 1;
      assert rest[k] == all[i];
    }
  }

  /** The targets of a service are exactly the usable endpoints, with their addresses up to order. */
  ghost predicate Serves(targets: map<int, seq<Address>>, wanted: map<string, Endpoint>) {
    && (forall u :: u in wanted && Usable(wanted[u]) ==>
          && GetIdentifier(wanted[u]).value in targets
          && multiset(targets[GetIdentifier(wanted[u]).value]) == multiset(wanted[u].addresses))
    && (forall id :: id in targets ==>
        exists u :: u in wanted && Usable(wanted[u]) && GetIdentifier(wanted[u]) == Some(id))
  }

  /** The targets as a function of the identifier, up to the order of addresses. */
  ghost function Bags(targets: map<int, seq<Address>>): map<int, multiset<Address>> {
    map id | id in targets :: multiset(targets[id])
  }

  /** Serving the same endpoints leaves no freedom but the order of addresses: what a service holds is a function of
      the wanted endpoints, whatever happened before. */
  lemma ServesDetermines(a: map<int, seq<Address>>, b: map<int, seq<Address>>, wanted: map<string, Endpoint>)
    requires Serves(a, wanted) && Serves(b, wanted)
    ensures Bags(a) == Bags(b)
  {
    forall id | id in a ensures id in b && multiset(a[id]) == multiset(b[id]) {
      var u :| u in wanted && Usable(wanted[u]) && GetIdentifier(wanted[u]) == Some(id);
    }
    forall id | id in b ensures id in a {
      var u :| u in wanted && Usable(wanted[u]) && GetIdentifier(wanted[u]) == Some(id);
    }
  }

  /** No two usable endpoints carry one identifier. */
  ghost predicate UsableApart(wanted: map<string, Endpoint>) {
    forall u, v :: u in wanted && v in wanted && u != v && Usable(wanted[u]) && Usable(wanted[v]) ==>
                     GetIdentifier(wanted[u]) != GetIdentifier(wanted[v])
  }

  /** The recorded endpoints are up to date with the wanted ones: nothing to delete, nothing to add. */
  ghost predicate Settled(recorded: seq<Endpoint>, wanted: map<string, Endpoint>) {
    && UniqueUids(recorded)
    && (forall i :: 0 <= i < |recorded| ==> Unchanged(recorded[i], wanted))
    && (forall u :: u in wanted && Usable(wanted[u]) ==> exists i :: 0 <= i < |recorded| && recorded[i].uid == u)
  }

  /** Up-to-date endpoints serve the wanted ones. */
  lemma SettledServes(recorded: seq<Endpoint>, wanted: map<string, Endpoint>)
    requires Settled(recorded, wanted) && UsableApart(wanted)
    ensures DistinctIdentifiers(recorded)
    ensures Serves(TargetsOf(recorded), wanted)
  {
    TargetsOfAt(recorded);
    forall id | id in TargetsOf(recorded)
      ensures exists u :: u in wanted && Usable(wanted[u]) && GetIdentifier(wanted[u]) == Some(id)
    {
      var i :| 0 <= i < |recorded| && GetIdentifier(recorded[i]) == Some(id);
      assert Unchanged(recorded[i], wanted);
    }
    forall u | u in wanted && Usable(wanted[u])
      ensures GetIdentifier(wanted[u]).value in TargetsOf(recorded)
      ensures multiset(TargetsOf(recorded)[GetIdentifier(wanted[u]).value]) == multiset(wanted[u].addresses)
    {
      var i :| 0 <= i < |recorded| && recorded[i].uid == u;
      assert Unchanged(recorded[i], wanted);
    }
  }

  // ---------------------------------------------------------------------------------------------
  // What one SetEndpoints keeps and adds.

  /** What the manager records for a service: one endpoint per UID, each with an identifier. */
  ghost predicate Recordable(es: seq<Endpoint>) {
    UniqueUids(es) && forall i :: 0 <= i < |es| ==> GetIdentifier(es[i]).Some?
  }

  function Uids(es: seq<Endpoint>): set<string> {
    set e | e in es :: e.uid
  }

  ghost function Identifiers(es: seq<Endpoint>): seq<int>
    requires Recordable(es)
  {
    seq(|es|, i requires 0 <= i < |es| => GetIdentifier(es[i]).value)
  }

  /** The recorded endpoints that stay. */
  ghost function Kept(es: seq<Endpoint>, wanted: map<string, Endpoint>): seq<Endpoint> {
    if es == [] then []
    else
      var last := es[|es| - 1];
      var init := Kept(es[..|es| - 1], wanted);
      if Unchanged(last, wanted) then init + [last] else init
  }

  lemma {:induction false} KeptMembers(es: seq<Endpoint>, wanted: map<string, Endpoint>)
    ensures forall e :: e in Kept(es, wanted) <==> e in es && Unchanged(e, wanted)
    ensures UniqueUids(es) ==> UniqueUids(Kept(es, wanted))
  {
    if es != [] {
      var init := es[..|es| - 1];
      KeptMembers(init, wanted);
      assert forall e :: e in es <==> e in init || e == es[|es| - 1];
      if UniqueUids(es) {
        forall i | 0 <= i < |Kept(init, wanted)| ensures Kept(init, wanted)[i].uid != es[|es| - 1].uid {
          assert Kept(init, wanted)[i] in init;
        }
      }
    }
  }

  lemma {:induction false} AllKept(es: seq<Endpoint>, wanted: map<string, Endpoint>)
    requires forall i :: 0 <= i < |es| ==> Unchanged(es[i], wanted)
    ensures Kept(es, wanted) == es
  {
    hide Unchanged;
    if es != [] {
      AllKept(es[..|es| - 1], wanted);
      assert es == es[..|es| - 1] + [es[|es| - 1]];
    }
  }

  /** Every identifier in the list belongs to a recorded endpoint that is no longer wanted as it is. */
  ghost predicate OnlyChanged(ids: seq<int>, es: seq<Endpoint>, wanted: map<string, Endpoint>) {
    forall id :: id in ids ==> exists e :: e in es && GetIdentifier(e) == Some(id) && !Unchanged(e, wanted)
  }

  lemma OnlyChangedNext(ids: seq<int>, more: seq<int>, es: seq<Endpoint>, i: nat, wanted: map<string, Endpoint>)
    requires i < |es| && OnlyChanged(ids, es[..i], wanted)
    requires more == [] ||
             (GetIdentifier(es[i]).Some? && more == [GetIdentifier(es[i]).value] && !Unchanged(es[i], wanted))
    ensures OnlyChanged(ids + more, es[..i + 1], wanted)
  {
    hide Unchanged, GetIdentifier;
    assert es[..i + 1] == es[..i] + [es[i]];
    assert forall e :: e in es[..i + 1] <==> e in es[..i] || e == es[i];
  }

  /** The list holds exactly the usable endpoints outside `todo`, each once. */
  ghost predicate ListsUsable(es: seq<Endpoint>, m: map<string, Endpoint>, todo: set<string>) {
    && Recordable(es)
    && (forall i :: 0 <= i < |es| ==> es[i].uid in m && es[i].uid !in todo && m[es[i].uid] == es[i] && Usable(es[i]))
    && (forall u :: u in m && u !in todo && Usable(m[u]) ==> m[u] in es)
  }

  // ---------------------------------------------------------------------------------------------
  // What happens to the targets, from any state.

  /** The identifier that is taken out of the targets for one recorded endpoint. */
  ghost function ChangedAt(e: Endpoint, wanted: map<string, Endpoint>): set<int> {
    if GetIdentifier(e).Some? && !Unchanged(e, wanted) then {GetIdentifier(e).value} else {}
  }

  /** The identifiers of recorded endpoints that are gone or changed. */
  ghost function ChangedIds(es: seq<Endpoint>, wanted: map<string, Endpoint>): set<int> {
    set e, id | e in es && id in ChangedAt(e, wanted) :: id
  }

  lemma ChangedIdsNext(targets: map<int, seq<Address>>, es: seq<Endpoint>, i: nat, wanted: map<string, Endpoint>)
    requires i < |es|
    ensures targets - ChangedIds(es[..i], wanted) - ChangedAt(es[i], wanted) ==
            targets - ChangedIds(es[..i + 1], wanted)
  {
    hide ChangedAt;
    assert es[..i + 1] == es[..i] + [es[i]];
    forall id ensures id in ChangedIds(es[..i + 1], wanted) <==>
        id in ChangedIds(es[..i], wanted) || id in ChangedAt(es[i], wanted) {
      if id in ChangedAt(es[i], wanted) {
        assert es[i] in es[..i + 1];
      }
    }
  }

  lemma NothingChangedYet(targets: map<int, seq<Address>>, wanted: map<string, Endpoint>)
    ensures targets - ChangedIds([], wanted) == targets
  {
  }

  /** A usable endpoint of `m` has this identifier. */
  ghost predicate Offered(m: map<string, Endpoint>, id: int) {
    exists u :: u in m && Usable(m[u]) && GetIdentifier(m[u]) == Some(id)
  }

  ghost predicate OfferedWith(m: map<string, Endpoint>, id: int, ips: seq<Address>) {
    exists u :: u in m && Usable(m[u]) && GetIdentifier(m[u]) == Some(id) && m[u].addresses == ips
  }

  /** Targets were added for usable endpoints of `m`, for all their identifiers when `complete`. Where identifiers
      collide, an old target stays as it is, and of several new ones any may win. */
  ghost predicate TargetsGrow(before: map<int, seq<Address>>, after: map<int, seq<Address>>, m: map<string, Endpoint>,
                              complete: bool) {
    && (forall id :: id in before ==> id in after && after[id] == before[id])
    && (forall id :: id in after && id !in before ==> OfferedWith(m, id, after[id]))
    && (complete ==> forall u :: u in m && Usable(m[u]) ==> GetIdentifier(m[u]).value in after)
  }

  lemma TargetsGrowByNothing(targets: map<int, seq<Address>>, m: map<string, Endpoint>)
    ensures TargetsGrow(targets, targets, m - m.Keys, true) && m - {} == m
  {
  }

  lemma OfferedStill(m: map<string, Endpoint>, todo: set<string>, u: string, id: int, ips: seq<Address>)
    requires OfferedWith(m - todo, id, ips)
    ensures OfferedWith(m - (todo - {u}), id, ips)
  {
    var v :| v in m - todo && Usable((m - todo)[v]) && GetIdentifier((m - todo)[v]) == Some(id)
        && (m - todo)[v].addresses == ips;
    assert v in m - (todo - {u});
  }

  /** One endpoint more was looked at: skipped, already a target, failed, or added. */
  lemma TargetsGrowNext(before: map<int, seq<Address>>, targets: map<int, seq<Address>>, after: map<int, seq<Address>>,
                    m: map<string, Endpoint>, todo: set<string>, u: string, complete: bool, failed: bool)
    requires TargetsGrow(before, targets, m - todo, complete) && u in todo && u in m
    requires Usable(m[u]) ==>
               var id := GetIdentifier(m[u]).value;
               after == if failed || id in targets then targets else targets[id := m[u].addresses]
    requires Usable(m[u]) && failed ==> GetIdentifier(m[u]).value !in targets
    requires !Usable(m[u]) ==> after == targets
    ensures TargetsGrow(before, after, m - (todo - {u}), complete && !failed)
  {
    hide GetIdentifier;
    var more := m - (todo - {u});
    forall id | id in after && id !in before ensures OfferedWith(more, id, after[id]) {
      if id in targets {
        OfferedStill(m, todo, u, id, targets[id]);
      } else {
        assert u in more;
      }
    }
    forall v | v in more && Usable(more[v]) && complete && !failed ensures GetIdentifier(more[v]).value in after {
      assert v != u ==> v in m - todo;
    }
  }

  /** What one SetEndpoints makes of the targets, whatever they were: those of recorded endpoints that are gone or
      changed are taken out, by identifier; then targets are added for the usable endpoints that did not stay. */
  ghost predicate Follows(before: map<int, seq<Address>>, after: map<int, seq<Address>>, previous: seq<Endpoint>,
                          wanted: map<string, Endpoint>, complete: bool)
  {
    TargetsGrow(before - ChangedIds(previous, wanted), after, wanted - Uids(Kept(previous, wanted)), complete)
  }

  /** Which identifiers have a target after an error-free call: those that were kept, and those of usable endpoints that
      did not stay. */
  lemma IdentifiersAfter(before: map<int, seq<Address>>, after: map<int, seq<Address>>, previous: seq<Endpoint>,
                         wanted: map<string, Endpoint>, id: int)
    requires Follows(before, after, previous, wanted, true)
    ensures id in after <==>
              id in before - ChangedIds(previous, wanted) || Offered(wanted - Uids(Kept(previous, wanted)), id)
    ensures id in before - ChangedIds(previous, wanted) ==> after[id] == before[id]
  {
    hide GetIdentifier, ChangedIds, Kept, Uids;
    var m := wanted - Uids(Kept(previous, wanted));
    if Offered(m, id) {
      var v :| v in m && Usable(m[v]) && GetIdentifier(m[v]) == Some(id);
      assert id in after;
    }
  }

  /** The endpoint is served: its identifier is a target with its addresses, up to order. */
  ghost predicate ServedBy(targets: map<int, seq<Address>>, e: Endpoint) {
    && GetIdentifier(e).Some? && GetIdentifier(e).value in targets
    && multiset(targets[GetIdentifier(e).value]) == multiset(e.addresses)
  }

  /** Every usable endpoint of `m` with this identifier has these addresses, up to order, and there is one. */
  ghost predicate OfferedOnly(m: map<string, Endpoint>, id: int, ips: seq<Address>) {
    && Offered(m, id)
    && forall v :: v in m && Usable(m[v]) && GetIdentifier(m[v]) == Some(id) ==>
        multiset(m[v].addresses) == multiset(ips)
  }

  /** What an error-free call promises a usable endpoint, in terms of what is known before it: it is served for certain
      exactly when its identifier is kept as a target with its addresses, or is not kept and every endpoint that did not
      stay and brings it has the same addresses. */
  ghost predicate WillBeServed(before: map<int, seq<Address>>, previous: seq<Endpoint>, wanted: map<string, Endpoint>,
                               e: Endpoint)
    requires Usable(e)
  {
    var (kept, id) := (before - ChangedIds(previous, wanted), GetIdentifier(e).value);
    if id in kept then multiset(kept[id]) == multiset(e.addresses)
    else OfferedOnly(wanted - Uids(Kept(previous, wanted)), id, e.addresses)
  }

  lemma ServedExactly(before: map<int, seq<Address>>, previous: seq<Endpoint>, wanted: map<string, Endpoint>, u: string)
    requires u in wanted && Usable(wanted[u])
    ensures (forall after :: Follows(before, after, previous, wanted, true) ==> ServedBy(after, wanted[u])) <==>
              WillBeServed(before, previous, wanted, wanted[u])
  {
    var (e, kept, m) := (wanted[u], before - ChangedIds(previous, wanted), wanted - Uids(Kept(previous, wanted)));
    hide ChangedIds, Kept, Uids, GetIdentifier;
    if WillBeServed(before, previous, wanted, e) {
      forall after | Follows(before, after, previous, wanted, true) ensures ServedBy(after, e) {
        ServedForCertain(kept, after, m, e);
      }
    } else {
      var after := NotServed(kept, m, e);
      assert Follows(before, after, previous, wanted, true) && !ServedBy(after, e);
    }
  }

  lemma ServedForCertain(kept: map<int, seq<Address>>, after: map<int, seq<Address>>, m: map<string, Endpoint>,
                         e: Endpoint)
    requires Usable(e) && TargetsGrow(kept, after, m, true)
    requires var id := GetIdentifier(e).value;
             if id in kept then multiset(kept[id]) == multiset(e.addresses) else OfferedOnly(m, id, e.addresses)
    ensures ServedBy(after, e)
  {
    hide GetIdentifier;
    var id := GetIdentifier(e).value;
    if id !in kept {
      var v :| v in m && Usable(m[v]) && GetIdentifier(m[v]) == Some(id);
      assert OfferedWith(m, id, after[id]);
    }
  }

  /** An outcome of an error-free call that does not serve the endpoint. */
  lemma NotServed(kept: map<int, seq<Address>>, m: map<string, Endpoint>, e: Endpoint)
    returns (after: map<int, seq<Address>>)
    requires Usable(e)
    requires var id := GetIdentifier(e).value;
             !(if id in kept then multiset(kept[id]) == multiset(e.addresses) else OfferedOnly(m, id, e.addresses))
    ensures TargetsGrow(kept, after, m, true) && !ServedBy(after, e)
  {
    hide GetIdentifier;
    var id := GetIdentifier(e).value;
    if id !in kept && Offered(m, id) {
      var v :| v in m && Usable(m[v]) && GetIdentifier(m[v]) == Some(id)
          && multiset(m[v].addresses) != multiset(e.addresses);
      after := GrowFirst(kept, m, v);
    } else {
      after := GrowAny(kept, m);
    }
  }

  /** Some outcome of an error-free call: the endpoints may be met in any order. */
  lemma {:induction false} GrowAny(kept: map<int, seq<Address>>, m: map<string, Endpoint>)
      returns (after: map<int, seq<Address>>)
    ensures TargetsGrow(kept, after, m, true)
    decreases |m|
  {
    hide GetIdentifier;
    if m == map[] {
      after := kept;
    } else {
      var u :| u in m;
      after := GrowFirst(kept, m, u);
    }
  }

  /** One in which this endpoint is met first. */
  lemma {:induction false} GrowFirst(kept: map<int, seq<Address>>, m: map<string, Endpoint>, u: string)
      returns (after: map<int, seq<Address>>)
    requires u in m
    ensures TargetsGrow(kept, after, m, true)
    ensures Usable(m[u]) && GetIdentifier(m[u]).value !in kept ==> after[GetIdentifier(m[u]).value] == m[u].addresses
    decreases |m|, 0
  {
    hide GetIdentifier;
    var rest := m - {u};
    assert |rest.Keys| < |m.Keys|;
    var first := if Usable(m[u]) && GetIdentifier(m[u]).value !in kept
                 then kept[GetIdentifier(m[u]).value := m[u].addresses] else kept;
    after := GrowAny(first, rest);
    forall id | id in after && id !in kept ensures OfferedWith(m, id, after[id]) {
      if id in first {
        assert m[u].addresses == after[id];
      } else {
        var v :| v in rest && Usable(rest[v]) && GetIdentifier(rest[v]) == Some(id) && rest[v].addresses == after[id];
        assert v in m;
      }
    }
    forall v | v in m && Usable(m[v]) ensures GetIdentifier(m[v]).value in after {
      if v == u {
        var id: int := GetIdentifier(m[u]).value;
        assert id in first && id in after;
      } else {
        assert v in rest && rest[v] == m[v];
      }
    }
  }

  /** Two new endpoints with one identifier: an error-free call serves either of them, and not the other one. */
  lemma NewEndpointNotServed(a: Endpoint, b: Endpoint, id: int)
    requires a.uid != b.uid && Usable(a) && Usable(b) && GetIdentifier(a) == GetIdentifier(b) == Some(id)
    requires multiset(a.addresses) != multiset(b.addresses)
    ensures var wanted := map[a.uid := a, b.uid := b];
            Follows(map[], map[id := a.addresses], [], wanted, true) && !ServedBy(map[id := a.addresses], b)
    ensures var wanted := map[a.uid := a, b.uid := b];
            !WillBeServed(map[], [], wanted, a) && !WillBeServed(map[], [], wanted, b)
  {
    var wanted := map[a.uid := a, b.uid := b];
    assert wanted[a.uid] == a && wanted[b.uid] == b;
    var none: map<int, seq<Address>> := map[];
    assert none - ChangedIds([], wanted) == none && wanted - Uids(Kept([], wanted)) == wanted;
    hide GetIdentifier, Kept, Uids, ChangedIds;
    assert OfferedWith(wanted, id, a.addresses);
  }

  /** Up-to-date endpoints with distinct identifiers leave no two usable endpoints with one identifier. */
  lemma SettledApart(recorded: seq<Endpoint>, wanted: map<string, Endpoint>)
    requires Settled(recorded, wanted) && DistinctIdentifiers(recorded)
    ensures UsableApart(wanted)
  {
    hide GetIdentifier;
    forall u, v | u in wanted && v in wanted && u != v && Usable(wanted[u]) && Usable(wanted[v])
      ensures GetIdentifier(wanted[u]) != GetIdentifier(wanted[v])
    {
      var i :| 0 <= i < |recorded| && recorded[i].uid == u;
      var j :| 0 <= j < |recorded| && recorded[j].uid == v;
      assert Unchanged(recorded[i], wanted) && Unchanged(recorded[j], wanted);
      assert GetIdentifier(recorded[if i < j then i else j]) != GetIdentifier(recorded[if i < j then j else i]);
    }
  }

  /** Two usable endpoints shared an identifier; one of them departs and the other one stays as it is. The target is
      deleted for the first one, and the second one counts as up to date, so its identifier has no target left. */
  lemma Starved(before: map<int, seq<Address>>, after: map<int, seq<Address>>, previous: seq<Endpoint>,
                first: map<string, Endpoint>, second: map<string, Endpoint>, id: int, departed: string, live: string,
                complete: bool)
    requires Settled(previous, first) && Follows(before, after, previous, second, complete)
    requires SharesIdentifier(first, second, id, departed, live)
    ensures id !in after
  {
    KeptMembers(previous, second);
    hide Kept, GetIdentifier;
    var i :| 0 <= i < |previous| && previous[i].uid == departed;
    assert Unchanged(previous[i], first) && previous[i] in previous;
    assert id in ChangedAt(previous[i], second) && id in ChangedIds(previous, second);
    var j :| 0 <= j < |previous| && previous[j].uid == live;
    assert Unchanged(previous[j], first) && Unchanged(previous[j], second);
    assert previous[j] in Kept(previous, second) && live in Uids(Kept(previous, second));
  }

  /** Two usable endpoints share an identifier; then one departs, and the other one is the only one left with it. */
  ghost predicate SharesIdentifier(first: map<string, Endpoint>, second: map<string, Endpoint>, id: int,
                                   departed: string, live: string)
  {
    && departed in first && Usable(first[departed]) && GetIdentifier(first[departed]) == Some(id)
    && live in first && Usable(first[live]) && GetIdentifier(first[live]) == Some(id)
    && departed !in second
    && live in second && Usable(second[live]) && GetIdentifier(second[live]) == Some(id)
    && multiset(second[live].addresses) == multiset(first[live].addresses)
    && forall u :: u in second && Usable(second[u]) && GetIdentifier(second[u]) == Some(id) ==> u == live
  }

  /** No identifier is shared among the recorded endpoints and the usable ones. */
  ghost predicate ApartFrom(recorded: seq<Endpoint>, m: map<string, Endpoint>) {
    && UsableApart(m)
    && forall i, u :: 0 <= i < |recorded| && u in m && Usable(m[u]) ==>
        GetIdentifier(recorded[i]) != GetIdentifier(m[u])
  }

  /** What stays and what is added together are up to date. */
  lemma NowSettled(previous: seq<Endpoint>, wanted: map<string, Endpoint>, kept: seq<Endpoint>, added: seq<Endpoint>)
    requires UniqueUids(previous) && kept == Kept(previous, wanted)
    requires forall u :: u in wanted ==> wanted[u].uid == u
    requires ListsUsable(added, wanted - Uids(kept), {})
    ensures Settled(kept + added, wanted) && Recordable(kept + added)
  {
    KeptMembers(previous, wanted);
    hide Kept, GetIdentifier;
    var all := kept + added;
    forall i | 0 <= i < |all| ensures Unchanged(all[i], wanted) {
      assert i < |kept| ==> all[i] in kept;
    }
    forall i, j | 0 <= i < j < |all| ensures all[i].uid != all[j].uid {
      if i < |kept| <= j {
        assert all[i] in kept && all[i].uid in Uids(kept);
      }
    }
    forall u | u in wanted && Usable(wanted[u]) ensures exists i :: 0 <= i < |all| && all[i].uid == u {
      if u in Uids(kept) {
        var e :| e in kept && e.uid == u;
        assert e in all;
      } else {
        assert u in wanted - Uids(kept);
        assert wanted[u] in added && wanted[u] in all;
      }
    }
  }

  /** Endpoints that are up to date leave the targets as they are. */
  lemma SettledStays(before: map<int, seq<Address>>, after: map<int, seq<Address>>, previous: seq<Endpoint>,
                     wanted: map<string, Endpoint>, complete: bool)
    requires Settled(previous, wanted) && Follows(before, after, previous, wanted, complete)
    ensures after == before
  {
    AllKept(previous, wanted);
    hide Kept, GetIdentifier, Unchanged;
    assert ChangedIds(previous, wanted) == {} && before - {} == before;
    var m := wanted - Uids(previous);
    assert forall u :: u in m ==> !Usable(m[u]);
    forall id | id in after ensures id in before {
      assert id !in before ==> OfferedWith(m, id, after[id]);
    }
    assert TargetsGrow(before, after, m, complete);
    forall id ensures SameTarget(after, before, id) {
    }
    SameTargets(after, before);
  }

  /** When nothing changes nothing is left to add. */
  lemma NothingToAdd(previous: seq<Endpoint>, wanted: map<string, Endpoint>, added: seq<Endpoint>)
    requires Settled(previous, wanted) && ListsUsable(added, wanted - Uids(previous), {})
    ensures Kept(previous, wanted) == previous && added == []
  {
    AllKept(previous, wanted);
    forall u | u in wanted && Usable(wanted[u]) ensures u in Uids(previous) {
      var i :| 0 <= i < |previous| && previous[i].uid == u;
      assert previous[i] in previous;
    }
    assert |added| > 0 ==> added[0].uid in wanted - Uids(previous);
  }

  /** What stays shares no identifier with what is added. */
  lemma StillApart(previous: seq<Endpoint>, wanted: map<string, Endpoint>)
    requires UsableApart(wanted) && DistinctIdentifiers(previous)
    requires forall u :: u in wanted ==> wanted[u].uid == u
    ensures var kept := Kept(previous, wanted); ApartFrom(kept, wanted - Uids(kept))
  {
    var kept := Kept(previous, wanted);
    KeptMembers(previous, wanted);
    hide Kept, GetIdentifier;
    var m := wanted - Uids(kept);
    forall i, u | 0 <= i < |kept| && u in m && Usable(m[u]) ensures GetIdentifier(kept[i]) != GetIdentifier(m[u]) {
      var e := kept[i];
      assert e in kept && e.uid in Uids(kept);
      assert Unchanged(e, wanted);
    }
  }

  /** One more endpoint with an identifier of its own. */
  lemma TargetsWith(all: seq<Endpoint>, e: Endpoint)
    requires DistinctIdentifiers(all + [e])
    ensures DistinctIdentifiers(all) && GetIdentifier(e).Some?
    ensures GetIdentifier(e).value !in TargetsOf(all)
    ensures TargetsOf(all + [e]) == TargetsOf(all)[GetIdentifier(e).value := e.addresses]
  {
    var more := all + [e];
    assert more[..|all|] == all && more[|all|] == e;
    assert TargetsOf(more) == TargetsOf(all)[GetIdentifier(e).value := e.addresses];
    hide TargetsOf, GetIdentifier;
    assert forall i :: 0 <= i < |all| ==> more[i] == all[i];
    TargetsMember(all, GetIdentifier(e).value);
  }

  /** The next usable endpoint has an identifier of its own. */
  lemma NextAdded(kept: seq<Endpoint>, added: seq<Endpoint>, e: Endpoint, m: map<string, Endpoint>, todo: set<string>)
    requires ApartFrom(kept, m) && ListsUsable(added, m, todo)
    requires e.uid in m && m[e.uid] == e && Usable(e) && e.uid in todo
    ensures kept + (added + [e]) == kept + added + [e]
    ensures DistinctIdentifiers(kept + added) ==> DistinctIdentifiers(kept + added + [e])
  {
    var all := kept + added;
    hide TargetsOf, GetIdentifier;
    forall i | 0 <= i < |all| ensures GetIdentifier(all[i]) != GetIdentifier(e) {
      if i >= |kept| {
        assert all[i] == added[i - |kept|] && all[i].uid != e.uid;
      }
    }
  }

  lemma ListsUsableNext(added: seq<Endpoint>, m: map<string, Endpoint>, todo: set<string>, u: string)
    requires ListsUsable(added, m, todo) && u in todo && u in m && m[u].uid == u
    ensures ListsUsable(if Usable(m[u]) then added + [m[u]] else added, m, todo - {u})
    ensures Recordable(if Usable(m[u]) then added + [m[u]] else added)
  {
    hide GetIdentifier;
    assert forall e :: e in added + [m[u]] <==> e in added || e == m[u];
  }

  lemma IdentifiersSnoc(es: seq<Endpoint>, e: Endpoint)
    requires Recordable(es) && Recordable(es + [e]) && GetIdentifier(e).Some?
    ensures Identifiers(es + [e]) == Identifiers(es) + [GetIdentifier(e).value]
  {
  }

  lemma UidsSnoc(es: seq<Endpoint>, e: Endpoint)
    ensures Uids(es + [e]) == Uids(es) + {e.uid}
    ensures es + [] == es
  {
    assert forall x :: x in es + [e] <==> x in es || x == e;
  }

  lemma EachHasIdentifier(a: seq<Endpoint>, e: Endpoint, b: seq<Endpoint>)
    ensures DistinctIdentifiers(a + [e] + b) ==> GetIdentifier(e).Some?
  {
    assert (a + [e] + b)[|a|] == e;
  }

  lemma UnchangedLocal(e: Endpoint, wanted: map<string, Endpoint>, gone: set<string>)
    requires e.uid !in gone
    ensures Unchanged(e, wanted - gone) <==> Unchanged(e, wanted)
    ensures Unchanged(e, wanted) ==> GetIdentifier(e).Some?
  {
  }

  /** Whether the next recorded endpoint stays is not affected by those that stayed before. */
  lemma KeptNext(previous: seq<Endpoint>, i: nat, wanted: map<string, Endpoint>)
    requires i < |previous| && UniqueUids(previous)
    ensures var kept := Kept(previous[..i], wanted);
            && Kept(previous[..i + 1], wanted) ==
               (if Unchanged(previous[i], wanted) then kept + [previous[i]] else kept)
            && previous[i].uid !in Uids(kept)
            && (Unchanged(previous[i], wanted - Uids(kept)) <==> Unchanged(previous[i], wanted))
            && (Unchanged(previous[i], wanted) ==> GetIdentifier(previous[i]).Some?)
  {
    assert previous[..i + 1][..i] == previous[..i];
    KeptMembers(previous[..i], wanted);
    hide Kept, Unchanged;
    forall e | e in Kept(previous[..i], wanted) ensures e.uid != previous[i].uid {
      var k :| 0 <= k < i && previous[..i][k] == e;
    }
    UnchangedLocal(previous[i], wanted, Uids(Kept(previous[..i], wanted)));
  }

  /** Every identifier in the list belongs to a usable endpoint that was not recorded as it is. */
  ghost predicate OnlyNew(ids: seq<int>, previous: seq<Endpoint>, wanted: map<string, Endpoint>) {
    forall id :: id in ids ==>
      exists u :: u in wanted && Usable(wanted[u]) && GetIdentifier(wanted[u]) == Some(id)
                  && forall e :: e in previous && e.uid == u ==> !Unchanged(e, wanted)
  }

  lemma AddedAreNew(previous: seq<Endpoint>, wanted: map<string, Endpoint>, added: seq<Endpoint>)
    requires ListsUsable(added, wanted - Uids(Kept(previous, wanted)), {})
    ensures OnlyNew(Identifiers(added), previous, wanted)
  {
    KeptMembers(previous, wanted);
    var kept := Kept(previous, wanted);
    hide Kept, GetIdentifier, Unchanged;
    forall id | id in Identifiers(added)
      ensures exists u :: u in wanted && Usable(wanted[u]) && GetIdentifier(wanted[u]) == Some(id)
                          && forall e :: e in previous && e.uid == u ==> !Unchanged(e, wanted)
    {
      var i :| 0 <= i < |added| && Identifiers(added)[i] == id;
      var u := added[i].uid;
      assert u in wanted && wanted[u] == added[i];
      forall e | e in previous && e.uid == u ensures !Unchanged(e, wanted) {
        assert e in kept ==> e.uid in Uids(kept);
      }
    }
  }

  lemma FirstElement(ids: seq<int>)
    ensures ids == [] || exists id: int :: id in ids
  {
    if ids != [] {
      var id := ids[0];
      assert id in ids;
    }
  }

  /** Nothing is deactivated or activated when the recorded endpoints are up to date. */
  lemma NothingMore(previous: seq<Endpoint>, wanted: map<string, Endpoint>, deactivated: seq<int>, activated: seq<int>,
                    added: seq<Endpoint>)
    requires ListsUsable(added, wanted - Uids(Kept(previous, wanted)), {})
    requires OnlyChanged(deactivated, previous, wanted) && forall id :: id in activated ==> id in Identifiers(added)
    ensures Settled(previous, wanted) ==>
              Kept(previous, wanted) + added == previous && deactivated == [] && activated == []
  {
    if Settled(previous, wanted) {
      AllKept(previous, wanted);
      NothingToAdd(previous, wanted, added);
      assert Identifiers(added) == [];
      hide Kept, Unchanged, GetIdentifier, Identifiers;
      assert forall e :: e in previous ==> Unchanged(e, wanted);
      FirstElement(deactivated);
      FirstElement(activated);
    }
  }
}
