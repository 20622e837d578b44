/** pkg/nfqlb/nfqlb.go: the heal loop beside the calls of the manager, one lock or route operation at a time.

    One manager thread issues calls one after the other; the healer walks over the registered services. The mutex of
    the load balancer and the mutex of each service are explicit. Every command may fail: a failed activation changes
    nothing, a failed deactivation leaves a target that is forgotten but not deactivated, with its routes, and creating
    and deleting routes fail one by one. */
module Heal {
  import opened Prelude
  import opened EndpointSlice
  import opened Offset
  import opened Nfqlb
  import Views

  datatype Holder = Manager | Healer

  /** A service that is registered, or has been taken out of the registry and is being cleared. */
  datatype Svc = Svc(name: string, registered: bool, range: Range, targets: map<int, seq<Address>>)

  datatype Job = Clear | AddT(id: int, ips: seq<Address>) | DeleteT(id: int, ips: seq<Address>)

  /** Where the manager thread stands. */
  datatype ManagerAt =
    | Idle
    | WantMu(name: string, delete: bool)
    | InMu(name: string, delete: bool)
    | WantService(h: nat, job: Job)
    | InService(h: nat, job: Job)
    | Creating(h: nat, id: int, todo: seq<Address>)
    | Deleting(h: nat, id: int, todo: seq<Address>, clear: bool)

  /** Where the healer stands. `good`: nothing failed since the lock of the service was taken. */
  datatype HealerAt =
    | Asleep
    | Awake
    | Scanning(todo: set<nat>)
    | Reaching(h: nat, todo: set<nat>)
    | Healing(h: nat, todo: set<nat>, left: set<int>, good: bool)
    | Restoring(h: nat, todo: set<nat>, left: set<int>, id: int, ips: seq<Address>, good: bool)

  /** `clean`: no creation of a route has failed. `stale`: the marks of targets whose routes a deletion may have left,
      because it failed or was called with other addresses. `leaked`: a call returned without releasing the mutex. */
  datatype State = State(mu: Option<Holder>, locks: map<nat, Holder>, svcs: map<nat, Svc>, routes: set<Route>,
                         mgr: ManagerAt, heal: HealerAt, clean: bool, stale: set<int>, leaked: bool)

  predicate IsKnown(s: State, name: string) {
    exists h :: h in s.svcs && s.svcs[h].registered && s.svcs[h].name == name
  }

  function Registered(s: State): set<nat> {
    set h | h in s.svcs && s.svcs[h].registered
  }

  function Mark(s: State, h: nat, id: int): int
    requires h in s.svcs
  {
    id + s.svcs[h].range.offset
  }

  /** What one thread does next. */
  datatype Label =
    | CallAddService(name: string) | CallDeleteService(name: string)
    | CallAddTarget(h: nat, id: int, ips: seq<Address>) | CallDeleteTarget(h: nat, id: int, ips: seq<Address>)
    | LockMu | Register(h: nat, range: Range) | GiveUp | Unregister(h: nat) | Lose
    | LockService | Record(ok: bool) | Forget(id: int, ok: bool) | Return
    | Create(ok: bool, lost: bool) | Delete(ok: bool)
    | Wake | HealLockMu | Visit(h: nat) | HealLockService | Heal(id: int)
    | Restore(ok: bool, lost: bool) | Leave | Sleep

  /** A call starts. Targets are added to and deleted from registered services only. */
  ghost function Call(s: State, l: Label): Option<State>
    requires s.mgr.Idle?
  {
    match l
    case CallAddService(name) => Some(s.(mgr := WantMu(name, false)))
    case CallDeleteService(name) => Some(s.(mgr := WantMu(name, true)))
    case CallAddTarget(h, id, ips) =>
      if h in s.svcs && s.svcs[h].registered then Some(s.(mgr := WantService(h, AddT(id, ips)))) else None
    case CallDeleteTarget(h, id, ips) =>
      if h in s.svcs && s.svcs[h].registered then Some(s.(mgr := WantService(h, DeleteT(id, ips)))) else None
    case _ => None
  }

  /** Inside the mutex of the load balancer. An unknown name makes DeleteService return with the mutex locked. */
  ghost function InsideMu(s: State, l: Label): Option<State>
    requires s.mgr.InMu?
  {
    match l
    case Register(h, range) =>
      if !s.mgr.delete && !IsKnown(s, s.mgr.name) && h !in s.svcs && Wellformed(range)
         && (forall k :: k in s.svcs ==> Apart(s.svcs[k].range, range))
      then Some(s.(mu := None, mgr := Idle, svcs := s.svcs[h := Svc(s.mgr.name, true, range, map[])])) else None
    case GiveUp => if !s.mgr.delete then Some(s.(mu := None, mgr := Idle)) else None
    case Unregister(h) =>
      if s.mgr.delete && h in s.svcs && s.svcs[h].registered && s.svcs[h].name == s.mgr.name
      then Some(s.(mu := None, mgr := WantService(h, Clear), svcs := s.svcs[h := s.svcs[h].(registered := false)]))
      else None
    case Lose => if s.mgr.delete && !IsKnown(s, s.mgr.name) then Some(s.(mgr := Idle, leaked := true)) else None
    case _ => None
  }

  /** A target is taken out of the record. When its deactivation fails that is all, and its routes are left; otherwise
      the routes to the given addresses are deleted next. */
  ghost function ForgetTarget(s: State, id: int, ips: seq<Address>, ok: bool, clear: bool): State
    requires s.mgr.InService? && s.mgr.h in s.svcs && id in s.svcs[s.mgr.h].targets
  {
    var (h, svc) := (s.mgr.h, s.svcs[s.mgr.h]);
    var left := s.(svcs := s.svcs[h := svc.(targets := svc.targets - {id})],
                   stale := if ok && ips == svc.targets[id] then s.stale else s.stale + {Mark(s, h, id)});
    if ok then left.(mgr := Deleting(h, id, ips, clear))
    else if clear then left
    else left.(locks := s.locks - {h}, mgr := Idle)
  }

  /** Inside the mutex of a service. A failed activation, or one outside the range, changes nothing. DeleteService may
      end early, with the routes of the remaining targets left. */
  ghost function InsideService(s: State, l: Label): Option<State>
    requires s.mgr.InService? && s.mgr.h in s.svcs
  {
    var (h, svc) := (s.mgr.h, s.svcs[s.mgr.h]);
    match (s.mgr.job, l)
    case (Clear, Forget(id, ok)) =>
      if id in svc.targets then Some(ForgetTarget(s, id, svc.targets[id], ok, true)) else None
    case (Clear, Return) =>
      if svc.targets == map[] then Some(s.(svcs := s.svcs - {h}, locks := s.locks - {h}, mgr := Idle)) else None
    case (Clear, GiveUp) =>
      Some(s.(svcs := s.svcs - {h}, locks := s.locks - {h}, mgr := Idle, stale := s.stale + MarksOf(svc)))
    case (AddT(id, ips), Record(ok)) =>
      if id in svc.targets || !ok || !(0 <= id < svc.range.maxTargets)
      then Some(s.(locks := s.locks - {h}, mgr := Idle))
      else Some(s.(svcs := s.svcs[h := svc.(targets := svc.targets[id := ips])], mgr := Creating(h, id, ips)))
    case (DeleteT(id, ips), Forget(k, ok)) =>
      if k != id then None
      else if id !in svc.targets then Some(s.(locks := s.locks - {h}, mgr := Idle))
      else Some(ForgetTarget(s, id, ips, ok, false))
    case _ => None
  }

  function MarksOf(svc: Svc): set<int> {
    set id | id in svc.targets :: id + svc.range.offset
  }

  ghost function TakeMu(s: State): Option<State>
    requires s.mgr.WantMu?
  {
    if s.mu == None then Some(s.(mu := Some(Manager), mgr := InMu(s.mgr.name, s.mgr.delete))) else None
  }

  ghost function TakeService(s: State): Option<State>
    requires s.mgr.WantService?
  {
    var h := s.mgr.h;
    if h !in s.locks then Some(s.(locks := s.locks[h := Manager], mgr := InService(h, s.mgr.job))) else None
  }

  /** createPolicyRoute for the route `some`: a failure may also have removed it when it was there. */
  function Created(routes: set<Route>, some: set<Route>, ok: bool, lost: bool): set<Route> {
    if ok then routes + some else if lost then routes - some else routes
  }

  /** The loop of AddTarget over the addresses; a failed creation is skipped. */
  ghost function CreateNext(s: State, l: Label): Option<State>
    requires s.mgr.Creating? && s.mgr.h in s.svcs
  {
    var (h, id, todo) := (s.mgr.h, s.mgr.id, s.mgr.todo);
    if l.Return? && todo == [] then Some(s.(locks := s.locks - {h}, mgr := Idle))
    else if l.Create? && todo != [] then
      Some(s.(routes := Created(s.routes, RoutesTo(Mark(s, h, id), [todo[0]]), l.ok, l.lost),
              clean := s.clean && l.ok, mgr := Creating(h, id, todo[1..])))
    else None
  }

  /** The loop of deleteTargetNoLock over the addresses; a failed deletion is ignored. */
  ghost function DeleteNext(s: State, l: Label): Option<State>
    requires s.mgr.Deleting? && s.mgr.h in s.svcs
  {
    var (h, id, todo) := (s.mgr.h, s.mgr.id, s.mgr.todo);
    if l.Return? && todo == [] then
      Some(if s.mgr.clear then s.(mgr := InService(h, Clear)) else s.(locks := s.locks - {h}, mgr := Idle))
    else if l.Delete? && todo != [] then
      Some(s.(routes := if l.ok then s.routes - RoutesTo(Mark(s, h, id), [todo[0]]) else s.routes,
              stale := if l.ok then s.stale else s.stale + {Mark(s, h, id)},
              mgr := Deleting(h, id, todo[1..], s.mgr.clear)))
    else None
  }

  ghost function ManagerStep(s: State, l: Label): Option<State>
    requires ManagerOn(s.mgr).Some? ==> ManagerOn(s.mgr).value in s.svcs
  {
    match s.mgr
    case Idle => Call(s, l)
    case WantMu(_, _) => if l.LockMu? then TakeMu(s) else None
    case InMu(_, _) => InsideMu(s, l)
    case WantService(_, _) => if l.LockService? then TakeService(s) else None
    case InService(_, _) => InsideService(s, l)
    case Creating(_, _, _) => CreateNext(s, l)
    case Deleting(_, _, _, _) => DeleteNext(s, l)
  }

  /** heal, outside the mutex of a service: one pass over the registered services. */
  ghost function HealOutside(s: State, l: Label): Option<State>
    requires HealerIn(s.heal).None?
  {
    match s.heal
    case Asleep => if l.Wake? then Some(s.(heal := Awake)) else None
    case Awake =>
      if l.HealLockMu? && s.mu == None then Some(s.(mu := Some(Healer), heal := Scanning(Registered(s)))) else None
    case Scanning(todo) =>
      if l.Sleep? && todo == {} then Some(s.(mu := None, heal := Asleep))
      else if l.Visit? && l.h in todo then Some(s.(heal := Reaching(l.h, todo - {l.h})))
      else None
    case Reaching(h, todo) =>
      if l.HealLockService? && h !in s.locks && h in s.svcs
      then Some(s.(locks := s.locks[h := Healer], heal := Healing(h, todo, s.svcs[h].targets.Keys, true))) else None
    case _ => None
  }

  /** heal, inside: every address of every target. */
  ghost function HealInside(s: State, l: Label): Option<State>
    requires HealerIn(s.heal).Some? && s.heal.h in s.svcs
  {
    match s.heal
    case Healing(h, todo, left, good) =>
      if l.Leave? && left == {} then Some(s.(locks := s.locks - {h}, heal := Scanning(todo)))
      else if l.Heal? && l.id in left && l.id in s.svcs[h].targets
      then Some(s.(heal := Restoring(h, todo, left - {l.id}, l.id, s.svcs[h].targets[l.id], good)))
      else None
    case Restoring(h, todo, left, id, ips, good) =>
      if l.Leave? && ips == [] then Some(s.(heal := Healing(h, todo, left, good)))
      else if l.Restore? && ips != [] then
        Some(s.(routes := Created(s.routes, RoutesTo(Mark(s, h, id), [ips[0]]), l.ok, l.lost),
                clean := s.clean && l.ok, heal := Restoring(h, todo, left, id, ips[1..], good && l.ok)))
      else None
    case _ => None
  }

  /** One step of either thread. */
  ghost function Next(s: State, l: Label): Option<State>
    requires ManagerOn(s.mgr).Some? ==> ManagerOn(s.mgr).value in s.svcs
    requires HealerIn(s.heal).Some? ==> HealerIn(s.heal).value in s.svcs
  {
    if OfHealer(l) then (if HealerIn(s.heal).Some? then HealInside(s, l) else HealOutside(s, l))
    else ManagerStep(s, l)
  }

  predicate OfHealer(l: Label) {
    l.Wake? || l.HealLockMu? || l.Visit? || l.HealLockService? || l.Heal? || l.Restore? || l.Leave? || l.Sleep?
  }

  /** The service the manager works on, or waits for. */
  function ManagerOn(m: ManagerAt): Option<nat> {
    if m.WantService? || m.InService? || m.Creating? || m.Deleting? then Some(m.h) else None
  }

  // ---------------------------------------------------------------------------------------------
  // The invariant.

  function ManagerIn(m: ManagerAt): Option<nat> {
    match m
    case InService(h, _) => Some(h)
    case Creating(h, _, _) => Some(h)
    case Deleting(h, _, _, _) => Some(h)
    case _ => None
  }

  function HealerIn(p: HealerAt): Option<nat> {
    match p
    case Healing(h, _, _, _) => Some(h)
    case Restoring(h, _, _, _, _, _) => Some(h)
    case _ => None
  }

  predicate HealerHasMu(p: HealerAt) {
    !p.Asleep? && !p.Awake?
  }

  /** The service that DeleteService has unregistered and not yet cleared. */
  function Cleared(m: ManagerAt): Option<nat> {
    match m
    case WantService(h, Clear) => Some(h)
    case InService(h, Clear) => Some(h)
    case Deleting(h, _, _, true) => Some(h)
    case _ => None
  }

  /** The mutexes are held by whoever is inside. */
  ghost predicate LocksMatch(s: State) {
    && (s.mu == Some(Healer) <==> HealerHasMu(s.heal))
    && (s.mu == Some(Manager) <==> s.mgr.InMu? || s.leaked) && !(s.mgr.InMu? && s.leaked)
    && (forall h :: h in s.locks && s.locks[h] == Manager <==> ManagerIn(s.mgr) == Some(h))
    && (forall h :: h in s.locks && s.locks[h] == Healer <==> HealerIn(s.heal) == Some(h))
  }

  /** The marks of the services are apart, and every target is inside the range of its service. */
  ghost predicate Separate(svcs: map<nat, Svc>) {
    && (forall h :: h in svcs ==> Wellformed(svcs[h].range))
    && (forall h, k :: h in svcs && k in svcs && h != k ==> Apart(svcs[h].range, svcs[k].range))
    && (forall h, id :: h in svcs && id in svcs[h].targets ==> 0 <= id < svcs[h].range.maxTargets)
  }

  /** Only the service being cleared is not registered, and the registered ones have different names. */
  ghost predicate Flagged(svcs: map<nat, Svc>, cleared: Option<nat>) {
    && (forall h :: h in svcs ==> (svcs[h].registered <==> cleared != Some(h)))
    && (forall h, k :: h in svcs && k in svcs && svcs[h].registered && svcs[k].registered && h != k ==>
                         svcs[h].name != svcs[k].name)
  }

  /** The manager works on a service that exists; what it is about to create is recorded, what it is about to delete
      is not. */
  ghost predicate ManagerPlaced(m: ManagerAt, svcs: map<nat, Svc>) {
    && (ManagerOn(m).Some? ==> m.h in svcs)
    && (m.Creating? ==> m.id in svcs[m.h].targets && forall a :: a in m.todo ==> a in svcs[m.h].targets[m.id])
    && (m.Deleting? ==> m.id !in svcs[m.h].targets && 0 <= m.id < svcs[m.h].range.maxTargets)
  }

  /** The healer works on registered services; what it is about to create is recorded. */
  ghost predicate HealerPlaced(p: HealerAt, svcs: map<nat, Svc>) {
    && (HealerHasMu(p) ==> forall h :: h in p.todo ==> h in svcs && svcs[h].registered)
    && (p.Reaching? || p.Healing? || p.Restoring? ==> p.h in svcs && svcs[p.h].registered)
    && (p.Healing? || p.Restoring? ==> p.left <= svcs[p.h].targets.Keys)
    && (p.Restoring? ==> p.id in svcs[p.h].targets && forall a :: a in p.ips ==> a in svcs[p.h].targets[p.id])
  }

  ghost predicate Placed(s: State) {
    ManagerPlaced(s.mgr, s.svcs) && HealerPlaced(s.heal, s.svcs)
  }

  ghost predicate OwnedBy(s: State, r: Route, h: nat, id: int) {
    h in s.svcs && id in s.svcs[h].targets && r in RoutesTo(Mark(s, h, id), s.svcs[h].targets[id])
  }

  /** The route belongs to a recorded target. */
  ghost predicate Owned(s: State, r: Route) {
    exists h, id :: OwnedBy(s, r, h, id)
  }

  /** The route is about to be deleted, or created. */
  ghost predicate Doomed(s: State, r: Route) {
    s.mgr.Deleting? && s.mgr.h in s.svcs && r in RoutesTo(Mark(s, s.mgr.h, s.mgr.id), s.mgr.todo)
  }

  ghost predicate Due(s: State, r: Route) {
    s.mgr.Creating? && s.mgr.h in s.svcs && r in RoutesTo(Mark(s, s.mgr.h, s.mgr.id), s.mgr.todo)
  }

  /** No stray routes, but for what deletions have left. */
  ghost predicate Sound(s: State) {
    forall r :: r in s.routes ==> Owned(s, r) || Doomed(s, r) || r.mark in s.stale
  }

  /** No missing routes, as long as no creation has failed. */
  ghost predicate Complete(s: State) {
    s.clean ==> forall r :: Owned(s, r) ==> r in s.routes || Due(s, r)
  }

  ghost predicate Inv(s: State) {
    LocksMatch(s) && Separate(s.svcs) && Flagged(s.svcs, Cleared(s.mgr)) && Placed(s) && Sound(s) && Complete(s)
  }

  // ---------------------------------------------------------------------------------------------
  // Every step keeps the invariant.

  ghost predicate SameOwned(s: State, s': State) {
    forall r, h, id :: OwnedBy(s, r, h, id) <==> OwnedBy(s', r, h, id)
  }

  lemma OwnedSame(s: State, s': State, r: Route)
    requires SameOwned(s, s')
    ensures Owned(s, r) <==> Owned(s', r)
  {
    hide OwnedBy;
    if Owned(s, r) {
      var h, id :| OwnedBy(s, r, h, id);
      assert OwnedBy(s', r, h, id);
    }
    if Owned(s', r) {
      var h, id :| OwnedBy(s', r, h, id);
      assert OwnedBy(s, r, h, id);
    }
  }

  /** A step that touches neither routes nor targets, with the manager outside its loops over addresses. */
  lemma QuietOutside(s: State, s': State)
    requires Sound(s) && Complete(s) && s'.routes == s.routes && s'.clean == s.clean && s'.stale == s.stale
             && SameOwned(s, s')
    requires !s.mgr.Deleting? && !s.mgr.Creating?
    ensures Sound(s') && Complete(s')
  {
    forall r ensures Owned(s, r) <==> Owned(s', r) {
      OwnedSame(s, s', r);
    }
    hide Owned;
  }

  /** The same, with the manager standing still. */
  lemma QuietBeside(s: State, s': State)
    requires Sound(s) && Complete(s) && s'.routes == s.routes && s'.clean == s.clean && s'.stale == s.stale
    requires s'.svcs == s.svcs && s'.mgr == s.mgr
    ensures Sound(s') && Complete(s')
  {
    forall r
      ensures (Owned(s, r) <==> Owned(s', r)) && (Doomed(s, r) <==> Doomed(s', r)) && (Due(s, r) <==> Due(s', r))
    {
      assert SameOwned(s, s');
      OwnedSame(s, s', r);
    }
    hide Owned, Doomed, Due;
  }

  lemma CallKeeps(s: State, l: Label)
    requires Inv(s) && s.mgr.Idle? && Call(s, l).Some?
    ensures Inv(Call(s, l).value)
  {
    var s' := Call(s, l).value;
    SameOwnedCall(s, l);
    CallPlaced(s, l);
    hide SameOwned, Placed, LocksMatch, Separate, Flagged, Sound, Complete;
    QuietOutside(s, s');
  }

  lemma SameOwnedCall(s: State, l: Label)
    requires s.mgr.Idle? && Call(s, l).Some?
    ensures SameOwned(s, Call(s, l).value)
  {
    hide RoutesTo;
  }

  lemma CallPlaced(s: State, l: Label)
    requires s.mgr.Idle? && Call(s, l).Some? && Placed(s) && LocksMatch(s) && Flagged(s.svcs, None)
    ensures Placed(Call(s, l).value) && LocksMatch(Call(s, l).value)
    ensures Cleared(Call(s, l).value.mgr) == None
  {
  }

  lemma TakeMuKeeps(s: State)
    requires Inv(s) && s.mgr.WantMu? && TakeMu(s).Some?
    ensures Inv(TakeMu(s).value)
  {
    hide RoutesTo, Separate;
    var s' := TakeMu(s).value;
    assert SameOwned(s, s');
    QuietOutside(s, s');
    hide Sound, Complete, SameOwned;
  }

  lemma TakeServiceKeeps(s: State)
    requires Inv(s) && s.mgr.WantService? && TakeService(s).Some?
    ensures Inv(TakeService(s).value)
  {
    hide RoutesTo, Separate;
    var s' := TakeService(s).value;
    assert SameOwned(s, s');
    QuietOutside(s, s');
    hide Sound, Complete, SameOwned;
  }

  lemma InsideMuKeeps(s: State, l: Label)
    requires Inv(s) && s.mgr.InMu? && InsideMu(s, l).Some?
    ensures Inv(InsideMu(s, l).value)
  {
    LocksMu(s, l);
    SeparateMu(s, l);
    PlacedMu(s, l);
    SameOwnedMu(s, l);
    hide LocksMatch, Placed, SameOwned, Sound, Complete, Separate, Flagged;
    QuietOutside(s, InsideMu(s, l).value);
  }

  lemma LocksMu(s: State, l: Label)
    requires s.mgr.InMu? && InsideMu(s, l).Some? && LocksMatch(s)
    ensures LocksMatch(InsideMu(s, l).value)
  {
    hide IsKnown, Apart, Wellformed;
  }

  lemma PlacedMu(s: State, l: Label)
    requires s.mgr.InMu? && InsideMu(s, l).Some? && LocksMatch(s) && Placed(s)
    ensures Placed(InsideMu(s, l).value)
  {
    assert !HealerHasMu(s.heal);
    hide IsKnown, Apart, Wellformed, LocksMatch;
  }

  lemma SeparateMu(s: State, l: Label)
    requires s.mgr.InMu? && InsideMu(s, l).Some? && Separate(s.svcs) && Flagged(s.svcs, Cleared(s.mgr))
    ensures Separate(InsideMu(s, l).value.svcs) && Flagged(InsideMu(s, l).value.svcs, Cleared(InsideMu(s, l).value.mgr))
  {
    FlaggedMu(s, l);
    hide IsKnown, Flagged;
    if l.Register? {
      SeparateWith(s.svcs, l.h, Svc(s.mgr.name, true, l.range, map[]));
    } else if l.Unregister? {
      SeparateFlag(s.svcs, l.h);
    }
    hide Separate;
  }

  lemma FlaggedMu(s: State, l: Label)
    requires s.mgr.InMu? && InsideMu(s, l).Some? && Flagged(s.svcs, Cleared(s.mgr))
    ensures Flagged(InsideMu(s, l).value.svcs, Cleared(InsideMu(s, l).value.mgr))
  {
    hide Apart, Wellformed;
  }

  lemma SeparateWith(svcs: map<nat, Svc>, h: nat, svc: Svc)
    requires Separate(svcs) && h !in svcs && Wellformed(svc.range) && svc.targets == map[]
    requires forall k :: k in svcs ==> Apart(svcs[k].range, svc.range)
    ensures Separate(svcs[h := svc])
  {
    assert forall k :: k in svcs ==> Apart(svc.range, svcs[k].range);
    hide Apart, Wellformed;
  }

  lemma SeparateFlag(svcs: map<nat, Svc>, h: nat)
    requires Separate(svcs) && h in svcs
    ensures Separate(svcs[h := svcs[h].(registered := false)])
  {
    hide Apart, Wellformed;
  }

  lemma SameOwnedMu(s: State, l: Label)
    requires s.mgr.InMu? && InsideMu(s, l).Some?
    ensures SameOwned(s, InsideMu(s, l).value)
  {
    hide RoutesTo, IsKnown;
  }

  lemma InsideServiceKeeps(s: State, l: Label)
    requires Inv(s) && s.mgr.InService? && InsideService(s, l).Some?
    ensures Inv(InsideService(s, l).value)
  {
    var s' := InsideService(s, l).value;
    LocksService(s, l);
    SeparateService(s, l);
    assert s.locks[s.mgr.h] == Manager;
    PlacedService(s, l);
    RoutesService(s, l);
    hide LocksMatch, Placed, Sound, Complete, Separate, Flagged;
  }

  lemma LocksService(s: State, l: Label)
    requires s.mgr.InService? && s.mgr.h in s.svcs && InsideService(s, l).Some? && LocksMatch(s)
    ensures LocksMatch(InsideService(s, l).value)
  {
    LocksInside(s, l);
    hide InsideService;
    LocksLoop(s, InsideService(s, l).value, s.mgr.h);
  }

  /** The manager stays inside a service, or leaves it and releases its lock. */
  lemma LocksLoop(s: State, s': State, h: nat)
    requires LocksMatch(s) && ManagerIn(s.mgr) == Some(h)
    requires s'.mu == s.mu && s'.heal == s.heal && s'.leaked == s.leaked
    requires if s'.mgr == Idle then s'.locks == s.locks - {h} else s'.locks == s.locks && ManagerIn(s'.mgr) == Some(h)
    ensures LocksMatch(s')
  {
  }

  /** The lock is kept or released with the manager going idle. */
  lemma LocksInside(s: State, l: Label)
    requires s.mgr.InService? && s.mgr.h in s.svcs && InsideService(s, l).Some?
    ensures var s' := InsideService(s, l).value;
            && s'.mu == s.mu && s'.heal == s.heal && s'.leaked == s.leaked
            && (if s'.mgr == Idle then s'.locks == s.locks - {s.mgr.h}
                else s'.locks == s.locks && ManagerIn(s'.mgr) == Some(s.mgr.h))
  {
    hide MarksOf;
    if l.Forget? {
    } else {
      hide ForgetTarget;
    }
  }

  lemma SeparateService(s: State, l: Label)
    requires s.mgr.InService? && s.mgr.h in s.svcs && InsideService(s, l).Some?
    requires Separate(s.svcs) && Flagged(s.svcs, Cleared(s.mgr))
    ensures Separate(InsideService(s, l).value.svcs)
    ensures Flagged(InsideService(s, l).value.svcs, Cleared(InsideService(s, l).value.mgr))
  {
    TargetsInside(s, l);
    var s', h := InsideService(s, l).value, s.mgr.h;
    FlaggedInside(s.svcs, h, Cleared(s.mgr), s'.svcs);
    hide InsideService, Separate, Flagged;
    if h in s'.svcs {
      SeparateTargets(s.svcs, h, s'.svcs[h].targets);
    } else {
      SeparateWithout(s.svcs, h);
    }
  }

  lemma FlaggedInside(svcs: map<nat, Svc>, h: nat, cleared: Option<nat>, svcs': map<nat, Svc>)
    requires Flagged(svcs, cleared) && h in svcs
    ensures h in svcs' && svcs' == svcs[h := svcs[h].(targets := svcs'[h].targets)] ==> Flagged(svcs', cleared)
    ensures svcs' == svcs - {h} && cleared == Some(h) ==> Flagged(svcs', None)
  {
  }

  /** Only the targets of this service change, or it is dropped when it has been taken out of the registry. */
  lemma TargetsInside(s: State, l: Label)
    requires s.mgr.InService? && s.mgr.h in s.svcs && InsideService(s, l).Some?
    ensures var (s', h) := (InsideService(s, l).value, s.mgr.h);
            if h in s'.svcs then
              && s'.svcs == s.svcs[h := s.svcs[h].(targets := s'.svcs[h].targets)] && Cleared(s'.mgr) == Cleared(s.mgr)
              && forall id :: id in s'.svcs[h].targets && id !in s.svcs[h].targets ==>
                  0 <= id < s.svcs[h].range.maxTargets
            else s'.svcs == s.svcs - {h} && s.mgr.job == Clear && Cleared(s'.mgr) == None
  {
    hide RoutesTo, MarksOf;
  }

  lemma SeparateTargets(svcs: map<nat, Svc>, h: nat, targets: map<int, seq<Address>>)
    requires Separate(svcs) && h in svcs
    requires forall id :: id in targets && id !in svcs[h].targets ==> 0 <= id < svcs[h].range.maxTargets
    ensures Separate(svcs[h := svcs[h].(targets := targets)])
  {
    hide Apart;
  }

  lemma SeparateWithout(svcs: map<nat, Svc>, h: nat)
    requires Separate(svcs)
    ensures Separate(svcs - {h})
  {
    hide Apart;
  }

  lemma PlacedService(s: State, l: Label)
    requires s.mgr.InService? && Placed(s) && InsideService(s, l).Some?
    requires HealerIn(s.heal) != Some(s.mgr.h) && (s.mgr.job == Clear ==> !s.svcs[s.mgr.h].registered)
    requires forall id :: id in s.svcs[s.mgr.h].targets ==> 0 <= id < s.svcs[s.mgr.h].range.maxTargets
    ensures Placed(InsideService(s, l).value)
  {
    var s', h := InsideService(s, l).value, s.mgr.h;
    ManagerPlacedInside(s, l);
    TargetsInside(s, l);
    LocksInside(s, l);
    hide ManagerPlaced, InsideService;
    if h in s'.svcs {
      HealerElsewhere(s.heal, s.svcs, h, s'.svcs[h].targets);
    } else {
      HealerElsewhere(s.heal, s.svcs, h, map[]);
    }
    hide HealerPlaced;
  }

  lemma ManagerPlacedInside(s: State, l: Label)
    requires s.mgr.InService? && s.mgr.h in s.svcs && InsideService(s, l).Some?
    requires forall id :: id in s.svcs[s.mgr.h].targets ==> 0 <= id < s.svcs[s.mgr.h].range.maxTargets
    ensures ManagerPlaced(InsideService(s, l).value.mgr, InsideService(s, l).value.svcs)
  {
    hide RoutesTo, MarksOf;
  }

  lemma HealerElsewhere(p: HealerAt, svcs: map<nat, Svc>, h: nat, targets: map<int, seq<Address>>)
    requires HealerPlaced(p, svcs) && HealerIn(p) != Some(h) && h in svcs
    ensures HealerPlaced(p, svcs[h := svcs[h].(targets := targets)])
    ensures !svcs[h].registered ==> HealerPlaced(p, svcs - {h})
  {
  }

  /** A target is forgotten before its routes are deleted, and recorded before they are created. */
  lemma RoutesService(s: State, l: Label)
    requires s.mgr.InService? && Placed(s) && InsideService(s, l).Some? && Sound(s) && Complete(s)
    ensures Sound(InsideService(s, l).value) && Complete(InsideService(s, l).value)
  {
    var s' := InsideService(s, l).value;
    forall r
      ensures Owned(s, r) ==> Owned(s', r) || Doomed(s', r) || r.mark in s'.stale
      ensures Owned(s', r) ==> Owned(s, r) || Due(s', r)
    {
      OwnedService(s, l, r);
    }
    assert s.stale <= s'.stale && s'.routes == s.routes && s'.clean == s.clean;
    hide Owned, Placed;
  }

  lemma OwnedService(s: State, l: Label, r: Route)
    requires s.mgr.InService? && s.mgr.h in s.svcs && InsideService(s, l).Some?
    ensures Owned(s, r) ==>
              Owned(InsideService(s, l).value, r) || Doomed(InsideService(s, l).value, r)
                  || r.mark in InsideService(s, l).value.stale
    ensures Owned(InsideService(s, l).value, r) ==> Owned(s, r) || Due(InsideService(s, l).value, r)
  {
    var s' := InsideService(s, l).value;
    if Owned(s, r) {
      var h, id :| OwnedBy(s, r, h, id);
      OwnedBefore(s, l, r, h, id);
    }
    if Owned(s', r) {
      var h, id :| OwnedBy(s', r, h, id);
      OwnedAfter(s, l, r, h, id);
    }
  }

  /** A route of a recorded target stays one, or is going to be deleted, or its mark is noted. */
  lemma OwnedBefore(s: State, l: Label, r: Route, h: nat, id: int)
    requires s.mgr.InService? && s.mgr.h in s.svcs && InsideService(s, l).Some? && OwnedBy(s, r, h, id)
    ensures var s' := InsideService(s, l).value; OwnedBy(s', r, h, id) || Doomed(s', r) || r.mark in s'.stale
  {
    assert r.mark == Mark(s, h, id) && Mark(s, h, id) in MarksOf(s.svcs[h]);
    hide RoutesTo, MarksOf;
    if h != s.mgr.h {
      TargetsInside(s, l);
      hide InsideService, Doomed;
    } else if l.Forget? {
      hide OwnedBy;
      OwnedForgotten(s, l, r, id);
      hide InsideService;
    }
  }

  lemma OwnedForgotten(s: State, l: Label, r: Route, id: int)
    requires s.mgr.InService? && s.mgr.h in s.svcs && l.Forget? && InsideService(s, l).Some?
             && OwnedBy(s, r, s.mgr.h, id)
    ensures var s' := InsideService(s, l).value; OwnedBy(s', r, s.mgr.h, id) || Doomed(s', r) || r.mark in s'.stale
  {
    assert r.mark == Mark(s, s.mgr.h, id);
    hide RoutesTo, MarksOf;
  }

  lemma OwnedAfter(s: State, l: Label, r: Route, h: nat, id: int)
    requires s.mgr.InService? && s.mgr.h in s.svcs && InsideService(s, l).Some?
             && OwnedBy(InsideService(s, l).value, r, h, id)
    ensures OwnedBy(s, r, h, id) || Due(InsideService(s, l).value, r)
  {
    hide RoutesTo, MarksOf;
  }

  lemma RoutesSplit(mark: int, ips: seq<Address>, r: Route)
    requires ips != []
    ensures r in RoutesTo(mark, ips) <==> r in RoutesTo(mark, [ips[0]]) || r in RoutesTo(mark, ips[1..])
  {
    assert ips == [ips[0]] + ips[1..];
    assert forall a :: a in ips <==> a in [ips[0]] || a in ips[1..];
  }

  lemma CreateNextKeeps(s: State, l: Label)
    requires Inv(s) && s.mgr.Creating? && CreateNext(s, l).Some?
    ensures Inv(CreateNext(s, l).value)
  {
    var s' := CreateNext(s, l).value;
    assert s'.svcs == s.svcs;
    RoutesCreate(s, l);
    CreatePlaced(s, l);
    LocksLoop(s, s', s.mgr.h);
    hide Sound, Complete, Separate, RoutesTo, LocksMatch, Placed, Flagged;
  }

  lemma CreatePlaced(s: State, l: Label)
    requires s.mgr.Creating? && Placed(s) && CreateNext(s, l).Some?
    ensures Placed(CreateNext(s, l).value) && Cleared(CreateNext(s, l).value.mgr) == Cleared(s.mgr)
  {
    hide RoutesTo;
  }

  lemma RoutesCreate(s: State, l: Label)
    requires s.mgr.Creating? && s.mgr.h in s.svcs && CreateNext(s, l).Some? && Placed(s) && Sound(s) && Complete(s)
    ensures Sound(CreateNext(s, l).value) && Complete(CreateNext(s, l).value)
  {
    var s' := CreateNext(s, l).value;
    forall r ensures Owned(s, r) <==> Owned(s', r) {
      assert SameOwned(s, s');
      OwnedSame(s, s', r);
    }
    if s.mgr.todo != [] {
      var mark := Mark(s, s.mgr.h, s.mgr.id);
      forall r
        ensures Due(s, r) ==> Due(s', r) || r in RoutesTo(mark, [s.mgr.todo[0]])
        ensures r in RoutesTo(mark, [s.mgr.todo[0]]) ==> Owned(s', r)
      {
        RoutesSplit(mark, s.mgr.todo, r);
        assert r in RoutesTo(mark, [s.mgr.todo[0]]) ==> OwnedBy(s', r, s.mgr.h, s.mgr.id);
      }
    } else {
      assert forall r :: !Due(s, r);
    }
    hide Owned, Due, Placed, RoutesTo;
  }

  lemma DeleteNextKeeps(s: State, l: Label)
    requires Inv(s) && s.mgr.Deleting? && DeleteNext(s, l).Some?
    ensures Inv(DeleteNext(s, l).value)
  {
    var s' := DeleteNext(s, l).value;
    assert s'.svcs == s.svcs;
    RoutesDelete(s, l);
    DeletePlaced(s, l);
    LocksLoop(s, s', s.mgr.h);
    hide Sound, Complete, Separate, RoutesTo, LocksMatch, Placed, Flagged;
  }

  lemma DeletePlaced(s: State, l: Label)
    requires s.mgr.Deleting? && Placed(s) && DeleteNext(s, l).Some?
    ensures Placed(DeleteNext(s, l).value) && Cleared(DeleteNext(s, l).value.mgr) == Cleared(s.mgr)
  {
    hide RoutesTo;
  }

  /** What is deleted has the mark of a target that is not recorded: it is nobody else's. */
  lemma RoutesDelete(s: State, l: Label)
    requires s.mgr.Deleting? && Placed(s) && DeleteNext(s, l).Some? && Separate(s.svcs) && Sound(s) && Complete(s)
    ensures Sound(DeleteNext(s, l).value) && Complete(DeleteNext(s, l).value)
  {
    var s' := DeleteNext(s, l).value;
    forall r ensures Owned(s, r) <==> Owned(s', r) {
      assert SameOwned(s, s');
      OwnedSame(s, s', r);
    }
    if s.mgr.todo != [] {
      var mark := Mark(s, s.mgr.h, s.mgr.id);
      forall r
        ensures Doomed(s, r) ==> Doomed(s', r) || (r in RoutesTo(mark, [s.mgr.todo[0]]) && r.mark == mark)
        ensures r in RoutesTo(mark, [s.mgr.todo[0]]) ==> !Owned(s, r)
      {
        RoutesSplit(mark, s.mgr.todo, r);
        if Owned(s, r) && r in RoutesTo(mark, [s.mgr.todo[0]]) {
          var h, id :| OwnedBy(s, r, h, id);
          MarksApart(s, h, id, s.mgr.h, s.mgr.id);
          assert false;
        }
      }
    } else {
      assert forall r :: !Doomed(s, r);
    }
    hide Owned, Doomed, Placed, RoutesTo, Separate;
  }

  lemma MarksApart(s: State, h: nat, id: int, k: nat, j: int)
    requires Separate(s.svcs) && h in s.svcs && k in s.svcs
    requires id in s.svcs[h].targets && j !in s.svcs[k].targets && 0 <= j < s.svcs[k].range.maxTargets
    ensures Mark(s, h, id) != Mark(s, k, j)
  {
    assert h != k ==> Apart(s.svcs[h].range, s.svcs[k].range);
  }

  lemma MarksOfOthers(s: State, h: nat, id: int, k: nat, j: int)
    requires Separate(s.svcs) && h in s.svcs && k in s.svcs && h != k
    requires id in s.svcs[h].targets && j in s.svcs[k].targets
    ensures Mark(s, h, id) != Mark(s, k, j)
  {
    assert Apart(s.svcs[h].range, s.svcs[k].range);
  }

  lemma HealOutsideKeeps(s: State, l: Label)
    requires Inv(s) && HealerIn(s.heal).None? && HealOutside(s, l).Some?
    ensures Inv(HealOutside(s, l).value)
  {
    var s' := HealOutside(s, l).value;
    QuietBeside(s, s');
    LocksHealOutside(s, l);
    PlacedHealOutside(s, l);
    hide LocksMatch, Placed, Sound, Complete, Separate;
  }

  lemma LocksHealOutside(s: State, l: Label)
    requires HealerIn(s.heal).None? && Placed(s) && HealOutside(s, l).Some? && LocksMatch(s)
    ensures LocksMatch(HealOutside(s, l).value)
  {
    hide Placed;
  }

  lemma PlacedHealOutside(s: State, l: Label)
    requires HealerIn(s.heal).None? && Placed(s) && HealOutside(s, l).Some?
    ensures Placed(HealOutside(s, l).value)
  {
  }

  lemma HealInsideKeeps(s: State, l: Label)
    requires Inv(s) && HealerIn(s.heal).Some? && HealInside(s, l).Some?
    ensures Inv(HealInside(s, l).value)
  {
    var s' := HealInside(s, l).value;
    RoutesHeal(s, l);
    LocksHealInside(s, l);
    PlacedHealInside(s, l);
    hide LocksMatch, Placed, Sound, Complete, Separate;
  }

  lemma LocksHealInside(s: State, l: Label)
    requires HealerIn(s.heal).Some? && Placed(s) && HealInside(s, l).Some? && LocksMatch(s)
    ensures LocksMatch(HealInside(s, l).value)
  {
    hide Placed;
  }

  lemma PlacedHealInside(s: State, l: Label)
    requires HealerIn(s.heal).Some? && Placed(s) && HealInside(s, l).Some?
    ensures Placed(HealInside(s, l).value)
  {
  }

  /** The healer only creates routes of recorded targets. */
  lemma RoutesHeal(s: State, l: Label)
    requires HealerIn(s.heal).Some? && s.heal.h in s.svcs && HealInside(s, l).Some? && Placed(s) && Sound(s)
             && Complete(s)
    ensures Sound(HealInside(s, l).value) && Complete(HealInside(s, l).value)
  {
    var s' := HealInside(s, l).value;
    forall r
      ensures (Owned(s, r) <==> Owned(s', r)) && (Doomed(s, r) <==> Doomed(s', r)) && (Due(s, r) <==> Due(s', r))
    {
      assert SameOwned(s, s');
      OwnedSame(s, s', r);
    }
    if s.heal.Restoring? && s.heal.ips != [] {
      forall r | r in RoutesTo(Mark(s, s.heal.h, s.heal.id), [s.heal.ips[0]]) ensures Owned(s', r) {
        assert OwnedBy(s', r, s.heal.h, s.heal.id);
      }
    }
    hide Owned, Doomed, Due, Placed, RoutesTo;
  }

  lemma StepKeeps(s: State, l: Label)
    requires Inv(s) && Next(s, l).Some?
    ensures Inv(Next(s, l).value)
  {
    hide Inv;
    if OfHealer(l) {
      if HealerIn(s.heal).Some? {
        HealInsideKeeps(s, l);
      } else {
        HealOutsideKeeps(s, l);
      }
    } else {
      match s.mgr
      case Idle => CallKeeps(s, l);
      case WantMu(_, _) => TakeMuKeeps(s);
      case InMu(_, _) => InsideMuKeeps(s, l);
      case WantService(_, _) => TakeServiceKeeps(s);
      case InService(_, _) => InsideServiceKeeps(s, l);
      case Creating(_, _, _) => CreateNextKeeps(s, l);
      case Deleting(_, _, _, _) => DeleteNextKeeps(s, l);
    }
  }

  // ---------------------------------------------------------------------------------------------
  // Mutual exclusion, progress, and the mutex that is not released.

  /** The manager and the healer are never inside one service, nor both inside the load balancer. */
  lemma NeverBoth(s: State)
    requires Inv(s)
    ensures ManagerIn(s.mgr).Some? ==> ManagerIn(s.mgr) != HealerIn(s.heal)
    ensures !(s.mgr.InMu? && HealerHasMu(s.heal))
  {
    if ManagerIn(s.mgr).Some? {
      assert s.locks[ManagerIn(s.mgr).value] == Manager;
    }
  }

  /** What a waiting thread waits for is held by the other one, which can go on. So there is no deadlock. */
  lemma NoDeadlock(s: State)
    requires Inv(s) && !s.leaked
    ensures (exists l :: !OfHealer(l) && Next(s, l).Some?) ||
            ((s.mgr.WantMu? || s.mgr.WantService?) && HealerHasMu(s.heal)
             && exists l :: OfHealer(l) && Next(s, l).Some?)
  {
    if (s.mgr.WantMu? && s.mu == Some(Healer)) || (s.mgr.WantService? && s.mgr.h in s.locks) {
      assert s.mgr.WantService? ==> s.locks[s.mgr.h] == Healer;
      HealerCanGoOn(s);
    } else {
      assert s.mu.Some? ==> s.mu.value == Manager || s.mu.value == Healer;
      ManagerCanGoOn(s);
    }
  }

  lemma ManagerCanGoOn(s: State)
    requires Placed(s) && (HealerIn(s.heal).Some? ==> HealerIn(s.heal).value in s.svcs)
    requires s.mgr.WantMu? ==> s.mu == None
    requires s.mgr.WantService? ==> s.mgr.h !in s.locks
    ensures exists l :: !OfHealer(l) && Next(s, l).Some?
  {
    hide HealInside, HealOutside, InsideMu, InsideService;
    var l: Label;
    match s.mgr {
    case Idle => l := CallAddService("");
    case WantMu(_, _) => l := LockMu;
    case InMu(_, _) => l := InMuCanGoOn(s);
    case WantService(_, _) => l := LockService;
    case InService(_, _) => l := InServiceCanGoOn(s);
    case Creating(_, _, todo) => l := if todo == [] then Return else Create(true, false);
    case Deleting(_, _, todo, _) => l := if todo == [] then Return else Delete(true);
    }
    hide RoutesTo;
    assert !OfHealer(l) && Next(s, l).Some?;
  }

  lemma InMuCanGoOn(s: State) returns (l: Label)
    requires s.mgr.InMu?
    ensures !OfHealer(l) && InsideMu(s, l).Some?
  {
    hide Apart, Wellformed;
    if !s.mgr.delete {
      l := GiveUp;
    } else if IsKnown(s, s.mgr.name) {
      var h :| h in s.svcs && s.svcs[h].registered && s.svcs[h].name == s.mgr.name;
      l := Unregister(h);
    } else {
      l := Lose;
    }
  }

  lemma InServiceCanGoOn(s: State) returns (l: Label)
    requires s.mgr.InService? && s.mgr.h in s.svcs
    ensures !OfHealer(l) && InsideService(s, l).Some?
  {
    hide ForgetTarget, MarksOf;
    match s.mgr.job {
    case Clear =>
      if s.svcs[s.mgr.h].targets == map[] {
        l := Return;
      } else {
        SomeElement(s.svcs[s.mgr.h].targets.Keys);
        var id: int :| id in s.svcs[s.mgr.h].targets;
        l := Forget(id, true);
      }
    case AddT(_, _) => l := Record(false);
    case DeleteT(id, _) => l := Forget(id, true);
    }
  }

  lemma HealerCanGoOn(s: State)
    requires Inv(s) && HealerHasMu(s.heal)
    requires s.heal.Reaching? ==> s.heal.h !in s.locks
    ensures exists l :: OfHealer(l) && Next(s, l).Some?
  {
    var l: Label;
    match s.heal {
    case Scanning(todo) =>
      if todo == {} {
        l := Sleep;
      } else {
        var h: nat :| h in todo;
        l := Visit(h);
      }
    case Reaching(_, _) => l := HealLockService;
    case Healing(h, _, left, _) =>
      if left == {} {
        l := Leave;
      } else {
        SomeElement(left);
        var id: int :| id in left;
        l := Heal(id);
      }
    case Restoring(_, _, _, _, ips, _) => l := if ips == [] then Leave else Restore(true, false);
    }
    assert OfHealer(l) && Next(s, l).Some?;
  }

  /** How much of a pass is left for the healer. */
  function Work(p: HealerAt): (nat, nat, nat) {
    match p
    case Asleep => (0, 0, 0)
    case Awake => (0, 0, 0)
    case Scanning(todo) => (3 * |todo|, 0, 0)
    case Reaching(_, todo) => (3 * |todo| + 2, 0, 0)
    case Healing(_, todo, left, _) => (3 * |todo| + 1, 2 * |left|, 0)
    case Restoring(_, todo, left, _, ips, _) => (3 * |todo| + 1, 2 * |left| + 1, |ips|)
  }

  predicate Less(a: (nat, nat, nat), b: (nat, nat, nat)) {
    a.0 < b.0 || (a.0 == b.0 && (a.1 < b.1 || (a.1 == b.1 && a.2 < b.2)))
  }

  /** Inside a pass every step of the healer brings it closer to releasing the mutex, and the manager's steps do not
      set it back: nobody waits for ever for the healer. */
  lemma PassesEnd(s: State, l: Label)
    requires Enabled(s) && HealerHasMu(s.heal) && Next(s, l).Some?
    ensures OfHealer(l) ==> !HealerHasMu(Next(s, l).value.heal) || Less(Work(Next(s, l).value.heal), Work(s.heal))
    ensures !OfHealer(l) ==> Next(s, l).value.heal == s.heal
  {
    if OfHealer(l) {
      hide ManagerStep;
      if HealerIn(s.heal).Some? {
        AdvancesInside(s, l);
      } else {
        AdvancesOutside(s, l);
      }
    } else {
      ManagerStepOnly(s, l);
    }
  }

  lemma AdvancesInside(s: State, l: Label)
    requires HealerIn(s.heal).Some? && s.heal.h in s.svcs && HealInside(s, l).Some?
    ensures Less(Work(HealInside(s, l).value.heal), Work(s.heal))
  {
    if s.heal.Healing? && l.Heal? {
      assert |s.heal.left - {l.id}| == |s.heal.left| - 1;
    }
  }

  lemma AdvancesOutside(s: State, l: Label)
    requires HealerIn(s.heal).None? && HealerHasMu(s.heal) && HealOutside(s, l).Some?
    ensures !HealerHasMu(HealOutside(s, l).value.heal) || Less(Work(HealOutside(s, l).value.heal), Work(s.heal))
  {
    if s.heal.Scanning? && l.Visit? {
      assert |s.heal.todo - {l.h}| == |s.heal.todo| - 1;
    }
  }

  /** The manager's steps do not move the healer, nor the other way round. */
  lemma ManagerStepOnly(s: State, l: Label)
    requires Enabled(s) && Next(s, l).Some? && !OfHealer(l)
    ensures Next(s, l).value.heal == s.heal && (s.leaked ==> Next(s, l).value.leaked)
    ensures s.mgr.WantMu? && s.mu != None ==> Next(s, l).value.mgr == s.mgr
  {
    ManagerChanges(s, l);
    hide *;
    if s.mgr.WantMu? {
      MuIsFree(s, l);
    }
  }

  lemma MuIsFree(s: State, l: Label)
    requires Enabled(s) && Next(s, l).Some? && !OfHealer(l) && s.mgr.WantMu?
    ensures s.mu == None
  {
  }

  lemma HealerStepOnly(s: State, l: Label)
    requires Enabled(s) && Next(s, l).Some? && OfHealer(l)
    ensures Next(s, l).value.mgr == s.mgr && Next(s, l).value.svcs == s.svcs && Next(s, l).value.leaked == s.leaked
    ensures Next(s, l).value.stale == s.stale
  {
    hide RoutesTo, ManagerStep;
  }

  /** A target is recorded for the mark. */
  ghost predicate Marked(s: State, mark: int) {
    exists h, id :: MarkedBy(s, h, id, mark)
  }

  ghost predicate MarkedBy(s: State, h: nat, id: int, mark: int) {
    h in s.svcs && id in s.svcs[h].targets && Mark(s, h, id) == mark
  }

  ghost predicate DeletingMark(s: State, mark: int) {
    s.mgr.Deleting? && s.mgr.h in s.svcs && Mark(s, s.mgr.h, s.mgr.id) == mark
  }

  ghost predicate CreatingMark(s: State, mark: int) {
    s.mgr.Creating? && s.mgr.h in s.svcs && Mark(s, s.mgr.h, s.mgr.id) == mark
  }

  ghost predicate Gone(s: State, mark: int) {
    !Marked(s, mark) && !DeletingMark(s, mark)
  }

  /** The step may leave routes of a deleted target: a deactivation or the deletion of a route fails, a target is
      deleted with other addresses than it has, or DeleteService ends early. */
  ghost predicate Untidy(s: State, l: Label) {
    || (l.Forget? && !l.ok) || (l.Delete? && !l.ok) || (l.GiveUp? && s.mgr.InService?)
    || (l.Forget? && s.mgr.InService? && s.mgr.job.DeleteT? && s.mgr.h in s.svcs
        && s.mgr.job.id in s.svcs[s.mgr.h].targets && s.svcs[s.mgr.h].targets[s.mgr.job.id] != s.mgr.job.ips)
  }

  /** What a step of the manager leaves alone: the healer, the services it is not inside, the routes without the mark it
      deletes or creates, and the marks of targets that are neither recorded nor being deleted. */
  ghost predicate Changes(s: State, l: Label, s': State) {
    && s'.heal == s.heal && (s'.leaked <==> s.leaked || DeletesUnknown(s, l))
    && (!s.mgr.InMu? ==> forall h :: h in s.svcs && ManagerIn(s.mgr) != Some(h) ==>
        h in s'.svcs && s'.svcs[h] == s.svcs[h])
    && (forall r :: r in s.routes && r !in s'.routes ==> DeletingMark(s, r.mark) || CreatingMark(s, r.mark))
    && s.stale <= s'.stale
    && (forall m :: m in s'.stale && m !in s.stale ==> Untidy(s, l) && (Marked(s, m) || DeletingMark(s, m)))
    && (forall m :: DeletingMark(s', m) ==> DeletingMark(s, m) || Marked(s, m))
  }

  lemma ManagerChanges(s: State, l: Label)
    requires Enabled(s) && !OfHealer(l) && Next(s, l).Some?
    ensures Changes(s, l, Next(s, l).value)
  {
    assert Next(s, l) == ManagerStep(s, l);
    hide Next, Changes;
    match s.mgr {
    case Idle => CallChanges(s, l);
    case WantMu(_, _) => MuChanges(s, l);
    case InMu(_, _) => MuChanges(s, l);
    case WantService(_, _) => MuChanges(s, l);
    case InService(_, _) => ServiceChanges(s, l);
    case Creating(_, _, _) => CreateChanges(s, l);
    case Deleting(_, _, _, _) => DeleteChanges(s, l);
    }
  }

  lemma CallChanges(s: State, l: Label)
    requires s.mgr.Idle? && Call(s, l).Some?
    ensures Changes(s, l, Call(s, l).value)
  {
    hide Marked, Untidy, IsKnown;
  }

  lemma MuChanges(s: State, l: Label)
    requires (s.mgr.WantMu? || s.mgr.InMu? || s.mgr.WantService?) && !OfHealer(l)
    requires Enabled(s) && ManagerStep(s, l).Some?
    ensures Changes(s, l, ManagerStep(s, l).value)
  {
    hide Marked, Untidy, Apart, Wellformed;
  }

  lemma CreateChanges(s: State, l: Label)
    requires s.mgr.Creating? && s.mgr.h in s.svcs && CreateNext(s, l).Some?
    ensures Changes(s, l, CreateNext(s, l).value)
  {
    hide Marked, Untidy, IsKnown;
  }

  lemma DeleteChanges(s: State, l: Label)
    requires s.mgr.Deleting? && s.mgr.h in s.svcs && DeleteNext(s, l).Some?
    ensures Changes(s, l, DeleteNext(s, l).value)
  {
    hide Marked, IsKnown;
  }

  lemma ServiceChanges(s: State, l: Label)
    requires s.mgr.InService? && s.mgr.h in s.svcs && InsideService(s, l).Some?
    ensures Changes(s, l, InsideService(s, l).value)
  {
    var (s', h) := (InsideService(s, l).value, s.mgr.h);
    TargetsInside(s, l);
    LocksInside(s, l);
    forall m | m in MarksOf(s.svcs[h]) ensures Marked(s, m) {
      var id :| id in s.svcs[h].targets && m == id + s.svcs[h].range.offset;
      assert MarkedBy(s, h, id, m);
    }
    ServiceMarks(s, l);
    hide InsideService, Marked, Untidy, IsKnown, MarksOf;
  }

  lemma ServiceMarks(s: State, l: Label)
    requires s.mgr.InService? && s.mgr.h in s.svcs && InsideService(s, l).Some?
    ensures var s' := InsideService(s, l).value;
            && s'.routes == s.routes && s.stale <= s'.stale
            && (forall m :: m in s'.stale && m !in s.stale ==> Untidy(s, l) && m in MarksOf(s.svcs[s.mgr.h]))
            && (forall m :: DeletingMark(s', m) ==> m in MarksOf(s.svcs[s.mgr.h]))
  {
    var (s', svc) := (InsideService(s, l).value, s.svcs[s.mgr.h]);
    assert forall id :: id in svc.targets ==> id + svc.range.offset in MarksOf(svc);
    if l.Forget? {
      ForgetMarks(s, l);
      hide InsideService, Untidy, MarksOf;
    } else {
      OtherMarks(s, l);
      hide InsideService, MarksOf;
    }
  }

  lemma OtherMarks(s: State, l: Label)
    requires s.mgr.InService? && s.mgr.h in s.svcs && !l.Forget? && InsideService(s, l).Some?
    ensures var s' := InsideService(s, l).value;
            && s'.routes == s.routes && !s'.mgr.Deleting?
            && (s'.stale == s.stale || (l.GiveUp? && s'.stale == s.stale + MarksOf(s.svcs[s.mgr.h])))
  {
    hide ForgetTarget, MarksOf;
  }

  lemma ForgetMarks(s: State, l: Label)
    requires s.mgr.InService? && s.mgr.h in s.svcs && l.Forget? && InsideService(s, l).Some?
    ensures var s' := InsideService(s, l).value;
            && s'.routes == s.routes
            && (s'.stale == s.stale ||
                (Untidy(s, l) && l.id in s.svcs[s.mgr.h].targets && s'.stale == s.stale + {Mark(s, s.mgr.h, l.id)}))
            && (s'.mgr.Deleting? ==>
                  l.id in s.svcs[s.mgr.h].targets && s'.mgr.h == s.mgr.h && s'.mgr.id == l.id
                  && (s.mgr.h in s'.svcs ==> Mark(s', s.mgr.h, l.id) == Mark(s, s.mgr.h, l.id)))
  {
    hide MarksOf;
  }

  /** DeleteService is inside the mutex of the load balancer and goes on, and the name is not registered. */
  ghost predicate DeletesUnknown(s: State, l: Label) {
    s.mgr.InMu? && s.mgr.delete && !IsKnown(s, s.mgr.name) && !OfHealer(l)
  }

  lemma LeakStep(s: State, l: Label)
    requires Inv(s) && !s.leaked && Next(s, l).Some?
    ensures Next(s, l).value.leaked <==> DeletesUnknown(s, l)
  {
    if OfHealer(l) {
      HealerStepOnly(s, l);
    } else {
      ManagerChanges(s, l);
    }
    hide Next, Inv;
  }

  /** From then on nobody gets the mutex: no healing any more, and every call that needs the mutex waits for ever. */
  lemma LeakIsForever(s: State, l: Label)
    requires Inv(s) && s.leaked && Next(s, l).Some?
    ensures Next(s, l).value.leaked && Next(s, l).value.mu == Some(Manager)
    ensures !HealerHasMu(s.heal) && !s.mgr.InMu?
    ensures s.mgr.WantMu? ==> Next(s, l).value.mgr == s.mgr
  {
    StepKeeps(s, l);
    if OfHealer(l) {
      HealerStepOnly(s, l);
    } else {
      ManagerStepOnly(s, l);
    }
    hide Next, Separate, Flagged, Sound, Complete;
  }

  // ---------------------------------------------------------------------------------------------
  // Runs.

  /** Nothing is registered and nobody does anything. */
  ghost predicate Initial(s: State) {
    s == State(None, map[], map[], {}, Idle, Asleep, true, {}, false)
  }

  ghost predicate Enabled(s: State) {
    && (ManagerOn(s.mgr).Some? ==> ManagerOn(s.mgr).value in s.svcs)
    && (HealerIn(s.heal).Some? ==> HealerIn(s.heal).value in s.svcs)
  }

  ghost predicate Steps(s: State, l: Label, s': State) {
    Enabled(s) && Next(s, l) == Some(s')
  }

  ghost predicate Interleaving(states: seq<State>, labels: seq<Label>) {
    && |states| == |labels| + 1 && Initial(states[0])
    && forall i :: 0 <= i < |labels| ==> Steps(states[i], labels[i], states[i + 1])
  }

  lemma {:induction false} RunInvariant(states: seq<State>, labels: seq<Label>, n: nat)
    requires Interleaving(states, labels) && n < |states|
    ensures Inv(states[n])
  {
    if n > 0 {
      RunInvariant(states, labels, n - 1);
      hide Inv, Next, Initial;
      assert Steps(states[n - 1], labels[n - 1], states[n]);
      StepKeeps(states[n - 1], labels[n - 1]);
    }
  }

  /** No state of any run has both threads inside one mutex. */
  lemma Exclusive(states: seq<State>, labels: seq<Label>, n: nat)
    requires Interleaving(states, labels) && n < |states|
    ensures ManagerIn(states[n].mgr).Some? ==> ManagerIn(states[n].mgr) != HealerIn(states[n].heal)
    ensures !(states[n].mgr.InMu? && HealerHasMu(states[n].heal))
  {
    RunInvariant(states, labels, n);
    hide Inv;
    NeverBoth(states[n]);
  }

  /** One of the first `n` steps was such a DeleteService. */
  ghost predicate DeletedUnknown(states: seq<State>, labels: seq<Label>, n: nat)
    requires n <= |labels| <= |states|
  {
    exists i :: 0 <= i < n && DeletesUnknown(states[i], labels[i])
  }

  lemma DeletedUnknownNext(states: seq<State>, labels: seq<Label>, n: nat)
    requires n < |labels| <= |states|
    ensures DeletedUnknown(states, labels, n + 1) <==>
              DeletedUnknown(states, labels, n) || DeletesUnknown(states[n], labels[n])
  {
    hide DeletesUnknown;
  }

  /** Over every run the mutex is lost exactly when some DeleteService has met a name that is not registered. */
  lemma {:induction false} LeakExactly(states: seq<State>, labels: seq<Label>, n: nat)
    requires Interleaving(states, labels) && n < |states|
    ensures states[n].leaked <==> DeletedUnknown(states, labels, n)
  {
    if n > 0 {
      hide Interleaving, DeletesUnknown, DeletedUnknown;
      LeakExactly(states, labels, n - 1);
      LeakNext(states, labels, n - 1);
      DeletedUnknownNext(states, labels, n - 1);
    }
  }

  lemma LeakNext(states: seq<State>, labels: seq<Label>, n: nat)
    requires Interleaving(states, labels) && n < |labels|
    ensures states[n + 1].leaked <==> states[n].leaked || DeletesUnknown(states[n], labels[n])
  {
    RunInvariant(states, labels, n);
    assert Steps(states[n], labels[n], states[n + 1]);
    hide Interleaving, Inv, Next, DeletesUnknown;
    if states[n].leaked {
      LeakIsForever(states[n], labels[n]);
    } else {
      LeakStep(states[n], labels[n]);
    }
  }

  lemma TidyStep(s: State, l: Label)
    requires Enabled(s) && Next(s, l).Some? && !Untidy(s, l)
    ensures Next(s, l).value.stale == s.stale
  {
    if OfHealer(l) {
      HealerStepOnly(s, l);
    } else {
      ManagerChanges(s, l);
      ChangesTidy(s, l, Next(s, l).value);
    }
    hide Next, Changes, Untidy;
  }

  lemma ChangesTidy(s: State, l: Label, s': State)
    requires Changes(s, l, s') && !Untidy(s, l)
    ensures s'.stale == s.stale
  {
    SomeElement(s'.stale - s.stale);
    hide Untidy, Marked, DeletingMark;
    assert s'.stale == s.stale + (s'.stale - s.stale);
  }

  /** Without such a step nothing is left behind. */
  lemma {:induction false} TidyRun(states: seq<State>, labels: seq<Label>, n: nat)
    requires Interleaving(states, labels) && n < |states|
    requires forall i :: 0 <= i < n ==> !Untidy(states[i], labels[i])
    ensures states[n].stale == {}
  {
    if n > 0 {
      TidyRun(states, labels, n - 1);
      assert Steps(states[n - 1], labels[n - 1], states[n]);
      TidyStep(states[n - 1], labels[n - 1]);
    }
  }

  /** Between calls there are no routes but those of recorded targets of registered services and those that a deletion
      has left; as long as no creation has failed all of the first are there, and healing changes nothing. */
  lemma BetweenCalls(states: seq<State>, labels: seq<Label>, n: nat, r: Route)
    requires Interleaving(states, labels) && n < |states| && states[n].mgr.Idle?
    ensures r in states[n].routes && r.mark !in states[n].stale ==> Owned(states[n], r) && Marked(states[n], r.mark)
    ensures states[n].clean && Owned(states[n], r) ==> r in states[n].routes
    ensures forall h :: h in states[n].svcs ==> states[n].svcs[h].registered
  {
    RunInvariant(states, labels, n);
    var s := states[n];
    if Owned(s, r) {
      var h, id :| OwnedBy(s, r, h, id);
      assert MarkedBy(s, h, id, r.mark);
    }
  }

  ghost function NamesOf(s: State): set<string> {
    set h | h in s.svcs && s.svcs[h].registered :: s.svcs[h].name
  }

  ghost function ServiceNamed(s: State, name: string): nat
    requires name in NamesOf(s)
  {
    var h :| h in s.svcs && s.svcs[h].registered && s.svcs[h].name == name;
    h
  }

  /** The registered services by name, as the load balancer keeps them. */
  ghost function ViewsOf(s: State): map<string, Views.View> {
    map name | name in NamesOf(s) :: ViewAt(s, ServiceNamed(s, name))
  }

  ghost function ViewAt(s: State, h: nat): Views.View
    requires h in s.svcs
  {
    Views.View(s.svcs[h].range, s.svcs[h].targets)
  }

  /** Between calls the load balancer is as the rest of this model has it, beside any healer: the marks are valid, all
      routes are those of the views but for what failed deletions left, and while no creation has failed none is
      missing. */
  lemma IdleViews(states: seq<State>, labels: seq<Label>, n: nat)
    requires Interleaving(states, labels) && n < |states| && states[n].mgr.Idle?
    ensures Views.MarksValid(ViewsOf(states[n]))
    ensures forall r :: r in states[n].routes && r.mark !in states[n].stale ==> r in Views.AllRoutes(ViewsOf(states[n]))
    ensures states[n].clean ==> Views.AllRoutes(ViewsOf(states[n])) <= states[n].routes
    ensures states[n].clean && states[n].stale == {} ==> states[n].routes == Views.AllRoutes(ViewsOf(states[n]))
  {
    RunInvariant(states, labels, n);
    var s := states[n];
    IdleMarks(s);
    forall r ensures Owned(s, r) <==> r in Views.AllRoutes(ViewsOf(s)) {
      IdleOwned(s, r);
    }
    hide Interleaving, ViewsOf, Views.AllRoutes, Views.MarksValid, Owned, LocksMatch, Separate, Flagged, Placed;
  }

  /** Every service is registered, and the only one with its name. */
  lemma IdleNames(s: State, h: nat)
    requires Flagged(s.svcs, None) && h in s.svcs
    ensures s.svcs[h].name in NamesOf(s) && ServiceNamed(s, s.svcs[h].name) == h
    ensures s.svcs[h].name in ViewsOf(s) && ViewsOf(s)[s.svcs[h].name] == ViewAt(s, h)
  {
    assert s.svcs[h].registered;
  }

  lemma IdleMarks(s: State)
    requires Separate(s.svcs) && Flagged(s.svcs, None)
    ensures Views.MarksValid(ViewsOf(s))
  {
    var views := ViewsOf(s);
    forall m, n | m in Views.RangesOf(views) && n in Views.RangesOf(views) && m != n
      ensures Apart(Views.RangesOf(views)[m], Views.RangesOf(views)[n])
    {
      assert ServiceNamed(s, m) != ServiceNamed(s, n);
    }
    hide Apart, Wellformed;
  }

  lemma IdleOwned(s: State, r: Route)
    requires Flagged(s.svcs, None)
    ensures Owned(s, r) <==> r in Views.AllRoutes(ViewsOf(s))
  {
    var views := ViewsOf(s);
    hide RoutesTo;
    if Owned(s, r) {
      var h, id :| OwnedBy(s, r, h, id);
      IdleNames(s, h);
      assert r in TargetRoutes(s.svcs[h].range.offset, s.svcs[h].targets, id);
      assert r in Views.RoutesAt(views, s.svcs[h].name);
    }
    if r in Views.AllRoutes(views) {
      var n :| n in views && r in Views.RoutesAt(views, n);
      var h := ServiceNamed(s, n);
      var id :| id in s.svcs[h].targets && r in TargetRoutes(s.svcs[h].range.offset, s.svcs[h].targets, id);
      assert OwnedBy(s, r, h, id);
    }
  }

  /** Once the call that deleted a target is over its routes are gone, unless that deletion failed, and they stay away,
      whatever the healer does, until a target with that mark is recorded again. */
  lemma {:induction false} NeverComesBack(states: seq<State>, labels: seq<Label>, start: nat, end: nat, mark: int)
    requires Interleaving(states, labels) && start <= end < |states| && states[start].mgr.Idle?
    requires forall k :: start <= k <= end ==> !Marked(states[k], mark)
    ensures Gone(states[end], mark) && (mark in states[end].stale <==> mark in states[start].stale)
    ensures mark !in states[start].stale ==> forall r :: r in states[end].routes ==> r.mark != mark
  {
    if start < end {
      NeverComesBack(states, labels, start, end - 1, mark);
      assert Steps(states[end - 1], labels[end - 1], states[end]);
      NothingLeftBehind(states[end - 1], labels[end - 1], mark);
    }
    RunInvariant(states, labels, end);
    if mark !in states[end].stale {
      NoRoutes(states[end], mark);
    }
  }

  /** Only the deletion of a target leaves routes with its mark. */
  lemma NothingLeftBehind(s: State, l: Label, mark: int)
    requires Enabled(s) && Next(s, l).Some? && Gone(s, mark)
    ensures mark in Next(s, l).value.stale <==> mark in s.stale
    ensures !DeletingMark(Next(s, l).value, mark)
  {
    if OfHealer(l) {
      HealerStepOnly(s, l);
    } else {
      ManagerChanges(s, l);
    }
    hide Next, Marked, Untidy;
  }

  lemma NoRoutes(s: State, mark: int)
    requires Sound(s) && Gone(s, mark) && mark !in s.stale
    ensures forall r :: r in s.routes ==> r.mark != mark
  {
    forall r | r in s.routes ensures r.mark != mark {
      if Owned(s, r) {
        var h, id :| OwnedBy(s, r, h, id);
        assert MarkedBy(s, h, id, r.mark);
      }
    }
  }

  // ---------------------------------------------------------------------------------------------
  // Healing restores what a failed creation left out.

  /** While the healer is in a service: the routes of the targets it is done with are there, unless it failed itself. */
  ghost predicate Restored(s: State) {
    && (s.heal.Healing? && s.heal.good ==>
          forall r, id :: id !in s.heal.left && OwnedBy(s, r, s.heal.h, id) ==> r in s.routes)
    && (s.heal.Restoring? && s.heal.good ==>
          forall r, id :: id !in s.heal.left && OwnedBy(s, r, s.heal.h, id) ==> r in s.routes || Pending(s, r, id))
  }

  ghost predicate Pending(s: State, r: Route, id: int) {
    s.heal.Restoring? && id == s.heal.id && s.heal.h in s.svcs && r in RoutesTo(Mark(s, s.heal.h, id), s.heal.ips)
  }

  lemma RestoredKept(s: State, l: Label)
    requires Inv(s) && Restored(s) && Next(s, l).Some?
    ensures Restored(Next(s, l).value)
  {
    StepKeeps(s, l);
    if OfHealer(l) {
      if HealerIn(s.heal).Some? {
        RestoredByHealer(s, l);
      } else {
        RestoredAtFirst(s, l);
      }
    } else if HealerIn(s.heal).Some? {
      RestoredBeside(s, l);
    } else {
      ManagerStepOnly(s, l);
    }
  }

  lemma RestoredAtFirst(s: State, l: Label)
    requires HealerIn(s.heal).None? && HealOutside(s, l).Some?
    ensures Restored(HealOutside(s, l).value)
  {
    hide RoutesTo;
  }

  lemma RestoredByHealer(s: State, l: Label)
    requires HealerIn(s.heal).Some? && Placed(s) && HealInside(s, l).Some? && Restored(s)
    ensures Restored(HealInside(s, l).value)
  {
    var s', h := HealInside(s, l).value, s.heal.h;
    if s'.heal.Healing? && s'.heal.good {
      forall r, id | id !in s'.heal.left && OwnedBy(s', r, h, id) ensures r in s'.routes {
        assert OwnedBy(s, r, h, id);
      }
    }
    if s'.heal.Restoring? && s'.heal.good {
      forall r, id | id !in s'.heal.left && OwnedBy(s', r, h, id) ensures r in s'.routes || Pending(s', r, id) {
        assert OwnedBy(s, r, h, id);
        if s.heal.Restoring? {
          RoutesSplit(Mark(s, h, s.heal.id), s.heal.ips, r);
        }
      }
    }
  }

  /** The manager is elsewhere: it neither changes this service nor deletes one of its routes. */
  lemma RestoredBeside(s: State, l: Label)
    requires Inv(s) && HealerIn(s.heal).Some? && Restored(s) && !OfHealer(l) && Next(s, l).Some?
    ensures Restored(Next(s, l).value)
  {
    var s', h := Next(s, l).value, s.heal.h;
    ManagerStepOnly(s, l);
    Elsewhere(s, l);
    hide Next, Inv;
    forall r, id | OwnedBy(s', r, h, id)
      ensures OwnedBy(s, r, h, id) && (r in s.routes ==> r in s'.routes) && (Pending(s, r, id) ==> Pending(s', r, id))
    {
      ElsewhereRoute(s, l, r, id);
    }
  }

  lemma Elsewhere(s: State, l: Label)
    requires Inv(s) && HealerIn(s.heal).Some? && !OfHealer(l) && Next(s, l).Some?
    ensures s.heal.h in s.svcs && s.heal.h in Next(s, l).value.svcs
    ensures Next(s, l).value.svcs[s.heal.h] == s.svcs[s.heal.h] && ManagerIn(s.mgr) != HealerIn(s.heal)
  {
    NeverBoth(s);
    ManagerChanges(s, l);
    hide Next, Inv;
  }

  lemma ElsewhereRoute(s: State, l: Label, r: Route, id: int)
    requires Inv(s) && HealerIn(s.heal).Some? && !OfHealer(l) && Next(s, l).Some?
    requires OwnedBy(Next(s, l).value, r, s.heal.h, id)
    ensures OwnedBy(s, r, s.heal.h, id)
    ensures r in s.routes ==> r in Next(s, l).value.routes
    ensures Pending(s, r, id) ==> Pending(Next(s, l).value, r, id)
  {
    hide Next;
    Elsewhere(s, l);
    ManagerStepOnly(s, l);
    if s.mgr.Deleting? {
      MarksApart(s, s.heal.h, id, s.mgr.h, s.mgr.id);
    } else if s.mgr.Creating? {
      MarksOfOthers(s, s.heal.h, id, s.mgr.h, s.mgr.id);
    }
    if r in s.routes {
      ManagerDeletes(s, l, r);
    }
    hide LocksMatch, Separate, Flagged, Sound, Complete;
  }

  /** The manager loses no routes but those with the mark of the target it is deleting or creating. */
  lemma ManagerDeletes(s: State, l: Label, r: Route)
    requires Enabled(s) && !OfHealer(l) && Next(s, l).Some? && r in s.routes
    ensures r in Next(s, l).value.routes ||
            ((s.mgr.Deleting? || s.mgr.Creating?) && r.mark == Mark(s, s.mgr.h, s.mgr.id))
  {
    ManagerChanges(s, l);
    hide Next, Marked, Untidy;
  }

  lemma {:induction false} RunRestored(states: seq<State>, labels: seq<Label>, n: nat)
    requires Interleaving(states, labels) && n < |states|
    ensures Restored(states[n])
  {
    if n > 0 {
      RunRestored(states, labels, n - 1);
      RunInvariant(states, labels, n - 1);
      hide Inv, Next, Initial, Restored;
      assert Steps(states[n - 1], labels[n - 1], states[n]);
      RestoredKept(states[n - 1], labels[n - 1]);
    }
  }

  /** When the healer leaves a service and has not failed there, every route of every target of the service is there. */
  lemma VisitRestores(states: seq<State>, labels: seq<Label>, n: nat, r: Route, id: int)
    requires Interleaving(states, labels) && n < |labels|
    requires states[n].heal.Healing? && states[n].heal.good && labels[n] == Leave
    requires OwnedBy(states[n + 1], r, states[n].heal.h, id)
    ensures r in states[n + 1].routes
  {
    RunRestored(states, labels, n);
    assert Steps(states[n], labels[n], states[n + 1]);
    assert OwnedBy(states[n], r, states[n].heal.h, id);
  }

  // ---------------------------------------------------------------------------------------------
  // A whole pass.

  /** The creation of a route fails. */
  predicate FailsToCreate(l: Label) {
    (l.Create? && !l.ok) || (l.Restore? && !l.ok)
  }

  /** The healer will still come to the route in this pass. */
  ghost predicate AheadOfHealer(s: State, r: Route, h: nat, id: int) {
    && HealerHasMu(s.heal)
    && (h in s.heal.todo || (s.heal.Reaching? && h == s.heal.h) ||
        (HealerIn(s.heal) == Some(h) && (id in s.heal.left || Pending(s, r, id))))
  }

  /** The routes of registered services are there, or one of the threads is about to create them. */
  ghost predicate CaughtUp(s: State) {
    forall r, h, id :: OwnedBy(s, r, h, id) && s.svcs[h].registered ==> CaughtUpWith(s, r, h, id)
  }

  ghost predicate CaughtUpWith(s: State, r: Route, h: nat, id: int) {
    AheadOfHealer(s, r, h, id) || r in s.routes || Due(s, r)
  }

  /** A pass begins with everything ahead. */
  lemma PassBegins(s: State, l: Label)
    requires HealerIn(s.heal).None? && l.HealLockMu? && HealOutside(s, l).Some?
    ensures CaughtUp(HealOutside(s, l).value) && HealerHasMu(HealOutside(s, l).value.heal)
  {
    hide RoutesTo;
  }

  /** The healer leaves a route behind only when it is there. */
  lemma HealerCatchesUp(s: State, l: Label)
    requires Inv(s) && HealerHasMu(s.heal) && OfHealer(l) && !FailsToCreate(l) && Next(s, l).Some? && CaughtUp(s)
    ensures CaughtUp(Next(s, l).value)
  {
    if HealerIn(s.heal).Some? {
      CatchesUpInside(s, l);
    } else {
      CatchesUpOutside(s, l);
    }
    hide Inv, CaughtUp;
  }

  lemma CatchesUpOutside(s: State, l: Label)
    requires HealerIn(s.heal).None? && HealerHasMu(s.heal) && HealOutside(s, l).Some? && CaughtUp(s)
    ensures CaughtUp(HealOutside(s, l).value)
  {
    hide RoutesTo;
    var s' := HealOutside(s, l).value;
    forall r, h, id | OwnedBy(s', r, h, id) && s'.svcs[h].registered ensures CaughtUpWith(s', r, h, id) {
      assert OwnedBy(s, r, h, id);
      assert CaughtUpWith(s, r, h, id);
    }
  }

  lemma CatchesUpInside(s: State, l: Label)
    requires HealerIn(s.heal).Some? && s.heal.h in s.svcs && HealInside(s, l).Some? && Placed(s) && CaughtUp(s)
    requires !FailsToCreate(l)
    ensures CaughtUp(HealInside(s, l).value)
  {
    var s' := HealInside(s, l).value;
    forall r, h, id | OwnedBy(s', r, h, id) && s'.svcs[h].registered ensures CaughtUpWith(s', r, h, id) {
      assert OwnedBy(s, r, h, id);
      assert CaughtUpWith(s, r, h, id);
      CatchesUpWith(s, l, r, h, id);
    }
  }

  lemma CatchesUpWith(s: State, l: Label, r: Route, h: nat, id: int)
    requires HealerIn(s.heal).Some? && s.heal.h in s.svcs && HealInside(s, l).Some? && !FailsToCreate(l)
    requires OwnedBy(s, r, h, id) && CaughtUpWith(s, r, h, id)
    ensures CaughtUpWith(HealInside(s, l).value, r, h, id)
  {
    if s.heal.Restoring? && s.heal.ips != [] {
      RoutesSplit(Mark(s, s.heal.h, s.heal.id), s.heal.ips, r);
    }
    hide RoutesTo;
  }

  /** Nor does the manager take away or miss one. */
  lemma ManagerCatchesUp(s: State, l: Label)
    requires Inv(s) && HealerHasMu(s.heal) && !OfHealer(l) && !FailsToCreate(l) && Next(s, l).Some? && CaughtUp(s)
    ensures CaughtUp(Next(s, l).value)
  {
    var s' := Next(s, l).value;
    hide Next, Inv, OwnedBy, CaughtUpWith;
    forall r, h, id | OwnedBy(s', r, h, id) && h in s'.svcs && s'.svcs[h].registered
      ensures CaughtUpWith(s', r, h, id)
    {
      OwnedEarlier(s, l, r, h, id);
      if !Due(s', r) {
        assert CaughtUpWith(s, r, h, id);
        ManagerLeaves(s, l, r, h, id);
      } else {
        DueIsFine(s', r, h, id);
      }
    }
    OwnedIsKnown(s');
  }

  lemma OwnedIsKnown(s: State)
    ensures forall r, h, id :: OwnedBy(s, r, h, id) ==> h in s.svcs
  {
  }

  lemma DueIsFine(s: State, r: Route, h: nat, id: int)
    requires Due(s, r)
    ensures CaughtUpWith(s, r, h, id)
  {
  }

  /** A route of a recorded target was one before, or is about to be created. */
  lemma OwnedEarlier(s: State, l: Label, r: Route, h: nat, id: int)
    requires Inv(s) && HealerHasMu(s.heal) && !OfHealer(l) && Next(s, l).Some?
    requires OwnedBy(Next(s, l).value, r, h, id) && Next(s, l).value.svcs[h].registered
    ensures Due(Next(s, l).value, r) || (OwnedBy(s, r, h, id) && s.svcs[h].registered)
  {
    var s' := Next(s, l).value;
    if s.mgr.InService? {
      TargetsInside(s, l);
      OwnedAfter(s, l, r, h, id);
      hide InsideService, Inv, Due;
    } else {
      SameServices(s, l);
      hide Next, Inv, Due;
    }
  }

  /** While the healer has the mutex of the load balancer services come and go only inside their own mutex. */
  lemma SameServices(s: State, l: Label)
    requires Inv(s) && HealerHasMu(s.heal) && !OfHealer(l) && Next(s, l).Some? && !s.mgr.InService?
    ensures Next(s, l).value.svcs == s.svcs
  {
    NeverBoth(s);
    assert Enabled(s);
    hide *;
    SameServicesOutside(s, l);
  }

  lemma SameServicesOutside(s: State, l: Label)
    requires Enabled(s) && !OfHealer(l) && Next(s, l).Some? && !s.mgr.InService? && !s.mgr.InMu?
    ensures Next(s, l).value.svcs == s.svcs
  {
    hide RoutesTo, InsideMu, InsideService, HealInside, HealOutside;
  }

  /** A route that was caught up with and still belongs to a recorded target stays so. */
  lemma ManagerLeaves(s: State, l: Label, r: Route, h: nat, id: int)
    requires Inv(s) && !OfHealer(l) && !FailsToCreate(l) && Next(s, l).Some?
    requires OwnedBy(s, r, h, id) && CaughtUpWith(s, r, h, id) && OwnedBy(Next(s, l).value, r, h, id)
    ensures CaughtUpWith(Next(s, l).value, r, h, id)
  {
    var s' := Next(s, l).value;
    ManagerStepOnly(s, l);
    if AheadOfHealer(s, r, h, id) {
      AheadStays(s, s', r, h, id);
    } else if r in s.routes {
      RouteStays(s, l, r, h, id);
    } else {
      DueIsMet(s, l, r);
    }
    hide Next, Inv, AheadOfHealer, Due;
  }

  lemma AheadStays(s: State, s': State, r: Route, h: nat, id: int)
    requires AheadOfHealer(s, r, h, id) && s'.heal == s.heal && OwnedBy(s, r, h, id) && OwnedBy(s', r, h, id)
    ensures AheadOfHealer(s', r, h, id)
  {
    assert r.mark == Mark(s, h, id) == Mark(s', h, id);
    hide RoutesTo;
  }

  /** A route of a recorded target is not lost by the manager, unless a creation fails. */
  lemma RouteStays(s: State, l: Label, r: Route, h: nat, id: int)
    requires Inv(s) && !OfHealer(l) && !FailsToCreate(l) && Next(s, l).Some? && r in s.routes && OwnedBy(s, r, h, id)
    ensures r in Next(s, l).value.routes
  {
    assert r.mark == Mark(s, h, id);
    if s.mgr.Creating? {
      hide RoutesTo;
    } else {
      ManagerDeletes(s, l, r);
      if s.mgr.Deleting? {
        MarksApart(s, h, id, s.mgr.h, s.mgr.id);
      }
      hide Next, LocksMatch, Flagged, Sound, Complete, RoutesTo;
    }
  }

  /** What the manager is about to create is created, or still about to be. */
  lemma DueIsMet(s: State, l: Label, r: Route)
    requires Enabled(s) && !OfHealer(l) && !FailsToCreate(l) && Next(s, l).Some? && Due(s, r)
    ensures r in Next(s, l).value.routes || Due(Next(s, l).value, r)
  {
    if s.mgr.todo != [] {
      RoutesSplit(Mark(s, s.mgr.h, s.mgr.id), s.mgr.todo, r);
    }
    hide RoutesTo;
  }

  /** The labels from `start` on are one pass of the healer, from taking the mutex of the load balancer to releasing it,
      in which no creation of a route fails, whatever the manager does meanwhile. */
  ghost predicate GoodPass(states: seq<State>, labels: seq<Label>, start: nat, end: nat)
    requires end <= |labels| < |states|
  {
    && start < end - 1 && labels[start].HealLockMu? && labels[end - 1].Sleep?
    && (forall k :: start < k < end ==> HealerHasMu(states[k].heal))
    && (forall k :: start <= k < end ==> !FailsToCreate(labels[k]))
  }

  lemma {:induction false} PassCatchesUp(states: seq<State>, labels: seq<Label>, start: nat, end: nat, k: nat)
    requires Interleaving(states, labels) && end <= |labels| && GoodPass(states, labels, start, end) && start < k <= end
    ensures CaughtUp(states[k])
    decreases k
  {
    RunInvariant(states, labels, k - 1);
    assert Steps(states[k - 1], labels[k - 1], states[k]);
    hide Inv, Next, Initial, CaughtUp;
    if k == start + 1 {
      PassStarts(states[start], labels[start]);
    } else {
      PassCatchesUp(states, labels, start, end, k - 1);
      if OfHealer(labels[k - 1]) {
        HealerCatchesUp(states[k - 1], labels[k - 1]);
      } else {
        ManagerCatchesUp(states[k - 1], labels[k - 1]);
      }
    }
  }

  lemma PassStarts(s: State, l: Label)
    requires Enabled(s) && l.HealLockMu? && Next(s, l).Some?
    ensures CaughtUp(Next(s, l).value)
  {
    if HealerIn(s.heal).None? {
      PassBegins(s, l);
    }
  }

  /** After a pass of the healer without a failed creation every route of every recorded target of a registered service
      is in place, whatever the manager did meanwhile, but for those it is just creating; between calls all of them
      are. */
  lemma PassRestores(states: seq<State>, labels: seq<Label>, start: nat, end: nat)
    requires Interleaving(states, labels) && end <= |labels| && GoodPass(states, labels, start, end)
    ensures forall r, h, id :: OwnedBy(states[end], r, h, id) && states[end].svcs[h].registered ==>
                                 r in states[end].routes || Due(states[end], r)
    ensures states[end].mgr.Idle? ==> forall r :: Owned(states[end], r) ==> r in states[end].routes
  {
    PassCatchesUp(states, labels, start, end, end);
    assert Steps(states[end - 1], labels[end - 1], states[end]);
    FallsAsleep(states[end - 1], labels[end - 1]);
    RunInvariant(states, labels, end);
    var s := states[end];
    forall r, h, id | OwnedBy(s, r, h, id) && s.svcs[h].registered ensures r in s.routes || Due(s, r) {
      assert CaughtUpWith(s, r, h, id);
    }
    if s.mgr.Idle? {
      forall r | Owned(s, r) ensures r in s.routes {
        var h, id :| OwnedBy(s, r, h, id);
        assert s.svcs[h].registered;
      }
    }
  }

  lemma FallsAsleep(s: State, l: Label)
    requires Enabled(s) && Next(s, l).Some? && l.Sleep?
    ensures Next(s, l).value.heal.Asleep?
  {
  }
}
