/** pkg/nfqlb/nfqlb.go: what a whole call of the manager does beside the healer, from the state in which it starts to
    the state in which it has returned. */
module HealCalls {
  import opened Prelude
  import opened EndpointSlice
  import opened Offset
  import opened Nfqlb
  import opened Heal

  /** A call of the manager: it starts at `start` with label `call`, and has returned at `end`. */
  ghost predicate IsCall(states: seq<State>, labels: seq<Label>, start: nat, end: nat, call: Label) {
    && Interleaving(states, labels) && start < end < |states| && labels[start] == call
    && states[start].mgr.Idle? && states[end].mgr.Idle? && forall k :: start < k < end ==> !states[k].mgr.Idle?
  }

  /** A deactivation or the deletion of a route fails. */
  predicate FailsToDelete(l: Label) {
    (l.Forget? || l.Delete?) && !l.ok
  }

  /** No command of a call that deletes has failed between its start and a later state. */
  ghost predicate DeletedWell(labels: seq<Label>, start: nat, k: nat)
    requires k <= |labels|
  {
    forall i :: start < i < k ==> !FailsToDelete(labels[i])
  }

  ghost predicate CreatedWell(labels: seq<Label>, start: nat, k: nat)
    requires k <= |labels|
  {
    forall i :: start < i < k ==> !(labels[i].Create? && !labels[i].ok)
  }

  /** The activation of the target has succeeded. */
  ghost predicate Succeeded(labels: seq<Label>, start: nat, k: nat)
    requires k <= |labels|
  {
    exists i :: start < i < k && labels[i] == Record(true)
  }

  ghost predicate RegisterTaken(labels: seq<Label>, start: nat, k: nat)
    requires k <= |labels|
  {
    exists i :: start < i < k && labels[i].Register?
  }

  function WithTargets(svcs: map<nat, Svc>, h: nat, targets: map<int, seq<Address>>): map<nat, Svc>
    requires h in svcs
  {
    svcs[h := svcs[h].(targets := targets)]
  }

  /** The routes with a mark are as they were, but for these. */
  ghost predicate SameBut(before: set<Route>, after: set<Route>, mark: int, free: set<Route>) {
    forall r: Route :: r.mark == mark && r !in free ==> (r in before <==> r in after)
  }

  /** Of the routes `all` there are only those among `rest`. */
  ghost predicate Within(routes: set<Route>, all: set<Route>, rest: set<Route>) {
    forall r :: r in routes && r in all ==> r in rest
  }

  /** The routes that the healer may touch for a mark: those of the recorded target. */
  function RecordedRoutes(s: State, h: nat, id: int): set<Route>
    requires h in s.svcs
  {
    if id in s.svcs[h].targets then RoutesTo(Mark(s, h, id), s.svcs[h].targets[id]) else {}
  }

  /** A mark belongs to one target of one service. */
  lemma OneMark(s: State, k: nat, j: int, h: nat, id: int)
    requires Separate(s.svcs) && k in s.svcs && h in s.svcs
    requires 0 <= j < s.svcs[k].range.maxTargets && 0 <= id < s.svcs[h].range.maxTargets
    ensures Mark(s, k, j) == Mark(s, h, id) ==> k == h && j == id
  {
    assert k != h ==> Apart(s.svcs[k].range, s.svcs[h].range);
  }

  /** A step of the healer changes no route with the mark of a target but those of the recorded target, and none while
      the manager is inside the service. */
  lemma HealerAtMark(s: State, l: Label, s': State, h: nat, id: int)
    requires Inv(s) && OfHealer(l) && Steps(s, l, s') && h in s.svcs && 0 <= id < s.svcs[h].range.maxTargets
    ensures SameBut(s.routes, s'.routes, Mark(s, h, id), RecordedRoutes(s, h, id))
    ensures ManagerIn(s.mgr) == Some(h) ==> SameBut(s.routes, s'.routes, Mark(s, h, id), {})
  {
    NeverBoth(s);
    if s.heal.Restoring? && s.heal.ips != [] && l.Restore? {
      var (k, j, ips) := (s.heal.h, s.heal.id, s.heal.ips);
      assert s'.routes == Created(s.routes, RoutesTo(Mark(s, k, j), [ips[0]]), l.ok, l.lost);
      assert ips[0] in ips && ips[0] in s.svcs[k].targets[j];
      OneMark(s, k, j, h, id);
      OneRoute(Mark(s, k, j), ips[0]);
    } else {
      HealerKeepsRoutes(s, l, s');
    }
    hide Inv, Steps;
  }

  lemma HealerKeepsRoutes(s: State, l: Label, s': State)
    requires OfHealer(l) && Steps(s, l, s') && !(s.heal.Restoring? && s.heal.ips != [] && l.Restore?)
    ensures s'.routes == s.routes
  {
  }

  lemma HealerKeepsRest(s: State, l: Label, s': State)
    requires OfHealer(l) && Steps(s, l, s')
    ensures s'.mgr == s.mgr && s'.svcs == s.svcs
  {
    HealerStepOnly(s, l);
  }

  // ---------------------------------------------------------------------------------------------
  // DeleteTarget.

  /** Where DeleteTarget stands, as far as the services are concerned. */
  ghost predicate Forgetting(s0: State, h: nat, id: int, ips: seq<Address>, s: State) {
    && h in s0.svcs
    && match s.mgr
       case WantService(k, job) => k == h && job == DeleteT(id, ips) && s.svcs == s0.svcs
       case InService(k, job) => k == h && job == DeleteT(id, ips) && s.svcs == s0.svcs
       case Deleting(k, j, _, clear) =>
         k == h && j == id && !clear && id in s0.svcs[h].targets
         && s.svcs == WithTargets(s0.svcs, h, s0.svcs[h].targets - {id})
       case Idle => s.svcs == WithTargets(s0.svcs, h, s0.svcs[h].targets - {id})
       case _ => false
  }

  /** And the routes with the mark of the target. */
  ghost predicate ForgettingRoutes(s0: State, h: nat, id: int, ips: seq<Address>, s: State, failed: bool)
    requires h in s0.svcs
  {
    var (mark, own) := (Mark(s0, h, id), RecordedRoutes(s0, h, id));
    match s.mgr
    case Deleting(_, _, todo, _) =>
      && SameBut(s0.routes, s.routes, mark, own + RoutesTo(mark, ips)) && RoutesTo(mark, todo) <= RoutesTo(mark, ips)
      && (!failed ==> Within(s.routes, RoutesTo(mark, ips), RoutesTo(mark, todo)))
    case Idle =>
      if id in s0.svcs[h].targets
      then SameBut(s0.routes, s.routes, mark, own + RoutesTo(mark, ips))
          && (!failed ==> Within(s.routes, RoutesTo(mark, ips), {}))
      else SameBut(s0.routes, s.routes, mark, {})
    case _ => SameBut(s0.routes, s.routes, mark, own)
  }

  ghost predicate DeletingTarget(s0: State, h: nat, id: int, ips: seq<Address>, s: State, failed: bool) {
    && Forgetting(s0, h, id, ips, s)
    && (0 <= id < s0.svcs[h].range.maxTargets ==> ForgettingRoutes(s0, h, id, ips, s, failed))
  }

  lemma DeletingStep(s0: State, h: nat, id: int, ips: seq<Address>, s: State, failed: bool, l: Label, s': State,
                     failed': bool)
    requires Inv(s) && Steps(s, l, s') && !s.mgr.Idle? && DeletingTarget(s0, h, id, ips, s, failed)
    requires failed' <==> failed || FailsToDelete(l)
    ensures DeletingTarget(s0, h, id, ips, s', failed')
  {
    hide ForgettingRoutes, Steps, Inv;
    if OfHealer(l) {
      ForgettingHealer(s0, h, id, ips, s, failed, l, s');
      NotOfHealer(l);
    } else {
      ForgettingManager(s0, h, id, ips, s, failed, l, s');
    }
  }

  lemma SameThen(was: set<Route>, before: set<Route>, after: set<Route>, mark: int, free: set<Route>, more: set<Route>)
    requires SameBut(was, before, mark, free) && SameBut(before, after, mark, more) && more <= free
    ensures SameBut(was, after, mark, free)
  {
  }

  lemma WithinSame(before: set<Route>, after: set<Route>, mark: int, ips: seq<Address>, rest: set<Route>)
    requires SameBut(before, after, mark, {}) && Within(before, RoutesTo(mark, ips), rest)
    ensures Within(after, RoutesTo(mark, ips), rest)
  {
  }

  lemma ForgettingHealer(s0: State, h: nat, id: int, ips: seq<Address>, s: State, failed: bool, l: Label, s': State)
    requires Inv(s) && OfHealer(l) && Steps(s, l, s') && !s.mgr.Idle? && Forgetting(s0, h, id, ips, s)
    ensures Forgetting(s0, h, id, ips, s')
    ensures 0 <= id < s0.svcs[h].range.maxTargets && ForgettingRoutes(s0, h, id, ips, s, failed) ==>
              ForgettingRoutes(s0, h, id, ips, s', failed)
  {
    hide Inv, Steps, Next, SameBut, Within, RoutesTo, OfHealer;
    HealerKeepsRest(s, l, s');
    if 0 <= id < s0.svcs[h].range.maxTargets && ForgettingRoutes(s0, h, id, ips, s, failed) {
      HealerAtMark(s, l, s', h, id);
      var (mark, own) := (Mark(s0, h, id), RecordedRoutes(s0, h, id));
      assert Mark(s, h, id) == mark;
      if s.mgr.Deleting? {
        SameThen(s0.routes, s.routes, s'.routes, mark, own + RoutesTo(mark, ips), {});
        if !failed {
          WithinSame(s.routes, s'.routes, mark, ips, RoutesTo(mark, s.mgr.todo));
        }
      } else {
        SameThen(s0.routes, s.routes, s'.routes, mark, own, own);
      }
    }
  }

  lemma NothingForgotten(svcs: map<nat, Svc>, h: nat, id: int)
    requires h in svcs && id !in svcs[h].targets
    ensures WithTargets(svcs, h, svcs[h].targets - {id}) == svcs
  {
    assert svcs[h].targets - {id} == svcs[h].targets;
  }

  lemma TodoSplits(mark: int, todo: seq<Address>)
    requires todo != []
    ensures RoutesTo(mark, todo) == RoutesTo(mark, [todo[0]]) + RoutesTo(mark, todo[1..])
  {
    assert todo == [todo[0]] + todo[1..];
    assert forall a :: a in todo <==> a in [todo[0]] || a in todo[1..];
  }

  lemma NothingTodo(mark: int)
    ensures RoutesTo(mark, []) == {}
  {
  }

  lemma ForgettingManager(s0: State, h: nat, id: int, ips: seq<Address>, s: State, failed: bool, l: Label, s': State)
    requires !OfHealer(l) && Steps(s, l, s') && !s.mgr.Idle? && Forgetting(s0, h, id, ips, s)
    ensures Forgetting(s0, h, id, ips, s')
    ensures ForgettingRoutes(s0, h, id, ips, s, failed) ==>
              ForgettingRoutes(s0, h, id, ips, s', failed || FailsToDelete(l))
  {
    if s.mgr.WantService? {
      hide RoutesTo, WithTargets, InsideService;
    } else if s.mgr.InService? {
      ForgettingInService(s0, h, id, ips, s, failed, l, s');
    } else {
      ForgettingRoute(s0, h, id, ips, s, failed, l, s');
    }
  }

  lemma ForgettingInService(s0: State, h: nat, id: int, ips: seq<Address>, s: State, failed: bool, l: Label, s': State)
    requires !OfHealer(l) && Steps(s, l, s') && s.mgr.InService? && Forgetting(s0, h, id, ips, s)
    ensures Forgetting(s0, h, id, ips, s')
    ensures ForgettingRoutes(s0, h, id, ips, s, failed) ==>
              ForgettingRoutes(s0, h, id, ips, s', failed || FailsToDelete(l))
  {
    hide RoutesTo;
    assert l.Forget? && s'.routes == s.routes;
    if id !in s.svcs[h].targets {
      NothingForgotten(s0.svcs, h, id);
    }
  }

  lemma OneDeleted(was: set<Route>, routes: set<Route>, routes': set<Route>, mark: int, own: set<Route>,
                   all: set<Route>, first: set<Route>, rest: set<Route>, ok: bool)
    requires routes' == if ok then routes - first else routes
    ensures SameBut(was, routes, mark, own + all) && first + rest <= all ==> SameBut(was, routes', mark, own + all)
    ensures ok && Within(routes, all, first + rest) ==> Within(routes', all, rest)
    ensures !ok && Within(routes, all, first + rest) ==> Within(routes', all, first + rest)
  {
  }

  lemma ForgettingRoute(s0: State, h: nat, id: int, ips: seq<Address>, s: State, failed: bool, l: Label, s': State)
    requires !OfHealer(l) && Steps(s, l, s') && s.mgr.Deleting? && Forgetting(s0, h, id, ips, s)
    ensures Forgetting(s0, h, id, ips, s')
    ensures ForgettingRoutes(s0, h, id, ips, s, failed) ==>
              ForgettingRoutes(s0, h, id, ips, s', failed || FailsToDelete(l))
  {
    hide RoutesTo;
    var (mark, todo) := (Mark(s0, h, id), s.mgr.todo);
    assert Mark(s, h, id) == mark;
    NothingTodo(mark);
    if todo != [] {
      TodoSplits(mark, todo);
      OneDeleted(s0.routes, s.routes, s'.routes, mark, RecordedRoutes(s0, h, id), RoutesTo(mark, ips),
                 RoutesTo(mark, [todo[0]]), RoutesTo(mark, todo[1..]), l.ok);
      assert s'.mgr.todo == todo[1..];
    }
  }

  /** What is known of one step of a call. */
  lemma StepOfCall(states: seq<State>, labels: seq<Label>, start: nat, end: nat, call: Label, n: nat)
    requires IsCall(states, labels, start, end, call) && start <= n < end
    ensures end <= |labels| && end < |states| && states[start].mgr.Idle? && labels[start] == call
    ensures Steps(states[n], labels[n], states[n + 1]) && Inv(states[n]) && (n > start ==> !states[n].mgr.Idle?)
  {
    RunInvariant(states, labels, n);
    hide Steps, Inv, Initial;
  }

  lemma ForgettingStarts(s0: State, h: nat, id: int, ips: seq<Address>, s: State)
    requires s0.mgr.Idle? && Steps(s0, CallDeleteTarget(h, id, ips), s)
    ensures DeletingTarget(s0, h, id, ips, s, false)
  {
  }

  lemma DeletingNext(states: seq<State>, labels: seq<Label>, start: nat, end: nat, h: nat, id: int, ips: seq<Address>,
                     k: nat)
    requires IsCall(states, labels, start, end, CallDeleteTarget(h, id, ips)) && start < k < end <= |labels|
    requires DeletingTarget(states[start], h, id, ips, states[k], !DeletedWell(labels, start, k))
    ensures DeletingTarget(states[start], h, id, ips, states[k + 1], !DeletedWell(labels, start, k + 1))
  {
    StepOfCall(states, labels, start, end, CallDeleteTarget(h, id, ips), k);
    DeletedNext(labels, start, k);
    hide *;
    DeletingStep(states[start], h, id, ips, states[k], !DeletedWell(labels, start, k), labels[k], states[k + 1],
                 !DeletedWell(labels, start, k + 1));
  }

  lemma DeletingFirst(states: seq<State>, labels: seq<Label>, start: nat, end: nat, h: nat, id: int, ips: seq<Address>)
    requires IsCall(states, labels, start, end, CallDeleteTarget(h, id, ips))
    ensures end <= |labels| < |states|
    ensures DeletingTarget(states[start], h, id, ips, states[start + 1], !DeletedWell(labels, start, start + 1))
  {
    StepOfCall(states, labels, start, end, CallDeleteTarget(h, id, ips), start);
    assert |states| == |labels| + 1;
    hide *;
    ForgettingStarts(states[start], h, id, ips, states[start + 1]);
    NoneYet(labels, start);
  }

  lemma {:induction false} ForgettingAt(states: seq<State>, labels: seq<Label>, start: nat, end: nat, h: nat, id: int,
                                        ips: seq<Address>, k: nat)
    requires IsCall(states, labels, start, end, CallDeleteTarget(h, id, ips)) && start < k <= end
    ensures end <= |labels| < |states|
    ensures DeletingTarget(states[start], h, id, ips, states[k], !DeletedWell(labels, start, k))
  {
    DeletingFirst(states, labels, start, end, h, id, ips);
    hide *;
    if k > start + 1 {
      ForgettingAt(states, labels, start, end, h, id, ips, k - 1);
      DeletingNext(states, labels, start, end, h, id, ips, k - 1);
    }
  }

  lemma NoneYet(labels: seq<Label>, start: nat)
    requires start < |labels|
    ensures DeletedWell(labels, start, start + 1) && CreatedWell(labels, start, start + 1)
    ensures !Succeeded(labels, start, start + 1) && !RegisterTaken(labels, start, start + 1)
  {
  }

  lemma DeletedNext(labels: seq<Label>, start: nat, k: nat)
    requires start < k < |labels|
    ensures DeletedWell(labels, start, k + 1) <==> DeletedWell(labels, start, k) && !FailsToDelete(labels[k])
  {
  }

  lemma NotOfHealer(l: Label)
    requires OfHealer(l)
    ensures !FailsToDelete(l) && !l.Create? && !l.Record? && !l.Register?
  {
  }

  /** The route leads to one of the addresses. */
  ghost predicate LeadsTo(r: Route, ips: seq<Address>) {
    exists a :: a in ips && a.Text? && a.ip == r.ip
  }

  lemma RoutesLead(mark: int, ips: seq<Address>)
    ensures forall r: Route :: r in RoutesTo(mark, ips) <==> r.mark == mark && LeadsTo(r, ips)
  {
  }

  /** DeleteTarget: from the call to its return, with the healer at work beside it. The target is gone, and nothing else
      is. A target of the range that was not recorded leaves the routes with its mark alone; for a recorded one the
      routes to the given addresses are gone unless a command failed, and when these are the recorded addresses no other
      route with the mark has changed: none is left, but for what an earlier deletion may have left. */
  lemma DeleteTargetCall(states: seq<State>, labels: seq<Label>, start: nat, end: nat, h: nat, id: int,
                         ips: seq<Address>)
    requires IsCall(states, labels, start, end, CallDeleteTarget(h, id, ips))
    ensures var (s, s') := (states[start], states[end]);
            && h in s.svcs && s'.svcs == s.svcs[h := s.svcs[h].(targets := s.svcs[h].targets - {id})]
            && (0 <= id < s.svcs[h].range.maxTargets ==>
                  forall r: Route :: r.mark == id + s.svcs[h].range.offset ==>
                    && (id !in s.svcs[h].targets ==> (r in s'.routes <==> r in s.routes))
                    && (id in s.svcs[h].targets && DeletedWell(labels, start, end) && LeadsTo(r, ips) ==>
                        r !in s'.routes)
                    && (id in s.svcs[h].targets && s.svcs[h].targets[id] == ips && !LeadsTo(r, ips) ==>
                          (r in s'.routes <==> r in s.routes) && (r in s'.routes ==> r.mark in s.stale)))
  {
    ForgettingAt(states, labels, start, end, h, id, ips, end);
    var (s, s') := (states[start], states[end]);
    RunInvariant(states, labels, start);
    hide Interleaving;
    if 0 <= id < s.svcs[h].range.maxTargets {
      var mark := Mark(s, h, id);
      RoutesLead(mark, ips);
      forall r: Route | r.mark == mark && r in s.routes && r.mark !in s.stale
        ensures id in s.svcs[h].targets && r in RoutesTo(mark, s.svcs[h].targets[id])
      {
        OwnedAtMark(s, h, id, r);
      }
      hide Inv, LeadsTo, RoutesTo, DeletedWell;
    }
  }

  /** Between calls a route with the mark of a target is one of its routes, or was left by a deletion. */
  lemma OwnedAtMark(s: State, h: nat, id: int, r: Route)
    requires Inv(s) && s.mgr.Idle? && h in s.svcs && 0 <= id < s.svcs[h].range.maxTargets
    requires r in s.routes && r.mark == Mark(s, h, id) && r.mark !in s.stale
    ensures id in s.svcs[h].targets && r in RoutesTo(r.mark, s.svcs[h].targets[id])
  {
    assert Owned(s, r);
    var k, j :| OwnedBy(s, r, k, j);
    OneMark(s, k, j, h, id);
  }

  // ---------------------------------------------------------------------------------------------
  // AddTarget.

  /** The identifier is in the range of the service, and not a target of it. */
  ghost predicate Free(s: State, h: nat, id: int)
    requires h in s.svcs
  {
    id !in s.svcs[h].targets && 0 <= id < s.svcs[h].range.maxTargets
  }

  /** Where AddTarget stands, as far as the services are concerned; `ok`: the activation has succeeded. */
  ghost predicate Recording(s0: State, h: nat, id: int, ips: seq<Address>, s: State, ok: bool) {
    && h in s0.svcs
    && match s.mgr
       case WantService(k, job) => k == h && job == AddT(id, ips) && s.svcs == s0.svcs && !ok
       case InService(k, job) => k == h && job == AddT(id, ips) && s.svcs == s0.svcs && !ok
       case Creating(k, j, _) =>
         k == h && j == id && Free(s0, h, id) && ok
         && s.svcs == WithTargets(s0.svcs, h, s0.svcs[h].targets[id := ips])
       case Idle =>
         s.svcs == if Free(s0, h, id) && ok then WithTargets(s0.svcs, h, s0.svcs[h].targets[id := ips]) else s0.svcs
       case _ => false
  }

  /** The routes `all` are there, but for some of `rest`. */
  ghost predicate Covered(routes: set<Route>, all: set<Route>, rest: set<Route>) {
    forall r :: r in all ==> r in routes || r in rest
  }

  /** And the routes with the mark of the target. */
  ghost predicate RecordingRoutes(s0: State, h: nat, id: int, ips: seq<Address>, s: State, ok: bool, failed: bool)
    requires h in s0.svcs
  {
    var mark := Mark(s0, h, id);
    match s.mgr
    case Creating(_, _, todo) =>
      && SameBut(s0.routes, s.routes, mark, RoutesTo(mark, ips)) && RoutesTo(mark, todo) <= RoutesTo(mark, ips)
      && (!failed ==> Covered(s.routes, RoutesTo(mark, ips), RoutesTo(mark, todo)))
    case Idle =>
      if Free(s0, h, id) && ok
      then SameBut(s0.routes, s.routes, mark, RoutesTo(mark, ips))
           && (!failed ==> Covered(s.routes, RoutesTo(mark, ips), {}))
      else SameBut(s0.routes, s.routes, mark, RecordedRoutes(s0, h, id))
    case _ => SameBut(s0.routes, s.routes, mark, RecordedRoutes(s0, h, id))
  }

  ghost predicate AddingTarget(s0: State, h: nat, id: int, ips: seq<Address>, s: State, ok: bool, failed: bool) {
    && Recording(s0, h, id, ips, s, ok)
    && (0 <= id < s0.svcs[h].range.maxTargets ==> RecordingRoutes(s0, h, id, ips, s, ok, failed))
  }

  predicate FailsCreation(l: Label) {
    l.Create? && !l.ok
  }

  lemma CoveredSame(before: set<Route>, after: set<Route>, mark: int, ips: seq<Address>, rest: set<Route>)
    requires SameBut(before, after, mark, {}) && Covered(before, RoutesTo(mark, ips), rest)
    ensures Covered(after, RoutesTo(mark, ips), rest)
  {
  }

  lemma RecordingHealer(s0: State, h: nat, id: int, ips: seq<Address>, s: State, ok: bool, failed: bool, l: Label,
                        s': State)
    requires Inv(s) && OfHealer(l) && Steps(s, l, s') && !s.mgr.Idle? && Recording(s0, h, id, ips, s, ok)
    ensures Recording(s0, h, id, ips, s', ok)
    ensures 0 <= id < s0.svcs[h].range.maxTargets && RecordingRoutes(s0, h, id, ips, s, ok, failed) ==>
              RecordingRoutes(s0, h, id, ips, s', ok, failed)
  {
    hide Inv, Steps, Next, SameBut, Covered, RoutesTo, OfHealer;
    HealerKeepsRest(s, l, s');
    if 0 <= id < s0.svcs[h].range.maxTargets && RecordingRoutes(s0, h, id, ips, s, ok, failed) {
      HealerAtMark(s, l, s', h, id);
      var (mark, own) := (Mark(s0, h, id), RecordedRoutes(s0, h, id));
      assert Mark(s, h, id) == mark;
      if s.mgr.Creating? {
        SameThen(s0.routes, s.routes, s'.routes, mark, RoutesTo(mark, ips), {});
        if !failed {
          CoveredSame(s.routes, s'.routes, mark, ips, RoutesTo(mark, s.mgr.todo));
        }
      } else {
        SameThen(s0.routes, s.routes, s'.routes, mark, own, own);
      }
    }
  }

  lemma RecordingInService(s0: State, h: nat, id: int, ips: seq<Address>, s: State, ok: bool, failed: bool, l: Label,
                           s': State)
    requires !OfHealer(l) && Steps(s, l, s') && s.mgr.InService? && AddingTarget(s0, h, id, ips, s, ok, failed)
    ensures AddingTarget(s0, h, id, ips, s', l == Record(true), failed)
  {
    hide RoutesTo;
    assert l.Record? && s'.routes == s.routes;
  }

  lemma OneCreated(was: set<Route>, routes: set<Route>, routes': set<Route>, mark: int, all: set<Route>,
                   first: set<Route>, rest: set<Route>, ok: bool)
    requires first + rest <= all && forall r :: r !in first ==> (r in routes <==> r in routes')
    requires ok ==> first <= routes'
    ensures SameBut(was, routes, mark, all) ==> SameBut(was, routes', mark, all)
    ensures ok && Covered(routes, all, first + rest) ==> Covered(routes', all, rest)
  {
  }

  lemma RecordingRoute(s0: State, h: nat, id: int, ips: seq<Address>, s: State, ok: bool, failed: bool, l: Label,
                       s': State)
    requires !OfHealer(l) && Steps(s, l, s') && s.mgr.Creating? && AddingTarget(s0, h, id, ips, s, ok, failed)
    ensures AddingTarget(s0, h, id, ips, s', ok, failed || FailsCreation(l))
  {
    hide RoutesTo;
    var (mark, todo) := (Mark(s0, h, id), s.mgr.todo);
    assert Mark(s, h, id) == mark;
    NothingTodo(mark);
    if todo != [] {
      TodoSplits(mark, todo);
      OneCreated(s0.routes, s.routes, s'.routes, mark, RoutesTo(mark, ips), RoutesTo(mark, [todo[0]]),
                 RoutesTo(mark, todo[1..]), l.ok);
    }
  }

  lemma RecordingWaits(s0: State, h: nat, id: int, ips: seq<Address>, s: State, ok: bool, failed: bool, l: Label,
                       s': State)
    requires !OfHealer(l) && Steps(s, l, s') && s.mgr.WantService? && AddingTarget(s0, h, id, ips, s, ok, failed)
    ensures AddingTarget(s0, h, id, ips, s', ok, failed)
  {
    hide RoutesTo, WithTargets;
  }

  /** Which labels belong to which position of the manager. */
  lemma LabelsFit(s: State, l: Label, s': State)
    requires Steps(s, l, s') && !OfHealer(l)
    ensures l.Record? ==> s.mgr.InService?
    ensures l.Create? ==> s.mgr.Creating?
    ensures l.Register? ==> s.mgr.InMu?
  {
    hide RoutesTo;
  }

  lemma AddingStep(s0: State, h: nat, id: int, ips: seq<Address>, s: State, ok: bool, failed: bool, l: Label, s': State,
                   ok': bool, failed': bool)
    requires Inv(s) && Steps(s, l, s') && !s.mgr.Idle? && AddingTarget(s0, h, id, ips, s, ok, failed)
    requires (failed' <==> failed || FailsCreation(l)) && (ok' <==> ok || l == Record(true))
    ensures AddingTarget(s0, h, id, ips, s', ok', failed')
  {
    if OfHealer(l) {
      RecordingHealer(s0, h, id, ips, s, ok, failed, l, s');
    } else {
      LabelsFit(s, l, s');
      if s.mgr.WantService? {
        RecordingWaits(s0, h, id, ips, s, ok, failed, l, s');
      } else if s.mgr.InService? {
        RecordingInService(s0, h, id, ips, s, ok, failed, l, s');
      } else {
        RecordingRoute(s0, h, id, ips, s, ok, failed, l, s');
      }
    }
    hide RecordingRoutes, Steps, Inv;
  }

  lemma RecordingStarts(s0: State, h: nat, id: int, ips: seq<Address>, s: State)
    requires s0.mgr.Idle? && Steps(s0, CallAddTarget(h, id, ips), s)
    ensures AddingTarget(s0, h, id, ips, s, false, false)
  {
  }

  lemma AddedNext(labels: seq<Label>, start: nat, k: nat)
    requires start < k < |labels|
    ensures CreatedWell(labels, start, k + 1) <==> CreatedWell(labels, start, k) && !FailsCreation(labels[k])
    ensures Succeeded(labels, start, k + 1) <==> Succeeded(labels, start, k) || labels[k] == Record(true)
  {
  }

  lemma AddingFirst(states: seq<State>, labels: seq<Label>, start: nat, end: nat, h: nat, id: int, ips: seq<Address>)
    requires IsCall(states, labels, start, end, CallAddTarget(h, id, ips))
    ensures end <= |labels| < |states|
    ensures AddingTarget(states[start], h, id, ips, states[start + 1], Succeeded(labels, start, start + 1),
                         !CreatedWell(labels, start, start + 1))
  {
    StepOfCall(states, labels, start, end, CallAddTarget(h, id, ips), start);
    assert |states| == |labels| + 1;
    hide *;
    RecordingStarts(states[start], h, id, ips, states[start + 1]);
    NoneYet(labels, start);
  }

  lemma AddingNext(states: seq<State>, labels: seq<Label>, start: nat, end: nat, h: nat, id: int, ips: seq<Address>,
                   k: nat)
    requires IsCall(states, labels, start, end, CallAddTarget(h, id, ips)) && start < k < end <= |labels|
    requires AddingTarget(states[start], h, id, ips, states[k], Succeeded(labels, start, k),
                          !CreatedWell(labels, start, k))
    ensures AddingTarget(states[start], h, id, ips, states[k + 1], Succeeded(labels, start, k + 1),
                         !CreatedWell(labels, start, k + 1))
  {
    StepOfCall(states, labels, start, end, CallAddTarget(h, id, ips), k);
    AddedNext(labels, start, k);
    hide *;
    AddingStep(states[start], h, id, ips, states[k], Succeeded(labels, start, k), !CreatedWell(labels, start, k),
               labels[k], states[k + 1], Succeeded(labels, start, k + 1), !CreatedWell(labels, start, k + 1));
  }

  lemma {:induction false} AddingAt(states: seq<State>, labels: seq<Label>, start: nat, end: nat, h: nat, id: int,
                                    ips: seq<Address>, k: nat)
    requires IsCall(states, labels, start, end, CallAddTarget(h, id, ips)) && start < k <= end
    ensures end <= |labels| < |states|
    ensures AddingTarget(states[start], h, id, ips, states[k], Succeeded(labels, start, k),
                         !CreatedWell(labels, start, k))
  {
    AddingFirst(states, labels, start, end, h, id, ips);
    hide *;
    if k > start + 1 {
      AddingAt(states, labels, start, end, h, id, ips, k - 1);
      AddingNext(states, labels, start, end, h, id, ips, k - 1);
    }
  }

  /** AddTarget: from the call to its return, with the healer at work beside it. The target is recorded with these
      addresses exactly when it was not there, is in range, and was activated; nothing else changes. Then the routes
      with its mark are those that were there and, unless a creation failed, those to the addresses. */
  lemma AddTargetCall(states: seq<State>, labels: seq<Label>, start: nat, end: nat, h: nat, id: int, ips: seq<Address>)
    requires IsCall(states, labels, start, end, CallAddTarget(h, id, ips)) && end <= |labels|
    ensures var (s, s') := (states[start], states[end]);
            && h in s.svcs
            && var added := id !in s.svcs[h].targets && 0 <= id < s.svcs[h].range.maxTargets
                && Succeeded(labels, start, end);
               && s'.svcs ==
                  (if added then s.svcs[h := s.svcs[h].(targets := s.svcs[h].targets[id := ips])] else s.svcs)
               && (added ==>
                     forall r: Route :: r.mark == id + s.svcs[h].range.offset ==>
                       && (!LeadsTo(r, ips) ==> (r in s'.routes <==> r in s.routes))
                       && (LeadsTo(r, ips) && CreatedWell(labels, start, end) ==> r in s'.routes))
  {
    AddingAt(states, labels, start, end, h, id, ips, end);
    var s := states[start];
    RoutesLead(Mark(s, h, id), ips);
    hide LeadsTo, RoutesTo, CreatedWell, Succeeded, Interleaving;
  }

  // ---------------------------------------------------------------------------------------------
  // DeleteService and AddService.

  ghost predicate Named(s: State, h: nat, name: string) {
    h in s.svcs && s.svcs[h].registered && s.svcs[h].name == name
  }

  /** Where DeleteService stands, as far as the services are concerned. */
  ghost predicate DeletingService(s0: State, name: string, s: State) {
    match s.mgr
    case WantMu(n, delete) => n == name && delete && s.svcs == s0.svcs
    case InMu(n, delete) => n == name && delete && s.svcs == s0.svcs
    case WantService(h, job) => job == Clear && Named(s0, h, name) && s.svcs - {h} == s0.svcs - {h}
    case InService(h, job) => job == Clear && Named(s0, h, name) && s.svcs - {h} == s0.svcs - {h}
    case Deleting(h, _, _, clear) => clear && Named(s0, h, name) && s.svcs - {h} == s0.svcs - {h}
    case Idle =>
      || (exists h :: Named(s0, h, name) && s.svcs == s0.svcs - {h})
      || ((forall h :: !Named(s0, h, name)) && s.svcs == s0.svcs && s.leaked)
    case _ => false
  }

  lemma DeletingInMu(s0: State, name: string, s: State, l: Label, s': State)
    requires !OfHealer(l) && Steps(s, l, s') && s.mgr.InMu? && DeletingService(s0, name, s)
    ensures DeletingService(s0, name, s')
  {
    if l.Unregister? {
      assert Named(s0, l.h, name);
      assert s'.svcs - {l.h} == s0.svcs - {l.h};
    } else {
      assert l.Lose? && !IsKnown(s, name);
    }
  }

  lemma DeletingInService(s0: State, name: string, s: State, l: Label, s': State)
    requires !OfHealer(l) && Steps(s, l, s') && s.mgr.InService? && DeletingService(s0, name, s)
    ensures DeletingService(s0, name, s')
  {
    hide RoutesTo, Named;
    var h := s.mgr.h;
    if l.Forget? {
      assert s'.svcs - {h} == s.svcs - {h};
    } else {
      assert s'.svcs == s.svcs - {h};
    }
  }

  lemma DeletingElsewhere(s0: State, name: string, s: State, l: Label, s': State)
    requires !OfHealer(l) && Steps(s, l, s') && !s.mgr.InMu? && !s.mgr.InService? && !s.mgr.Idle?
    requires DeletingService(s0, name, s)
    ensures DeletingService(s0, name, s')
  {
    hide RoutesTo, Named;
  }

  lemma DeletingServiceStep(s0: State, name: string, s: State, l: Label, s': State)
    requires Steps(s, l, s') && !s.mgr.Idle? && DeletingService(s0, name, s)
    ensures DeletingService(s0, name, s')
  {
    if OfHealer(l) {
      HealerKeepsRest(s, l, s');
      hide Steps;
    } else if s.mgr.InMu? {
      DeletingInMu(s0, name, s, l, s');
    } else if s.mgr.InService? {
      DeletingInService(s0, name, s, l, s');
    } else {
      DeletingElsewhere(s0, name, s, l, s');
    }
  }

  lemma DeletingServiceStarts(s0: State, name: string, s: State)
    requires s0.mgr.Idle? && Steps(s0, CallDeleteService(name), s)
    ensures DeletingService(s0, name, s)
  {
  }

  lemma {:induction false} DeletingServiceAt(states: seq<State>, labels: seq<Label>, start: nat, end: nat, name: string,
                                             n: nat)
    requires IsCall(states, labels, start, end, CallDeleteService(name)) && start <= n < end
    ensures n + 1 < |states| && DeletingService(states[start], name, states[n + 1])
  {
    StepOfCall(states, labels, start, end, CallDeleteService(name), n);
    hide *;
    if n == start {
      DeletingServiceStarts(states[start], name, states[n + 1]);
    } else {
      DeletingServiceAt(states, labels, start, end, name, n - 1);
      DeletingServiceStep(states[start], name, states[n], labels[n], states[n + 1]);
    }
  }

  /** DeleteService: from the call to its return. The service with the name is gone, and nothing else is; when there is
      none the services are as they were, and the mutex is lost. */
  lemma DeleteServiceCall(states: seq<State>, labels: seq<Label>, start: nat, end: nat, name: string)
    requires IsCall(states, labels, start, end, CallDeleteService(name))
    ensures forall h :: h in states[start].svcs && states[start].svcs[h].name == name ==>
                          states[end].svcs == states[start].svcs - {h}
    ensures (forall h :: h in states[start].svcs ==> states[start].svcs[h].name != name) ==>
              states[end].svcs == states[start].svcs && states[end].leaked
  {
    DeletingServiceAt(states, labels, start, end, name, end - 1);
    RunInvariant(states, labels, start);
    var s := states[start];
    assert Flagged(s.svcs, None);
    hide Interleaving, Inv;
    forall h | h in s.svcs && s.svcs[h].name == name ensures Named(s, h, name) && states[end].svcs == s.svcs - {h} {
      assert Named(s, h, name);
      var k :| Named(s, k, name) && states[end].svcs == s.svcs - {k};
      assert k == h;
    }
  }

  /** Where AddService stands; `taken`: it has registered a service. */
  ghost predicate AddingService(s0: State, name: string, s: State, taken: bool) {
    match s.mgr
    case WantMu(n, delete) => n == name && !delete && s.svcs == s0.svcs && !taken
    case InMu(n, delete) => n == name && !delete && s.svcs == s0.svcs && !taken
    case Idle => if taken then NewService(s0, name, s) else s.svcs == s0.svcs
    case _ => false
  }

  /** A service without targets was added under a new name, on marks that are nobody's. */
  ghost predicate NewService(s0: State, name: string, s: State) {
    && (forall h :: !Named(s0, h, name))
    && exists h, range :: AddedOn(s0, name, s, h, range)
  }

  ghost predicate AddedOn(s0: State, name: string, s: State, h: nat, range: Range) {
    && h !in s0.svcs && s.svcs == s0.svcs[h := Svc(name, true, range, map[])]
    && 0 <= range.offset && 1 <= range.maxTargets
    && forall k :: k in s0.svcs ==>
         s0.svcs[k].range.offset + s0.svcs[k].range.maxTargets <= range.offset
         || range.offset + range.maxTargets <= s0.svcs[k].range.offset
  }

  lemma AddingServiceStep(s0: State, name: string, s: State, taken: bool, l: Label, s': State, taken': bool)
    requires Steps(s, l, s') && !s.mgr.Idle? && AddingService(s0, name, s, taken) && (taken' <==> taken || l.Register?)
    ensures AddingService(s0, name, s', taken')
  {
    if OfHealer(l) {
      HealerKeepsRest(s, l, s');
      NotOfHealer(l);
      hide Steps;
    } else {
      LabelsFit(s, l, s');
      if l.Register? {
        assert AddedOn(s0, name, s', l.h, l.range);
      }
    }
  }

  lemma AddingServiceStarts(s0: State, name: string, s: State)
    requires s0.mgr.Idle? && Steps(s0, CallAddService(name), s)
    ensures AddingService(s0, name, s, false)
  {
  }

  lemma TakenNext(labels: seq<Label>, start: nat, k: nat)
    requires start < k < |labels|
    ensures RegisterTaken(labels, start, k + 1) <==> RegisterTaken(labels, start, k) || labels[k].Register?
  {
  }

  lemma {:induction false} AddingServiceAt(states: seq<State>, labels: seq<Label>, start: nat, end: nat, name: string,
                                           n: nat)
    requires IsCall(states, labels, start, end, CallAddService(name)) && start <= n < end
    ensures n < |labels| && n + 1 < |states|
    ensures AddingService(states[start], name, states[n + 1], RegisterTaken(labels, start, n + 1))
  {
    StepOfCall(states, labels, start, end, CallAddService(name), n);
    if n > start {
      TakenNext(labels, start, n);
    }
    hide *;
    if n == start {
      AddingServiceStarts(states[start], name, states[n + 1]);
      NoneYet(labels, start);
    } else {
      AddingServiceAt(states, labels, start, end, name, n - 1);
      AddingServiceStep(states[start], name, states[n], RegisterTaken(labels, start, n), labels[n], states[n + 1],
                        RegisterTaken(labels, start, n + 1));
    }
  }

  /** AddService: from the call to its return. A service is added exactly when Register was taken, on a new name,
      without targets and on marks that are nobody's; otherwise nothing changes. So the name is registered afterwards
      exactly when it was before, or Register was taken. */
  lemma AddServiceCall(states: seq<State>, labels: seq<Label>, start: nat, end: nat, name: string)
    requires IsCall(states, labels, start, end, CallAddService(name)) && end <= |labels|
    ensures if RegisterTaken(labels, start, end) then NewService(states[start], name, states[end])
            else states[end].svcs == states[start].svcs
    ensures (exists h :: Named(states[end], h, name)) <==>
            (exists h :: Named(states[start], h, name)) || RegisterTaken(labels, start, end)
  {
    AddingServiceAt(states, labels, start, end, name, end - 1);
    hide Interleaving, RegisterTaken;
    var (s, s') := (states[start], states[end]);
    if RegisterTaken(labels, start, end) {
      var h, range :| AddedOn(s, name, s', h, range);
      assert Named(s', h, name);
    } else {
      assert forall h :: Named(s', h, name) <==> Named(s, h, name);
    }
  }

  // ---------------------------------------------------------------------------------------------
  // Every command may succeed or fail.

  /** The step is possible, and changes no route but these, which are there afterwards or not. */
  ghost predicate Possible(s: State, l: Label, mark: int, a: Address, there: bool) {
    exists s' :: Steps(s, l, s') && RoutesBecome(s, s', mark, a, there)
  }

  ghost predicate RoutesBecome(s: State, s': State, mark: int, a: Address, there: bool) {
    forall r: Route :: r in s'.routes <==> if r.mark == mark && LeadsTo(r, [a]) then there else r in s.routes
  }

  lemma StepTaken(s: State, l: Label, mark: int, a: Address, there: bool)
    requires Enabled(s) && Next(s, l).Some? && RoutesBecome(s, Next(s, l).value, mark, a, there)
    ensures Possible(s, l, mark, a, there)
  {
    assert Steps(s, l, Next(s, l).value);
    hide *;
  }

  /** Creating a route adds it or fails; a failure leaves it as it was, or takes it away. */
  lemma CreationMayFail(s: State)
    requires Enabled(s) && s.mgr.Creating? && s.mgr.todo != []
    ensures var (mark, a) := (Mark(s, s.mgr.h, s.mgr.id), s.mgr.todo[0]);
            && Possible(s, Create(true, false), mark, a, true)
            && Possible(s, Create(false, true), mark, a, false)
            && exists s' :: Steps(s, Create(false, false), s') && s'.routes == s.routes
  {
    var (mark, a) := (Mark(s, s.mgr.h, s.mgr.id), s.mgr.todo[0]);
    RoutesLead(mark, [a]);
    hide RoutesTo, LeadsTo;
    StepTaken(s, Create(true, false), mark, a, true);
    StepTaken(s, Create(false, true), mark, a, false);
    assert Steps(s, Create(false, false), Next(s, Create(false, false)).value);
  }

  /** And so it is for the healer. */
  lemma RestoringMayFail(s: State)
    requires Enabled(s) && s.heal.Restoring? && s.heal.ips != []
    ensures var (mark, a) := (Mark(s, s.heal.h, s.heal.id), s.heal.ips[0]);
            && Possible(s, Restore(true, false), mark, a, true)
            && Possible(s, Restore(false, true), mark, a, false)
            && exists s' :: Steps(s, Restore(false, false), s') && s'.routes == s.routes
  {
    var (mark, a) := (Mark(s, s.heal.h, s.heal.id), s.heal.ips[0]);
    RoutesLead(mark, [a]);
    hide RoutesTo, LeadsTo;
    StepTaken(s, Restore(true, false), mark, a, true);
    StepTaken(s, Restore(false, true), mark, a, false);
    assert Steps(s, Restore(false, false), Next(s, Restore(false, false)).value);
  }

  /** Deleting a route takes it away, or fails and leaves it. */
  lemma DeletionMayFail(s: State)
    requires Enabled(s) && s.mgr.Deleting? && s.mgr.todo != []
    ensures Possible(s, Delete(true), Mark(s, s.mgr.h, s.mgr.id), s.mgr.todo[0], false)
    ensures exists s' :: Steps(s, Delete(false), s') && s'.routes == s.routes
  {
    var (mark, a) := (Mark(s, s.mgr.h, s.mgr.id), s.mgr.todo[0]);
    RoutesLead(mark, [a]);
    hide RoutesTo, LeadsTo;
    StepTaken(s, Delete(true), mark, a, false);
    assert Steps(s, Delete(false), Next(s, Delete(false)).value);
  }

  /** Activations and deactivations may fail, and AddService and DeleteService may end early. */
  lemma CommandsMayFail(s: State, ok: bool)
    requires Enabled(s)
    ensures s.mgr.InService? && s.mgr.job.AddT? ==> exists s' :: Steps(s, Record(ok), s')
    ensures s.mgr.InService? && s.mgr.job.DeleteT? ==> exists s' :: Steps(s, Forget(s.mgr.job.id, ok), s')
    ensures s.mgr.InService? && s.mgr.job.Clear? ==>
              && (exists s' :: Steps(s, GiveUp, s'))
              && forall id :: id in s.svcs[s.mgr.h].targets ==> exists s' :: Steps(s, Forget(id, ok), s')
    ensures s.mgr.InMu? && !s.mgr.delete ==> exists s' :: Steps(s, GiveUp, s')
  {
    hide RoutesTo;
    if s.mgr.InMu? && !s.mgr.delete {
      assert Steps(s, GiveUp, Next(s, GiveUp).value);
    }
    if s.mgr.InService? {
      match s.mgr.job {
        case AddT(_, _) => assert Steps(s, Record(ok), Next(s, Record(ok)).value);
        case DeleteT(id, _) => assert Steps(s, Forget(id, ok), Next(s, Forget(id, ok)).value);
        case Clear =>
          assert Steps(s, GiveUp, Next(s, GiveUp).value);
          forall id | id in s.svcs[s.mgr.h].targets ensures exists s' :: Steps(s, Forget(id, ok), s') {
            assert Steps(s, Forget(id, ok), Next(s, Forget(id, ok)).value);
          }
      }
    }
  }
}
