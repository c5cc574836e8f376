/** What each operation leaves behind, field by field: who is changed, to what, and that nobody else
    is. The other modules reason with the operations as functions; here their answers are spelled
    out in the terms a caller sees. */
module Effects {
  import opened Types
  import opened Seqs
  import opened Workflow
  import opened Leases
  import opened Protocol

  /** `after` is `before` with a new status, assignee and reason, `steps` versions on. */
  ghost predicate Becomes(
    before: Task, after: Task, status: TaskStatus, assignee: Option<Id>, steps: int, reason: Option<string>)
  {
    after == Task(before.title, before.needs, before.dependsOn, before.priority, status, assignee,
                  before.createdAt, before.version + steps, reason)
  }

  ghost predicate Keeps(before: Task, after: Task, status: TaskStatus, steps: int) {
    Becomes(before, after, status, before.assignedTo, steps, before.failReason)
  }

  ghost predicate AllDone(ts: Tasks, deps: seq<Id>) {
    forall d :: d in deps ==> d in ts && ts[d].status == Completed
  }

  // ---------------------------------------------------------------------------------------------
  // Placement
  // ---------------------------------------------------------------------------------------------

  /** `n` is online and lists every needed capability. */
  ghost predicate CanRun(reg: Registry, n: Id, needs: seq<string>) {
    n in reg.nodes && reg.nodes[n].status == Online && forall c :: c in needs ==> c in reg.nodes[n].capabilities
  }

  ghost predicate FirstThatCan(reg: Registry, needs: seq<string>, j: nat) {
    j < |reg.ids| && CanRun(reg, reg.ids[j], needs) && forall k :: 0 <= k < j ==> !CanRun(reg, reg.ids[k], needs)
  }

  /** A task is placed on the first registered node that is online and has all it needs; it is placed
      nowhere exactly when there is no such node. */
  lemma PlacementIsFirstCapable(reg: Registry, needs: seq<string>)
    ensures FirstFit(reg, needs) == None <==> forall n :: n in reg.ids ==> !CanRun(reg, n, needs)
    ensures forall j: nat :: FirstThatCan(reg, needs, j) ==> FirstFit(reg, needs) == Some(reg.ids[j])
  {
    forall n ensures CanRun(reg, n, needs) <==> Fits(reg, needs)(n) { }
    FirstFitIsFirst(reg, needs);
    forall j: nat | FirstThatCan(reg, needs, j) ensures FirstFit(reg, needs) == Some(reg.ids[j]) {
      FilterHead(Fits(reg, needs), reg.ids, j);
    }
  }

  /** A scheduling pass: a ready task with a place runs there, one version on; nobody else changes. */
  lemma ScheduleEffect(ts: Tasks, reg: Registry, t: Id)
    requires t in ts
    ensures var ts', place := Schedule(ts, reg), FirstFit(reg, ts[t].needs);
      && ts'.Keys == ts.Keys
      && if ts[t].status == Ready && place.Some? then Becomes(ts[t], ts'[t], Running, place, 1, ts[t].failReason)
         else ts'[t] == ts[t]
  {
  }

  /** The decisions of a pass: one for each ready task with a place, telling its title, priority and
      place; most urgent first, that is by smallest priority number, then oldest first, then in
      table order. */
  lemma DecisionsByUrgency(ids: seq<Id>, ts: Tasks, reg: Registry, i: nat, j: nat)
    requires KeysInOrder(ids, ts) && i < j < |NewDecisions(ids, ts, reg)|
    ensures var ds := NewDecisions(ids, ts, reg);
      var a, b := ds[i].taskId, ds[j].taskId;
      && a in ts && b in ts && a != b
      && ts[a].priority <= ts[b].priority
      && (ts[a].priority == ts[b].priority ==> ts[a].createdAt <= ts[b].createdAt)
      && (ts[a].priority == ts[b].priority && ts[a].createdAt == ts[b].createdAt ==>
            exists k, l :: 0 <= k < l < |ids| && ids[k] == a && ids[l] == b)
  {
    DecisionsAreSortedAndStable(ids, ts, reg);
    assert ServedBeforeIn(ts, ids)(NewDecisions(ids, ts, reg)[i].taskId, NewDecisions(ids, ts, reg)[j].taskId);
  }

  lemma DecisionsTellPlacements(ids: seq<Id>, ts: Tasks, reg: Registry)
    requires KeysInOrder(ids, ts)
    ensures var ds := NewDecisions(ids, ts, reg);
      && (forall i :: 0 <= i < |ds| ==>
            (&& ds[i].taskId in ts && ts[ds[i].taskId].status == Ready
             && ds[i].title == ts[ds[i].taskId].title && ds[i].priority == ts[ds[i].taskId].priority
             && Some(ds[i].nodeId) == FirstFit(reg, ts[ds[i].taskId].needs)))
      && (forall t :: t in ts && ts[t].status == Ready && FirstFit(reg, ts[t].needs).Some? ==>
            exists i :: 0 <= i < |ds| && ds[i].taskId == t)
  {
    DecisionsAreSortedAndStable(ids, ts, reg);
    forall t | t in ts && ts[t].status == Ready && FirstFit(reg, ts[t].needs).Some?
      ensures exists i :: 0 <= i < |NewDecisions(ids, ts, reg)| && NewDecisions(ids, ts, reg)[i].taskId == t
    {
      assert Schedulable(ts, reg)(t);
    }
  }

  // ---------------------------------------------------------------------------------------------
  // Task store
  // ---------------------------------------------------------------------------------------------

  /** A rescan: a pending task with all dependencies completed becomes ready at its version. */
  lemma PromoteEffect(ts: Tasks, t: Id)
    requires t in ts
    ensures Promote(ts).Keys == ts.Keys
    ensures Keeps(ts[t], Promote(ts)[t],
              if ts[t].status == Pending && AllDone(ts, ts[t].dependsOn) then Ready else ts[t].status, 0)
  {
  }

  /** The single writes of the store to task `x`. */
  lemma SingleWrites(ts: Tasks, x: Id, status: TaskStatus, reason: string, deps: seq<Id>)
    requires x in ts
    ensures SetStatus(ts, x, status, reason) == ts[x := SetStatus(ts, x, status, reason)[x]]
    ensures Becomes(ts[x], SetStatus(ts, x, status, reason)[x], status, ts[x].assignedTo, 1,
              if reason != "" then Some(reason) else ts[x].failReason)
    ensures Unassign(ts, x) == ts[x := Unassign(ts, x)[x]]
    ensures Becomes(ts[x], Unassign(ts, x)[x], Ready, None, 1, ts[x].failReason)
    ensures SetDependsOn(ts, x, deps) == ts[x := SetDependsOn(ts, x, deps)[x]]
    ensures Keeps(ts[x].(dependsOn := deps), SetDependsOn(ts, x, deps)[x], ts[x].status, 1)
    ensures Unblock(ts, x) == ts[x := Unblock(ts, x)[x]]
    ensures if ts[x].status == Blocked then Keeps(ts[x], Unblock(ts, x)[x], Pending, 1) else Unblock(ts, x)[x] == ts[x]
  {
  }

  // ---------------------------------------------------------------------------------------------
  // Task handlers
  // ---------------------------------------------------------------------------------------------

  /** The priority asked for if it is positive, else 3. */
  lemma SubmitEffect(s: System, id: Id, title: string, needs: seq<string>, priority: int, now: int, t: Id)
    requires id !in s.tasks
    ensures var s' := Submit(s, id, title, needs, priority, now);
      && s' == s.(ids := s.ids + [id], tasks := s'.tasks) && s'.tasks.Keys == s.tasks.Keys + {id}
      && s'.tasks[id] == Task(title, needs, [], if priority > 0 then priority else 3, Ready, None, now, 1, None)
      && (t in s.tasks ==>
            Keeps(s.tasks[t], s'.tasks[t],
              if s.tasks[t].status == Pending && AllDone(s.tasks, s.tasks[t].dependsOn) then Ready
              else s.tasks[t].status, 0))
  {
  }

  /** A claim changes its task and adds one lease, unless an id is empty; a task that is not ready,
      or has an assignee, is left alone. */
  lemma ClaimEffect(s: System, t: Id, node: Id, leaseId: Id, ttl: int, now: int)
    requires FreshId(s.leases.table, leaseId)
    ensures var s' := Claim(s, t, node, leaseId, ttl, now);
      if t in s.tasks && s.tasks[t].status == Ready && s.tasks[t].assignedTo == None then
        && s' == s.(tasks := s.tasks[t := s'.tasks[t]], leases := s'.leases)
        && Becomes(s.tasks[t], s'.tasks[t], Running, Some(node), 2, s.tasks[t].failReason)
        && if t == "" || node == "" then s'.leases == s.leases
           else s'.leases.table.leases == s.leases.table.leases[leaseId := Lease(t, node, now, now + ttl, Active)]
      else s' == s
  {
  }

  /** Revoking for a task: one active lease of the task, if it has any, becomes revoked; no other
      lease changes. */
  lemma RevokeForEffect(s: System, t: Id)
    requires TableOk(s.leases.table) && t != ""
    ensures var s', before := RevokeFor(s, t), s.leases.table.leases;
      && s' == s.(leases := s'.leases)
      && ((forall l :: l in before && before[l].taskId == t ==> before[l].status != Active) ==> s' == s)
      && (s' == s || exists l ::
            (&& l in before && before[l].taskId == t && before[l].status == Active
             && s'.leases.table.leases == before[l := before[l].(status := Revoked)]
             && s'.leases.stats == s.leases.stats.(revoked := s.leases.stats.revoked + 1)))
  {
    LookupRefinesSearch(s.leases.table, t);
  }

  /** A release by the holder: the task is ready, held by nobody, two versions on, and can be claimed
      by any node; any other release changes nothing. */
  lemma ReleaseEffect(s: System, t: Id, node: Id, reason: string)
    ensures var s' := Release(s, t, node, reason);
      if t in s.tasks && s.tasks[t].assignedTo == Some(node) then
        && s' == s.(tasks := s.tasks[t := s'.tasks[t]], leases := RevokeFor(s, t).leases)
        && Becomes(s.tasks[t], s'.tasks[t], Ready, None, 2, if reason != "" then Some(reason) else s.tasks[t].failReason)
      else s' == s
  {
  }

  lemma ReleasedTaskIsClaimable(
    s: System, t: Id, node: Id, reason: string, next: Id, leaseId: Id, ttl: int, now: int)
    requires t in s.tasks && s.tasks[t].assignedTo == Some(node) && t != "" && next != ""
    requires FreshId(Release(s, t, node, reason).leases.table, leaseId)
    ensures var s' := Release(s, t, node, reason);
      var s'' := Claim(s', t, next, leaseId, ttl, now);
      && Claimable(s', t)
      && t in s''.tasks && s''.tasks[t].status == Running && s''.tasks[t].assignedTo == Some(next)
      && leaseId in s''.leases.table.leases
      && s''.leases.table.leases[leaseId] == Lease(t, next, now, now + ttl, Active)
  {
    ReleaseEffect(s, t, node, reason);
    ClaimEffect(Release(s, t, node, reason), t, next, leaseId, ttl, now);
  }

  ghost predicate Freed(ts: Tasks, x: Id, t: Id) {
    && t in ts && t != x && ts[t].status == Pending && x in ts[t].dependsOn
    && forall d :: d in ts[t].dependsOn ==> d == x || (d in ts && ts[d].status == Completed)
  }

  /** Completing `x`, before anything is scheduled: a pending dependent with nothing else open becomes
      ready, one version on. */
  lemma DownstreamEffect(ts: Tasks, x: Id, t: Id)
    requires x in ts && t in ts
    ensures var after := Downstream(SetStatus(ts, x, Completed, ""), x);
      && after.Keys == ts.Keys
      && if t == x then Keeps(ts[t], after[t], Completed, 1)
         else if Freed(ts, x, t) then Keeps(ts[t], after[t], Ready, 1)
         else after[t] == ts[t]
  {
    var done := SetStatus(ts, x, Completed, "");
    assert forall d :: d in ts ==> (done[d].status == Completed <==> d == x || ts[d].status == Completed);
    if t != x { assert done[t] == ts[t]; }
  }

  /** A task that was freed or ready, after the scheduling pass that follows. */
  ghost predicate FreedAndPlaced(before: Task, after: Task, freed: bool, place: Option<Id>) {
    Becomes(before, after,
      if place.Some? then Running else if freed then Ready else before.status,
      if place.Some? then place else before.assignedTo,
      (if freed then 1 else 0) + (if place.Some? then 1 else 0), before.failReason)
  }

  lemma ScheduledAfter(before: Task, down: Tasks, reg: Registry, t: Id, freed: bool)
    requires t in down && if freed then Keeps(before, down[t], Ready, 1) else down[t] == before
    ensures t in Schedule(down, reg)
    ensures FreedAndPlaced(before, Schedule(down, reg)[t], freed,
              if freed || before.status == Ready then FirstFit(reg, before.needs) else None)
  {
    ScheduleEffect(down, reg, t);
  }

  /** A completion: the task itself is completed; a freed dependent becomes ready; and whatever is
      ready then runs if it has a place. */
  lemma CompleteEffect(s: System, x: Id, t: Id)
    requires x in s.tasks && t in s.tasks
    ensures var s', task, freed := Complete(s, x), s.tasks[t], Freed(s.tasks, x, t);
      && s' == s.(tasks := s'.tasks, leases := RevokeFor(s, x).leases, history := s'.history)
      && s.history <= s'.history
      && s'.tasks.Keys == s.tasks.Keys
      && if t == x then Keeps(task, s'.tasks[t], Completed, 1)
         else FreedAndPlaced(task, s'.tasks[t], freed,
                if freed || task.status == Ready then FirstFit(s.reg, task.needs) else None)
  {
    var down := Downstream(SetStatus(s.tasks, x, Completed, ""), x);
    DownstreamEffect(s.tasks, x, t);
    if t == x {
      ScheduleEffect(down, s.reg, t);
    } else {
      ScheduledAfter(s.tasks[t], down, s.reg, t, Freed(s.tasks, x, t));
    }
  }

  /** A failure: the task is failed, with the reason if one is given; every other pending task that
      depends on it is blocked, one version on; nobody else changes. */
  lemma FailEffect(s: System, x: Id, reason: string, t: Id)
    requires x in s.tasks && t in s.tasks
    ensures var s', task := Fail(s, x, reason), s.tasks[t];
      && s' == s.(tasks := s'.tasks) && s'.tasks.Keys == s.tasks.Keys
      && (t == x ==>
            Becomes(task, s'.tasks[t], Failed, task.assignedTo, 1,
              if reason != "" then Some(reason) else task.failReason))
      && (t != x && task.status == Pending && x in task.dependsOn ==> Keeps(task, s'.tasks[t], Blocked, 1))
      && (t != x && !(task.status == Pending && x in task.dependsOn) ==> s'.tasks[t] == task)
  {
  }

  /** An advance is accepted when all dependencies are completed; the task is then ready whatever it
      was, and it and all other ready tasks run if they have a place. */
  lemma AdvanceEffect(s: System, x: Id, t: Id)
    requires x in s.tasks && t in s.tasks
    ensures var s', task := Advance(s, x), s.tasks[t];
      if !AllDone(s.tasks, s.tasks[x].dependsOn) then s' == s
      else
        var place := if t == x || task.status == Ready then FirstFit(s.reg, task.needs) else None;
        && s' == s.(tasks := s'.tasks, history := s'.history) && s'.tasks.Keys == s.tasks.Keys
        && s.history <= s'.history
        && Becomes(task, s'.tasks[t],
             if place.Some? then Running else if t == x then Ready else task.status,
             if place.Some? then place else task.assignedTo,
             (if t == x then 1 else 0) + (if place.Some? then 1 else 0), task.failReason)
  {
    if AdvanceAccepted(s, x) {
      ScheduleEffect(SetStatus(s.tasks, x, Ready, ""), s.reg, t);
    }
  }

  /** Unblocking makes a blocked task pending; setting dependencies replaces them and leaves the
      status alone; both move the version by one and touch nobody else. */
  lemma UnblockAndDependenciesEffect(s: System, x: Id, deps: seq<Id>)
    ensures var s' := UnblockOne(s, x);
      if x in s.tasks && s.tasks[x].status == Blocked then
        s' == s.(tasks := s.tasks[x := s'.tasks[x]]) && Keeps(s.tasks[x], s'.tasks[x], Pending, 1)
      else s' == s
    ensures var s' := SetDeps(s, x, deps);
      if x in s.tasks then
        s' == s.(tasks := s.tasks[x := s'.tasks[x]])
        && Keeps(s.tasks[x].(dependsOn := deps), s'.tasks[x], s.tasks[x].status, 1)
      else s' == s
  {
  }

  /** The schedule trigger: promoted tasks take part in the pass. */
  lemma TriggerEffect(s: System, t: Id)
    requires t in s.tasks
    ensures var s', task := Trigger(s), s.tasks[t];
      var ready := task.status == Ready || (task.status == Pending && AllDone(s.tasks, task.dependsOn));
      var place := if ready then FirstFit(s.reg, task.needs) else None;
      && s' == s.(tasks := s'.tasks, history := s'.history) && s'.tasks.Keys == s.tasks.Keys
      && s.history <= s'.history
      && Becomes(task, s'.tasks[t],
           if place.Some? then Running else if ready then Ready else task.status,
           if place.Some? then place else task.assignedTo,
           if place.Some? then 1 else 0, task.failReason)
  {
    PromoteEffect(s.tasks, t);
    ScheduleEffect(Promote(s.tasks), s.reg, t);
  }

  /** The list that the schedule trigger replies with. */
  lemma AssignmentsTellRunningTasks(ts: Tasks, ids: seq<Id>)
    ensures var list := Assignments(ts, ids);
      && (forall k :: 0 <= k < |list| ==>
            (&& list[k].taskId in ids && list[k].taskId in ts && ts[list[k].taskId].status == Running
             && ts[list[k].taskId].assignedTo == Some(list[k].nodeId) && list[k].nodeId != ""
             && list[k].title == ts[list[k].taskId].title && list[k].priority == ts[list[k].taskId].priority))
      && (forall t :: (t in ids && t in ts
            && ts[t].status == Running && ts[t].assignedTo.Some? && ts[t].assignedTo != Some("")) ==>
            exists k :: 0 <= k < |list| && list[k].taskId == t)
  {
    AssignmentsAre(ts, ids);
    var list, running := Assignments(ts, ids), Filter(RunningHeld(ts), ids);
    forall k | 0 <= k < |list| ensures running[k] in ids && RunningHeld(ts)(running[k]) {
      assert running[k] in running;
    }
    forall t | t in ids && t in ts && ts[t].status == Running && ts[t].assignedTo.Some? && ts[t].assignedTo != Some("")
      ensures exists k :: 0 <= k < |list| && list[k].taskId == t
    {
      assert t in running;
      var k :| 0 <= k < |running| && running[k] == t;
      assert list[k].taskId == t;
    }
  }

  // ---------------------------------------------------------------------------------------------
  // The resolver
  // ---------------------------------------------------------------------------------------------

  /** Completion through the resolver: a pending dependent with all dependencies completed is ready;
      any other pending task that depends on `x`, or on a task so readied, is blocked if one of its
      dependencies has failed; nobody else changes. */
  lemma PropagateEffect(ts: Tasks, x: Id, t: Id)
    requires t in ts
    ensures var ts', task := Propagate(ts, x), ts[t];
      var readied := task.status == Pending && x in task.dependsOn && AllDone(ts, task.dependsOn);
      var reached := x in task.dependsOn || exists p :: p in task.dependsOn && Readied(ts, x, p);
      var failed := exists d :: d in task.dependsOn && d in ts && ts[d].status == Failed;
      && ts'.Keys == ts.Keys
      && if readied then Keeps(task, ts'[t], Ready, 1)
         else if task.status == Pending && reached && failed
         then Becomes(task, ts'[t], Blocked, task.assignedTo, 1, Some("dependency failed"))
         else ts'[t] == task
  {
    forall p ensures Readied(ts, x, p) <==> PromotedBy(ts, x)(p) { }
    assert BlockedBy(ts, x)(t) <==>
      && ts[t].status == Pending && DepFailed(ts, ts[t].dependsOn)
      && (x in ts[t].dependsOn || exists p :: p in ts[t].dependsOn && Readied(ts, x, p));
  }

  ghost predicate Readied(ts: Tasks, x: Id, p: Id) {
    p in ts && ts[p].status == Pending && x in ts[p].dependsOn && AllDone(ts, ts[p].dependsOn)
  }

  /** Failure through the resolver: every pending dependent is blocked, and told why. */
  lemma PropagateFailureEffect(ts: Tasks, x: Id, t: Id)
    requires t in ts
    ensures var ts', task := PropagateFailure(ts, x), ts[t];
      && ts'.Keys == ts.Keys
      && if task.status == Pending && x in task.dependsOn
         then Becomes(task, ts'[t], Blocked, task.assignedTo, 1, Some("dependency " + x + " failed"))
         else ts'[t] == task
  {
  }

  // ---------------------------------------------------------------------------------------------
  // Leases
  // ---------------------------------------------------------------------------------------------

  /** The lifetime asked for, unless it is missing or zero. */
  lemma LifetimeIs(ttl: Option<int>, configured: int)
    ensures ttl == None || ttl == Some(0) ==> EffectiveTtl(ttl, configured) == configured
    ensures ttl.Some? && ttl.value != 0 ==> EffectiveTtl(ttl, configured) == ttl.value
  {
  }

  /** Creation and revocation through the manager: one lease is written and one counter raised, or
      nothing happens. */
  lemma ManagerEffects(ls: LeaseState, id: Id, t: Id, n: Id, ttl: int, now: int)
    ensures var made := Create(ls, id, t, n, ttl, now);
      if t == "" || n == "" then made == ls
      else
        && made.table.leases == ls.table.leases[id := Lease(t, n, now, now + ttl, Active)]
        && made.table.index == ls.table.index[t := id]
        && made.stats == ls.stats.(created := ls.stats.created + 1)
    ensures var gone := Revoke(ls, id);
      if id == "" || id !in ls.table.leases then gone == ls
      else
        && gone.table.leases == ls.table.leases[id := ls.table.leases[id].(status := Revoked)]
        && gone.table.index == ls.table.index - {ls.table.leases[id].taskId}
        && gone.table.ids == ls.table.ids
        && gone.stats == ls.stats.(revoked := ls.stats.revoked + 1)
  {
  }

  /** Lookup by task: the lease that the index names, if it is active; otherwise the earliest created
      active lease of the task. */
  lemma LookupPrefersIndex(lt: LeaseTable, t: Id, j: nat)
    requires TableOk(lt) && t != ""
    ensures t in lt.index && lt.leases[lt.index[t]].status == Active ==> LeaseByTask(lt, t) == Some(lt.index[t])
    ensures !(t in lt.index && lt.leases[lt.index[t]].status == Active) && j < |lt.ids|
      && lt.ids[j] in lt.leases && lt.leases[lt.ids[j]].taskId == t && lt.leases[lt.ids[j]].status == Active
      && (forall k :: 0 <= k < j ==>
            lt.ids[k] in lt.leases && (lt.leases[lt.ids[k]].taskId != t || lt.leases[lt.ids[k]].status != Active))
      ==> LeaseByTask(lt, t) == Some(lt.ids[j])
  {
    if j < |lt.ids| && ActiveFor(lt.leases, t)(lt.ids[j])
      && forall k :: 0 <= k < j ==> !ActiveFor(lt.leases, t)(lt.ids[k])
    {
      FilterHead(ActiveFor(lt.leases, t), lt.ids, j);
    }
  }

  /** A scan at `now`: an active lease whose time has come, the very instant included, expires; no
      other lease changes. */
  lemma ScanEffect(ls: LeaseState, now: int, l: Id)
    requires l in ls.table.leases
    ensures var after, lease := Scan(ls, now), ls.table.leases[l];
      && after.table.leases.Keys == ls.table.leases.Keys
      && after.table.ids == ls.table.ids && after.table.index == ls.table.index
      && after.table.leases[l] ==
           if lease.status == Active && lease.expiresAt <= now
           then Lease(lease.taskId, lease.nodeId, lease.createdAt, lease.expiresAt, Expired) else lease
  {
  }

  lemma {:induction false} NoticesAre(leases: map<Id, Lease>, ids: seq<Id>)
    requires forall l :: l in ids ==> l in leases
    ensures |Notices(leases, ids)| == |ids|
    ensures forall k :: 0 <= k < |ids| ==>
      ids[k] in leases && Notices(leases, ids)[k] == (leases[ids[k]].taskId, leases[ids[k]].nodeId)
  {
    if ids != [] {
      NoticesAre(leases, ids[..|ids| - 1]);
    }
  }

  /** And for each lease that expires the listeners are told its task and node, in order. */
  lemma ScanNotifies(ls: LeaseState, now: int)
    requires TableOk(ls.table)
    ensures var after, due := Scan(ls, now).stats, Overdue(ls.table, now);
      && (forall l :: l in due <==>
            l in ls.table.leases && ls.table.leases[l].status == Active && ls.table.leases[l].expiresAt <= now)
      && |after.notified| == |ls.stats.notified| + |due| && ls.stats.notified <= after.notified
      && (forall k :: 0 <= k < |due| ==>
            (&& due[k] in ls.table.leases
             && after.notified[|ls.stats.notified| + k] ==
                  (ls.table.leases[due[k]].taskId, ls.table.leases[due[k]].nodeId)))
      && after.created == ls.stats.created && after.revoked == ls.stats.revoked
  {
    OverdueIsExactlyOverdue(ls.table, now);
    NoticesAre(ls.table.leases, Overdue(ls.table, now));
  }

  // ---------------------------------------------------------------------------------------------
  // Recovery
  // ---------------------------------------------------------------------------------------------

  /** The leases after the revocations for a node: its live ones are revoked, all overdue ones
      expired, and no other lease changes. */
  lemma RevokeNodeEffect(s: System, node: Id, now: int, l: Id)
    requires TableOk(s.leases.table) && l in s.leases.table.leases
    ensures var s', lease := RevokeNode(s, node, now), s.leases.table.leases[l];
      && s' == s.(leases := s'.leases, log := s'.log)
      && l in s'.leases.table.leases
      && s'.leases.table.leases[l] ==
           lease.(status :=
             if lease.status != Active then lease.status
             else if lease.expiresAt <= now then Expired
             else if lease.nodeId == node then Revoked else Active)
  {
    ScanEffect(s.leases, now, l);
    RevokeAllOfIs(Scan(s.leases, now).table, ToRevoke(s, node, now));
    assert l in s.leases.table.ids;
  }

  /** One orphan: on its place and running, or failed for want of one, in either case two versions
      on. A place with an empty id is taken and then counts as none. */
  lemma RescheduleOneEffect(s: System, t: Id)
    requires t in s.tasks
    ensures var s', place := RescheduleOne(s, t), FirstFit(s.reg, s.tasks[t].needs);
      && t in s'.tasks
      && if place.Some? && place != Some("") then
           Becomes(s.tasks[t], s'.tasks[t], Running, place, 2, s.tasks[t].failReason)
         else
           Becomes(s.tasks[t], s'.tasks[t], Failed, place, if place.Some? then 3 else 2,
             Some("no available node for reschedule"))
  {
    ScheduleEffect(Unassign(s.tasks, t), s.reg, t);
  }

  /** The log entries of the revocations and of one rescheduled orphan. */
  lemma RecoveryEventsAre(s: System, tasks: seq<Id>, node: Id, t: Id)
    requires t in s.tasks
    ensures |RevokeEvents(tasks, node)| == |tasks|
    ensures forall i :: 0 <= i < |tasks| ==>
      RevokeEvents(tasks, node)[i] == RecoveryEvent(tasks[i], node, LeaseRevoked, Done)
    ensures RescheduleOne(s, t).log == s.log +
      [RecoveryEvent(t, "", if Truthy(FirstFit(s.reg, s.tasks[t].needs)) then Rescheduled else MarkedFailed, Done)]
  {
    ScheduleEffect(Unassign(s.tasks, t), s.reg, t);
  }
}
