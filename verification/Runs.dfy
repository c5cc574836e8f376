/** Runs of the protocol: any interleaving of handler calls, lease operations, recoveries, resolver
    calls, sync messages, merges of snapshot entries and changes of the node registry. */
module Runs {
  import opened Types
  import opened Seqs
  import opened Workflow
  import opened Leases
  import opened Protocol
  import G = SyncGate
  import F = FullSync

  datatype Event =
    | DoSubmit(id: Id, title: string, needs: seq<string>, priority: int)
    | DoClaim(t: Id, node: Id, leaseId: Id, ttl: int)
    | DoRelease(t: Id, node: Id, reason: string)
    | DoComplete(t: Id)
    | DoFail(t: Id, reason: string)
    | DoUnblock(t: Id)
    | DoSetDeps(t: Id, deps: seq<Id>)
    | DoAdvance(t: Id)
    | DoTrigger
    | DoResolve(t: Id)
    | DoResolveFailure(t: Id)
    | DoLeaseRevoke(id: Id)
    | DoLeaseExtend(id: Id, newId: Id, ttl: int)
    | DoLeaseScan
    | DoLeaseGrant(id: Id, t: Id, node: Id, ttl: int)
    | DoRecover(node: Id)
    | DoSync(msg: G.SyncMessage)
    | DoMerge(entry: F.Entry)
    | DoNodes(reg: Registry)

  function HandleSync(s: System, msg: G.SyncMessage, now: int): System {
    var gate := G.Handle(G.Gate(s.syncVersion, s.ids, s.tasks), msg, now);
    s.(ids := gate.ids, tasks := gate.tasks, syncVersion := gate.version)
  }

  function MergeEntry(s: System, entry: F.Entry, now: int): System {
    var table := F.ReceiveOne(F.Table(s.ids, s.tasks), entry, now);
    s.(ids := table.ids, tasks := table.tasks)
  }

  function Next(s: System, e: Event, now: int): System {
    match e
    case DoSubmit(id, title, needs, priority) => Submit(s, id, title, needs, priority, now)
    case DoClaim(t, node, leaseId, ttl) => Claim(s, t, node, leaseId, ttl, now)
    case DoRelease(t, node, reason) => Release(s, t, node, reason)
    case DoComplete(t) => Complete(s, t)
    case DoFail(t, reason) => Fail(s, t, reason)
    case DoUnblock(t) => UnblockOne(s, t)
    case DoSetDeps(t, deps) => SetDeps(s, t, deps)
    case DoAdvance(t) => Advance(s, t)
    case DoTrigger => Trigger(s)
    case DoResolve(t) => s.(tasks := Propagate(s.tasks, t))
    case DoResolveFailure(t) => s.(tasks := PropagateFailure(s.tasks, t))
    case DoLeaseRevoke(id) => s.(leases := s.leases.(table := RevokeLease(s.leases.table, id)))
    case DoLeaseExtend(id, newId, ttl) => s.(leases := Extend(s.leases, id, newId, ttl, now))
    case DoLeaseScan => s.(leases := Scan(s.leases, now))
    case DoLeaseGrant(id, t, node, ttl) =>
      s.(leases := s.leases.(table := CreateLease(s.leases.table, id, t, node, ttl, now)))
    case DoRecover(node) => Recover(s, node, now)
    case DoSync(msg) => HandleSync(s, msg, now)
    case DoMerge(entry) => MergeEntry(s, entry, now)
    case DoNodes(reg) => s.(reg := reg)
  }

  /** Generated ids are new; an extension that waits for its own lock is not a step. */
  predicate Enabled(s: System, e: Event, now: int) {
    match e
    case DoSubmit(id, _, _, _) => id !in s.tasks
    case DoClaim(_, _, leaseId, _) => FreshId(s.leases.table, leaseId)
    case DoLeaseExtend(id, newId, _) => FreshId(s.leases.table, newId) && !ExtendHangs(s.leases, id, now)
    case DoLeaseGrant(id, _, _, _) => FreshId(s.leases.table, id)
    case _ => true
  }

  ghost predicate IsRun(states: seq<System>, events: seq<Event>, times: seq<int>) {
    && |states| == |events| + 1 && |times| == |events|
    && forall i :: 0 <= i < |events| ==>
         Enabled(states[i], events[i], times[i]) && states[i + 1] == Next(states[i], events[i], times[i])
  }

  function EmptySystem(reg: Registry): System {
    System([], map[], [], reg, LeaseState(LeaseTable([], map[], map[]), Stats(0, 0, 0, [], [])), [], 0)
  }
}

/** One task is held by at most one node at a time. */
module Exclusion {
  import opened Types
  import opened Seqs
  import opened Workflow
  import opened Leases
  import opened Protocol
  import opened Runs
  import G = SyncGate
  import F = FullSync

  /** The task of active lease `l` exists, is assigned to the lease's node, and is running or failed. */
  ghost predicate Backed(s: System, l: Id)
    requires l in s.leases.table.leases
  {
    var lease := s.leases.table.leases[l];
    && lease.taskId != "" && lease.taskId in s.tasks
    && s.tasks[lease.taskId].assignedTo == Some(lease.nodeId)
    && (s.tasks[lease.taskId].status == Running || s.tasks[lease.taskId].status == Failed)
  }

  /** No task has two active leases, and every active lease is backed by its task. */
  ghost predicate Exclusive(s: System) {
    var leases := s.leases.table.leases;
    && TableOk(s.leases.table)
    && (forall l :: l in leases && leases[l].status == Active ==> Backed(s, l))
    && (forall l, m ::
          (l in leases && m in leases && leases[l].status == Active && leases[m].status == Active
           && leases[l].taskId == leases[m].taskId) ==> l == m)
  }

  ghost predicate Unleased(s: System, t: Id) {
    forall l :: l in s.leases.table.leases && s.leases.table.leases[l].status == Active ==>
      s.leases.table.leases[l].taskId != t
  }

  /** A step that leaves the leases alone keeps exclusion if it keeps assignee and backing status
      of every task that has an active lease. */
  lemma TaskStepKeeps(s: System, s': System)
    requires Exclusive(s) && s'.leases == s.leases
    requires forall t :: t in s.tasks && !Unleased(s, t) ==>
      (&& t in s'.tasks
       && s'.tasks[t].assignedTo == s.tasks[t].assignedTo
       && (s'.tasks[t].status == Running || s'.tasks[t].status == Failed))
    ensures Exclusive(s')
  {
    var leases := s.leases.table.leases;
    forall l | l in leases && leases[l].status == Active ensures Backed(s', l) {
      assert Backed(s, l);
      assert !Unleased(s, leases[l].taskId);
    }
  }

  lemma LeasedIsHeld(s: System, t: Id)
    requires Exclusive(s) && !Unleased(s, t)
    ensures t in s.tasks && (s.tasks[t].status == Running || s.tasks[t].status == Failed)
    ensures s.tasks[t].assignedTo.Some? && t != ""
  {
    var l :| l in s.leases.table.leases && s.leases.table.leases[l].status == Active
      && s.leases.table.leases[l].taskId == t;
    assert Backed(s, l);
  }

  lemma ScheduleKeeps(s: System)
    requires Exclusive(s)
    ensures Exclusive(ScheduleAll(s))
  {
    forall t | t in s.tasks && !Unleased(s, t)
      ensures Schedule(s.tasks, s.reg)[t] == s.tasks[t]
    {
      LeasedIsHeld(s, t);
    }
    TaskStepKeeps(s, ScheduleAll(s));
  }

  lemma PromoteKeeps(s: System)
    requires Exclusive(s)
    ensures Exclusive(PromoteAll(s))
  {
    forall t | t in s.tasks && !Unleased(s, t)
      ensures Promote(s.tasks)[t] == s.tasks[t]
    {
      LeasedIsHeld(s, t);
    }
    TaskStepKeeps(s, PromoteAll(s));
  }

  lemma SubmitKeeps(s: System, id: Id, title: string, needs: seq<string>, priority: int, now: int)
    requires Exclusive(s) && id !in s.tasks
    ensures Exclusive(Submit(s, id, title, needs, priority, now))
  {
    var s1 := AddTask(s, id, NewTask(title, needs, EffectivePriority(priority), now));
    TaskStepKeeps(s, s1);
    PromoteKeeps(s1);
  }

  lemma ClaimKeeps(s: System, t: Id, node: Id, leaseId: Id, ttl: int, now: int)
    requires Exclusive(s) && FreshId(s.leases.table, leaseId)
    ensures Exclusive(Claim(s, t, node, leaseId, ttl, now))
  {
    if Claimable(s, t) {
      var s' := Claim(s, t, node, leaseId, ttl, now);
      if !Unleased(s, t) { LeasedIsHeld(s, t); }
      TaskStepKeeps(s, s'.(leases := s.leases));
      if !CreateRefused(t, node) {
        CreateKeepsTable(s.leases.table, leaseId, t, node, ttl, now);
        forall l | l in s'.leases.table.leases && s'.leases.table.leases[l].status == Active
          ensures Backed(s', l)
        {
          if l != leaseId { assert Backed(s, l); }
        }
      }
    }
  }

  /** After revoking what lookup finds, the task has no active lease left. */
  lemma RevokeForKeeps(s: System, t: Id)
    requires Exclusive(s)
    ensures Exclusive(RevokeFor(s, t)) && Unleased(RevokeFor(s, t), t)
    ensures forall l :: l in s.leases.table.leases && s.leases.table.leases[l].taskId != t ==>
      RevokeFor(s, t).leases.table.leases[l] == s.leases.table.leases[l]
  {
    var s' := RevokeFor(s, t);
    if t == "" {
      if !Unleased(s, t) { LeasedIsHeld(s, t); }
    } else {
      LookupRefinesSearch(s.leases.table, t);
      var l := LeaseByTask(s.leases.table, t);
      if l.Some? {
        RevokeKeepsTable(s.leases.table, l.value);
        RevokeOneKeeps(s, l.value);
      }
    }
  }

  lemma RevokeOneKeeps(s: System, l: Id)
    requires Exclusive(s)
    ensures Exclusive(s.(leases := s.leases.(table := RevokeLease(s.leases.table, l))))
  {
    RevokeKeepsTable(s.leases.table, l);
    var s' := s.(leases := s.leases.(table := RevokeLease(s.leases.table, l)));
    forall m | m in s'.leases.table.leases && s'.leases.table.leases[m].status == Active
      ensures Backed(s', m)
    {
      assert Backed(s, m);
    }
  }

  lemma ReleaseKeeps(s: System, t: Id, node: Id, reason: string)
    requires Exclusive(s)
    ensures Exclusive(Release(s, t, node, reason))
  {
    if Releasable(s, t, node) {
      RevokeForKeeps(s, t);
      TaskStepKeeps(RevokeFor(s, t), Release(s, t, node, reason));
    }
  }

  lemma CompleteKeeps(s: System, t: Id)
    requires Exclusive(s)
    ensures Exclusive(Complete(s, t))
  {
    if t in s.tasks {
      RevokeForKeeps(s, t);
      var s1 := RevokeFor(s, t);
      var s2 := s1.(tasks := Downstream(SetStatus(s.tasks, t, Completed, ""), t));
      forall u | u in s1.tasks && !Unleased(s1, u) ensures s2.tasks[u] == s1.tasks[u] {
        LeasedIsHeld(s1, u);
      }
      TaskStepKeeps(s1, s2);
      ScheduleKeeps(s2);
    }
  }

  lemma FailKeeps(s: System, t: Id, reason: string)
    requires Exclusive(s)
    ensures Exclusive(Fail(s, t, reason))
  {
    if t in s.tasks {
      forall u | u in s.tasks && !Unleased(s, u)
        ensures Fail(s, t, reason).tasks[u].assignedTo == s.tasks[u].assignedTo
        ensures Fail(s, t, reason).tasks[u].status in {Running, Failed}
      {
        LeasedIsHeld(s, u);
      }
      TaskStepKeeps(s, Fail(s, t, reason));
    }
  }

  lemma PlainTaskStepsKeep(s: System, e: Event, now: int)
    requires Exclusive(s) && (e.DoUnblock? || e.DoSetDeps? || e.DoResolve? || e.DoResolveFailure? || e.DoNodes?)
    ensures Exclusive(Next(s, e, now))
  {
    forall u | u in s.tasks && !Unleased(s, u)
      ensures u in Next(s, e, now).tasks
      ensures Next(s, e, now).tasks[u].assignedTo == s.tasks[u].assignedTo
      ensures Next(s, e, now).tasks[u].status in {Running, Failed}
    {
      LeasedIsHeld(s, u);
    }
    TaskStepKeeps(s, Next(s, e, now));
  }

  lemma ScanKeeps(s: System, now: int)
    requires Exclusive(s)
    ensures Exclusive(s.(leases := Scan(s.leases, now)))
  {
    ScanKeepsTable(s.leases.table, now);
    var s' := s.(leases := Scan(s.leases, now));
    forall m | m in s'.leases.table.leases && s'.leases.table.leases[m].status == Active
      ensures Backed(s', m)
    {
      assert Backed(s, m);
    }
  }

  lemma ExtendKeeps(s: System, id: Id, newId: Id, ttl: int, now: int)
    requires Exclusive(s) && FreshId(s.leases.table, newId) && !ExtendHangs(s.leases, id, now)
    ensures Exclusive(s.(leases := Extend(s.leases, id, newId, ttl, now)))
  {
    var s' := s.(leases := Extend(s.leases, id, newId, ttl, now));
    StepKeepsTable(s.leases, DoExtend(id, newId, ttl), now);
    if id != "" {
      ScanWithoutOverdue(s.leases, now);
      if IsActive(s.leases.table.leases)(id) {
        assert Backed(s, id);
        forall m | m in s'.leases.table.leases && s'.leases.table.leases[m].status == Active
          ensures Backed(s', m)
        {
          if m != newId { assert Backed(s, m); }
        }
      }
    }
  }

  // ---------------------------------------------------------------------------------------------
  // Recovery
  // ---------------------------------------------------------------------------------------------

  lemma RevokeManyKeeps(s: System, ids: seq<Id>)
    requires Exclusive(s) && forall l :: l in ids ==> l in s.leases.table.leases
    ensures Exclusive(s.(leases := s.leases.(table := RevokeAllOf(s.leases.table, ids))))
  {
    if ids != [] {
      var front := ids[..|ids| - 1];
      RevokeManyKeeps(s, front);
      RevokeOneKeeps(s.(leases := s.leases.(table := RevokeAllOf(s.leases.table, front))), ids[|ids| - 1]);
    }
  }

  lemma OrphanHasLease(s: System, node: Id, now: int, t: Id) returns (l: Id)
    requires t in Orphans(s, node, now)
    ensures l in ToRevoke(s, node, now)
    ensures l in Scan(s.leases, now).table.leases && Scan(s.leases, now).table.leases[l].taskId == t
  {
    var ids := ToRevoke(s, node, now);
    var i :| 0 <= i < |Orphans(s, node, now)| && Orphans(s, node, now)[i] == t;
    l := ids[i];
  }

  /** No task on the revocation list has an active lease once the list has been revoked. */
  lemma OrphansUnleased(s: System, node: Id, now: int, t: Id)
    requires Exclusive(s) && t in Orphans(s, node, now)
    ensures Unleased(RevokeNode(s, node, now), t)
  {
    var s1, ids := s.(leases := Scan(s.leases, now)), ToRevoke(s, node, now);
    var leases, leases' := s1.leases.table.leases, RevokeNode(s, node, now).leases.table.leases;
    ScanKeeps(s, now);
    RevokeAllOfIs(s1.leases.table, ids);
    var held := OrphanHasLease(s, node, now, t);
    forall l | l in leases' && leases'[l].status == Active ensures leases'[l].taskId != t {
      assert l in leases && leases[l] == leases'[l] && l !in ids;
    }
  }

  lemma RevokeNodeKeeps(s: System, node: Id, now: int)
    requires Exclusive(s)
    ensures Exclusive(RevokeNode(s, node, now))
    ensures forall t :: t in Orphans(s, node, now) ==> Unleased(RevokeNode(s, node, now), t)
  {
    ScanKeeps(s, now);
    RevokeManyKeeps(s.(leases := Scan(s.leases, now)), ToRevoke(s, node, now));
    TaskStepKeeps(s.(leases := RevokeNode(s, node, now).leases), RevokeNode(s, node, now));
    forall t | t in Orphans(s, node, now) ensures Unleased(RevokeNode(s, node, now), t) {
      OrphansUnleased(s, node, now, t);
    }
  }

  lemma RescheduleOneKeeps(s: System, t: Id)
    requires Exclusive(s) && Unleased(s, t)
    ensures Exclusive(RescheduleOne(s, t))
    ensures RescheduleOne(s, t).leases == s.leases
  {
    if t in s.tasks {
      var s1 := s.(tasks := Unassign(s.tasks, t));
      TaskStepKeeps(s, s1);
      ScheduleKeeps(s1);
      TaskStepKeeps(ScheduleAll(s1), RescheduleOne(s, t));
    }
  }

  lemma {:induction false} RescheduleAllKeeps(s: System, orphans: seq<Id>)
    requires Exclusive(s) && forall t :: t in orphans ==> Unleased(s, t)
    ensures Exclusive(RescheduleAll(s, orphans))
    ensures RescheduleAll(s, orphans).leases == s.leases
  {
    if orphans != [] {
      var front, t := orphans[..|orphans| - 1], orphans[|orphans| - 1];
      RescheduleAllKeeps(s, front);
      assert t in orphans && Unleased(s, t);
      assert Unleased(RescheduleAll(s, front), t);
      RescheduleOneKeeps(RescheduleAll(s, front), t);
    }
  }

  lemma RecoverKeeps(s: System, node: Id, now: int)
    requires Exclusive(s)
    ensures Exclusive(Recover(s, node, now))
  {
    RevokeNodeKeeps(s, node, now);
    RescheduleAllKeeps(RevokeNode(s, node, now), Orphans(s, node, now));
    TaskStepKeeps(RescheduleAll(RevokeNode(s, node, now), Orphans(s, node, now)), Recover(s, node, now));
  }

  /** A claim of a claimable task leaves it without an active lease exactly when the lease is
      refused, for an empty task or node id. */
  lemma ClaimUnleasedIff(s: System, t: Id, node: Id, leaseId: Id, ttl: int, now: int)
    requires Exclusive(s) && FreshId(s.leases.table, leaseId) && Claimable(s, t)
    ensures var s' := Claim(s, t, node, leaseId, ttl, now);
      t in s'.tasks && s'.tasks[t].status == Running && (Unleased(s', t) <==> CreateRefused(t, node))
  {
    var s' := Claim(s, t, node, leaseId, ttl, now);
    if CreateRefused(t, node) {
      if !Unleased(s, t) { LeasedIsHeld(s, t); }
    } else {
      assert s'.leases.table.leases[leaseId] == Lease(t, node, now, now + ttl, Active);
    }
  }

  // ---------------------------------------------------------------------------------------------
  // The steps that can break exclusion, and exactly when
  // ---------------------------------------------------------------------------------------------

  /** Advancing a task neither clears its assignee nor revokes its lease. Exclusion survives just
      when the call is refused, or the task has no active lease, or the scheduler happens to put
      the task back on the node that holds the lease. */
  ghost predicate AdvanceHarmless(s: System, t: Id) {
    || !AdvanceAccepted(s, t)
    || Unleased(s, t)
    || (s.tasks[t].assignedTo.Some? && FirstFit(s.reg, s.tasks[t].needs) == s.tasks[t].assignedTo)
  }

  lemma AdvanceSparesOthers(s: System, t: Id, u: Id)
    requires Exclusive(s) && u in s.tasks && !Unleased(s, u) && u != t
    ensures u in Advance(s, t).tasks && Advance(s, t).tasks[u] == s.tasks[u]
  {
    LeasedIsHeld(s, u);
  }

  /** An accepted advance of a leased task puts it on the first fitting node, or leaves it ready. */
  lemma AdvanceOfLeased(s: System, t: Id)
    requires AdvanceAccepted(s, t)
    ensures var task, fit := Advance(s, t).tasks[t], FirstFit(s.reg, s.tasks[t].needs);
      && task.status == (if fit.Some? then Running else Ready)
      && task.assignedTo == (if fit.Some? then fit else s.tasks[t].assignedTo)
  {
  }

  lemma HarmlessAdvanceKeeps(s: System, t: Id)
    requires Exclusive(s) && AdvanceAccepted(s, t) && AdvanceHarmless(s, t)
    ensures Exclusive(Advance(s, t))
  {
    AdvanceOfLeased(s, t);
    forall u | u in s.tasks && !Unleased(s, u)
      ensures u in Advance(s, t).tasks && Advance(s, t).tasks[u].assignedTo == s.tasks[u].assignedTo
      ensures Advance(s, t).tasks[u].status == Running || Advance(s, t).tasks[u].status == Failed
    {
      LeasedIsHeld(s, u);
      if u != t { AdvanceSparesOthers(s, t, u); }
    }
    TaskStepKeeps(s, Advance(s, t));
  }

  lemma HarmfulAdvanceBreaks(s: System, t: Id)
    requires Exclusive(s) && !AdvanceHarmless(s, t)
    ensures !Exclusive(Advance(s, t))
  {
    AdvanceOfLeased(s, t);
    LeasedIsHeld(s, t);
    var l :| l in s.leases.table.leases && s.leases.table.leases[l].status == Active
      && s.leases.table.leases[l].taskId == t;
    assert Backed(s, l) && !Backed(Advance(s, t), l);
  }

  lemma AdvanceKeepsExactly(s: System, t: Id)
    requires Exclusive(s)
    ensures Exclusive(Advance(s, t)) <==> AdvanceHarmless(s, t)
  {
    if !AdvanceHarmless(s, t) {
      HarmfulAdvanceBreaks(s, t);
    } else if AdvanceAccepted(s, t) {
      HarmlessAdvanceKeeps(s, t);
    }
  }

  /** Granting a lease directly at the store is never refused. Exclusion survives just when the
      task exists, is running or failed on that node, and has no active lease yet. */
  ghost predicate GrantHarmless(s: System, t: Id, node: Id) {
    && t != "" && t in s.tasks && s.tasks[t].assignedTo == Some(node)
    && (s.tasks[t].status == Running || s.tasks[t].status == Failed) && Unleased(s, t)
  }

  lemma GrantKeepsExactly(s: System, id: Id, t: Id, node: Id, ttl: int, now: int)
    requires Exclusive(s) && FreshId(s.leases.table, id)
    ensures Exclusive(Next(s, DoLeaseGrant(id, t, node, ttl), now)) <==> GrantHarmless(s, t, node)
  {
    var s' := Next(s, DoLeaseGrant(id, t, node, ttl), now);
    var leases' := s'.leases.table.leases;
    CreateKeepsTable(s.leases.table, id, t, node, ttl, now);
    if GrantHarmless(s, t, node) {
      forall m | m in leases' && leases'[m].status == Active ensures Backed(s', m) {
        if m != id { assert Backed(s, m); }
      }
    }
    if Exclusive(s') {
      assert Backed(s', id);
      forall l | l in s.leases.table.leases && s.leases.table.leases[l].status == Active
        ensures s.leases.table.leases[l].taskId != t
      {
        assert leases'[l] == s.leases.table.leases[l];
      }
    }
  }

  /** Writing one task without looking at leases is harmless just when the task has no active lease,
      or keeps its assignee and is running or failed. */
  ghost predicate WriteHarmless(s: System, t: Id, task: Task) {
    || Unleased(s, t)
    || (&& t in s.tasks && task.assignedTo == s.tasks[t].assignedTo
        && (task.status == Running || task.status == Failed))
  }

  lemma WriteKeepsExactly(s: System, s': System, t: Id)
    requires Exclusive(s) && s'.leases == s.leases
    requires t in s'.tasks && s'.tasks == s.tasks[t := s'.tasks[t]]
    ensures Exclusive(s') <==> WriteHarmless(s, t, s'.tasks[t])
  {
    if WriteHarmless(s, t, s'.tasks[t]) {
      forall u | u in s.tasks && !Unleased(s, u) && u != t
        ensures s'.tasks[u].status == Running || s'.tasks[u].status == Failed
      {
        LeasedIsHeld(s, u);
      }
      TaskStepKeeps(s, s');
    }
    if Exclusive(s') && !Unleased(s, t) {
      var l :| l in s.leases.table.leases && s.leases.table.leases[l].status == Active
        && s.leases.table.leases[l].taskId == t;
      assert Backed(s, l) && Backed(s', l);
    }
  }

  ghost predicate SyncHarmless(s: System, msg: G.SyncMessage, now: int) {
    msg.version > s.syncVersion && msg.taskState.Some? ==>
      var t := msg.taskState.value.taskId;
      WriteHarmless(s, t, G.Written(s.tasks, msg.taskState.value, now))
  }

  lemma SyncKeepsExactly(s: System, msg: G.SyncMessage, now: int)
    requires Exclusive(s)
    ensures Exclusive(HandleSync(s, msg, now)) <==> SyncHarmless(s, msg, now)
  {
    var s' := HandleSync(s, msg, now);
    if msg.version > s.syncVersion && msg.taskState.Some? {
      WriteKeepsExactly(s, s', msg.taskState.value.taskId);
    } else {
      TaskStepKeepsAll(s, s');
    }
  }

  lemma TaskStepKeepsAll(s: System, s': System)
    requires Exclusive(s) && s'.leases == s.leases && s'.tasks == s.tasks
    ensures Exclusive(s')
  {
    forall t | t in s.tasks && !Unleased(s, t) ensures s.tasks[t].status == Running || s.tasks[t].status == Failed {
      LeasedIsHeld(s, t);
    }
    TaskStepKeeps(s, s');
  }

  /** A merge keeps the assignee, so only the status it brings can break exclusion. */
  ghost predicate MergeHarmless(s: System, entry: F.Entry) {
    || Unleased(s, entry.id)
    || !F.Newer(F.Lookup(s.tasks, entry.id), entry.task)
    || entry.task.status == Running || entry.task.status == Failed
  }

  lemma MergeKeepsExactly(s: System, entry: F.Entry, now: int)
    requires Exclusive(s)
    ensures Exclusive(MergeEntry(s, entry, now)) <==> MergeHarmless(s, entry)
  {
    WriteKeepsExactly(s, MergeEntry(s, entry, now), entry.id);
    if !Unleased(s, entry.id) { LeasedIsHeld(s, entry.id); }
  }

  // ---------------------------------------------------------------------------------------------
  // Every step, every run
  // ---------------------------------------------------------------------------------------------

  ghost predicate Harmless(s: System, e: Event, now: int) {
    match e
    case DoAdvance(t) => AdvanceHarmless(s, t)
    case DoLeaseGrant(_, t, node, _) => GrantHarmless(s, t, node)
    case DoSync(msg) => SyncHarmless(s, msg, now)
    case DoMerge(entry) => MergeHarmless(s, entry)
    case _ => true
  }

  lemma StepKeepsExclusive(s: System, e: Event, now: int)
    requires Exclusive(s) && Enabled(s, e, now)
    ensures Exclusive(Next(s, e, now)) <==> Harmless(s, e, now)
  {
    match e
    case DoSubmit(id, title, needs, priority) => SubmitKeeps(s, id, title, needs, priority, now);
    case DoClaim(t, node, leaseId, ttl) => ClaimKeeps(s, t, node, leaseId, ttl, now);
    case DoRelease(t, node, reason) => ReleaseKeeps(s, t, node, reason);
    case DoComplete(t) => CompleteKeeps(s, t);
    case DoFail(t, reason) => FailKeeps(s, t, reason);
    case DoAdvance(t) => AdvanceKeepsExactly(s, t);
    case DoTrigger => PromoteKeeps(s); ScheduleKeeps(PromoteAll(s));
    case DoLeaseRevoke(id) => RevokeOneKeeps(s, id);
    case DoLeaseExtend(id, newId, ttl) => ExtendKeeps(s, id, newId, ttl, now);
    case DoLeaseScan => ScanKeeps(s, now);
    case DoLeaseGrant(id, t, node, ttl) => GrantKeepsExactly(s, id, t, node, ttl, now);
    case DoRecover(node) => RecoverKeeps(s, node, now);
    case DoSync(msg) => SyncKeepsExactly(s, msg, now);
    case DoMerge(entry) => MergeKeepsExactly(s, entry, now);
    case _ => PlainTaskStepsKeep(s, e, now);
  }

  lemma {:induction false} RunsStayExclusive(states: seq<System>, events: seq<Event>, times: seq<int>, i: nat)
    requires IsRun(states, events, times) && Exclusive(states[0]) && i < |states|
    requires forall k :: 0 <= k < |events| ==> Harmless(states[k], events[k], times[k])
    ensures Exclusive(states[i])
  {
    if i > 0 {
      var k := i - 1;
      RunsStayExclusive(states, events, times, k);
      StepKeepsExclusive(states[k], events[k], times[k]);
    }
  }

  /** A run is exclusive throughout exactly when each of its steps was harmless where it was taken. */
  lemma ExclusiveThroughoutIff(states: seq<System>, events: seq<Event>, times: seq<int>)
    requires IsRun(states, events, times) && Exclusive(states[0])
    ensures (forall i :: 0 <= i < |states| ==> Exclusive(states[i])) <==>
      (forall k :: 0 <= k < |events| ==> Harmless(states[k], events[k], times[k]))
  {
    if forall i :: 0 <= i < |states| ==> Exclusive(states[i]) {
      forall k | 0 <= k < |events| ensures Harmless(states[k], events[k], times[k]) {
        assert Exclusive(states[k]) && Exclusive(states[k + 1]);
        StepKeepsExclusive(states[k], events[k], times[k]);
      }
    }
    if forall k :: 0 <= k < |events| ==> Harmless(states[k], events[k], times[k]) {
      forall i | 0 <= i < |states| ensures Exclusive(states[i]) {
        RunsStayExclusive(states, events, times, i);
      }
    }
  }

  /** The promise, on every state of every run from an empty cluster: a task has at most one
      active lease; the holder is the node the task is assigned to, and the task is running or
      failed; so pending, ready, blocked and completed tasks are held by nobody. */
  lemma OneHolderPerTask(states: seq<System>, events: seq<Event>, times: seq<int>, i: nat, reg: Registry)
    requires IsRun(states, events, times) && states[0] == EmptySystem(reg) && i < |states|
    requires forall k :: 0 <= k < |events| ==> Harmless(states[k], events[k], times[k])
    ensures forall t :: ActiveCount(states[i].leases.table, t) <= 1
    ensures forall l :: IsActive(states[i].leases.table.leases)(l) ==> Backed(states[i], l)
    ensures forall t, l :: t in states[i].tasks && ActiveFor(states[i].leases.table.leases, t)(l) ==>
      states[i].tasks[t].status !in {Pending, Ready, Assigned, Blocked, Completed}
  {
    RunsStayExclusive(states, events, times, i);
    forall t ensures ActiveCount(states[i].leases.table, t) <= 1 {
      ExclusiveCount(states[i], t);
    }
    forall t, l | t in states[i].tasks && ActiveFor(states[i].leases.table.leases, t)(l)
      ensures states[i].tasks[t].status !in {Pending, Ready, Assigned, Blocked, Completed}
    {
      assert Backed(states[i], l);
    }
  }

  lemma ExclusiveCount(s: System, t: Id)
    requires Exclusive(s)
    ensures ActiveCount(s.leases.table, t) <= 1
  {
    var found := Filter(ActiveFor(s.leases.table.leases, t), s.leases.table.ids);
    FilterDistinct(ActiveFor(s.leases.table.leases, t), s.leases.table.ids);
    if found != [] {
      assert found[0] in found;
      assert forall x :: x in found ==> x == found[0];
      DistinctCard(found, {found[0]});
    }
  }
}
