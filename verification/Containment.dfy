/** Failures and cycles stay contained: what waits on them never becomes ready or running. */
module Containment {
  import opened Types
  import opened Seqs
  import opened Workflow
  import opened Leases
  import opened Protocol
  import opened Runs
  import opened Graph
  import opened RecoveryOutcome
  import G = SyncGate
  import F = FullSync

  predicate Waiting(status: TaskStatus) {
    status == Pending || status == Blocked || status == Failed
  }

  /** Among `deps` is a member of `c`, or an id that no task has. */
  ghost predicate Held(ts: Tasks, deps: seq<Id>, c: set<Id>) {
    exists d :: d in deps && (d in c || d !in ts)
  }

  /** A set of waiting tasks in which each member that has not failed depends on a member, or on
      an id that no task has. */
  ghost predicate Stuck(ts: Tasks, c: set<Id>) {
    forall t :: t in c ==>
      t in ts && Waiting(ts[t].status) && (ts[t].status == Failed || Held(ts, ts[t].dependsOn, c))
  }

  /** What a table change must do to keep a set stuck. */
  lemma ChangeKeepsStuck(ts: Tasks, ts': Tasks, c: set<Id>)
    requires Stuck(ts, c)
    requires forall t :: t in c ==>
      (&& t in ts' && ts'[t].dependsOn == ts[t].dependsOn && Waiting(ts'[t].status)
       && (ts[t].status == Failed ==> ts'[t].status == Failed)
       && forall d :: d in ts[t].dependsOn && d in ts' ==> d in ts)
    ensures Stuck(ts', c)
  {
    forall t | t in c
      ensures t in ts' && Waiting(ts'[t].status) && (ts'[t].status == Failed || Held(ts', ts'[t].dependsOn, c))
    {
      if ts'[t].status != Failed {
        var d :| d in ts[t].dependsOn && (d in c || d !in ts);
        assert d in ts'[t].dependsOn && (d in c || d !in ts');
      }
    }
  }

  lemma StuckNotDone(ts: Tasks, c: set<Id>, t: Id)
    requires Stuck(ts, c) && t in c && ts[t].status != Failed
    ensures !DepsDone(ts, ts[t].dependsOn)
  {
    var d :| d in ts[t].dependsOn && (d in c || d !in ts);
  }

  lemma PromoteKeepsStuck(ts: Tasks, c: set<Id>)
    requires Stuck(ts, c)
    ensures Stuck(Promote(ts), c)
  {
    forall t | t in c ensures Promote(ts)[t] == ts[t] {
      if ts[t].status != Failed { StuckNotDone(ts, c, t); }
    }
    ChangeKeepsStuck(ts, Promote(ts), c);
  }

  lemma ScheduleKeepsStuck(ts: Tasks, reg: Registry, c: set<Id>)
    requires Stuck(ts, c)
    ensures Stuck(Schedule(ts, reg), c)
  {
    ChangeKeepsStuck(ts, Schedule(ts, reg), c);
  }

  lemma CompleteKeepsStuck(s: System, t: Id, c: set<Id>)
    requires Stuck(s.tasks, c) && t !in c
    ensures Stuck(Complete(s, t).tasks, c)
  {
    if t in s.tasks {
      var done := SetStatus(s.tasks, t, Completed, "");
      ChangeKeepsStuck(s.tasks, done, c);
      forall u | u in c ensures Downstream(done, t)[u] == done[u] {
        if done[u].status != Failed { StuckNotDone(done, c, u); }
      }
      ChangeKeepsStuck(done, Downstream(done, t), c);
      ScheduleKeepsStuck(Downstream(done, t), s.reg, c);
    }
  }

  lemma FailKeepsStuck(s: System, t: Id, reason: string, c: set<Id>)
    requires Stuck(s.tasks, c)
    ensures Stuck(Fail(s, t, reason).tasks, c)
  {
    ChangeKeepsStuck(s.tasks, Fail(s, t, reason).tasks, c);
  }

  lemma ResolverKeepsStuck(ts: Tasks, x: Id, c: set<Id>)
    requires Stuck(ts, c)
    ensures Stuck(Propagate(ts, x), c) && Stuck(PropagateFailure(ts, x), c)
  {
    forall t | t in c ensures !PromotedBy(ts, x)(t) {
      if ts[t].status != Failed { StuckNotDone(ts, c, t); }
    }
    ChangeKeepsStuck(ts, Propagate(ts, x), c);
    ChangeKeepsStuck(ts, PropagateFailure(ts, x), c);
  }

  // ---------------------------------------------------------------------------------------------
  // The steps that can free a member, and exactly when
  // ---------------------------------------------------------------------------------------------

  /** Writing `task` under `id` leaves the set stuck: a member it is written to goes on waiting, and
      if the id is new, no member was waiting for it alone. */
  ghost predicate WriteSpares(ts: Tasks, id: Id, task: Task, c: set<Id>) {
    && (id in c ==> Waiting(task.status) && (task.status == Failed || Held(ts, task.dependsOn, c)))
    && (id !in ts ==> forall t :: t in c && t in ts ==> HeldWithout(ts, ts[t], id, c))
  }

  ghost predicate HeldWithout(ts: Tasks, task: Task, id: Id, c: set<Id>) {
    task.status == Failed || exists d :: d in task.dependsOn && d != id && (d in c || d !in ts)
  }

  lemma WriteKeepsStuckIff(ts: Tasks, id: Id, task: Task, c: set<Id>)
    requires Stuck(ts, c)
    ensures Stuck(ts[id := task], c) <==> WriteSpares(ts, id, task, c)
  {
    var ts' := ts[id := task];
    forall deps | id in ts ensures Held(ts', deps, c) <==> Held(ts, deps, c) {
      SameIdsSameHold(ts, ts', deps, c);
    }
    if id !in ts {
      assert id !in c;
      forall t | t in c
        ensures HeldWithout(ts, ts[t], id, c) <==> (ts[t].status == Failed || Held(ts', ts[t].dependsOn, c))
      {
        NewIdFrees(ts, ts[t], id, task, c);
      }
      if Stuck(ts', c) {
        forall t | t in c && t in ts ensures HeldWithout(ts, ts[t], id, c) { assert ts'[t] == ts[t]; }
      }
    } else if Stuck(ts', c) && id in c {
      assert ts'[id] == task;
    }
  }

  lemma SameIdsSameHold(ts: Tasks, ts': Tasks, deps: seq<Id>, c: set<Id>)
    requires ts.Keys == ts'.Keys
    ensures Held(ts', deps, c) <==> Held(ts, deps, c)
  {
  }

  lemma NewIdFrees(ts: Tasks, waiting: Task, id: Id, task: Task, c: set<Id>)
    requires id !in ts && id !in c
    ensures HeldWithout(ts, waiting, id, c) <==> (waiting.status == Failed || Held(ts[id := task], waiting.dependsOn, c))
  {
    if d :| d in waiting.dependsOn && d != id && (d in c || d !in ts) {
      assert d in waiting.dependsOn && (d in c || d !in ts[id := task]);
    }
    if d :| d in waiting.dependsOn && (d in c || d !in ts[id := task]) {
      assert d != id && (d in c || d !in ts);
    }
  }

  /** Creating a task frees a member exactly when the member was waiting for that id alone. */
  lemma SubmitKeepsStuckIff(s: System, id: Id, title: string, needs: seq<string>, priority: int, now: int, c: set<Id>)
    requires Stuck(s.tasks, c) && id !in s.tasks
    ensures Stuck(Submit(s, id, title, needs, priority, now).tasks, c) <==>
      forall t :: t in c && t in s.tasks ==> HeldWithout(s.tasks, s.tasks[t], id, c)
  {
    var task := NewTask(title, needs, EffectivePriority(priority), now);
    var added := s.tasks[id := task];
    WriteKeepsStuckIff(s.tasks, id, task, c);
    if Stuck(added, c) {
      PromoteKeepsStuck(added, c);
    } else {
      var t :| t in c && !(added[t].status == Failed || Held(added, added[t].dependsOn, c));
      assert Promote(added)[t].dependsOn == added[t].dependsOn && Promote(added)[t].status != Failed;
      SameIdsSameHold(added, Promote(added), added[t].dependsOn, c);
    }
  }

  /** Advancing a member frees it exactly when the call is accepted. */
  lemma AdvanceKeepsStuckIff(s: System, t: Id, c: set<Id>)
    requires Stuck(s.tasks, c)
    ensures Stuck(Advance(s, t).tasks, c) <==> !(t in c && AdvanceAccepted(s, t))
  {
    if AdvanceAccepted(s, t) {
      var ready := SetStatus(s.tasks, t, Ready, "");
      if t !in c {
        ChangeKeepsStuck(s.tasks, ready, c);
        ScheduleKeepsStuck(ready, s.reg, c);
      } else {
        assert !Waiting(Schedule(ready, s.reg)[t].status);
      }
    }
  }

  lemma CompleteKeepsStuckIff(s: System, t: Id, c: set<Id>)
    requires Stuck(s.tasks, c)
    ensures Stuck(Complete(s, t).tasks, c) <==> t !in c
  {
    if t !in c {
      CompleteKeepsStuck(s, t, c);
    } else {
      assert Complete(s, t).tasks[t].status == Completed;
    }
  }

  /** A recovery frees a member exactly when the member has a live lease on the node and some online
      node fits it. */
  ghost predicate RecoverSpares(s: System, node: Id, now: int, c: set<Id>) {
    forall t :: t in c && t in s.tasks && LiveLeaseOn(s, node, now, t) ==> !Truthy(FirstFit(s.reg, s.tasks[t].needs))
  }

  lemma RecoveredMember(s: System, node: Id, now: int, t: Id)
    requires t in s.tasks && Waiting(s.tasks[t].status)
    ensures var s' := Recover(s, node, now);
      && t in s'.tasks && s'.tasks[t].dependsOn == s.tasks[t].dependsOn
      && (LiveLeaseOn(s, node, now, t) && Truthy(FirstFit(s.reg, s.tasks[t].needs)) ==> s'.tasks[t].status == Running)
      && (LiveLeaseOn(s, node, now, t) && !Truthy(FirstFit(s.reg, s.tasks[t].needs)) ==> s'.tasks[t].status == Failed)
      && (!LiveLeaseOn(s, node, now, t) ==> s'.tasks[t] == s.tasks[t])
  {
    var s1, orphans := RevokeNode(s, node, now), Orphans(s, node, now);
    OrphanIff(s, node, now, t);
    RescheduleAllOutcome(s1, orphans);
    if t !in orphans {
      assert RescheduleAll(s1, orphans).tasks[t] == Bystander(s1, orphans, t);
    }
  }

  lemma RecoverKeepsStuckIff(s: System, node: Id, now: int, c: set<Id>)
    requires Stuck(s.tasks, c)
    ensures Stuck(Recover(s, node, now).tasks, c) <==> RecoverSpares(s, node, now, c)
  {
    var s' := Recover(s, node, now);
    RescheduleAllOutcome(RevokeNode(s, node, now), Orphans(s, node, now));
    forall t | t in c
      ensures t in s'.tasks && s'.tasks[t].dependsOn == s.tasks[t].dependsOn
      ensures LiveLeaseOn(s, node, now, t) && Truthy(FirstFit(s.reg, s.tasks[t].needs)) ==> s'.tasks[t].status == Running
      ensures RecoverSpares(s, node, now, c) ==> s'.tasks[t].status == Failed || s'.tasks[t] == s.tasks[t]
    {
      RecoveredMember(s, node, now, t);
    }
    if RecoverSpares(s, node, now, c) {
      ChangeKeepsStuck(s.tasks, s'.tasks, c);
    }
  }

  // ---------------------------------------------------------------------------------------------
  // Every step, every run
  // ---------------------------------------------------------------------------------------------

  /** The exact condition under which a step leaves the set stuck. */
  ghost predicate Spares(s: System, e: Event, now: int, c: set<Id>) {
    match e
    case DoSubmit(id, _, _, _) => forall t :: t in c && t in s.tasks ==> HeldWithout(s.tasks, s.tasks[t], id, c)
    case DoRelease(t, node, _) => !(t in c && Releasable(s, t, node))
    case DoComplete(t) => t !in c
    case DoSetDeps(t, deps) => t in c && t in s.tasks ==> s.tasks[t].status == Failed || Held(s.tasks, deps, c)
    case DoAdvance(t) => !(t in c && AdvanceAccepted(s, t))
    case DoRecover(node) => RecoverSpares(s, node, now, c)
    case DoSync(msg) =>
      msg.version > s.syncVersion && msg.taskState.Some? ==>
        WriteSpares(s.tasks, msg.taskState.value.taskId, G.Written(s.tasks, msg.taskState.value, now), c)
    case DoMerge(entry) =>
      WriteSpares(s.tasks, entry.id, F.Merge(F.Lookup(s.tasks, entry.id), entry.task, now), c)
    case _ => true
  }

  lemma OneWriteKeepsStuckIff(s: System, e: Event, now: int, c: set<Id>)
    requires Stuck(s.tasks, c) && (e.DoRelease? || e.DoSetDeps? || e.DoSync? || e.DoMerge?)
    ensures Stuck(Next(s, e, now).tasks, c) <==> Spares(s, e, now, c)
  {
    match e
    case DoRelease(t, node, reason) =>
      if Releasable(s, t, node) { WriteKeepsStuckIff(s.tasks, t, HandedBack(s.tasks[t], reason), c); }
    case DoSetDeps(t, deps) =>
      if t in s.tasks {
        WriteKeepsStuckIff(s.tasks, t, s.tasks[t].(dependsOn := deps, version := s.tasks[t].version + 1), c);
      }
    case DoSync(msg) =>
      if msg.version > s.syncVersion && msg.taskState.Some? {
        WriteKeepsStuckIff(s.tasks, msg.taskState.value.taskId, G.Written(s.tasks, msg.taskState.value, now), c);
      }
    case DoMerge(entry) =>
      WriteKeepsStuckIff(s.tasks, entry.id, F.Merge(F.Lookup(s.tasks, entry.id), entry.task, now), c);
  }

  lemma QuietStepsKeepStuck(s: System, e: Event, now: int, c: set<Id>)
    requires Stuck(s.tasks, c)
    requires e.DoClaim? || e.DoUnblock? || e.DoNodes?
      || e.DoLeaseRevoke? || e.DoLeaseExtend? || e.DoLeaseScan? || e.DoLeaseGrant?
    ensures Stuck(Next(s, e, now).tasks, c)
  {
    ChangeKeepsStuck(s.tasks, Next(s, e, now).tasks, c);
  }

  lemma StepKeepsStuck(s: System, e: Event, now: int, c: set<Id>)
    requires Stuck(s.tasks, c) && Enabled(s, e, now)
    ensures Stuck(Next(s, e, now).tasks, c) <==> Spares(s, e, now, c)
  {
    match e
    case DoSubmit(id, title, needs, priority) => SubmitKeepsStuckIff(s, id, title, needs, priority, now, c);
    case DoComplete(t) => CompleteKeepsStuckIff(s, t, c);
    case DoFail(t, reason) => FailKeepsStuck(s, t, reason, c);
    case DoTrigger => PromoteKeepsStuck(s.tasks, c); ScheduleKeepsStuck(Promote(s.tasks), s.reg, c);
    case DoAdvance(t) => AdvanceKeepsStuckIff(s, t, c);
    case DoResolve(t) => ResolverKeepsStuck(s.tasks, t, c);
    case DoResolveFailure(t) => ResolverKeepsStuck(s.tasks, t, c);
    case DoRecover(node) => RecoverKeepsStuckIff(s, node, now, c);
    case DoRelease(_, _, _) => OneWriteKeepsStuckIff(s, e, now, c);
    case DoSetDeps(_, _) => OneWriteKeepsStuckIff(s, e, now, c);
    case DoSync(_) => OneWriteKeepsStuckIff(s, e, now, c);
    case DoMerge(_) => OneWriteKeepsStuckIff(s, e, now, c);
    case _ => QuietStepsKeepStuck(s, e, now, c);
  }

  /** Over every run that spares it, a stuck set stays stuck: none of its members is ever ready
      or running, nor completed. */
  lemma {:induction false} StuckForever(
    states: seq<System>, events: seq<Event>, times: seq<int>, i: nat, c: set<Id>)
    requires IsRun(states, events, times) && Stuck(states[0].tasks, c) && i < |states|
    requires forall k :: 0 <= k < |events| ==> Spares(states[k], events[k], times[k], c)
    ensures Stuck(states[i].tasks, c)
    ensures forall t :: t in c ==> t in states[i].tasks && Waiting(states[i].tasks[t].status)
  {
    if i > 0 {
      var k := i - 1;
      StuckForever(states, events, times, k, c);
      StepKeepsStuck(states[k], events[k], times[k], c);
    }
  }

  /** And no weaker condition would do: the set is stuck throughout a run exactly when every step
      spares it. */
  lemma StuckThroughoutIff(states: seq<System>, events: seq<Event>, times: seq<int>, c: set<Id>)
    requires IsRun(states, events, times) && Stuck(states[0].tasks, c)
    ensures (forall i :: 0 <= i < |states| ==> Stuck(states[i].tasks, c)) <==>
      (forall k :: 0 <= k < |events| ==> Spares(states[k], events[k], times[k], c))
  {
    if forall i :: 0 <= i < |states| ==> Stuck(states[i].tasks, c) {
      forall k | 0 <= k < |events| ensures Spares(states[k], events[k], times[k], c) {
        assert Stuck(states[k].tasks, c) && Stuck(states[k + 1].tasks, c);
        StepKeepsStuck(states[k], events[k], times[k], c);
      }
    }
    if forall k :: 0 <= k < |events| ==> Spares(states[k], events[k], times[k], c) {
      forall i | 0 <= i < |states| ensures Stuck(states[i].tasks, c) {
        StuckForever(states, events, times, i, c);
      }
    }
  }

  // ---------------------------------------------------------------------------------------------
  // Two kinds of stuck sets
  // ---------------------------------------------------------------------------------------------

  /** A failed task and everything downstream of it, as long as all of that is still waiting. */
  lemma FailedDownstreamIsStuck(ts: Tasks, f: Id, c: set<Id>)
    requires f in ts && ts[f].status == Failed
    requires forall t :: t in c <==> t == f || Reaches(ts, f, t)
    requires forall t :: t in c ==> t in ts && Waiting(ts[t].status)
    ensures Stuck(ts, c)
  {
    forall t | t in c && ts[t].status != Failed
      ensures Held(ts, ts[t].dependsOn, c)
    {
      var k: nat :| k >= 1 && ReachesIn(ts, f, t, k);
      var d := SplitReach(ts, f, t, k);
      if k == 1 {
        var p :| Path(ts, p) && |p| == 1 && p[0] == f && p[0] == d;
      } else {
        assert Reaches(ts, f, d);
      }
      assert d in c && d in ts[t].dependsOn;
    }
  }

  /** A dependency cycle all of whose tasks are waiting: nothing refuses to create one. */
  lemma CycleIsStuck(ts: Tasks, p: seq<Id>)
    requires Cycle(ts, p)
    requires forall i :: 0 <= i < |p| ==> p[i] in ts && Waiting(ts[p[i]].status)
    ensures Stuck(ts, set i | 0 <= i < |p| :: p[i])
  {
    var c := set i | 0 <= i < |p| :: p[i];
    forall t | t in c ensures Held(ts, ts[t].dependsOn, c) {
      var i :| 0 <= i < |p| && p[i] == t;
      var j := if i == 0 then |p| - 1 else i;
      assert p[j] == t && Edge(ts, p[j - 1], p[j - 1 + 1]);
      assert p[j - 1] in c;
    }
  }
}
