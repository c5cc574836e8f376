/** The workflow resolver: what completing or failing a task does to its dependents. */
module Resolver {
  import opened Types
  import opened Seqs
  import opened Workflow
  import opened Cluster

  const MAX_TRIGGER_CHAIN_DEPTH: nat := 10

  /** One level of propagation: every pending dependent of `x` is looked at once. */
  ghost function Direct(ts: Tasks, x: Id): Tasks {
    map t | t in ts ::
      if PromotedBy(ts, x)(t) then WithStatus(ts[t], Ready, "")
      else if DependsOn(ts, x)(t) && ts[t].status == Pending && DepFailed(ts, ts[t].dependsOn)
      then WithStatus(ts[t], Blocked, DEPENDENCY_FAILED)
      else ts[t]
  }

  ghost function Turn(now: Tasks, x: Id, t: Id): Tasks {
    if t in now && now[t].status == Pending && x in now[t].dependsOn then Resolve(now, t) else now
  }

  /** The first loop after `i` tasks. */
  ghost function TurnsTo(ts: Tasks, x: Id, ids: seq<Id>, i: nat): Tasks
    requires i <= |ids|
  {
    if i == 0 then ts else Turn(TurnsTo(ts, x, ids, i - 1), x, ids[i - 1])
  }

  /** Two tables that agree on dependencies, and on which tasks are completed or failed. */
  ghost predicate SameEnds(ts: Tasks, now: Tasks) {
    && ts.Keys == now.Keys
    && forall t :: t in ts ==>
         (&& now[t].dependsOn == ts[t].dependsOn
          && (now[t].status == Completed <==> ts[t].status == Completed)
          && (now[t].status == Failed <==> ts[t].status == Failed))
  }

  lemma SameEndsSameVerdict(ts: Tasks, now: Tasks, deps: seq<Id>)
    requires SameEnds(ts, now)
    ensures DepsDone(now, deps) == DepsDone(ts, deps) && DepFailed(now, deps) == DepFailed(ts, deps)
  {
    if DepFailed(ts, deps) {
      var d :| d in deps && d in ts && ts[d].status == Failed;
      assert d in now && now[d].status == Failed;
    }
    if DepFailed(now, deps) {
      var d :| d in deps && d in now && now[d].status == Failed;
      assert d in ts && ts[d].status == Failed;
    }
  }

  lemma DoneIsNotFailed(ts: Tasks, deps: seq<Id>)
    requires DepsDone(ts, deps)
    ensures !DepFailed(ts, deps)
  {
  }

  lemma TurnIs(ts: Tasks, now: Tasks, x: Id, t: Id)
    requires SameEnds(ts, now) && t in ts && now[t] == ts[t]
    ensures Turn(now, x, t) == now[t := Direct(ts, x)[t]]
  {
    SameEndsSameVerdict(ts, now, ts[t].dependsOn);
    if DepsDone(ts, ts[t].dependsOn) { DoneIsNotFailed(ts, ts[t].dependsOn); }
    assert now[t := now[t]] == now;
  }

  ghost function TurnsDone(ts: Tasks, x: Id, seen: seq<Id>): Tasks {
    map t | t in ts :: if t in seen then Direct(ts, x)[t] else ts[t]
  }

  lemma TurnsDoneNone(ts: Tasks, x: Id)
    ensures TurnsDone(ts, x, []) == ts
  {
  }

  lemma TurnsDoneNext(ts: Tasks, x: Id, seen: seq<Id>, t: Id)
    requires t in ts
    ensures TurnsDone(ts, x, seen + [t]) == TurnsDone(ts, x, seen)[t := Direct(ts, x)[t]]
  {
  }

  lemma TurnsDoneSkips(ts: Tasks, x: Id, seen: seq<Id>, t: Id)
    requires t !in ts
    ensures TurnsDone(ts, x, seen + [t]) == TurnsDone(ts, x, seen)
  {
  }

  lemma TurnsDoneKeepsEnds(ts: Tasks, x: Id, seen: seq<Id>)
    ensures SameEnds(ts, TurnsDone(ts, x, seen))
  {
  }

  lemma {:induction false} TurnsToIs(ts: Tasks, x: Id, ids: seq<Id>, i: nat)
    requires i <= |ids| && Distinct(ids)
    ensures TurnsTo(ts, x, ids, i) == TurnsDone(ts, x, ids[..i])
    ensures SameEnds(ts, TurnsTo(ts, x, ids, i))
  {
    TurnsDoneKeepsEnds(ts, x, ids[..i]);
    if i == 0 {
      assert ids[..i] == [];
      TurnsDoneNone(ts, x);
    } else {
      var k := i - 1;
      var t := ids[k];
      TurnsToIs(ts, x, ids, k);
      assert ids[..i] == ids[..k] + [t] && t !in ids[..k];
      if t in ts {
        TurnIs(ts, TurnsDone(ts, x, ids[..k]), x, t);
        TurnsDoneNext(ts, x, ids[..k], t);
      } else {
        TurnsDoneSkips(ts, x, ids[..k], t);
      }
    }
  }

  /** What one turn of the loop decides is what the table before the loop says. */
  lemma TurnVerdict(ts: Tasks, x: Id, ids: seq<Id>, i: nat)
    requires i < |ids| && Distinct(ids) && ids[i] in ts
    ensures var now, t := TurnsTo(ts, x, ids, i), ids[i];
      && t in now && now[t] == ts[t]
      && (PromotedBy(ts, x)(t) <==>
            now[t].status == Pending && x in now[t].dependsOn && Resolves(now, t))
  {
    TurnsToIs(ts, x, ids, i);
    var now, t := TurnsTo(ts, x, ids, i), ids[i];
    assert t !in ids[..i];
    SameEndsSameVerdict(ts, now, ts[t].dependsOn);
    if DepsDone(ts, ts[t].dependsOn) { DoneIsNotFailed(ts, ts[t].dependsOn); }
  }

  /** `resolve_dependencies` reports success: the task was pending and is now ready. */
  predicate Resolves(ts: Tasks, t: Id) {
    t in ts && ts[t].status == Pending && !DepFailed(ts, ts[t].dependsOn) && DepsDone(ts, ts[t].dependsOn)
  }

  lemma TurnsToEnd(ts: Tasks, x: Id, ids: seq<Id>)
    requires KeysInOrder(ids, ts)
    ensures TurnsTo(ts, x, ids, |ids|) == Direct(ts, x)
  {
    TurnsToIs(ts, x, ids, |ids|);
    assert ids[..|ids|] == ids;
  }

  // ---------------------------------------------------------------------------------------------
  // The cascade
  // ---------------------------------------------------------------------------------------------

  predicate IsDone(ts: Tasks, x: Id) {
    x in ts && ts[x].status == Completed
  }

  /** Propagation from a task that is not completed promotes nothing: it can only block. */
  lemma NotDonePromotesNothing(ts: Tasks, x: Id, ids: seq<Id>)
    requires !IsDone(ts, x)
    ensures forall t :: !PromotedBy(ts, x)(t)
    ensures Filter(PromotedBy(ts, x), ids) == []
    ensures Propagate(ts, x) == Direct(ts, x)
  {
    FilterNone(PromotedBy(ts, x), ids);
    forall t | t in ts ensures Propagate(ts, x)[t] == Direct(ts, x)[t] {
      assert BlockedBy(ts, x)(t) <==>
        DependsOn(ts, x)(t) && ts[t].status == Pending && DepFailed(ts, ts[t].dependsOn);
    }
  }

  /** The cascade after the first `k` promoted tasks have been propagated in turn. */
  ghost function CascadeTo(ts: Tasks, promoted: seq<Id>, k: nat): Tasks
    requires k <= |promoted|
  {
    if k == 0 then ts else Direct(CascadeTo(ts, promoted, k - 1), promoted[k - 1])
  }

  ghost predicate HitBy(ts: Tasks, some: seq<Id>, t: Id) {
    && t in ts && ts[t].status == Pending && DepFailed(ts, ts[t].dependsOn)
    && exists p :: p in some && p in ts[t].dependsOn
  }

  ghost function Hit(ts: Tasks, some: seq<Id>): Tasks {
    map t | t in ts :: if HitBy(ts, some, t) then WithStatus(ts[t], Blocked, DEPENDENCY_FAILED) else ts[t]
  }

  lemma HitKeepsEnds(ts: Tasks, some: seq<Id>)
    ensures SameEnds(ts, Hit(ts, some))
  {
  }

  lemma HitStep(ts: Tasks, some: seq<Id>, p: Id, t: Id)
    requires t in ts && !IsDone(ts, p)
    ensures Direct(Hit(ts, some), p)[t] == Hit(ts, some + [p])[t]
  {
    var now := Hit(ts, some);
    HitKeepsEnds(ts, some);
    SameEndsSameVerdict(ts, now, ts[t].dependsOn);
    HitByOneMore(ts, some, p, t);
    assert !IsDone(now, p);
    NotDonePromotesNothing(now, p, []);
    assert !PromotedBy(now, p)(t);
  }

  lemma HitOneMore(ts: Tasks, some: seq<Id>, p: Id)
    requires !IsDone(ts, p)
    ensures Direct(Hit(ts, some), p) == Hit(ts, some + [p])
  {
    forall t | t in ts ensures Direct(Hit(ts, some), p)[t] == Hit(ts, some + [p])[t] {
      HitStep(ts, some, p, t);
    }
  }

  lemma {:induction false} CascadeToIs(ts: Tasks, promoted: seq<Id>, k: nat)
    requires k <= |promoted| && forall p :: p in promoted ==> !IsDone(ts, p)
    ensures CascadeTo(ts, promoted, k) == Hit(ts, promoted[..k])
  {
    if k > 0 {
      var j := k - 1;
      CascadeToIs(ts, promoted, j);
      assert promoted[..k] == promoted[..j] + [promoted[j]];
      assert promoted[j] in promoted;
      HitOneMore(ts, promoted[..j], promoted[j]);
    }
  }

  lemma HitByOneMore(ts: Tasks, some: seq<Id>, p: Id, t: Id)
    ensures HitBy(ts, some + [p], t) <==>
      (|| HitBy(ts, some, t)
       || (t in ts && ts[t].status == Pending && DepFailed(ts, ts[t].dependsOn) && p in ts[t].dependsOn))
  {
    if t in ts && p in ts[t].dependsOn {
      assert p in some + [p];
    }
  }

  /** Propagation started at recursion depth `depth`: the table it leaves, and its answer. */
  ghost function PropagateAt(ts: Tasks, x: Id, depth: nat): Tasks {
    if depth >= MAX_TRIGGER_CHAIN_DEPTH then ts
    else if depth + 1 == MAX_TRIGGER_CHAIN_DEPTH then Direct(ts, x)
    else Propagate(ts, x)
  }

  ghost function AnswerAt(ts: Tasks, x: Id, depth: nat, ids: seq<Id>): seq<Id> {
    if depth >= MAX_TRIGGER_CHAIN_DEPTH then [] else Filter(PromotedBy(ts, x), ids)
  }

  ghost function CascadeAt(ts: Tasks, promoted: seq<Id>, k: nat, depth: nat): Tasks
    requires k <= |promoted|
  {
    if depth + 1 >= MAX_TRIGGER_CHAIN_DEPTH then ts else CascadeTo(ts, promoted, k)
  }

  /** Each turn of the cascade promotes nothing, so what it returns is empty. */
  lemma CascadeNext(ts: Tasks, promoted: seq<Id>, k: nat, depth: nat, ids: seq<Id>)
    requires k < |promoted| && forall p :: p in promoted ==> !IsDone(ts, p)
    ensures AnswerAt(CascadeAt(ts, promoted, k, depth), promoted[k], depth + 1, ids) == []
    ensures PropagateAt(CascadeAt(ts, promoted, k, depth), promoted[k], depth + 1) ==
      CascadeAt(ts, promoted, k + 1, depth)
  {
    CascadeToIs(ts, promoted, k);
    HitKeepsEnds(ts, promoted[..k]);
    assert promoted[k] in promoted;
    NotDonePromotesNothing(CascadeAt(ts, promoted, k, depth), promoted[k], ids);
  }

  /** The promoted tasks are ready by then, not completed. */
  lemma PromotedAreNotDone(ts: Tasks, x: Id, ids: seq<Id>)
    ensures forall p :: p in Filter(PromotedBy(ts, x), ids) ==> !IsDone(Direct(ts, x), p)
  {
  }

  lemma HitAllIsPropagate(ts: Tasks, x: Id, ids: seq<Id>)
    requires KeysInOrder(ids, ts)
    ensures Hit(Direct(ts, x), Filter(PromotedBy(ts, x), ids)) == Propagate(ts, x)
  {
    var promoted, one := Filter(PromotedBy(ts, x), ids), Direct(ts, x);
    forall t | t in ts ensures Hit(one, promoted)[t] == Propagate(ts, x)[t] {
      PropagateOne(ts, x, ids, t);
    }
  }

  /** Loop and cascade together are the one-piece propagation. */
  lemma CascadeToEnd(ts: Tasks, x: Id, ids: seq<Id>)
    requires KeysInOrder(ids, ts)
    ensures var promoted := Filter(PromotedBy(ts, x), ids);
      && (forall p :: p in promoted ==> !IsDone(Direct(ts, x), p))
      && CascadeTo(Direct(ts, x), promoted, |promoted|) == Propagate(ts, x)
  {
    var promoted := Filter(PromotedBy(ts, x), ids);
    PromotedAreNotDone(ts, x, ids);
    CascadeToIs(Direct(ts, x), promoted, |promoted|);
    assert promoted[..|promoted|] == promoted;
    HitAllIsPropagate(ts, x, ids);
  }

  lemma DirectKeepsEnds(ts: Tasks, x: Id)
    ensures SameEnds(ts, Direct(ts, x))
  {
  }

  lemma PropagateOne(ts: Tasks, x: Id, ids: seq<Id>, t: Id)
    requires KeysInOrder(ids, ts) && t in ts
    ensures Hit(Direct(ts, x), Filter(PromotedBy(ts, x), ids))[t] == Propagate(ts, x)[t]
  {
    var promoted, one := Filter(PromotedBy(ts, x), ids), Direct(ts, x);
    if one[t].status == Pending {
      HitIffBlocked(ts, x, ids, t);
    } else {
      assert Hit(one, promoted)[t] == one[t];
    }
  }

  lemma HitIffBlocked(ts: Tasks, x: Id, ids: seq<Id>, t: Id)
    requires KeysInOrder(ids, ts) && t in ts && Direct(ts, x)[t].status == Pending
    ensures HitBy(Direct(ts, x), Filter(PromotedBy(ts, x), ids), t) <==> BlockedBy(ts, x)(t)
    ensures Direct(ts, x)[t] == ts[t] && !PromotedBy(ts, x)(t)
  {
    DirectKeepsEnds(ts, x);
    SameEndsSameVerdict(ts, Direct(ts, x), ts[t].dependsOn);
    assert (exists p :: p in Filter(PromotedBy(ts, x), ids) && p in ts[t].dependsOn)
      <==> (exists p :: p in ts[t].dependsOn && PromotedBy(ts, x)(p));
  }

  // ---------------------------------------------------------------------------------------------
  // Failure
  // ---------------------------------------------------------------------------------------------

  ghost function FailTo(ts: Tasks, x: Id, ids: seq<Id>, i: nat): Tasks
    requires i <= |ids|
  {
    if i == 0 then ts
    else
      var now, t := FailTo(ts, x, ids, i - 1), ids[i - 1];
      if t in now && now[t].status == Pending && x in now[t].dependsOn
      then SetStatus(now, t, Blocked, FailureReason(x)) else now
  }

  lemma {:induction false} FailToIs(ts: Tasks, x: Id, ids: seq<Id>, i: nat)
    requires i <= |ids| && Distinct(ids)
    ensures FailTo(ts, x, ids, i) == map t | t in ts :: if t in ids[..i] then PropagateFailure(ts, x)[t] else ts[t]
  {
    if i > 0 {
      var k := i - 1;
      FailToIs(ts, x, ids, k);
      assert ids[..i] == ids[..k] + [ids[k]];
      assert ids[k] !in ids[..k];
    }
  }

  // ---------------------------------------------------------------------------------------------
  // The class
  // ---------------------------------------------------------------------------------------------

  class WorkflowResolver {
    const state: ClusterState

    constructor (state: ClusterState)
      ensures this.state == state
    {
      this.state := state;
    }

    method Verdict(deps: seq<Id>) returns (allDone: bool, anyFailed: bool)
      ensures anyFailed == DepFailed(state.tasks, deps)
      ensures !anyFailed ==> allDone == DepsDone(state.tasks, deps)
    {
      allDone, anyFailed := true, false;
      for i := 0 to |deps|
        invariant !anyFailed && forall k :: 0 <= k < i ==> !(deps[k] in state.tasks && state.tasks[deps[k]].status == Failed)
        invariant allDone <==> DepsDone(state.tasks, deps[..i])
      {
        assert deps[..i + 1] == deps[..i] + [deps[i]];
        if deps[i] !in state.tasks {
          allDone := false;
        } else if state.tasks[deps[i]].status == Failed {
          anyFailed := true;
          assert deps[i] in deps;
          return;
        } else if state.tasks[deps[i]].status != Completed {
          allDone := false;
        }
      }
      assert deps[..|deps|] == deps;
    }

    method ResolveDependencies(taskId: Id) returns (ok: bool)
      requires state.Valid()
      modifies state`tasks
      ensures state.Valid()
      ensures state.tasks == Resolve(old(state.tasks), taskId)
      ensures ok == Resolves(old(state.tasks), taskId)
    {
      if taskId !in state.tasks || state.tasks[taskId].status != Pending { return false; }
      var set_;
      if state.tasks[taskId].dependsOn == [] {
        set_ := state.SetTaskStatus(taskId, Ready, "");
        return true;
      }
      var allDone, anyFailed := Verdict(state.tasks[taskId].dependsOn);
      if anyFailed {
        set_ := state.SetTaskStatus(taskId, Blocked, "dependency failed");
        return false;
      }
      if allDone {
        set_ := state.SetTaskStatus(taskId, Ready, "");
        return true;
      }
      return false;
    }

    /** The first loop: pending dependents. */
    method ResolvePendingDependents(x: Id) returns (transitioned: seq<Id>)
      requires state.Valid()
      modifies state`tasks
      ensures state.Valid()
      ensures state.tasks == Direct(old(state.tasks), x)
      ensures transitioned == Filter(PromotedBy(old(state.tasks), x), state.taskIds)
    {
      ghost var before, ids := state.tasks, state.taskIds;
      transitioned := [];
      TurnsToEnd(before, x, ids);
      for i := 0 to |state.taskIds|
        invariant state.Valid()
        invariant state.tasks == TurnsTo(before, x, ids, i)
        invariant transitioned == Filter(PromotedBy(before, x), ids[..i])
      {
        var t := state.taskIds[i];
        TurnVerdict(before, x, ids, i);
        FilterStep(PromotedBy(before, x), ids, i);
        if state.tasks[t].status == Pending && x in state.tasks[t].dependsOn {
          var ok := ResolveDependencies(t);
          if ok {
            transitioned := transitioned + [t];
          }
        }
      }
      assert ids[..|ids|] == ids;
    }

    /** The second loop: blocked dependents. Resolution wants a pending task, so it never succeeds. */
    method ResolveBlockedDependents(x: Id, soFar: seq<Id>) returns (transitioned: seq<Id>)
      requires state.Valid()
      modifies state`tasks
      ensures state.Valid() && state.tasks == old(state.tasks) && transitioned == soFar
    {
      transitioned := soFar;
      for i := 0 to |state.taskIds|
        invariant state.Valid() && state.tasks == old(state.tasks) && transitioned == soFar
      {
        var t := state.taskIds[i];
        if state.tasks[t].status == Blocked && x in state.tasks[t].dependsOn {
          var ok := ResolveDependencies(t);
          if ok {
            transitioned := transitioned + [t];
          }
        }
      }
    }

    method Propagate(x: Id, depth: nat) returns (transitioned: seq<Id>)
      requires state.Valid()
      modifies state`tasks
      ensures state.Valid()
      ensures transitioned == AnswerAt(old(state.tasks), x, depth, state.taskIds)
      ensures state.tasks == PropagateAt(old(state.tasks), x, depth)
      decreases MAX_TRIGGER_CHAIN_DEPTH - depth, 1
    {
      if depth >= MAX_TRIGGER_CHAIN_DEPTH { return []; }
      CascadeToEnd(state.tasks, x, state.taskIds);
      transitioned := ResolvePendingDependents(x);
      transitioned := ResolveBlockedDependents(x, transitioned);
      transitioned := Cascade(transitioned, depth);
    }

    /** The cascade walks a list that it may extend while walking. It ends because propagation
        from a task that has only just become ready returns nothing. */
    method Cascade(promoted: seq<Id>, depth: nat) returns (transitioned: seq<Id>)
      requires state.Valid() && depth < MAX_TRIGGER_CHAIN_DEPTH
      requires forall p :: p in promoted ==> !IsDone(state.tasks, p)
      modifies state`tasks
      ensures state.Valid() && transitioned == promoted
      ensures state.tasks == CascadeAt(old(state.tasks), promoted, |promoted|, depth)
      decreases MAX_TRIGGER_CHAIN_DEPTH - depth, 0
    {
      ghost var one := state.tasks;
      transitioned := promoted;
      var k := 0;
      while k < |transitioned|
        invariant state.Valid() && transitioned == promoted && k <= |transitioned|
        invariant state.tasks == CascadeAt(one, promoted, k, depth)
        decreases |transitioned| - k
      {
        CascadeNext(one, promoted, k, depth, state.taskIds);
        var inner := Propagate(transitioned[k], depth + 1);
        transitioned := transitioned + inner;
        k := k + 1;
      }
    }

    /** Promotes exactly the pending direct dependents whose dependencies are all completed, in
        table order; beyond that it only blocks pending tasks that have a failed dependency. */
    method OnDependencyComplete(x: Id) returns (transitioned: seq<Id>)
      requires state.Valid()
      modifies state`tasks
      ensures state.Valid()
      ensures transitioned == Filter(PromotedBy(old(state.tasks), x), state.taskIds)
      ensures state.tasks == Workflow.Propagate(old(state.tasks), x)
    {
      transitioned := Propagate(x, 0);
    }

    method OnDependencyFailed(x: Id) returns (blocked: seq<Id>)
      requires state.Valid()
      modifies state`tasks
      ensures state.Valid()
      ensures state.tasks == PropagateFailure(old(state.tasks), x)
      ensures blocked == Filter(PendingOn(old(state.tasks), x), state.taskIds)
    {
      ghost var before, ids := state.tasks, state.taskIds;
      blocked := [];
      FailToIs(before, x, ids, |ids|);
      assert ids[..|ids|] == ids;
      for i := 0 to |state.taskIds|
        invariant state.Valid()
        invariant state.tasks == FailTo(before, x, ids, i)
        invariant blocked == Filter(PendingOn(before, x), ids[..i])
      {
        var t := state.taskIds[i];
        FailToIs(before, x, ids, i);
        assert t !in ids[..i] && state.tasks[t] == before[t];
        FilterStep(PendingOn(before, x), ids, i);
        if state.tasks[t].status == Pending {
          if x in state.tasks[t].dependsOn {
            var ok := state.SetTaskStatus(t, Blocked, "dependency " + x + " failed");
            blocked := blocked + [t];
          }
        }
      }
    }
  }

  function PendingOn(ts: Tasks, x: Id): Id -> bool {
    t => t in ts && ts[t].status == Pending && x in ts[t].dependsOn
  }

  /** A completed task's dependents through the resolver and through the handler's downstream
      check: the same tasks become ready. */
  lemma ResolverAgreesWithDownstream(ts: Tasks, x: Id)
    requires x in ts
    ensures forall t :: t in ts ==>
      (ts[t].status == Pending && Propagate(ts, x)[t].status == Ready <==>
       ts[t].status == Pending && Downstream(ts, x)[t].status == Ready)
  {
  }
}
