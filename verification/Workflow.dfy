/** What one step does to the task table: promotion of pending tasks, the downstream check after
    a completion, blocking after a failure, and capability scheduling. Each function gives the
    table after the step in one piece; the loops of the store are proved to reach it. */
module Workflow {
  import opened Types
  import opened Seqs

  function WithStatus(task: Task, status: TaskStatus, reason: string): Task {
    task.(status := status, version := task.version + 1,
          failReason := if reason != "" then Some(reason) else task.failReason)
  }

  function SetStatus(ts: Tasks, t: Id, status: TaskStatus, reason: string): Tasks {
    if t in ts then ts[t := WithStatus(ts[t], status, reason)] else ts
  }

  lemma UpdateTwice(ts: Tasks, t: Id, a: Task, b: Task)
    ensures ts[t := a][t := b] == ts[t := b]
  {
  }

  function NewTask(title: string, needs: seq<string>, priority: int, now: int): Task {
    Task(title, needs, [], priority, Pending, None, now, 1, None)
  }

  function Unassign(ts: Tasks, t: Id): Tasks {
    if t in ts then ts[t := ts[t].(assignedTo := None, status := Ready, version := ts[t].version + 1)] else ts
  }

  function Unblock(ts: Tasks, t: Id): Tasks {
    if t in ts && ts[t].status == Blocked
    then ts[t := ts[t].(status := Pending, version := ts[t].version + 1)]
    else ts
  }

  function SetDependsOn(ts: Tasks, t: Id, deps: seq<Id>): Tasks {
    if t in ts then ts[t := ts[t].(dependsOn := deps, version := ts[t].version + 1)] else ts
  }

  // ---------------------------------------------------------------------------------------------
  // Promotion
  // ---------------------------------------------------------------------------------------------

  /** Every dependency exists and is completed; a task without dependencies passes. */
  predicate DepsDone(ts: Tasks, deps: seq<Id>) {
    forall d :: d in deps ==> d in ts && ts[d].status == Completed
  }

  predicate DepFailed(ts: Tasks, deps: seq<Id>) {
    exists d :: d in deps && d in ts && ts[d].status == Failed
  }

  function Promotable(ts: Tasks): Id -> bool {
    t => t in ts && ts[t].status == Pending && DepsDone(ts, ts[t].dependsOn)
  }

  /** A full rescan: all tasks that are promotable now become ready, with no version bump. */
  function Promote(ts: Tasks): Tasks {
    map t | t in ts :: if Promotable(ts)(t) then ts[t].(status := Ready) else ts[t]
  }

  /** A rescan that has looked at the tasks in `seen` so far. */
  ghost function PromoteSome(ts: Tasks, seen: seq<Id>): Tasks {
    map t | t in ts :: if t in seen && Promotable(ts)(t) then ts[t].(status := Ready) else ts[t]
  }

  /** Promotions made so far do not change what is still promotable. */
  lemma PromoteSomeStep(ts: Tasks, seen: seq<Id>, t: Id)
    requires t in ts && t !in seen
    ensures var now := PromoteSome(ts, seen);
      && (now[t].status == Pending && DepsDone(now, now[t].dependsOn) <==> Promotable(ts)(t))
      && PromoteSome(ts, seen + [t]) == if Promotable(ts)(t) then now[t := now[t].(status := Ready)] else now
  {
    var now := PromoteSome(ts, seen);
    assert forall d :: d in ts ==> (now[d].status == Completed <==> ts[d].status == Completed);
    assert now[t] == ts[t];
    assert DepsDone(now, ts[t].dependsOn) == DepsDone(ts, ts[t].dependsOn);
    var then_ := PromoteSome(ts, seen + [t]);
    forall u | u in ts ensures u in seen + [t] <==> u in seen || u == t { }
  }

  /** One turn of a rescan over the tasks in `order`. */
  lemma PromotionTurn(ts: Tasks, order: seq<Id>, i: nat)
    requires i < |order| && Distinct(order) && order[i] in ts
    ensures var now, t := PromoteSome(ts, order[..i]), order[i];
      && t in now && now[t] == ts[t]
      && (now[t].status == Pending && DepsDone(now, now[t].dependsOn) <==> Promotable(ts)(t))
      && PromoteSome(ts, order[..i + 1]) == (if Promotable(ts)(t) then now[t := now[t].(status := Ready)] else now)
      && |Filter(Promotable(ts), order[..i + 1])| ==
           |Filter(Promotable(ts), order[..i])| + (if Promotable(ts)(t) then 1 else 0)
  {
    assert order[i] !in order[..i] && order[..i + 1] == order[..i] + [order[i]];
    FilterStep(Promotable(ts), order, i);
    PromoteSomeStep(ts, order[..i], order[i]);
  }

  lemma PromoteSomeAll(ts: Tasks, ids: seq<Id>)
    requires forall t :: Promotable(ts)(t) ==> t in ids
    ensures PromoteSome(ts, ids) == Promote(ts)
  {
  }

  function DependsOn(ts: Tasks, x: Id): Id -> bool {
    t => t in ts && x in ts[t].dependsOn
  }

  function Dependents(ids: seq<Id>, ts: Tasks, x: Id): seq<Id> {
    Filter(DependsOn(ts, x), ids)
  }

  /** The incremental check: only the dependents of `x` are looked at. */
  function Downstream(ts: Tasks, x: Id): Tasks {
    map t | t in ts ::
      if DependsOn(ts, x)(t) && Promotable(ts)(t) then WithStatus(ts[t], Ready, "") else ts[t]
  }

  function BlockDependents(ts: Tasks, x: Id): Tasks {
    map t | t in ts ::
      if DependsOn(ts, x)(t) && ts[t].status == Pending then WithStatus(ts[t], Blocked, "") else ts[t]
  }

  /** A rescan would promote nothing. */
  ghost predicate Quiet(ts: Tasks) {
    forall t :: !Promotable(ts)(t)
  }

  /** One pass is a fixpoint: a second rescan finds nothing, whatever order it scans in. */
  lemma PromoteReachesFixpoint(ts: Tasks, ids: seq<Id>)
    ensures Quiet(Promote(ts))
    ensures Filter(Promotable(Promote(ts)), ids) == []
    ensures Promote(Promote(ts)) == Promote(ts)
  {
    var after := Promote(ts);
    forall t ensures !Promotable(after)(t) {
      assert forall d :: d in ts ==> (after[d].status == Completed <==> ts[d].status == Completed);
      if t in after {
        assert after[t].dependsOn == ts[t].dependsOn;
      }
    }
    if Filter(Promotable(after), ids) != [] {
      assert Filter(Promotable(after), ids)[0] in Filter(Promotable(after), ids);
    }
  }

  /** Incremental promotion agrees with a full rescan: if nothing was promotable before `x`
      completed, looking only at the dependents of `x` leaves nothing promotable, and gives
      every task the status the full rescan would have given it. */
  lemma DownstreamAgreesWithRescan(ts: Tasks, x: Id)
    requires Quiet(ts) && x in ts
    ensures var done := SetStatus(ts, x, Completed, "");
      && Quiet(Downstream(done, x))
      && Downstream(done, x).Keys == Promote(done).Keys
      && forall t :: t in ts ==> Downstream(done, x)[t].status == Promote(done)[t].status
  {
    var done := SetStatus(ts, x, Completed, "");
    var after := Downstream(done, x);
    assert forall d :: d in ts ==> (after[d].status == Completed <==> done[d].status == Completed);
    forall t | t in ts
      ensures Promotable(done)(t) ==> DependsOn(done, x)(t)
      ensures !Promotable(after)(t)
    {
      assert after[t].dependsOn == ts[t].dependsOn == done[t].dependsOn;
      if Promotable(done)(t) {
        assert !Promotable(ts)(t);
        var d :| d in ts[t].dependsOn && !(d in ts && ts[d].status == Completed);
        assert d == x;
      }
      if after[t].status == Pending {
        assert done[t].status == Pending;
      }
    }
  }

  /** The downstream loop after the first `i` dependents. */
  ghost function DownstreamTo(ts: Tasks, order: seq<Id>, i: nat): Tasks
    requires i <= |order|
  {
    if i == 0 then ts
    else
      var now, t := DownstreamTo(ts, order, i - 1), order[i - 1];
      if Promotable(ts)(t) then now[t := WithStatus(ts[t], Ready, "")] else now
  }

  lemma {:induction false} DownstreamToIs(ts: Tasks, order: seq<Id>, i: nat)
    requires i <= |order|
    ensures DownstreamTo(ts, order, i) == map t | t in ts ::
      if t in order[..i] && Promotable(ts)(t) then WithStatus(ts[t], Ready, "") else ts[t]
  {
    if i > 0 {
      DownstreamToIs(ts, order, i - 1);
      assert order[..i] == order[..i - 1] + [order[i - 1]];
    }
  }

  /** Promotions made earlier in the loop do not change what the next turn decides. */
  lemma DownstreamStep(ts: Tasks, order: seq<Id>, i: nat)
    requires i < |order| && Distinct(order) && order[i] in ts
    ensures var now, t := DownstreamTo(ts, order, i), order[i];
      && t in now
      && DownstreamTo(ts, order, i + 1) ==
           if now[t].status == Pending && DepsDone(now, now[t].dependsOn) then SetStatus(now, t, Ready, "") else now
  {
    DownstreamToIs(ts, order, i);
    var now, t := DownstreamTo(ts, order, i), order[i];
    assert t !in order[..i];
    assert now[t] == ts[t];
    assert forall d :: d in ts ==> (now[d].status == Completed <==> ts[d].status == Completed);
    assert DepsDone(now, ts[t].dependsOn) == DepsDone(ts, ts[t].dependsOn);
  }

  lemma DownstreamToEnd(ts: Tasks, ids: seq<Id>, x: Id)
    requires KeysInOrder(ids, ts)
    ensures DownstreamTo(ts, Dependents(ids, ts, x), |Dependents(ids, ts, x)|) == Downstream(ts, x)
  {
    var order := Dependents(ids, ts, x);
    DownstreamToIs(ts, order, |order|);
    assert order[..|order|] == order;
  }

  /** The blocking loop after the first `i` dependents. */
  ghost function BlockTo(ts: Tasks, order: seq<Id>, i: nat): Tasks
    requires i <= |order|
  {
    if i == 0 then ts
    else
      var now, t := BlockTo(ts, order, i - 1), order[i - 1];
      if t in ts && ts[t].status == Pending then now[t := WithStatus(ts[t], Blocked, "")] else now
  }

  lemma {:induction false} BlockToIs(ts: Tasks, order: seq<Id>, i: nat)
    requires i <= |order|
    ensures BlockTo(ts, order, i) == map t | t in ts ::
      if t in order[..i] && ts[t].status == Pending then WithStatus(ts[t], Blocked, "") else ts[t]
  {
    if i > 0 {
      BlockToIs(ts, order, i - 1);
      assert order[..i] == order[..i - 1] + [order[i - 1]];
    }
  }

  lemma BlockStep(ts: Tasks, order: seq<Id>, i: nat)
    requires i < |order| && Distinct(order) && order[i] in ts
    ensures var now, t := BlockTo(ts, order, i), order[i];
      && t in now
      && BlockTo(ts, order, i + 1) == if now[t].status == Pending then SetStatus(now, t, Blocked, "") else now
  {
    BlockToIs(ts, order, i);
    assert order[i] !in order[..i];
  }

  lemma BlockToEnd(ts: Tasks, ids: seq<Id>, x: Id)
    requires KeysInOrder(ids, ts)
    ensures BlockTo(ts, Dependents(ids, ts, x), |Dependents(ids, ts, x)|) == BlockDependents(ts, x)
  {
    var order := Dependents(ids, ts, x);
    BlockToIs(ts, order, |order|);
    assert order[..|order|] == order;
  }

  // ---------------------------------------------------------------------------------------------
  // The resolver
  // ---------------------------------------------------------------------------------------------

  const DEPENDENCY_FAILED := "dependency failed"

  /** Looking at one pending task: blocked by a failed dependency, else ready if all are done. */
  function Resolve(ts: Tasks, t: Id): Tasks {
    if t !in ts || ts[t].status != Pending then ts
    else if DepFailed(ts, ts[t].dependsOn) then SetStatus(ts, t, Blocked, DEPENDENCY_FAILED)
    else if DepsDone(ts, ts[t].dependsOn) then SetStatus(ts, t, Ready, "")
    else ts
  }

  function PromotedBy(ts: Tasks, x: Id): Id -> bool {
    t => t in ts && ts[t].status == Pending && x in ts[t].dependsOn && DepsDone(ts, ts[t].dependsOn)
  }

  /** Pending tasks that the cascade reaches and that have a failed dependency: dependents of `x`
      itself, or of a task that `x` promotes. */
  function BlockedBy(ts: Tasks, x: Id): Id -> bool {
    t => t in ts && ts[t].status == Pending && DepFailed(ts, ts[t].dependsOn)
      && (x in ts[t].dependsOn || exists p :: p in ts[t].dependsOn && PromotedBy(ts, x)(p))
  }

  function Propagate(ts: Tasks, x: Id): Tasks {
    map t | t in ts ::
      if PromotedBy(ts, x)(t) then WithStatus(ts[t], Ready, "")
      else if BlockedBy(ts, x)(t) then WithStatus(ts[t], Blocked, DEPENDENCY_FAILED)
      else ts[t]
  }

  function FailureReason(x: Id): string {
    "dependency " + x + " failed"
  }

  function PropagateFailure(ts: Tasks, x: Id): Tasks {
    map t | t in ts ::
      if DependsOn(ts, x)(t) && ts[t].status == Pending then WithStatus(ts[t], Blocked, FailureReason(x))
      else ts[t]
  }

  // ---------------------------------------------------------------------------------------------
  // Scheduling
  // ---------------------------------------------------------------------------------------------

  predicate Capable(node: Node, needs: seq<string>) {
    forall c :: c in needs ==> c in node.capabilities
  }

  function IsOnline(reg: Registry): Id -> bool {
    n => n in reg.nodes && reg.nodes[n].status == Online
  }

  function Fits(reg: Registry, needs: seq<string>): Id -> bool {
    n => n in reg.nodes && reg.nodes[n].status == Online && Capable(reg.nodes[n], needs)
  }

  /** The first online node, in registration order, that has every needed capability. */
  function FirstFit(reg: Registry, needs: seq<string>): Option<Id> {
    var fits := Filter(Fits(reg, needs), reg.ids);
    if fits == [] then None else Some(fits[0])
  }

  /** Searching the online nodes only finds the same node. */
  lemma FirstFitAmongOnline(reg: Registry, needs: seq<string>, online: seq<Id>, j: nat)
    requires online == Filter(IsOnline(reg), reg.ids) && j <= |online|
    requires forall k :: 0 <= k < j ==> !Fits(reg, needs)(online[k])
    ensures j < |online| && Fits(reg, needs)(online[j]) ==> FirstFit(reg, needs) == Some(online[j])
    ensures j == |online| ==> FirstFit(reg, needs) == None
  {
    FilterFilter(IsOnline(reg), Fits(reg, needs), Fits(reg, needs), reg.ids);
    if j == |online| {
      FilterNone(Fits(reg, needs), online);
    } else if Fits(reg, needs)(online[j]) {
      FilterHead(Fits(reg, needs), online, j);
    }
  }

  /** FirstFit against positions in the registry: the node chosen fits and no earlier one does,
      and none is chosen only when none fits. */
  lemma FirstFitIsFirst(reg: Registry, needs: seq<string>)
    ensures FirstFit(reg, needs) == None <==> forall n :: n in reg.ids ==> !Fits(reg, needs)(n)
    ensures FirstFit(reg, needs).Some? ==>
      exists j :: (
        && 0 <= j < |reg.ids|
        && reg.ids[j] == FirstFit(reg, needs).value && Fits(reg, needs)(reg.ids[j])
        && forall k :: 0 <= k < j ==> !Fits(reg, needs)(reg.ids[k]))
  {
    var fits := Filter(Fits(reg, needs), reg.ids);
    if fits == [] {
      forall n | n in reg.ids ensures !Fits(reg, needs)(n) {
        assert n !in fits;
      }
    } else {
      assert fits[0] in fits;
      var j := FilterHeadWhere(Fits(reg, needs), reg.ids);
    }
  }

  function Schedulable(ts: Tasks, reg: Registry): Id -> bool {
    t => t in ts && ts[t].status == Ready && FirstFit(reg, ts[t].needs).Some?
  }

  function Run(task: Task, node: Id): Task {
    task.(status := Running, assignedTo := Some(node), version := task.version + 1)
  }

  function Schedule(ts: Tasks, reg: Registry): Tasks {
    map t | t in ts ::
      if Schedulable(ts, reg)(t) then Run(ts[t], FirstFit(reg, ts[t].needs).value) else ts[t]
  }

  /** A scheduling pass that has served the first `i` tasks of `order`. */
  ghost function ScheduleTo(ts: Tasks, reg: Registry, order: seq<Id>, i: nat): Tasks
    requires i <= |order|
  {
    if i == 0 then ts
    else
      var now, t := ScheduleTo(ts, reg, order, i - 1), order[i - 1];
      if Schedulable(ts, reg)(t) then now[t := Run(ts[t], FirstFit(reg, ts[t].needs).value)] else now
  }

  lemma {:induction false} ScheduleToIs(ts: Tasks, reg: Registry, order: seq<Id>, i: nat)
    requires i <= |order|
    ensures ScheduleTo(ts, reg, order, i) == map t | t in ts ::
      if t in order[..i] && Schedulable(ts, reg)(t) then Run(ts[t], FirstFit(reg, ts[t].needs).value) else ts[t]
  {
    if i > 0 {
      ScheduleToIs(ts, reg, order, i - 1);
      assert order[..i] == order[..i - 1] + [order[i - 1]];
    }
  }

  lemma ScheduleToEnd(ts: Tasks, reg: Registry, order: seq<Id>)
    requires forall t :: t in ts && ts[t].status == Ready ==> t in order
    ensures ScheduleTo(ts, reg, order, |order|) == Schedule(ts, reg)
  {
    ScheduleToIs(ts, reg, order, |order|);
    assert order[..|order|] == order;
  }

  lemma ScheduleReachesFixpoint(ts: Tasks, reg: Registry, ids: seq<Id>)
    ensures Filter(Schedulable(Schedule(ts, reg), reg), ids) == []
    ensures Schedule(Schedule(ts, reg), reg) == Schedule(ts, reg)
  {
    var after := Schedule(ts, reg);
    forall t ensures !Schedulable(after, reg)(t) {
      if t in ts { assert after[t].needs == ts[t].needs; }
    }
    if Filter(Schedulable(after, reg), ids) != [] {
      assert Filter(Schedulable(after, reg), ids)[0] in Filter(Schedulable(after, reg), ids);
    }
  }

  lemma NobodyOnline(ts: Tasks, reg: Registry, ids: seq<Id>)
    requires forall n :: n in reg.ids ==> !IsOnline(reg)(n)
    ensures Schedule(ts, reg) == ts
    ensures NewDecisions(ids, ts, reg) == []
    ensures Filter(Schedulable(ts, reg), ids) == []
  {
    forall needs: seq<string> ensures FirstFit(reg, needs) == None {
      FilterNone(Fits(reg, needs), reg.ids);
    }
    DecisionsFollowOrder(ReadyOrder(ids, ts), ts, reg);
    FilterNone(Schedulable(ts, reg), ReadyOrder(ids, ts));
    FilterNone(Schedulable(ts, reg), ids);
  }

  lemma NothingScheduled(ts: Tasks, reg: Registry, ids: seq<Id>)
    requires KeysInOrder(ids, ts)
    ensures |Filter(Schedulable(ts, reg), ids)| == 0 ==> Schedule(ts, reg) == ts
  {
    if |Filter(Schedulable(ts, reg), ids)| == 0 {
      forall t | t in ts ensures !Schedulable(ts, reg)(t) {
        assert t !in Filter(Schedulable(ts, reg), ids);
      }
    }
  }

  function IsReady(ts: Tasks): Id -> bool {
    t => t in ts && ts[t].status == Ready
  }

  /** The order in which ready tasks are served: by priority, then by creation time. */
  predicate NotAfter(ts: Tasks, a: Id, b: Id)
    requires a in ts && b in ts
  {
    ts[a].priority < ts[b].priority
    || (ts[a].priority == ts[b].priority && ts[a].createdAt <= ts[b].createdAt)
  }

  function Insert(ts: Tasks, x: Id, s: seq<Id>): (r: seq<Id>)
    requires x in ts && forall y :: y in s ==> y in ts
    ensures forall y :: y in r <==> y == x || y in s
  {
    if s == [] then [x]
    else if NotAfter(ts, x, s[0]) then [x] + s
    else [s[0]] + Insert(ts, x, s[1..])
  }

  /** Python's `sorted` on this key: an insertion sort that keeps equal keys in their order. */
  function SortReady(ts: Tasks, ids: seq<Id>): (r: seq<Id>)
    requires forall t :: t in ids ==> t in ts
    ensures forall t :: t in r <==> t in ids
  {
    if ids == [] then [] else Insert(ts, ids[0], SortReady(ts, ids[1..]))
  }

  /** `a` is served before `b`: a smaller key, or an equal key and an earlier place in `ids`. */
  ghost predicate ServedBefore(ts: Tasks, ids: seq<Id>, a: Id, b: Id) {
    && a in ts && b in ts && NotAfter(ts, a, b)
    && (NotAfter(ts, b, a) ==> exists i, j :: 0 <= i < j < |ids| && ids[i] == a && ids[j] == b)
  }

  ghost function ServedBeforeIn(ts: Tasks, ids: seq<Id>): (Id, Id) -> bool {
    (a, b) => ServedBefore(ts, ids, a, b)
  }

  lemma {:induction false} InsertPermutes(ts: Tasks, x: Id, s: seq<Id>)
    requires x in ts && forall y :: y in s ==> y in ts
    ensures multiset(Insert(ts, x, s)) == multiset(s) + multiset{x}
  {
    if s != [] && !NotAfter(ts, x, s[0]) {
      InsertPermutes(ts, x, s[1..]);
      assert s == [s[0]] + s[1..];
    }
  }

  lemma {:induction false} SortPermutes(ts: Tasks, ids: seq<Id>)
    requires forall t :: t in ids ==> t in ts
    ensures multiset(SortReady(ts, ids)) == multiset(ids)
  {
    if ids != [] {
      SortPermutes(ts, ids[1..]);
      InsertPermutes(ts, ids[0], SortReady(ts, ids[1..]));
      assert ids == [ids[0]] + ids[1..];
    }
  }

  /** Inserting an id that precedes all others keeps the service order. */
  lemma {:induction false} InsertKeepsOrder(ts: Tasks, ids: seq<Id>, s: seq<Id>)
    requires ids != [] && forall t :: t in ids ==> t in ts
    requires forall y :: y in s ==> y in ids[1..]
    requires Pairwise(ServedBeforeIn(ts, ids), s)
    ensures Pairwise(ServedBeforeIn(ts, ids), Insert(ts, ids[0], s))
  {
    var x, rel := ids[0], ServedBeforeIn(ts, ids);
    if s != [] {
      var rest := s[1..];
      assert s[0] in s;
      if NotAfter(ts, x, s[0]) {
        forall y | y in s ensures rel(x, y) {
          assert y == s[0] || rel(s[0], y);
          var j :| 0 <= j < |ids[1..]| && ids[1..][j] == y;
          assert ids[0] == x && ids[j + 1] == y;
        }
      } else {
        InsertKeepsOrder(ts, ids, rest);
        forall y | y in Insert(ts, x, rest) ensures rel(s[0], y) {
          assert y == x || y in rest;
        }
      }
    }
  }

  lemma {:induction false} SortIsSortedAndStable(ts: Tasks, ids: seq<Id>)
    requires forall t :: t in ids ==> t in ts
    ensures Pairwise(ServedBeforeIn(ts, ids), SortReady(ts, ids))
  {
    if ids != [] {
      var s := SortReady(ts, ids[1..]);
      SortIsSortedAndStable(ts, ids[1..]);
      forall i, j | 0 <= i < j < |s| ensures ServedBeforeIn(ts, ids)(s[i], s[j]) {
        assert ServedBeforeIn(ts, ids[1..])(s[i], s[j]);
        if NotAfter(ts, s[j], s[i]) {
          var p, q :| 0 <= p < q < |ids[1..]| && ids[1..][p] == s[i] && ids[1..][q] == s[j];
          assert ids[p + 1] == s[i] && ids[q + 1] == s[j];
        }
      }
      InsertKeepsOrder(ts, ids, s);
    }
  }

  function ReadyOrder(ids: seq<Id>, ts: Tasks): seq<Id> {
    SortReady(ts, Filter(IsReady(ts), ids))
  }

  function DecisionFor(ts: Tasks, reg: Registry, t: Id): Decision
    requires Schedulable(ts, reg)(t)
  {
    Decision(t, ts[t].title, ts[t].priority, FirstFit(reg, ts[t].needs).value)
  }

  /** One decision for each schedulable member of `order`, in that order. */
  function DecisionsAlong(order: seq<Id>, ts: Tasks, reg: Registry): seq<Decision> {
    if order == [] then []
    else
      var init := DecisionsAlong(order[..|order| - 1], ts, reg);
      var t := order[|order| - 1];
      if Schedulable(ts, reg)(t) then init + [DecisionFor(ts, reg, t)] else init
  }

  lemma DecisionsStep(order: seq<Id>, i: nat, ts: Tasks, reg: Registry)
    requires i < |order|
    ensures DecisionsAlong(order[..i + 1], ts, reg) ==
      if Schedulable(ts, reg)(order[i])
      then DecisionsAlong(order[..i], ts, reg) + [DecisionFor(ts, reg, order[i])]
      else DecisionsAlong(order[..i], ts, reg)
  {
    assert order[..i + 1][..i] == order[..i];
  }

  /** One turn of the scheduling loop, for its three results at once. */
  lemma PassStep(ts: Tasks, reg: Registry, order: seq<Id>, i: nat)
    requires i < |order| && Distinct(order) && forall t :: t in order ==> t in ts && ts[t].status == Ready
    ensures var t, now, fit := order[i], ScheduleTo(ts, reg, order, i), FirstFit(reg, ts[order[i]].needs);
      && t in now && now[t] == ts[t]
      && ScheduleTo(ts, reg, order, i + 1) == (if fit.Some? then now[t := Run(ts[t], fit.value)] else now)
      && DecisionsAlong(order[..i + 1], ts, reg) ==
           DecisionsAlong(order[..i], ts, reg)
           + (if fit.Some? then [Decision(t, ts[t].title, ts[t].priority, fit.value)] else [])
      && |Filter(Schedulable(ts, reg), order[..i + 1])| ==
           |Filter(Schedulable(ts, reg), order[..i])| + (if fit.Some? then 1 else 0)
  {
    ScheduleToIs(ts, reg, order, i);
    DecisionsStep(order, i, ts, reg);
    FilterStep(Schedulable(ts, reg), order, i);
  }

  function NewDecisions(ids: seq<Id>, ts: Tasks, reg: Registry): seq<Decision> {
    DecisionsAlong(ReadyOrder(ids, ts), ts, reg)
  }

  lemma {:induction false} DecisionsFollowOrder(order: seq<Id>, ts: Tasks, reg: Registry)
    ensures var ds, fs := DecisionsAlong(order, ts, reg), Filter(Schedulable(ts, reg), order);
      |ds| == |fs| && forall i :: 0 <= i < |ds| ==> ds[i] == DecisionFor(ts, reg, fs[i])
  {
    if order != [] {
      DecisionsFollowOrder(order[..|order| - 1], ts, reg);
    }
  }

  /** The decisions of one scheduling pass: exactly one per schedulable task, naming its first
      fitting node, in service order, with ties kept in table order. */
  lemma DecisionsAreSortedAndStable(ids: seq<Id>, ts: Tasks, reg: Registry)
    requires KeysInOrder(ids, ts)
    ensures var ds := NewDecisions(ids, ts, reg);
      && |ds| == |Filter(Schedulable(ts, reg), ids)|
      && (forall i :: 0 <= i < |ds| ==>
            Schedulable(ts, reg)(ds[i].taskId) && ds[i] == DecisionFor(ts, reg, ds[i].taskId))
      && (forall t :: Schedulable(ts, reg)(t) ==> exists i :: 0 <= i < |ds| && ds[i].taskId == t)
      && (forall i, j :: 0 <= i < j < |ds| ==>
            ds[i].taskId != ds[j].taskId && ServedBeforeIn(ts, ids)(ds[i].taskId, ds[j].taskId))
  {
    var ds, fs := NewDecisions(ids, ts, reg), ServedIds(ids, ts, reg);
    DecisionsFollowOrder(ReadyOrder(ids, ts), ts, reg);
    ServedIdsComplete(ids, ts, reg);
    ServedIdsSorted(ids, ts, reg);
    forall t | Schedulable(ts, reg)(t) ensures exists i :: 0 <= i < |ds| && ds[i].taskId == t {
      assert t in fs;
      var i :| 0 <= i < |fs| && fs[i] == t;
      assert ds[i].taskId == t;
    }
  }

  /** The ids that one scheduling pass serves, in the order it serves them. */
  function ServedIds(ids: seq<Id>, ts: Tasks, reg: Registry): seq<Id> {
    Filter(Schedulable(ts, reg), ReadyOrder(ids, ts))
  }

  lemma ServedIdsComplete(ids: seq<Id>, ts: Tasks, reg: Registry)
    requires Distinct(ids)
    ensures var fs := ServedIds(ids, ts, reg);
      && Distinct(fs) && |fs| == |Filter(Schedulable(ts, reg), ids)|
      && forall t :: t in fs <==> t in ids && Schedulable(ts, reg)(t)
  {
    var ready := Filter(IsReady(ts), ids);
    SortPermutes(ts, ready);
    FilterPermutation(Schedulable(ts, reg), ReadyOrder(ids, ts), ready);
    FilterFilter(IsReady(ts), Schedulable(ts, reg), Schedulable(ts, reg), ids);
    ReadyOrderDistinct(ids, ts);
    FilterDistinct(Schedulable(ts, reg), ReadyOrder(ids, ts));
  }

  lemma ServedIdsSorted(ids: seq<Id>, ts: Tasks, reg: Registry)
    ensures Pairwise(ServedBeforeIn(ts, ids), ServedIds(ids, ts, reg))
  {
    var ready, fs := Filter(IsReady(ts), ids), ServedIds(ids, ts, reg);
    SortIsSortedAndStable(ts, ready);
    FilterPairwise(Schedulable(ts, reg), ServedBeforeIn(ts, ready), ReadyOrder(ids, ts));
    forall i, j | 0 <= i < j < |fs| ensures ServedBeforeIn(ts, ids)(fs[i], fs[j]) {
      assert ServedBeforeIn(ts, ready)(fs[i], fs[j]);
      if NotAfter(ts, fs[j], fs[i]) {
        FilterKeepsPlaces(IsReady(ts), ids, fs[i], fs[j]);
      }
    }
  }

  lemma ReadyOrderDistinct(ids: seq<Id>, ts: Tasks)
    requires Distinct(ids)
    ensures Distinct(ReadyOrder(ids, ts))
    ensures forall t :: t in ReadyOrder(ids, ts) <==> t in ids && IsReady(ts)(t)
  {
    var ready := Filter(IsReady(ts), ids);
    FilterDistinct(IsReady(ts), ids);
    SortPermutes(ts, ready);
    DistinctByMultiset(ReadyOrder(ids, ts), ready);
  }
}
