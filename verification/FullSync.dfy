/** Full-state sync: a snapshot of all tasks is merged task by task, by version. Applying a task
    raises the local version by one instead of copying the remote one. */
module FullSync {
  import opened Types
  import opened Seqs
  import opened Workflow

  datatype Entry = Entry(id: Id, task: Task)

  /** Creation for an unknown task: version 1, or 2 if it has to leave `pending`. */
  function Created(remote: Task, now: int): Task {
    var task := NewTask(remote.title, remote.needs, remote.priority, now);
    if remote.status != Pending then WithStatus(task, remote.status, "") else task
  }

  function Reason(remote: Task): string {
    if remote.failReason.Some? then remote.failReason.value else ""
  }

  predicate Newer(local: Option<Task>, remote: Task) {
    local == None || remote.version > local.value.version
  }

  function Merge(local: Option<Task>, remote: Task, now: int): Task {
    if local == None then Created(remote, now)
    else if remote.version > local.value.version then WithStatus(local.value, remote.status, Reason(remote))
    else local.value
  }

  function Lookup(ts: Tasks, id: Id): Option<Task> {
    if id in ts then Some(ts[id]) else None
  }

  datatype Table = Table(ids: seq<Id>, tasks: Tasks)

  function ReceiveOne(tb: Table, e: Entry, now: int): Table {
    Table(if e.id in tb.tasks then tb.ids else tb.ids + [e.id],
          tb.tasks[e.id := Merge(Lookup(tb.tasks, e.id), e.task, now)])
  }

  function ReceiveAll(tb: Table, snap: seq<Entry>, now: int): Table {
    if snap == [] then tb else ReceiveOne(ReceiveAll(tb, snap[..|snap| - 1], now), snap[|snap| - 1], now)
  }

  function AppliedCount(tb: Table, snap: seq<Entry>, now: int): nat {
    if snap == [] then 0
    else
      AppliedCount(tb, snap[..|snap| - 1], now)
      + (if Newer(Lookup(ReceiveAll(tb, snap[..|snap| - 1], now).tasks, snap[|snap| - 1].id), snap[|snap| - 1].task)
         then 1 else 0)
  }

  /** What one entry does: an unknown task is created at version 1, or 2 if it is not pending, with
      the remote title, needs, priority and status; a known one takes a newer remote status one
      version on, and the remote reason if there is one; nobody else changes. */
  lemma EntryEffect(tb: Table, e: Entry, now: int)
    ensures var tb', r := ReceiveOne(tb, e, now), e.task;
      && e.id in tb'.tasks && tb'.tasks == tb.tasks[e.id := tb'.tasks[e.id]]
      && tb'.ids == (if e.id in tb.tasks then tb.ids else tb.ids + [e.id])
      && if e.id !in tb.tasks then
           tb'.tasks[e.id] ==
             Task(r.title, r.needs, [], r.priority, r.status, None, now, if r.status == Pending then 1 else 2, None)
         else
           var was := tb.tasks[e.id];
           if r.version > was.version then
             tb'.tasks[e.id] ==
               Task(was.title, was.needs, was.dependsOn, was.priority, r.status, was.assignedTo, was.createdAt,
                    was.version + 1,
                    if r.failReason.Some? && r.failReason.value != "" then r.failReason else was.failReason)
           else tb'.tasks[e.id] == was
  {
  }

  ghost predicate OneEntryPerTask(snap: seq<Entry>) {
    forall i, j :: 0 <= i < j < |snap| ==> snap[i].id != snap[j].id
  }

  // ---------------------------------------------------------------------------------------------
  // The nodes of a snapshot
  // ---------------------------------------------------------------------------------------------

  datatype NodeEntry = NodeEntry(id: Id, node: Node)

  /** A load at least as high counts as more recent. */
  predicate NodeAccepted(reg: Registry, e: NodeEntry) {
    e.id !in reg.nodes || e.node.load >= reg.nodes[e.id].load
  }

  function ReceiveNode(reg: Registry, e: NodeEntry): Registry {
    if !NodeAccepted(reg, e) then reg
    else Registry(if e.id in reg.nodes then reg.ids else reg.ids + [e.id], reg.nodes[e.id := e.node])
  }

  function ReceiveNodes(reg: Registry, snap: seq<NodeEntry>): Registry {
    if snap == [] then reg else ReceiveNode(ReceiveNodes(reg, snap[..|snap| - 1]), snap[|snap| - 1])
  }

  function NodesAccepted(reg: Registry, snap: seq<NodeEntry>): nat {
    if snap == [] then 0
    else
      NodesAccepted(reg, snap[..|snap| - 1])
      + (if NodeAccepted(ReceiveNodes(reg, snap[..|snap| - 1]), snap[|snap| - 1]) then 1 else 0)
  }

  /** What one node entry does: it replaces a node it does not know, or one of no higher load; a node
      of higher load stays, and so does everybody else. */
  lemma NodeEntryEffect(reg: Registry, e: NodeEntry)
    ensures var reg' := ReceiveNode(reg, e);
      && e.id in reg'.nodes && reg'.nodes == reg.nodes[e.id := reg'.nodes[e.id]]
      && reg'.ids == (if e.id in reg.nodes then reg.ids else reg.ids + [e.id])
      && reg'.nodes[e.id] ==
           if e.id in reg.nodes && reg.nodes[e.id].load > e.node.load then reg.nodes[e.id] else e.node
  {
  }

  /** Each node ends as the start or the snapshot had it, with the highest load of them all. */
  lemma {:induction false} HighestLoadWins(reg: Registry, snap: seq<NodeEntry>, id: Id)
    ensures var after := ReceiveNodes(reg, snap).nodes;
      && (id in reg.nodes ==> id in after && after[id].load >= reg.nodes[id].load)
      && (forall e :: e in snap && e.id == id ==> id in after && after[id].load >= e.node.load)
      && (id in after ==> (id in reg.nodes && after[id] == reg.nodes[id]) || NodeEntry(id, after[id]) in snap)
  {
    if snap != [] {
      HighestLoadWins(reg, snap[..|snap| - 1], id);
      assert snap == snap[..|snap| - 1] + [snap[|snap| - 1]];
    }
  }

  lemma {:induction false} KnownNodesAreKept(reg: Registry, snap: seq<NodeEntry>)
    requires forall e :: e in snap ==> e.id in reg.nodes && (NodeAccepted(reg, e) ==> reg.nodes[e.id] == e.node)
    ensures ReceiveNodes(reg, snap) == reg
  {
    if snap != [] {
      KnownNodesAreKept(reg, snap[..|snap| - 1]);
      assert snap[|snap| - 1] in snap;
      assert reg.nodes[snap[|snap| - 1].id := reg.nodes[snap[|snap| - 1].id]] == reg.nodes;
    }
  }

  /** Delivering the nodes of a snapshot a second time changes nothing. */
  lemma NodeRedeliveryDoesNothing(reg: Registry, snap: seq<NodeEntry>)
    requires forall i, j :: 0 <= i < j < |snap| ==> snap[i].id != snap[j].id
    ensures ReceiveNodes(ReceiveNodes(reg, snap), snap) == ReceiveNodes(reg, snap)
  {
    var after := ReceiveNodes(reg, snap);
    forall e | e in snap
      ensures e.id in after.nodes && (NodeAccepted(after, e) ==> after.nodes[e.id] == e.node)
    {
      NodeAfter(reg, snap, e);
    }
    KnownNodesAreKept(after, snap);
  }

  lemma {:induction false} NodeAfter(reg: Registry, snap: seq<NodeEntry>, e: NodeEntry)
    requires e in snap && forall i, j :: 0 <= i < j < |snap| ==> snap[i].id != snap[j].id
    ensures var after := ReceiveNodes(reg, snap).nodes;
      e.id in after && after[e.id] == if NodeAccepted(reg, e) then e.node else reg.nodes[e.id]
  {
    var front, last := snap[..|snap| - 1], snap[|snap| - 1];
    if e == last {
      NodeUntouched(reg, front, e.id);
    } else {
      var i :| 0 <= i < |snap| && snap[i] == e;
      assert front[i] == e;
      NodeAfter(reg, front, e);
    }
  }

  lemma {:induction false} NodeUntouched(reg: Registry, snap: seq<NodeEntry>, id: Id)
    requires forall i :: 0 <= i < |snap| ==> snap[i].id != id
    ensures id in ReceiveNodes(reg, snap).nodes <==> id in reg.nodes
    ensures id in reg.nodes ==> ReceiveNodes(reg, snap).nodes[id] == reg.nodes[id]
  {
    if snap != [] {
      NodeUntouched(reg, snap[..|snap| - 1], id);
    }
  }

  // ---------------------------------------------------------------------------------------------
  // One snapshot, delivered again and again
  // ---------------------------------------------------------------------------------------------

  function Max0(x: int): nat {
    if x > 0 then x else 0
  }

  function Min(a: nat, b: nat): nat {
    if a < b then a else b
  }

  function MergeTimes(local: Task, remote: Task, n: nat): Task {
    if n == 0 then local else Merge(Some(MergeTimes(local, remote, n - 1)), remote, 0)
  }

  function TimesApplied(local: Task, remote: Task, n: nat): nat {
    if n == 0 then 0
    else TimesApplied(local, remote, n - 1) + (if Newer(Some(MergeTimes(local, remote, n - 1)), remote) then 1 else 0)
  }

  /** Redelivering a task with remote version r to a local version v applies it exactly
      max(0, r - v) times and then rejects it for good; the status is the remote's from the first
      application on. */
  lemma {:induction false} RedeliveryAppliesTheGap(local: Task, remote: Task, n: nat)
    ensures var gap, after := Max0(remote.version - local.version), MergeTimes(local, remote, n);
      && TimesApplied(local, remote, n) == Min(n, gap)
      && after.version == local.version + Min(n, gap)
      && (Newer(Some(after), remote) <==> n < gap)
      && after.status == (if n > 0 && gap > 0 then remote.status else local.status)
  {
    if n > 0 { RedeliveryAppliesTheGap(local, remote, n - 1); }
  }

  /** How far a table is behind a snapshot, over all its entries. */
  function Gap(ts: Tasks, snap: seq<Entry>): nat {
    if snap == [] then 0
    else
      var e := snap[|snap| - 1];
      Gap(ts, snap[..|snap| - 1]) + (if e.id in ts then Max0(e.task.version - ts[e.id].version) else 0)
  }

  /** Each task of the snapshot is merged on its own; the others are not touched. */
  lemma {:induction false} ReceiveIsPointwise(tb: Table, snap: seq<Entry>, now: int)
    requires OneEntryPerTask(snap)
    ensures forall i :: 0 <= i < |snap| ==>
      Lookup(ReceiveAll(tb, snap, now).tasks, snap[i].id) == Some(Merge(Lookup(tb.tasks, snap[i].id), snap[i].task, now))
    ensures forall id :: (forall i :: 0 <= i < |snap| ==> snap[i].id != id) ==>
      Lookup(ReceiveAll(tb, snap, now).tasks, id) == Lookup(tb.tasks, id)
  {
    if snap != [] {
      ReceiveIsPointwise(tb, snap[..|snap| - 1], now);
    }
  }

  lemma {:induction false} GapOfOthers(ts: Tasks, ts': Tasks, snap: seq<Entry>)
    requires forall i :: 0 <= i < |snap| ==> Lookup(ts, snap[i].id) == Lookup(ts', snap[i].id)
    ensures Gap(ts, snap) == Gap(ts', snap)
  {
    if snap != [] {
      GapOfOthers(ts, ts', snap[..|snap| - 1]);
      var e := snap[|snap| - 1];
      assert Lookup(ts, e.id) == Lookup(ts', e.id);
    }
  }

  /** One delivery of a snapshot of known tasks shrinks the gap by exactly the number of tasks it
      applies, and it applies some task as long as there is a gap. So over all redeliveries the
      applications add up to the initial gap. */
  lemma {:induction false} DeliveryShrinksGap(tb: Table, snap: seq<Entry>, now: int)
    requires OneEntryPerTask(snap) && forall i :: 0 <= i < |snap| ==> snap[i].id in tb.tasks
    ensures Gap(ReceiveAll(tb, snap, now).tasks, snap) + AppliedCount(tb, snap, now) == Gap(tb.tasks, snap)
    ensures AppliedCount(tb, snap, now) == 0 <==> Gap(tb.tasks, snap) == 0
  {
    if snap != [] {
      var front, e := snap[..|snap| - 1], snap[|snap| - 1];
      var mid, after := ReceiveAll(tb, front, now), ReceiveAll(tb, snap, now);
      DeliveryShrinksGap(tb, front, now);
      ReceiveIsPointwise(tb, front, now);
      assert Lookup(mid.tasks, e.id) == Lookup(tb.tasks, e.id);
      forall i | 0 <= i < |front| ensures Lookup(mid.tasks, front[i].id) == Lookup(after.tasks, front[i].id) {
        assert snap[i].id != e.id;
      }
      GapOfOthers(mid.tasks, after.tasks, front);
    }
  }

  // ---------------------------------------------------------------------------------------------
  // Two replicas
  // ---------------------------------------------------------------------------------------------

  /** What a task looks like at two replicas. */
  datatype Pair = Pair(a: Option<Task>, b: Option<Task>)

  function Deliver(target: Option<Task>, source: Option<Task>, now: int): Option<Task> {
    if source == None then target else Some(Merge(target, source.value, now))
  }

  /** One snapshot goes from the first replica to the second, or back. */
  function Send(p: Pair, forth: bool, now: int): Pair {
    if forth then Pair(p.a, Deliver(p.b, p.a, now)) else Pair(Deliver(p.a, p.b, now), p.b)
  }

  function SendAll(p: Pair, way: seq<bool>, now: int): Pair {
    if way == [] then p else Send(SendAll(p, way[..|way| - 1], now), way[|way| - 1], now)
  }

  /** Both replicas have the task at the same version and status, or neither has it. */
  predicate Agree(p: Pair) {
    p.a.Some? == p.b.Some?
    && (p.a.Some? ==> p.a.value.version == p.b.value.version && p.a.value.status == p.b.value.status)
  }

  /** Both replicas have the task at the same version, with different statuses. */
  predicate Torn(p: Pair) {
    p.a.Some? && p.b.Some? && p.a.value.version == p.b.value.version && p.a.value.status != p.b.value.status
  }

  lemma {:induction false} FixedForever(p: Pair, way: seq<bool>, now: int)
    requires Torn(p) || Agree(p)
    ensures SendAll(p, way, now) == p
  {
    if way != [] {
      FixedForever(p, way[..|way| - 1], now);
    }
  }

  function Count(way: seq<bool>, forth: bool): nat {
    if way == [] then 0 else Count(way[..|way| - 1], forth) + (if way[|way| - 1] == forth then 1 else 0)
  }

  function Newest(p: Pair, forth: bool): Option<Task> {
    if forth then p.a else p.b
  }

  function Oldest(p: Pair, forth: bool): Option<Task> {
    if forth then p.b else p.a
  }

  /** In every interleaving of deliveries the newer replica never changes, and the older one gains
      one version per delivery from it, until they are level. */
  lemma {:induction false} OlderCatchesUp(p: Pair, forth: bool, way: seq<bool>, now: int)
    requires p.a.Some? && p.b.Some? && Newest(p, forth).value.version > Oldest(p, forth).value.version
    ensures var q, d, k := SendAll(p, way, now),
          Newest(p, forth).value.version - Oldest(p, forth).value.version, Count(way, forth);
      && q.a.Some? && q.b.Some?
      && Newest(q, forth) == Newest(p, forth)
      && Oldest(q, forth).value.version == Oldest(p, forth).value.version + Min(k, d)
      && Oldest(q, forth).value.status ==
           (if k > 0 then Newest(p, forth).value.status else Oldest(p, forth).value.status)
  {
    if way != [] {
      OlderCatchesUp(p, forth, way[..|way| - 1], now);
    }
  }

  /** `n` rounds in which each replica sends its snapshot once. */
  function Rounds(n: nat): seq<bool> {
    if n == 0 then [] else Rounds(n - 1) + [true, false]
  }

  lemma {:induction false} RoundsCount(n: nat, forth: bool)
    ensures Count(Rounds(n), forth) == n
  {
    if n > 0 {
      var r := Rounds(n - 1);
      RoundsCount(n - 1, forth);
      assert Rounds(n)[..|Rounds(n)| - 1] == r + [true];
      assert (r + [true])[..|r|] == r;
    }
  }

  lemma {:induction false} SendAllSplits(p: Pair, a: seq<bool>, b: seq<bool>, now: int)
    ensures SendAll(p, a + b, now) == SendAll(SendAll(p, a, now), b, now)
  {
    if b == [] {
      assert a + b == a;
    } else {
      assert (a + b)[..|a + b| - 1] == a + b[..|b| - 1];
      SendAllSplits(p, a, b[..|b| - 1], now);
    }
  }

  lemma {:induction false} RoundsFirst(n: nat)
    requires n > 0
    ensures Rounds(n) == [true, false] + Rounds(n - 1)
  {
    if n > 1 { RoundsFirst(n - 1); }
  }

  /** The distance in versions, and two more for a task that one replica still has to create. */
  function Distance(p: Pair): nat {
    if p.a == None && p.b == None then 0
    else if p.a == None then 3 + Max0(p.b.value.version - 1)  + Max0(2 - p.b.value.version)
    else if p.b == None then 3 + Max0(p.a.value.version - 1) + Max0(2 - p.a.value.version)
    else Max0(p.a.value.version - p.b.value.version) + Max0(p.b.value.version - p.a.value.version)
  }

  lemma KnownPairConverges(p: Pair, n: nat, now: int)
    requires p.a.Some? && p.b.Some? && !Torn(p) && n >= Distance(p)
    ensures Agree(SendAll(p, Rounds(n), now))
  {
    if p.a.value.version == p.b.value.version {
      FixedForever(p, Rounds(n), now);
    } else {
      var forth := p.a.value.version > p.b.value.version;
      RoundsCount(n, forth);
      OlderCatchesUp(p, forth, Rounds(n), now);
    }
  }

  /** After the first round a task that only one replica knew has the same status at both. */
  lemma FirstRoundCreates(p: Pair, now: int)
    requires p.a.Some? != p.b.Some?
    ensures var q := SendAll(p, [true, false], now);
      q.a.Some? && q.b.Some? && !Torn(q) && Distance(q) <= Distance(p) - 1
  {
    var r := Send(p, true, now);
    assert [true, false][..1] == [true] && [true][..0] == [];
    assert SendAll(p, [true], now) == r;
    assert SendAll(p, [true, false], now) == Send(r, false, now);
  }

  /** The exact condition for convergence in version and status: two replicas that keep exchanging
      snapshots agree on the task, once the rounds cover the distance, if and only if they did not
      start with the same version and different statuses. In that case they never agree. */
  lemma ExchangeConvergesIff(p: Pair, n: nat, now: int)
    requires n >= Distance(p)
    ensures Agree(SendAll(p, Rounds(n), now)) <==> !Torn(p)
    ensures Torn(p) ==> forall way :: !Agree(SendAll(p, way, now))
  {
    if Torn(p) {
      forall way ensures !Agree(SendAll(p, way, now)) { FixedForever(p, way, now); }
    } else if p.a.Some? && p.b.Some? {
      KnownPairConverges(p, n, now);
    } else if p.a.Some? || p.b.Some? {
      FirstRoundCreates(p, now);
      RoundsFirst(n);
      SendAllSplits(p, [true, false], Rounds(n - 1), now);
      KnownPairConverges(SendAll(p, [true, false], now), n - 1, now);
    } else {
      FixedForever(p, Rounds(n), now);
    }
  }

  // ---------------------------------------------------------------------------------------------
  // Equality beyond version and status
  // ---------------------------------------------------------------------------------------------

  /** What no merge ever changes in a known task. */
  predicate SameWork(a: Task, b: Task) {
    && a.title == b.title && a.needs == b.needs && a.priority == b.priority
    && a.dependsOn == b.dependsOn && a.assignedTo == b.assignedTo
  }

  /** Equal in everything but the local creation time. */
  predicate Equal(p: Pair) {
    p.a.Some? == p.b.Some?
    && (p.a.Some? ==> p.b.value == p.a.value.(createdAt := p.b.value.createdAt))
  }

  lemma EqualIs(p: Pair)
    requires p.a.Some? && p.b.Some?
    ensures Equal(p) <==>
      Agree(p) && SameWork(p.a.value, p.b.value) && p.a.value.failReason == p.b.value.failReason
  {
  }

  /** The older replica only ever takes the newer one's version, status and reason. */
  lemma {:induction false} OlderKeepsWork(p: Pair, forth: bool, way: seq<bool>, now: int)
    requires p.a.Some? && p.b.Some? && Newest(p, forth).value.version > Oldest(p, forth).value.version
    ensures var q, newer := SendAll(p, way, now), Newest(p, forth).value;
      && q.a.Some? && q.b.Some?
      && SameWork(Oldest(q, forth).value, Oldest(p, forth).value)
      && Oldest(q, forth).value.failReason ==
           (if Count(way, forth) > 0 && Reason(newer) != "" then Some(Reason(newer))
            else Oldest(p, forth).value.failReason)
  {
    if way != [] {
      OlderKeepsWork(p, forth, way[..|way| - 1], now);
      OlderCatchesUp(p, forth, way[..|way| - 1], now);
    }
  }

  /** The newer side has a reason to hand over, or the reasons are equal already. */
  predicate ReasonSettles(newer: Task, older: Task) {
    newer.failReason == older.failReason || (newer.version > older.version && Reason(newer) != "")
  }

  /** A task that one replica alone knows reaches the other as if newly created, at version 1 or 2. */
  function CreatedVersion(remote: Task): int {
    if remote.status == Pending then 1 else 2
  }

  predicate Settles(p: Pair) {
    match p
    case Pair(Some(a), Some(b)) =>
      && !Torn(p) && SameWork(a, b)
      && (if a.version >= b.version then ReasonSettles(a, b) else ReasonSettles(b, a))
    case Pair(Some(a), None) => ArrivesWhole(a)
    case Pair(None, Some(b)) => ArrivesWhole(b)
    case Pair(None, None) => true
  }

  predicate ArrivesWhole(task: Task) {
    && task.dependsOn == [] && task.assignedTo == None
    && (task.failReason == None || (task.version > CreatedVersion(task) && Reason(task) != ""))
  }

  lemma KnownPairSettlesIff(p: Pair, n: nat, now: int)
    requires p.a.Some? && p.b.Some? && n >= Distance(p)
    ensures Equal(SendAll(p, Rounds(n), now)) <==> Settles(p)
  {
    var q := SendAll(p, Rounds(n), now);
    if p.a.value.version == p.b.value.version {
      FixedForever(p, Rounds(n), now);
    } else {
      var forth := p.a.value.version > p.b.value.version;
      RoundsCount(n, forth);
      OlderCatchesUp(p, forth, Rounds(n), now);
      OlderKeepsWork(p, forth, Rounds(n), now);
    }
    EqualIs(q);
  }

  /** What the first round makes of a task that only one replica knew. */
  lemma FirstRoundKeepsKnown(p: Pair, now: int)
    requires p.a.Some? != p.b.Some?
    ensures var q, known, forth := SendAll(p, [true, false], now), if p.a.Some? then p.a.value else p.b.value, p.a.Some?;
      && q.a.Some? && q.b.Some?
      && SameWork(Newest(q, forth).value, known) && Newest(q, forth).value.failReason == known.failReason
      && Oldest(q, forth).value.(version := 0) == Created(known, now).(version := 0)
      && Oldest(q, forth).value.version == CreatedVersion(known)
      && Newest(q, forth).value.version ==
           (if p.a.Some? && CreatedVersion(known) > known.version then known.version + 1 else known.version)
  {
    var r := Send(p, true, now);
    assert [true, false][..1] == [true] && [true][..0] == [];
    assert SendAll(p, [true], now) == r;
    assert SendAll(p, [true, false], now) == Send(r, false, now);
  }

  lemma NewPairSettlesIff(p: Pair, n: nat, now: int)
    requires p.a.Some? != p.b.Some? && n >= Distance(p)
    ensures Equal(SendAll(p, Rounds(n), now)) <==> Settles(p)
  {
    var q := SendAll(p, [true, false], now);
    FirstRoundCreates(p, now);
    FirstRoundKeepsKnown(p, now);
    RoundsFirst(n);
    SendAllSplits(p, [true, false], Rounds(n - 1), now);
    KnownPairSettlesIff(q, n - 1, now);
    FirstRoundSettlesIff(p, now);
  }

  lemma FirstRoundSettlesIff(p: Pair, now: int)
    requires p.a.Some? != p.b.Some?
    ensures Settles(SendAll(p, [true, false], now)) <==> Settles(p)
  {
    FirstRoundCreates(p, now);
    FirstRoundKeepsKnown(p, now);
  }

  /** The exact condition for whole equality. A task known at both sides ends equal in everything
      but its creation time exactly when it is not torn, was equal already in what no merge
      changes, and its fail reason can still be handed over or is equal. One known at one side only
      does exactly when it has no dependencies and no assignee, which a snapshot does not carry,
      and its reason arrives. */
  lemma TaskEndsEqualIff(p: Pair, n: nat, now: int)
    requires n >= Distance(p)
    ensures Equal(SendAll(p, Rounds(n), now)) <==> Settles(p)
  {
    if p.a.Some? && p.b.Some? {
      KnownPairSettlesIff(p, n, now);
    } else if p.a.Some? || p.b.Some? {
      NewPairSettlesIff(p, n, now);
    } else {
      FixedForever(p, Rounds(n), now);
    }
  }

  // ---------------------------------------------------------------------------------------------
  // Whole replicas
  // ---------------------------------------------------------------------------------------------

  function Snapshot(tb: Table): (snap: seq<Entry>)
    requires Listed(tb)
    ensures OneEntryPerTask(snap)
  {
    seq(|tb.ids|, i requires 0 <= i < |tb.ids| => Entry(tb.ids[i], tb.tasks[tb.ids[i]]))
  }

  ghost predicate Listed(tb: Table) {
    KeysInOrder(tb.ids, tb.tasks)
  }

  /** Sending a whole snapshot does to each task what `Deliver` does to one. */
  lemma SnapshotDelivers(target: Table, source: Table, now: int, id: Id)
    requires Listed(target) && Listed(source)
    ensures Lookup(ReceiveAll(target, Snapshot(source), now).tasks, id) ==
      Deliver(Lookup(target.tasks, id), Lookup(source.tasks, id), now)
  {
    var snap := Snapshot(source);
    ReceiveIsPointwise(target, snap, now);
    if id in source.tasks {
      var i :| 0 <= i < |source.ids| && source.ids[i] == id;
      assert snap[i].id == id;
    }
  }

  lemma {:induction false} ReceiveKeepsTable(tb: Table, snap: seq<Entry>, now: int)
    requires Listed(tb)
    ensures Listed(ReceiveAll(tb, snap, now))
  {
    if snap != [] {
      ReceiveKeepsTable(tb, snap[..|snap| - 1], now);
    }
  }

  datatype Replicas = Replicas(a: Table, b: Table)

  ghost predicate ReplicasOk(r: Replicas) {
    Listed(r.a) && Listed(r.b)
  }

  ghost function SendSnapshot(r: Replicas, forth: bool, now: int): (r': Replicas)
    requires ReplicasOk(r)
    ensures ReplicasOk(r')
  {
    if forth then
      ReceiveKeepsTable(r.b, Snapshot(r.a), now);
      Replicas(r.a, ReceiveAll(r.b, Snapshot(r.a), now))
    else
      ReceiveKeepsTable(r.a, Snapshot(r.b), now);
      Replicas(ReceiveAll(r.a, Snapshot(r.b), now), r.b)
  }

  ghost function Exchange(r: Replicas, way: seq<bool>, now: int): (r': Replicas)
    requires ReplicasOk(r)
    ensures ReplicasOk(r')
  {
    if way == [] then r else SendSnapshot(Exchange(r, way[..|way| - 1], now), way[|way| - 1], now)
  }

  function At(r: Replicas, id: Id): Pair {
    Pair(Lookup(r.a.tasks, id), Lookup(r.b.tasks, id))
  }

  lemma {:induction false} ExchangeIsPerTask(r: Replicas, way: seq<bool>, now: int, id: Id)
    requires ReplicasOk(r)
    ensures At(Exchange(r, way, now), id) == SendAll(At(r, id), way, now)
  {
    if way != [] {
      var mid, forth := Exchange(r, way[..|way| - 1], now), way[|way| - 1];
      ExchangeIsPerTask(r, way[..|way| - 1], now, id);
      if forth { SnapshotDelivers(mid.b, mid.a, now, id); } else { SnapshotDelivers(mid.a, mid.b, now, id); }
    }
  }

  ghost predicate AllAgree(r: Replicas) {
    forall id :: Agree(At(r, id))
  }

  ghost predicate NoneTorn(r: Replicas) {
    forall id :: !Torn(At(r, id))
  }

  lemma TaskConvergesIff(r: Replicas, n: nat, now: int, id: Id)
    requires ReplicasOk(r) && n >= Distance(At(r, id))
    ensures Agree(At(Exchange(r, Rounds(n), now), id)) <==> !Torn(At(r, id))
  {
    ExchangeIsPerTask(r, Rounds(n), now, id);
    ExchangeConvergesIff(At(r, id), n, now);
  }

  /** Two whole replicas that exchange snapshots for enough rounds end with the same task ids, each
      task at the same version and status, if and only if no task starts torn. */
  lemma ReplicasConvergeIff(r: Replicas, n: nat, now: int)
    requires ReplicasOk(r) && forall id :: n >= Distance(At(r, id))
    ensures AllAgree(Exchange(r, Rounds(n), now)) <==> NoneTorn(r)
  {
    var r' := Exchange(r, Rounds(n), now);
    if AllAgree(r') {
      forall id ensures !Torn(At(r, id)) {
        assert Agree(At(r', id));
        TaskConvergesIff(r, n, now, id);
      }
    }
    if NoneTorn(r) {
      forall id ensures Agree(At(r', id)) {
        TaskConvergesIff(r, n, now, id);
      }
    }
  }

  ghost predicate AllEqual(r: Replicas) {
    forall id :: Equal(At(r, id))
  }

  ghost predicate AllSettle(r: Replicas) {
    forall id :: Settles(At(r, id))
  }

  lemma TaskEndsEqualAt(r: Replicas, n: nat, now: int, id: Id)
    requires ReplicasOk(r) && n >= Distance(At(r, id))
    ensures Equal(At(Exchange(r, Rounds(n), now), id)) <==> Settles(At(r, id))
  {
    ExchangeIsPerTask(r, Rounds(n), now, id);
    TaskEndsEqualIff(At(r, id), n, now);
  }

  /** And they end with equal tasks, creation times aside, if and only if every task settles. */
  lemma ReplicasEndEqualIff(r: Replicas, n: nat, now: int)
    requires ReplicasOk(r) && forall id :: n >= Distance(At(r, id))
    ensures AllEqual(Exchange(r, Rounds(n), now)) <==> AllSettle(r)
  {
    var r' := Exchange(r, Rounds(n), now);
    if AllEqual(r') {
      forall id ensures Settles(At(r, id)) {
        assert Equal(At(r', id));
        TaskEndsEqualAt(r, n, now, id);
      }
    }
    if AllSettle(r) {
      forall id ensures Equal(At(r', id)) {
        TaskEndsEqualAt(r, n, now, id);
      }
    }
  }
}
