/** Leases: creation, revocation, the expiry scan, extension, and lookup by task. */
module Leases {
  import opened Types
  import opened Seqs

  function IsActive(leases: map<Id, Lease>): Id -> bool {
    l => l in leases && leases[l].status == Active
  }

  function IsOverdue(leases: map<Id, Lease>, now: int): Id -> bool {
    l => l in leases && leases[l].status == Active && leases[l].expiresAt <= now
  }

  function IsLive(leases: map<Id, Lease>, now: int): Id -> bool {
    l => l in leases && leases[l].status == Active && leases[l].expiresAt > now
  }

  function ActiveFor(leases: map<Id, Lease>, t: Id): Id -> bool {
    l => l in leases && leases[l].status == Active && leases[l].taskId == t
  }

  function CreateLease(lt: LeaseTable, id: Id, t: Id, n: Id, ttl: int, now: int): LeaseTable {
    LeaseTable(
      if id in lt.leases then lt.ids else lt.ids + [id],
      lt.leases[id := Lease(t, n, now, now + ttl, Active)],
      lt.index[t := id])
  }

  /** Whatever the lease's status, it becomes revoked and its task loses its index entry. */
  function RevokeLease(lt: LeaseTable, id: Id): LeaseTable {
    if id in lt.leases
    then lt.(leases := lt.leases[id := lt.leases[id].(status := Revoked)],
             index := lt.index - {lt.leases[id].taskId})
    else lt
  }

  function ScanLeases(lt: LeaseTable, now: int): LeaseTable {
    lt.(leases := map l | l in lt.leases ::
      if IsOverdue(lt.leases, now)(l) then lt.leases[l].(status := Expired) else lt.leases[l])
  }

  /** A scan that has looked at the first `i` leases. */
  ghost function ScanTo(leases: map<Id, Lease>, ids: seq<Id>, now: int, i: nat): map<Id, Lease>
    requires i <= |ids| && forall l :: l in ids ==> l in leases
  {
    if i == 0 then leases
    else
      var done, l := ScanTo(leases, ids, now, i - 1), ids[i - 1];
      if IsOverdue(leases, now)(l) then done[l := leases[l].(status := Expired)] else done
  }

  lemma {:induction false} ScanToIs(leases: map<Id, Lease>, ids: seq<Id>, now: int, i: nat)
    requires i <= |ids| && forall l :: l in ids ==> l in leases
    ensures ScanTo(leases, ids, now, i) == map l | l in leases ::
      if l in ids[..i] && IsOverdue(leases, now)(l) then leases[l].(status := Expired) else leases[l]
  {
    if i > 0 {
      ScanToIs(leases, ids, now, i - 1);
      assert ids[..i] == ids[..i - 1] + [ids[i - 1]];
    }
  }

  lemma ScanToEnd(lt: LeaseTable, now: int)
    requires KeysInOrder(lt.ids, lt.leases)
    ensures ScanTo(lt.leases, lt.ids, now, |lt.ids|) == ScanLeases(lt, now).leases
  {
    ScanToIs(lt.leases, lt.ids, now, |lt.ids|);
    assert lt.ids[..|lt.ids|] == lt.ids;
  }

  /** The leases a scan moves to expired, in the order it finds them. */
  function Overdue(lt: LeaseTable, now: int): seq<Id> {
    Filter(IsOverdue(lt.leases, now), lt.ids)
  }

  lemma FirstOverdue(lt: LeaseTable, now: int, i: nat)
    requires i < |lt.ids| && IsOverdue(lt.leases, now)(lt.ids[i])
    requires Filter(IsOverdue(lt.leases, now), lt.ids[..i]) == []
    ensures Overdue(lt, now) != [] && Overdue(lt, now)[0] == lt.ids[i]
  {
    forall k | 0 <= k < i ensures !IsOverdue(lt.leases, now)(lt.ids[k]) {
      assert lt.ids[k] in lt.ids[..i] && lt.ids[k] !in Filter(IsOverdue(lt.leases, now), lt.ids[..i]);
    }
    FilterHead(IsOverdue(lt.leases, now), lt.ids, i);
  }

  /** Lookup through the index, falling back to a scan of all leases. */
  function LeaseByTask(lt: LeaseTable, t: Id): Option<Id> {
    if t == "" then None
    else if t in lt.index && lt.index[t] != "" && IsActive(lt.leases)(lt.index[t]) then Some(lt.index[t])
    else
      var found := Filter(ActiveFor(lt.leases, t), lt.ids);
      if found == [] then None else Some(found[0])
  }

  /** Each index entry names an existing lease of that same task. It may be stale otherwise. */
  ghost predicate IndexSound(lt: LeaseTable) {
    forall t :: t in lt.index ==> lt.index[t] in lt.leases && lt.leases[lt.index[t]].taskId == t
  }

  ghost predicate TableOk(lt: LeaseTable) {
    KeysInOrder(lt.ids, lt.leases) && IndexSound(lt) && "" !in lt.leases
  }

  /** A generated lease id: not empty, and not used before. */
  predicate FreshId(lt: LeaseTable, id: Id) {
    id != "" && id !in lt.leases
  }

  /** The indexed lookup refines the plain search: it finds an active lease of the task exactly
      when one exists, however stale the index is. */
  lemma LookupRefinesSearch(lt: LeaseTable, t: Id)
    requires TableOk(lt) && t != ""
    ensures LeaseByTask(lt, t).Some? <==> exists l :: ActiveFor(lt.leases, t)(l)
    ensures LeaseByTask(lt, t).Some? ==> ActiveFor(lt.leases, t)(LeaseByTask(lt, t).value)
  {
    var found := Filter(ActiveFor(lt.leases, t), lt.ids);
    if found != [] {
      assert found[0] in found;
    }
    if l :| ActiveFor(lt.leases, t)(l) {
      assert l in found;
    }
  }

  // ---------------------------------------------------------------------------------------------
  // The table together with the lease manager's counters and notifications
  // ---------------------------------------------------------------------------------------------

  /** `fired` lists the leases for which the expiry callback ran; `notified` is what the
      registered listeners were told, a (task, node) pair for each. */
  datatype Stats = Stats(created: int, revoked: int, expired: int, fired: seq<Id>, notified: seq<(Id, Id)>)

  datatype LeaseState = LeaseState(table: LeaseTable, stats: Stats)

  function Notices(leases: map<Id, Lease>, ids: seq<Id>): seq<(Id, Id)>
    requires forall l :: l in ids ==> l in leases
  {
    if ids == [] then []
    else
      var l := ids[|ids| - 1];
      Notices(leases, ids[..|ids| - 1]) + [(leases[l].taskId, leases[l].nodeId)]
  }

  function NoteExpired(st: Stats, leases: map<Id, Lease>, ids: seq<Id>): Stats
    requires forall l :: l in ids ==> l in leases
  {
    st.(expired := st.expired + |ids|, fired := st.fired + ids, notified := st.notified + Notices(leases, ids))
  }

  lemma NoteOneMore(st: Stats, leases: map<Id, Lease>, ids: seq<Id>, l: Id)
    requires l in leases && forall k :: k in ids ==> k in leases
    ensures NoteExpired(st, leases, ids + [l]) == NoteOne(NoteExpired(st, leases, ids), l, leases[l])
  {
    assert (ids + [l])[..|ids|] == ids;
    assert st.fired + (ids + [l]) == st.fired + ids + [l];
    var n := (leases[l].taskId, leases[l].nodeId);
    assert st.notified + (Notices(leases, ids) + [n]) == st.notified + Notices(leases, ids) + [n];
  }

  /** The callback ran for lease `l`. */
  function NoteOne(st: Stats, l: Id, lease: Lease): Stats {
    st.(expired := st.expired + 1, fired := st.fired + [l],
        notified := st.notified + [(lease.taskId, lease.nodeId)])
  }

  /** The counters and notices after the first `i` leases of a scan. */
  ghost function NotesTo(st: Stats, leases: map<Id, Lease>, ids: seq<Id>, now: int, i: nat): Stats
    requires i <= |ids| && forall l :: l in ids ==> l in leases
  {
    if i == 0 then st
    else
      var noted, l := NotesTo(st, leases, ids, now, i - 1), ids[i - 1];
      if IsOverdue(leases, now)(l)
      then NoteOne(noted, l, leases[l]) else noted
  }

  lemma NoteNone(st: Stats, leases: map<Id, Lease>)
    ensures NoteExpired(st, leases, []) == st
  {
  }

  lemma NotesStep(st: Stats, leases: map<Id, Lease>, ids: seq<Id>, now: int, i: nat)
    requires i < |ids| && forall l :: l in ids ==> l in leases
    ensures var noted := NoteExpired(st, leases, Filter(IsOverdue(leases, now), ids[..i]));
      NoteExpired(st, leases, Filter(IsOverdue(leases, now), ids[..i + 1])) ==
        if IsOverdue(leases, now)(ids[i]) then NoteOne(noted, ids[i], leases[ids[i]]) else noted
  {
    FilterStep(IsOverdue(leases, now), ids, i);
    NoteOneMore(st, leases, Filter(IsOverdue(leases, now), ids[..i]), ids[i]);
  }

  lemma {:induction false} NotesToIs(st: Stats, leases: map<Id, Lease>, ids: seq<Id>, now: int, i: nat)
    requires i <= |ids| && forall l :: l in ids ==> l in leases
    ensures NotesTo(st, leases, ids, now, i) == NoteExpired(st, leases, Filter(IsOverdue(leases, now), ids[..i]))
  {
    if i == 0 {
      assert ids[..i] == [];
      NoteNone(st, leases);
    } else {
      var k := i - 1;
      NotesToIs(st, leases, ids, now, k);
      NotesStep(st, leases, ids, now, k);
      assert ids[..k + 1] == ids[..i];
    }
  }

  lemma NotesToEnd(st: Stats, lt: LeaseTable, now: int)
    requires KeysInOrder(lt.ids, lt.leases)
    ensures NotesTo(st, lt.leases, lt.ids, now, |lt.ids|) == NoteExpired(st, lt.leases, Overdue(lt, now))
  {
    NotesToIs(st, lt.leases, lt.ids, now, |lt.ids|);
    assert lt.ids[..|lt.ids|] == lt.ids;
  }

  /** What one turn of a scan finds, and what it adds. */
  lemma ScanTurn(lt: LeaseTable, now: int, i: nat)
    requires KeysInOrder(lt.ids, lt.leases) && i < |lt.ids|
    ensures var l := lt.ids[i];
      && Filter(IsLive(lt.leases, now), lt.ids[..i + 1]) ==
           (if IsLive(lt.leases, now)(l) then Filter(IsLive(lt.leases, now), lt.ids[..i]) + [l]
            else Filter(IsLive(lt.leases, now), lt.ids[..i]))
      && (!IsOverdue(lt.leases, now)(l) ==>
            Filter(IsOverdue(lt.leases, now), lt.ids[..i + 1]) == Filter(IsOverdue(lt.leases, now), lt.ids[..i]))
  {
    FilterStep(IsLive(lt.leases, now), lt.ids, i);
    FilterStep(IsOverdue(lt.leases, now), lt.ids, i);
  }

  lemma ScanToUntouched(lt: LeaseTable, now: int, i: nat)
    requires KeysInOrder(lt.ids, lt.leases) && i < |lt.ids|
    ensures lt.ids[i] in lt.leases && lt.ids[i] in ScanTo(lt.leases, lt.ids, now, i)
    ensures ScanTo(lt.leases, lt.ids, now, i)[lt.ids[i]] == lt.leases[lt.ids[i]]
    ensures Filter(IsOverdue(lt.leases, now), lt.ids[..i]) == [] ==> ScanTo(lt.leases, lt.ids, now, i) == lt.leases
  {
    ScanToIs(lt.leases, lt.ids, now, i);
    if Filter(IsOverdue(lt.leases, now), lt.ids[..i]) == [] {
      forall k | k in lt.ids[..i] ensures !IsOverdue(lt.leases, now)(k) {
        assert k !in Filter(IsOverdue(lt.leases, now), lt.ids[..i]);
      }
    }
  }

  function Scan(ls: LeaseState, now: int): LeaseState {
    LeaseState(ScanLeases(ls.table, now), NoteExpired(ls.stats, ls.table.leases, Overdue(ls.table, now)))
  }

  /** A zero or missing TTL means the configured one. */
  function EffectiveTtl(ttl: Option<int>, configured: int): int {
    if ttl.Some? && ttl.value != 0 then ttl.value else configured
  }

  /** An empty task or node id is refused. */
  predicate CreateRefused(t: Id, n: Id) {
    t == "" || n == ""
  }

  function Create(ls: LeaseState, id: Id, t: Id, n: Id, ttl: int, now: int): LeaseState {
    if CreateRefused(t, n) then ls
    else LeaseState(CreateLease(ls.table, id, t, n, ttl, now), ls.stats.(created := ls.stats.created + 1))
  }

  function Revoke(ls: LeaseState, id: Id): LeaseState {
    if id != "" && id in ls.table.leases
    then LeaseState(RevokeLease(ls.table, id), ls.stats.(revoked := ls.stats.revoked + 1))
    else ls
  }

  /** The scan inside `extend` would run the expiry callback, which waits for the lock that
      `extend` itself holds: the call never returns. */
  predicate ExtendHangs(ls: LeaseState, id: Id, now: int) {
    id != "" && Overdue(ls.table, now) != []
  }

  predicate ExtendSucceeds(ls: LeaseState, id: Id, now: int) {
    id != "" && IsLive(ls.table.leases, now)(id)
  }

  /** A new lease for the same task and node first, then the old one revoked. */
  function Replace(lt: LeaseTable, id: Id, newId: Id, ttl: int, now: int): LeaseTable {
    if !IsActive(lt.leases)(id) then lt
    else RevokeLease(CreateLease(lt, newId, lt.leases[id].taskId, lt.leases[id].nodeId, ttl, now), id)
  }

  function Extend(ls: LeaseState, id: Id, newId: Id, ttl: int, now: int): LeaseState {
    if id == "" then ls
    else
      var scanned := Scan(ls, now);
      scanned.(table := Replace(scanned.table, id, newId, ttl, now))
  }

  lemma ActiveAfterScan(lt: LeaseTable, now: int, id: Id)
    requires KeysInOrder(lt.ids, lt.leases)
    ensures IsActive(ScanLeases(lt, now).leases)(id) <==> IsLive(lt.leases, now)(id)
    ensures id in Filter(IsLive(lt.leases, now), lt.ids) <==> IsLive(lt.leases, now)(id)
  {
  }

  /** Every way the leases change: through the manager, or straight at the store. */
  datatype LeaseOp =
    | DoCreate(id: Id, t: Id, n: Id, ttl: int)
    | DoRevoke(id: Id)
    | DoExtend(id: Id, newId: Id, ttl: int)
    | DoScan
    | StoreCreate(id: Id, t: Id, n: Id, ttl: int)
    | StoreRevoke(id: Id)

  function Apply(ls: LeaseState, op: LeaseOp, now: int): LeaseState {
    match op
    case DoCreate(id, t, n, ttl) => Create(ls, id, t, n, ttl, now)
    case DoRevoke(id) => Revoke(ls, id)
    case DoExtend(id, newId, ttl) => Extend(ls, id, newId, ttl, now)
    case DoScan => Scan(ls, now)
    case StoreCreate(id, t, n, ttl) => ls.(table := CreateLease(ls.table, id, t, n, ttl, now))
    case StoreRevoke(id) => ls.(table := RevokeLease(ls.table, id))
  }

  /** Generated ids are new, and an extension that would wait for its own lock is not a step. */
  predicate Possible(ls: LeaseState, op: LeaseOp, now: int) {
    match op
    case DoCreate(id, t, n, ttl) => FreshId(ls.table, id)
    case DoExtend(id, newId, ttl) => FreshId(ls.table, newId) && !ExtendHangs(ls, id, now)
    case StoreCreate(id, t, n, ttl) => FreshId(ls.table, id)
    case _ => true
  }

  ghost predicate LeaseRun(states: seq<LeaseState>, ops: seq<LeaseOp>, times: seq<int>) {
    && |states| == |ops| + 1 && |times| == |ops|
    && TableOk(states[0].table)
    && forall i :: 0 <= i < |ops| ==>
         Possible(states[i], ops[i], times[i]) && states[i + 1] == Apply(states[i], ops[i], times[i])
  }

  function Rank(s: LeaseStatus): nat {
    match s case Active => 0 case Expired => 1 case Revoked => 2
  }

  lemma OverdueIsExactlyOverdue(lt: LeaseTable, now: int)
    requires TableOk(lt)
    ensures Distinct(Overdue(lt, now))
    ensures forall l :: l in Overdue(lt, now) <==> IsOverdue(lt.leases, now)(l)
  {
    FilterDistinct(IsOverdue(lt.leases, now), lt.ids);
  }

  lemma CreateKeepsTable(lt: LeaseTable, id: Id, t: Id, n: Id, ttl: int, now: int)
    requires TableOk(lt) && FreshId(lt, id)
    ensures TableOk(CreateLease(lt, id, t, n, ttl, now))
  {
  }

  lemma RevokeKeepsTable(lt: LeaseTable, id: Id)
    requires TableOk(lt)
    ensures TableOk(RevokeLease(lt, id))
  {
  }

  lemma ScanKeepsTable(lt: LeaseTable, now: int)
    requires TableOk(lt)
    ensures TableOk(ScanLeases(lt, now))
  {
  }

  /** What one operation keeps: the table stays sound, no lease disappears or changes owner,
      statuses only move forward, and the callback ran once for each lease that expired. */
  lemma StepKeepsTable(ls: LeaseState, op: LeaseOp, now: int)
    requires TableOk(ls.table) && Possible(ls, op, now)
    ensures TableOk(Apply(ls, op, now).table)
  {
    match op
    case DoCreate(id, t, n, ttl) => CreateKeepsTable(ls.table, id, t, n, ttl, now);
    case DoRevoke(id) => RevokeKeepsTable(ls.table, id);
    case DoScan => ScanKeepsTable(ls.table, now);
    case StoreCreate(id, t, n, ttl) => CreateKeepsTable(ls.table, id, t, n, ttl, now);
    case StoreRevoke(id) => RevokeKeepsTable(ls.table, id);
    case DoExtend(id, newId, ttl) =>
      if id != "" {
        var lt := ScanLeases(ls.table, now);
        ScanKeepsTable(ls.table, now);
        if IsActive(lt.leases)(id) {
          CreateKeepsTable(lt, newId, lt.leases[id].taskId, lt.leases[id].nodeId, ttl, now);
          RevokeKeepsTable(CreateLease(lt, newId, lt.leases[id].taskId, lt.leases[id].nodeId, ttl, now), id);
        }
      }
  }

  lemma ScanWithoutOverdue(ls: LeaseState, now: int)
    requires TableOk(ls.table) && Overdue(ls.table, now) == []
    ensures Scan(ls, now) == ls
  {
    forall l | l in ls.table.leases ensures !IsOverdue(ls.table.leases, now)(l) {
      assert l !in Overdue(ls.table, now);
    }
    assert ScanLeases(ls.table, now).leases == ls.table.leases;
  }

  predicate MovesForward(before: map<Id, Lease>, after: map<Id, Lease>, l: Id) {
    l in before ==>
      && l in after && Rank(before[l].status) <= Rank(after[l].status)
      && after[l].taskId == before[l].taskId && after[l].nodeId == before[l].nodeId
  }

  lemma TableMovesForward(lt: LeaseTable, id: Id, t: Id, n: Id, ttl: int, now: int, l: Id)
    ensures FreshId(lt, id) ==> MovesForward(lt.leases, CreateLease(lt, id, t, n, ttl, now).leases, l)
    ensures MovesForward(lt.leases, RevokeLease(lt, id).leases, l)
    ensures MovesForward(lt.leases, ScanLeases(lt, now).leases, l)
  {
  }

  lemma ReplaceMovesForward(lt: LeaseTable, id: Id, newId: Id, ttl: int, now: int, l: Id)
    requires FreshId(lt, newId)
    ensures MovesForward(lt.leases, Replace(lt, id, newId, ttl, now).leases, l)
  {
    if IsActive(lt.leases)(id) {
      var lease := lt.leases[id];
      TableMovesForward(lt, newId, lease.taskId, lease.nodeId, ttl, now, l);
      TableMovesForward(CreateLease(lt, newId, lease.taskId, lease.nodeId, ttl, now), id, "", "", 0, 0, l);
    }
  }

  lemma StepMovesForward(ls: LeaseState, op: LeaseOp, now: int, l: Id)
    requires TableOk(ls.table) && Possible(ls, op, now)
    ensures MovesForward(ls.table.leases, Apply(ls, op, now).table.leases, l)
  {
    match op
    case DoExtend(id, newId, ttl) =>
      TableMovesForward(ls.table, newId, "", "", ttl, now, l);
      ReplaceMovesForward(ScanLeases(ls.table, now), id, newId, ttl, now, l);
    case DoCreate(id, t, n, ttl) => TableMovesForward(ls.table, id, t, n, ttl, now, l);
    case StoreCreate(id, t, n, ttl) => TableMovesForward(ls.table, id, t, n, ttl, now, l);
    case DoRevoke(id) => TableMovesForward(ls.table, id, "", "", 0, now, l);
    case StoreRevoke(id) => TableMovesForward(ls.table, id, "", "", 0, now, l);
    case DoScan => TableMovesForward(ls.table, "", "", "", 0, now, l);
  }

  predicate Expires(before: LeaseState, after: LeaseState, l: Id) {
    && IsActive(before.table.leases)(l)
    && l in after.table.leases && after.table.leases[l].status == Expired
  }

  function Newly(ls: LeaseState, op: LeaseOp, now: int): seq<Id> {
    if op.DoScan? || (op.DoExtend? && op.id != "") then Overdue(ls.table, now) else []
  }

  lemma StepFiresOncePerExpiry(ls: LeaseState, op: LeaseOp, now: int)
    requires TableOk(ls.table) && Possible(ls, op, now)
    ensures var after, newly := Apply(ls, op, now), Newly(ls, op, now);
      && after.stats.fired == ls.stats.fired + newly
      && after.stats.expired == ls.stats.expired + |newly|
      && Distinct(newly)
      && forall l :: l in newly <==> Expires(ls, after, l)
  {
    OverdueIsExactlyOverdue(ls.table, now);
  }

  function ActiveCount(lt: LeaseTable, t: Id): nat {
    |Filter(ActiveFor(lt.leases, t), lt.ids)|
  }

  /** A successful extension replaces the lease by the new one: the old id is revoked for good,
      the new id is active for the same task on the same node until now + ttl, and every task has
      as many active leases as before. Lookup by task still finds a lease although the extension
      has just dropped the task's index entry. */
  lemma ExtendReplaces(ls: LeaseState, id: Id, newId: Id, ttl: int, now: int)
    requires TableOk(ls.table) && FreshId(ls.table, newId)
    requires !ExtendHangs(ls, id, now) && ExtendSucceeds(ls, id, now)
    ensures id in ls.table.leases
    ensures var lt, lt', t := ls.table, Extend(ls, id, newId, ttl, now).table, ls.table.leases[id].taskId;
      && lt'.leases == lt.leases[newId := Lease(t, lt.leases[id].nodeId, now, now + ttl, Active)]
                                [id := lt.leases[id].(status := Revoked)]
      && t !in lt'.index
      && (forall u :: ActiveCount(lt', u) == ActiveCount(lt, u))
      && (t != "" ==> LeaseByTask(lt', t).Some?)
  {
    var lt, lt', t := ls.table, Extend(ls, id, newId, ttl, now).table, ls.table.leases[id].taskId;
    ExtendSwaps(ls, id, newId, ttl, now);
    StepKeepsTable(ls, DoExtend(id, newId, ttl), now);
    forall u ensures ActiveCount(lt', u) == ActiveCount(lt, u) {
      if u == t {
        SwapKeepsCount(lt, lt', id, newId, t);
      } else {
        OtherTasksKeepCount(lt, lt', id, newId, u);
      }
    }
    if t != "" {
      assert ActiveFor(lt'.leases, t)(newId);
      LookupRefinesSearch(lt', t);
    }
  }

  lemma ExtendSwaps(ls: LeaseState, id: Id, newId: Id, ttl: int, now: int)
    requires TableOk(ls.table) && FreshId(ls.table, newId)
    requires !ExtendHangs(ls, id, now) && ExtendSucceeds(ls, id, now)
    ensures var lt, lt', l := ls.table, Extend(ls, id, newId, ttl, now).table, ls.table.leases[id];
      && lt'.leases == lt.leases[newId := Lease(l.taskId, l.nodeId, now, now + ttl, Active)]
                                [id := l.(status := Revoked)]
      && l.taskId !in lt'.index
  {
    ScanWithoutOverdue(ls, now);
  }

  lemma SwapKeepsCount(lt: LeaseTable, lt': LeaseTable, id: Id, newId: Id, t: Id)
    requires TableOk(lt) && TableOk(lt') && ActiveFor(lt.leases, t)(id) && newId !in lt.leases
    requires id in lt'.leases && newId in lt'.leases
    requires lt'.leases == lt.leases[newId := lt'.leases[newId]][id := lt'.leases[id]]
    requires lt'.leases[id].status == Revoked && ActiveFor(lt'.leases, t)(newId)
    ensures ActiveCount(lt', t) == ActiveCount(lt, t)
  {
    ActiveSetCard(lt, t);
    ActiveSetCard(lt', t);
    ActiveSetSwaps(lt.leases, id, newId, lt'.leases[id], lt'.leases[newId], t);
  }

  lemma OtherTasksKeepCount(lt: LeaseTable, lt': LeaseTable, id: Id, newId: Id, u: Id)
    requires TableOk(lt) && TableOk(lt') && id in lt.leases && newId !in lt.leases
    requires id in lt'.leases && newId in lt'.leases
    requires lt'.leases == lt.leases[newId := lt'.leases[newId]][id := lt'.leases[id]]
    requires lt.leases[id].taskId != u && lt'.leases[id].taskId != u && lt'.leases[newId].taskId != u
    ensures ActiveCount(lt', u) == ActiveCount(lt, u)
  {
    ActiveSetCard(lt, u);
    ActiveSetCard(lt', u);
    assert ActiveSet(lt'.leases, u) == ActiveSet(lt.leases, u);
  }

  ghost function ActiveSet(leases: map<Id, Lease>, t: Id): set<Id> {
    set l | l in leases && leases[l].status == Active && leases[l].taskId == t
  }

  lemma ActiveSetSwaps(leases: map<Id, Lease>, id: Id, newId: Id, out: Lease, into: Lease, t: Id)
    requires id in ActiveSet(leases, t) && newId !in leases
    requires out.status == Revoked && into.status == Active && into.taskId == t
    ensures |ActiveSet(leases[newId := into][id := out], t)| == |ActiveSet(leases, t)|
  {
    var before, after := ActiveSet(leases, t), ActiveSet(leases[newId := into][id := out], t);
    assert after == before - {id} + {newId};
  }

  lemma ActiveSetCard(lt: LeaseTable, t: Id)
    requires TableOk(lt)
    ensures |ActiveSet(lt.leases, t)| == ActiveCount(lt, t)
  {
    FilterDistinct(ActiveFor(lt.leases, t), lt.ids);
    DistinctCard(Filter(ActiveFor(lt.leases, t), lt.ids), ActiveSet(lt.leases, t));
  }

  // ---------------------------------------------------------------------------------------------
  // Whole runs
  // ---------------------------------------------------------------------------------------------

  lemma {:induction false} RunKeepsTable(states: seq<LeaseState>, ops: seq<LeaseOp>, times: seq<int>, i: nat)
    requires LeaseRun(states, ops, times) && i < |states|
    ensures TableOk(states[i].table)
  {
    if i > 0 {
      RunKeepsTable(states, ops, times, i - 1);
      StepKeepsTable(states[i - 1], ops[i - 1], times[i - 1]);
    }
  }

  /** Over every run: whatever was created, revoked or extended in whatever order, looking a task
      up finds an active lease of that task exactly when there is one. */
  lemma LookupIsExactOnRuns(states: seq<LeaseState>, ops: seq<LeaseOp>, times: seq<int>, i: nat, t: Id)
    requires LeaseRun(states, ops, times) && i < |states| && t != ""
    ensures LeaseByTask(states[i].table, t).Some? <==> exists l :: ActiveFor(states[i].table.leases, t)(l)
    ensures LeaseByTask(states[i].table, t).Some? ==>
      ActiveFor(states[i].table.leases, t)(LeaseByTask(states[i].table, t).value)
  {
    RunKeepsTable(states, ops, times, i);
    LookupRefinesSearch(states[i].table, t);
  }

  /** Status only moves active, expired, revoked; so a lease that has left the active ones never
      comes back, and its task and node never change. */
  lemma {:induction false} StatusOnlyMovesForward(
    states: seq<LeaseState>, ops: seq<LeaseOp>, times: seq<int>, i: nat, j: nat, l: Id)
    requires LeaseRun(states, ops, times) && i <= j < |states| && l in states[i].table.leases
    ensures l in states[j].table.leases
    ensures Rank(states[i].table.leases[l].status) <= Rank(states[j].table.leases[l].status)
    ensures states[j].table.leases[l].taskId == states[i].table.leases[l].taskId
    ensures states[j].table.leases[l].nodeId == states[i].table.leases[l].nodeId
    ensures !IsActive(states[i].table.leases)(l) ==> !IsActive(states[j].table.leases)(l)
    decreases j
  {
    if i < j {
      var k := j - 1;
      StatusOnlyMovesForward(states, ops, times, i, k, l);
      RunKeepsTable(states, ops, times, k);
      assert states[k + 1] == Apply(states[k], ops[k], times[k]);
      StepMovesForward(states[k], ops[k], times[k], l);
    }
  }

  /** How often lease `l` goes from active to expired in a run. */
  ghost function Expiries(states: seq<LeaseState>, l: Id): nat {
    if |states| < 2 then 0
    else
      Expiries(states[..|states| - 1], l) +
      (if Expires(states[|states| - 2], states[|states| - 1], l) then 1 else 0)
  }

  /** The callback fires exactly once per move from active to expired, at most once in a lease's
      life, and the manager's expiry counter counts exactly these moves. */
  lemma {:induction false} CallbackFiresOncePerExpiry(
    states: seq<LeaseState>, ops: seq<LeaseOp>, times: seq<int>, l: Id)
    requires LeaseRun(states, ops, times)
    ensures var first, last := states[0].stats, states[|ops|].stats;
      && first.fired <= last.fired
      && multiset(last.fired)[l] == multiset(first.fired)[l] + Expiries(states, l)
      && last.expired - first.expired == |last.fired| - |first.fired|
    ensures Expiries(states, l) <= 1
    ensures Expiries(states, l) == 1 ==> !IsActive(states[|ops|].table.leases)(l)
  {
    var n := |ops|;
    if n > 0 {
      var states', ops', times' := states[..n], ops[..n - 1], times[..n - 1];
      CallbackFiresOncePerExpiry(states', ops', times', l);
      assert states[..|states| - 1] == states';
      RunKeepsTable(states, ops, times, n - 1);
      StepFiresOncePerExpiry(states[n - 1], ops[n - 1], times[n - 1]);
      var newly := Newly(states[n - 1], ops[n - 1], times[n - 1]);
      DistinctMultiplicity(newly, l);
      if l in states[n - 1].table.leases {
        StepMovesForward(states[n - 1], ops[n - 1], times[n - 1], l);
      }
      assert multiset(newly)[l] == if Expires(states[n - 1], states[n], l) then 1 else 0;
      if Expiries(states', l) == 1 { ExpiredLeaseExists(states', ops', times', l); }
    }
  }

  lemma {:induction false} ExpiredLeaseExists(
    states: seq<LeaseState>, ops: seq<LeaseOp>, times: seq<int>, l: Id)
    requires LeaseRun(states, ops, times) && Expiries(states, l) > 0
    ensures l in states[|ops|].table.leases
  {
    var n := |ops|;
    var states', ops', times' := states[..n], ops[..n - 1], times[..n - 1];
    assert states[..|states| - 1] == states';
    if Expiries(states', l) > 0 {
      ExpiredLeaseExists(states', ops', times', l);
      RunKeepsTable(states, ops, times, n - 1);
      StepMovesForward(states[n - 1], ops[n - 1], times[n - 1], l);
    }
  }

  /** Of all attempts to extend one lease id, at most one succeeds. */
  lemma OneExtensionPerLease(states: seq<LeaseState>, ops: seq<LeaseOp>, times: seq<int>, i: nat, j: nat)
    requires LeaseRun(states, ops, times) && i < j < |ops|
    requires ops[i].DoExtend? && ops[j].DoExtend? && ops[i].id == ops[j].id
    requires ExtendSucceeds(states[i], ops[i].id, times[i])
    ensures !ExtendSucceeds(states[j], ops[j].id, times[j])
  {
    var id := ops[i].id;
    RunKeepsTable(states, ops, times, i);
    ExtendReplaces(states[i], id, ops[i].newId, ops[i].ttl, times[i]);
    assert states[i + 1].table.leases[id].status == Revoked;
    StatusOnlyMovesForward(states, ops, times, i + 1, j, id);
  }
}
