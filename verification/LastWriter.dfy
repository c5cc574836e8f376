/** Last-writer-wins: the comparison, and why the order of deliveries does not matter to it. */
module LastWriter {

  datatype Stamp = Stamp(version: int, timestamp: int, sender: string)

  /** Python's `>` on strings: by the first character that differs, else the longer one. */
  predicate Greater(a: string, b: string) {
    if a == [] then false
    else if b == [] then true
    else a[0] > b[0] || (a[0] == b[0] && Greater(a[1..], b[1..]))
  }

  predicate ShouldApply(remote: Stamp, local: Stamp) {
    if remote.version > local.version then true
    else if remote.version < local.version then false
    else if remote.timestamp > local.timestamp then true
    else if remote.timestamp < local.timestamp then false
    else Greater(remote.sender, local.sender)
  }

  /** At some place `a` goes on where `b` ends, or has the greater character, after a common start. */
  ghost predicate GreaterAt(a: string, b: string, k: nat) {
    k < |a| && k <= |b| && a[..k] == b[..k] && (k == |b| || a[k] > b[k])
  }

  lemma {:induction false} GreaterIff(a: string, b: string)
    ensures Greater(a, b) <==> exists k: nat :: GreaterAt(a, b, k)
  {
    if a != [] && b != [] {
      var a', b' := a[1..], b[1..];
      GreaterIff(a', b');
      if a[0] == b[0] {
        forall k: nat ensures GreaterAt(a, b, k + 1) <==> GreaterAt(a', b', k) { GreaterShifts(a, b, k); }
        if k: nat :| GreaterAt(a, b, k) {
          assert k > 0 && GreaterAt(a', b', k - 1);
        }
      } else if a[0] > b[0] {
        assert GreaterAt(a, b, 0);
      } else {
        forall k: nat ensures !GreaterAt(a, b, k) {
          if 0 < k <= |a| && k <= |b| { assert a[..k][0] != b[..k][0]; }
        }
      }
    } else if a != [] {
      assert GreaterAt(a, b, 0);
    }
  }

  lemma GreaterShifts(a: string, b: string, k: nat)
    requires a != [] && b != [] && a[0] == b[0]
    ensures GreaterAt(a, b, k + 1) <==> GreaterAt(a[1..], b[1..], k)
  {
    if k + 1 <= |a| && k + 1 <= |b| {
      assert a[..k + 1] == [a[0]] + a[1..][..k] && b[..k + 1] == [b[0]] + b[1..][..k];
      assert a[1..][..k] == a[..k + 1][1..] && b[1..][..k] == b[..k + 1][1..];
    }
  }

  /** The remote update wins exactly when it has the higher version, or the same and the later time,
      or both the same and the greater sender. */
  lemma RemoteWinsIff(remote: Stamp, local: Stamp)
    ensures ShouldApply(remote, local) <==>
      || remote.version > local.version
      || (remote.version == local.version && remote.timestamp > local.timestamp)
      || (remote.version == local.version && remote.timestamp == local.timestamp
          && exists k: nat :: GreaterAt(remote.sender, local.sender, k))
  {
    GreaterIff(remote.sender, local.sender);
  }

  /** For task updates only the version counts. */
  predicate ShouldApplyTask(remoteVersion: int, localVersion: int) {
    ShouldApply(Stamp(remoteVersion, 0, ""), Stamp(localVersion, 0, ""))
  }

  lemma {:induction false} GreaterIrreflexive(a: string)
    ensures !Greater(a, a)
  {
    if a != [] { GreaterIrreflexive(a[1..]); }
  }

  lemma {:induction false} GreaterTransitive(a: string, b: string, c: string)
    requires Greater(a, b) && Greater(b, c)
    ensures Greater(a, c)
  {
    if b != [] && c != [] && a[0] == b[0] && b[0] == c[0] {
      GreaterTransitive(a[1..], b[1..], c[1..]);
    }
  }

  lemma {:induction false} GreaterTotal(a: string, b: string)
    ensures a == b || Greater(a, b) || Greater(b, a)
  {
    if a != [] && b != [] && a[0] == b[0] {
      GreaterTotal(a[1..], b[1..]);
      if a[1..] == b[1..] {
        assert a == [a[0]] + a[1..] && b == [b[0]] + b[1..];
      }
    }
  }

  /** `ShouldApply` is a strict total order on (version, timestamp, sender). */
  lemma ShouldApplyIsStrictTotalOrder(a: Stamp, b: Stamp, c: Stamp)
    ensures !ShouldApply(a, a)
    ensures ShouldApply(a, b) && ShouldApply(b, c) ==> ShouldApply(a, c)
    ensures ShouldApply(a, b) ==> !ShouldApply(b, a)
    ensures a == b || ShouldApply(a, b) || ShouldApply(b, a)
  {
    GreaterIrreflexive(a.sender);
    GreaterTotal(a.sender, b.sender);
    if Greater(a.sender, b.sender) && Greater(b.sender, c.sender) {
      GreaterTransitive(a.sender, b.sender, c.sender);
    }
    if Greater(a.sender, b.sender) && Greater(b.sender, a.sender) {
      GreaterTransitive(a.sender, b.sender, a.sender);
    }
  }

  lemma TaskOrderIsByVersion(remoteVersion: int, localVersion: int)
    ensures ShouldApplyTask(remoteVersion, localVersion) <==> remoteVersion > localVersion
  {
  }

  datatype Update<T> = Update(stamp: Stamp, payload: T)

  /** Keep the local update unless the remote one wins. */
  function Keep<T>(local: Update<T>, remote: Update<T>): Update<T> {
    if ShouldApply(remote.stamp, local.stamp) then remote else local
  }

  function Winner<T>(start: Update<T>, deliveries: seq<Update<T>>): Update<T> {
    if deliveries == [] then start
    else Keep(Winner(start, deliveries[..|deliveries| - 1]), deliveries[|deliveries| - 1])
  }

  lemma {:induction false} WinnerIsGreatest<T>(start: Update<T>, deliveries: seq<Update<T>>)
    ensures Winner(start, deliveries) == start || Winner(start, deliveries) in deliveries
    ensures !ShouldApply(start.stamp, Winner(start, deliveries).stamp)
    ensures forall u :: u in deliveries ==> !ShouldApply(u.stamp, Winner(start, deliveries).stamp)
  {
    if deliveries == [] {
      ShouldApplyIsStrictTotalOrder(start.stamp, start.stamp, start.stamp);
    } else {
      var front, last := deliveries[..|deliveries| - 1], deliveries[|deliveries| - 1];
      var before, after := Winner(start, front), Winner(start, deliveries);
      WinnerIsGreatest(start, front);
      ShouldApplyIsStrictTotalOrder(last.stamp, before.stamp, start.stamp);
      ShouldApplyIsStrictTotalOrder(start.stamp, last.stamp, before.stamp);
      forall u | u in deliveries ensures !ShouldApply(u.stamp, after.stamp) {
        ShouldApplyIsStrictTotalOrder(u.stamp, last.stamp, before.stamp);
        ShouldApplyIsStrictTotalOrder(last.stamp, last.stamp, last.stamp);
        assert u in front || u == last;
      }
    }
  }

  /** The stamp of an update determines what it says. */
  ghost predicate StampsDecide<T>(start: Update<T>, deliveries: seq<Update<T>>) {
    && (forall u :: u in deliveries && u.stamp == start.stamp ==> u == start)
    && (forall u, v :: u in deliveries && v in deliveries && u.stamp == v.stamp ==> u == v)
  }

  /** The winner depends only on which updates were delivered: every reordering and every
      duplication of the deliveries ends with the same one. */
  lemma WinnerIgnoresOrderAndDuplicates<T(!new)>(start: Update<T>, a: seq<Update<T>>, b: seq<Update<T>>)
    requires StampsDecide(start, a)
    requires forall u :: u in a <==> u in b
    ensures Winner(start, a) == Winner(start, b)
  {
    WinnerIsGreatest(start, a);
    WinnerIsGreatest(start, b);
    var x, y := Winner(start, a), Winner(start, b);
    ShouldApplyIsStrictTotalOrder(x.stamp, y.stamp, x.stamp);
  }
}
