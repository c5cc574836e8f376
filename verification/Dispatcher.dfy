/** Webhook delivery: a bounded retry loop with capped exponential backoff. What the endpoint
    answers and whether the dispatcher is still running are read from outside at every attempt. */
module Dispatcher {
  import T = Types

  datatype DeliveryStatus = Pending | Success | Failed | Retry

  /** The error text of a record. */
  datatype Text = Empty | Stopped | Exhausted | HttpStatus(code: int) | Message(text: string)

  datatype Record = Record(status: DeliveryStatus, statusCode: int, error: Text, attempts: int, maxAttempts: int)

  datatype Answer = Answer(code: int, error: T.Option<string>)

  /** The outside world, by attempt number. */
  datatype World = World(running: int -> bool, send: int -> Answer)

  predicate Accepted(a: Answer) {
    a.error.None? && 200 <= a.code < 300
  }

  function ErrorText(a: Answer): Text {
    if a.error.None? then HttpStatus(a.code) else Message(a.error.value)
  }

  /** Attempt `a` is the last: the dispatcher was stopped, the endpoint accepted, or no attempt is
      left. */
  predicate Ends(w: World, maxAttempts: int, a: int) {
    !w.running(a) || Accepted(w.send(a)) || a >= maxAttempts
  }

  function FinalRecord(w: World, maxAttempts: int, a: int): Record {
    if !w.running(a) then Record(Pending, 0, Stopped, a, maxAttempts)
    else if Accepted(w.send(a)) then Record(Success, w.send(a).code, Empty, a, maxAttempts)
    else Record(Failed, w.send(a).code, ErrorText(w.send(a)), a, maxAttempts)
  }

  function RetryRecord(w: World, maxAttempts: int, a: int): Record {
    Record(Retry, w.send(a).code, ErrorText(w.send(a)), a, maxAttempts)
  }

  // ---------------------------------------------------------------------------------------------
  // Backoff
  // ---------------------------------------------------------------------------------------------

  function Pow2(n: nat): (r: real)
    ensures r >= 1.0
  {
    if n == 0 then 1.0 else 2.0 * Pow2(n - 1)
  }

  /** base * 2^(attempt - 1), capped. */
  function Backoff(base: real, cap: real, attempt: int): real
    requires attempt >= 1
  {
    var delay := base * Pow2(attempt - 1);
    if cap < delay then cap else delay
  }

  /** The delays after the first `k` attempts. */
  function Delays(base: real, cap: real, k: nat): (s: seq<real>)
    ensures |s| == k
  {
    if k == 0 then [] else Delays(base, cap, k - 1) + [Backoff(base, cap, k)]
  }

  function Total(s: seq<real>): real {
    if s == [] then 0.0 else Total(s[..|s| - 1]) + s[|s| - 1]
  }

  /** `base` doubled `n` times. */
  function Doubled(base: real, n: nat): real {
    if n == 0 then base else 2.0 * Doubled(base, n - 1)
  }

  lemma {:induction false} DoubledIs(base: real, n: nat)
    ensures Doubled(base, n) == base * Pow2(n)
  {
    if n > 0 {
      DoubledIs(base, n - 1);
      assert base * (2.0 * Pow2(n - 1)) == 2.0 * (base * Pow2(n - 1));
    }
  }

  lemma {:induction false} DoubledRises(base: real, a: nat, b: nat)
    requires base >= 0.0 && a <= b
    ensures 0.0 <= Doubled(base, a) <= Doubled(base, b)
  {
    if a < b {
      DoubledRises(base, a, b - 1);
    } else if a > 0 {
      DoubledRises(base, a - 1, a - 1);
    }
  }

  lemma BackoffIs(base: real, cap: real, attempt: int)
    requires attempt >= 1
    ensures Backoff(base, cap, attempt) ==
      if cap < Doubled(base, attempt - 1) then cap else Doubled(base, attempt - 1)
  {
    DoubledIs(base, attempt - 1);
  }

  lemma BackoffRises(base: real, cap: real, a: int, b: int)
    requires base >= 0.0 && 1 <= a <= b
    ensures Backoff(base, cap, a) <= Backoff(base, cap, b)
  {
    BackoffIs(base, cap, a);
    BackoffIs(base, cap, b);
    DoubledRises(base, a - 1, b - 1);
  }

  lemma {:induction false} DelayAt(base: real, cap: real, k: nat, i: nat)
    requires i < k
    ensures Delays(base, cap, k)[i] == Backoff(base, cap, i + 1)
  {
    if i < k - 1 {
      DelayAt(base, cap, k - 1, i);
    }
  }

  /** Delays never decrease. */
  lemma DelaysNeverDecrease(base: real, cap: real, k: nat, i: nat, j: nat)
    requires base >= 0.0 && i <= j < k
    ensures Delays(base, cap, k)[i] <= Delays(base, cap, k)[j]
  {
    DelayAt(base, cap, k, i);
    DelayAt(base, cap, k, j);
    BackoffRises(base, cap, i + 1, j + 1);
  }

  lemma TotalStep(base: real, cap: real, k: nat)
    requires k > 0
    ensures Total(Delays(base, cap, k)) == Total(Delays(base, cap, k - 1)) + Backoff(base, cap, k)
  {
    assert Delays(base, cap, k)[..k - 1] == Delays(base, cap, k - 1);
  }

  lemma {:induction false} TotalSleep(base: real, cap: real, k: nat)
    requires base >= 0.0
    ensures var total, uncut := Total(Delays(base, cap, k)), Doubled(base, k) - base;
      && total <= uncut && (total == uncut <==> (k == 0 || Doubled(base, k - 1) <= cap))
      && (cap >= 0.0 ==> total >= 0.0)
  {
    if k > 0 {
      TotalSleep(base, cap, k - 1);
      TotalStep(base, cap, k);
      BackoffIs(base, cap, k);
      DoubledRises(base, k - 1, k - 1);
      if k > 1 {
        DoubledRises(base, k - 2, k - 1);
      }
    }
  }

  lemma OneMore(k: int, x: real)
    ensures k as real * x == (k - 1) as real * x + x
  {
    calc {
      k as real * x;
    == { assert k as real == (k - 1) as real + 1.0; }
      ((k - 1) as real + 1.0) * x;
    ==
      (k - 1) as real * x + x;
    }
  }

  lemma BackoffCapped(base: real, cap: real, attempt: int)
    requires attempt >= 1
    ensures Backoff(base, cap, attempt) <= cap
  {
  }

  lemma {:induction false} DelaysCapped(base: real, cap: real, k: nat)
    ensures Total(Delays(base, cap, k)) <= k as real * cap
  {
    if k > 0 {
      DelaysCapped(base, cap, k - 1);
      calc {
        Total(Delays(base, cap, k));
      == { TotalStep(base, cap, k); }
        Total(Delays(base, cap, k - 1)) + Backoff(base, cap, k);
      <= { BackoffCapped(base, cap, k); }
        (k - 1) as real * cap + cap;
      == { OneMore(k, cap); }
        k as real * cap;
      }
    }
  }

  lemma Uncut(base: real, k: nat)
    ensures base * (Pow2(k) - 1.0) == Doubled(base, k) - base
  {
    DoubledIs(base, k);
  }

  /** The total sleep after k retries is at most base * (2^k - 1), with equality exactly as long as
      the cap has not cut a delay short; and it is at most k * cap. */
  lemma TotalSleepBounds(base: real, cap: real, k: nat)
    requires base >= 0.0
    ensures Total(Delays(base, cap, k)) <= base * (Pow2(k) - 1.0)
    ensures Total(Delays(base, cap, k)) == base * (Pow2(k) - 1.0) <==> (k == 0 || Doubled(base, k - 1) <= cap)
    ensures Total(Delays(base, cap, k)) <= k as real * cap
  {
    DelaysCapped(base, cap, k);
    TotalSleep(base, cap, k);
    Uncut(base, k);
  }

  // ---------------------------------------------------------------------------------------------
  // Delivery
  // ---------------------------------------------------------------------------------------------

  /** The first attempt from `a` on that ends the delivery. */
  function FirstEnd(w: World, maxAttempts: int, a: int): (e: int)
    requires a <= maxAttempts
    ensures a <= e <= maxAttempts && Ends(w, maxAttempts, e)
    ensures forall b :: a <= b < e ==> !Ends(w, maxAttempts, b)
    decreases maxAttempts - a
  {
    if Ends(w, maxAttempts, a) then a else FirstEnd(w, maxAttempts, a + 1)
  }

  /** The retry records of the first `k` attempts. */
  function Retries(w: World, maxAttempts: int, k: nat): (s: seq<Record>)
    ensures |s| == k && forall i :: 0 <= i < k ==> s[i] == RetryRecord(w, maxAttempts, i + 1)
  {
    if k == 0 then [] else Retries(w, maxAttempts, k - 1) + [RetryRecord(w, maxAttempts, k)]
  }

  class Dispatcher {
    const maxRetries: int
    const baseDelay: real
    const maxDelay: real

    constructor (maxRetries: int, baseDelay: real, maxDelay: real)
      ensures this.maxRetries == maxRetries && this.baseDelay == baseDelay && this.maxDelay == maxDelay
    {
      this.maxRetries, this.baseDelay, this.maxDelay := maxRetries, baseDelay, maxDelay;
    }

    /** `seen` is what the callback was called with, `slept` the delays waited, `sent` the number
        of requests. For a non-negative retry limit the callback sees the retries numbered from 1
        and then the one final record; for a negative limit nothing is sent at all. */
    method Deliver(w: World, hasCallback: bool) returns (final: Record, seen: seq<Record>, slept: seq<real>, sent: nat)
      ensures maxRetries >= 0 ==>
        var e := FirstEnd(w, maxRetries + 1, 1);
        && final == FinalRecord(w, maxRetries + 1, e)
        && seen == (if hasCallback then Retries(w, maxRetries + 1, e - 1) + [final] else [])
        && slept == Delays(baseDelay, maxDelay, e - 1)
        && sent == (if w.running(e) then e else e - 1)
      ensures maxRetries < 0 ==>
        && final == Record(Failed, 0, Exhausted, maxRetries + 1, maxRetries + 1)
        && seen == (if hasCallback then [final] else []) && slept == [] && sent == 0
    {
      seen, slept, sent := [], [], 0;
      var maxAttempts := maxRetries + 1;
      var attempt := 1;
      while attempt < maxAttempts + 1
        invariant maxRetries >= 0 ==>
          1 <= attempt <= maxAttempts && FirstEnd(w, maxAttempts, attempt) == FirstEnd(w, maxAttempts, 1)
        invariant maxRetries < 0 ==> attempt == 1
        invariant sent == attempt - 1 && slept == Delays(baseDelay, maxDelay, sent)
        invariant seen == if hasCallback then Retries(w, maxAttempts, sent) else []
      {
        if !w.running(attempt) {
          final := Record(Pending, 0, Stopped, attempt, maxAttempts);
          if hasCallback { seen := seen + [final]; }
          return;
        }
        var answer := w.send(attempt);
        sent := sent + 1;
        var errMsg := if answer.error.None? then HttpStatus(answer.code) else Message(answer.error.value);
        if answer.error.None? && 200 <= answer.code < 300 {
          final := Record(Success, answer.code, Empty, attempt, maxAttempts);
          if hasCallback { seen := seen + [final]; }
          return;
        }
        if attempt >= maxAttempts {
          final := Record(Failed, answer.code, errMsg, attempt, maxAttempts);
          if hasCallback { seen := seen + [final]; }
          return;
        }
        if hasCallback {
          seen := seen + [Record(Retry, answer.code, errMsg, attempt, maxAttempts)];
        }
        slept := slept + [Backoff(baseDelay, maxDelay, attempt)];
        attempt := attempt + 1;
      }
      final := Record(Failed, 0, Exhausted, maxAttempts, maxAttempts);
      if hasCallback { seen := seen + [final]; }
    }
  }

  /** The final record of a delivery with `maxRetries` retries. */
  function Outcome(w: World, maxRetries: nat): Record {
    FinalRecord(w, maxRetries + 1, FirstEnd(w, maxRetries + 1, 1))
  }

  lemma BeforeTheEnd(w: World, n: int, b: int)
    requires 1 <= n && 1 <= b < FirstEnd(w, n, 1)
    ensures w.running(b) && !Accepted(w.send(b))
  {
    assert !Ends(w, n, b);
  }

  /** Attempt `a` is made and answered without an error by a status from 200 to 299. */
  ghost predicate Delivered(w: World, maxRetries: nat, a: int) {
    && 1 <= a <= maxRetries + 1 && (forall b :: 1 <= b <= a ==> w.running(b))
    && w.send(a).error.None? && 200 <= w.send(a).code <= 299
  }

  /** A delivery succeeds iff some attempt within the limit is made before any stop, and answered
      without an error by a status from 200 to 299. */
  lemma SucceedsIff(w: World, maxRetries: nat)
    ensures Outcome(w, maxRetries).status == Success <==> exists a :: Delivered(w, maxRetries, a)
  {
    var n := maxRetries + 1;
    var e := FirstEnd(w, n, 1);
    if a :| Delivered(w, maxRetries, a) {
      assert Ends(w, n, a);
      assert e <= a && w.running(e);
    }
    if w.running(e) && Accepted(w.send(e)) {
      forall b | 1 <= b < e ensures w.running(b) { BeforeTheEnd(w, n, b); }
      assert Delivered(w, maxRetries, e);
    }
  }

  /** What the records tell. Each retry record has the number, the answer and the error text of its
      attempt; the final record has those of the last attempt, or says that the dispatcher was
      stopped before it. */
  lemma RecordsTell(w: World, maxRetries: nat)
    ensures var n := maxRetries + 1;
      var last, e := Outcome(w, maxRetries), FirstEnd(w, n, 1);
      && 1 <= e <= n && last.attempts == e && last.maxAttempts == n
      && (!w.running(e) ==> last == Record(DeliveryStatus.Pending, 0, Stopped, e, n))
      && (w.running(e) && Accepted(w.send(e)) ==> last == Record(Success, w.send(e).code, Empty, e, n))
      && (w.running(e) && !Accepted(w.send(e)) ==>
            e == n && last == Record(DeliveryStatus.Failed, w.send(e).code, ErrorText(w.send(e)), e, n))
      && (forall a :: 1 <= a < e ==>
            (&& w.running(a) && !Accepted(w.send(a))
             && Retries(w, n, e - 1)[a - 1] == Record(Retry, w.send(a).code, ErrorText(w.send(a)), a, n)))
  {
    var n := maxRetries + 1;
    var e := FirstEnd(w, n, 1);
    var seen := Retries(w, n, e - 1);
    forall a | 1 <= a < e
      ensures w.running(a) && !Accepted(w.send(a))
      ensures seen[a - 1] == Record(Retry, w.send(a).code, ErrorText(w.send(a)), a, n)
    {
      BeforeTheEnd(w, n, a);
      assert seen[a - 1] == RetryRecord(w, n, a - 1 + 1);
    }
  }

  /** An error's own text, or the status that was answered. */
  lemma ErrorTextTells(a: Answer)
    ensures a.error.Some? ==> ErrorText(a) == Message(a.error.value)
    ensures a.error.None? ==> ErrorText(a) == HttpStatus(a.code)
  {
  }

  /** It fails iff the dispatcher runs through all attempts and none is accepted. */
  lemma FailsIff(w: World, maxRetries: nat)
    ensures Outcome(w, maxRetries).status == Failed <==>
      (forall a :: 1 <= a <= maxRetries + 1 ==>
        w.running(a) && (w.send(a).error.Some? || w.send(a).code < 200 || w.send(a).code > 299))
  {
    var n := maxRetries + 1;
    var e := FirstEnd(w, n, 1);
    if w.running(e) && !Accepted(w.send(e)) {
      forall b | 1 <= b < e ensures w.running(b) && !Accepted(w.send(b)) { BeforeTheEnd(w, n, b); }
    }
  }
}
