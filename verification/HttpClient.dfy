/** The circuit breaker and the retrying POST of httpclient/client.go.  Time is an integer number
    of nanoseconds read from a clock that never goes back. */
module HttpClient {
  import opened Option

  // ---------------------------------------------------------------- what the breaker should do

  /** A breaker call with the time it was made. */
  datatype Call = Allowed(at: int) | Success(at: int) | Failure(at: int)

  /** The run of failures since the last success. */
  function TrailingFailures(h: seq<Call>): nat {
    if h == [] then 0
    else match h[|h| - 1]
      case Allowed(_) => TrailingFailures(h[..|h| - 1])
      case Success(_) => 0
      case Failure(_) => TrailingFailures(h[..|h| - 1]) + 1
  }

  function LastFailure(h: seq<Call>): int {
    if h == [] then 0
    else if h[|h| - 1].Failure? then h[|h| - 1].at
    else LastFailure(h[..|h| - 1])
  }

  /** The specification over the history alone: a request may proceed while the trailing failures
      stay below the threshold, and again once the cooldown has passed since the last of them. */
  predicate MayProceed(h: seq<Call>, threshold: int, cooldown: int, now: int) {
    || TrailingFailures(h) == 0
    || TrailingFailures(h) < threshold
    || now - LastFailure(h) >= cooldown
  }

  // ---------------------------------------------------------------- the three-state machine

  datatype State = Closed | Open | HalfOpen

  class CircuitBreaker {
    const threshold: int
    const cooldown: int
    var failures: int
    var state: State
    var openedAt: int
    ghost var history: seq<Call>
    ghost var clock: int  // the latest time seen

    /** The fields agree with the history: the breaker left Closed exactly when the trailing
        failures reached the threshold, openedAt is then the last failure, and HalfOpen was
        entered after the cooldown. */
    ghost predicate Valid()
      reads this
    {
      && failures == TrailingFailures(history)
      && (state == Closed <==> failures == 0 || failures < threshold)
      && (state != Closed ==> openedAt == LastFailure(history))
      && (state == HalfOpen ==> clock - openedAt >= cooldown)
    }

    constructor (threshold: int, cooldown: int, ghost now: int)
      ensures Valid() && history == [] && clock == now && this.threshold == threshold && this.cooldown == cooldown
    {
      this.threshold, this.cooldown := threshold, cooldown;
      failures, state, openedAt := 0, Closed, 0;
      history, clock := [], now;
    }

    /** After every history of calls, Allow answers as the history specification says. */
    method Allow(now: int) returns (ok: bool)
      requires Valid() && clock <= now
      modifies this
      ensures Valid() && clock == now
      ensures history == old(history) + [Allowed(now)]
      ensures ok == MayProceed(old(history), threshold, cooldown, now)
    {
      match state {
        case Closed => ok := true;
        case Open =>
          ok := now - openedAt >= cooldown;
          if ok {
            state := HalfOpen;
          }
        case HalfOpen => ok := true;
      }
      history, clock := history + [Allowed(now)], now;
      assert history[..|history| - 1] == old(history);
    }

    method RecordSuccess(now: int)
      requires Valid() && clock <= now
      modifies this
      ensures Valid() && clock == now
      ensures history == old(history) + [Success(now)]
    {
      failures, state := 0, Closed;
      history, clock := history + [Success(now)], now;
    }

    method RecordFailure(now: int)
      requires Valid() && clock <= now
      modifies this
      ensures Valid() && clock == now
      ensures history == old(history) + [Failure(now)]
    {
      failures := failures + 1;
      if failures >= threshold {
        state, openedAt := Open, now;
      }
      history, clock := history + [Failure(now)], now;
      assert history[..|history| - 1] == old(history);
    }
  }

  // ---------------------------------------------------------------- backoff

  function Pow2(n: nat): nat {
    if n == 0 then 1 else 2 * Pow2(n - 1)
  }

  const MILLISECOND := 1_000_000
  const INT64 := 0x8000_0000_0000_0000

  /** int64 arithmetic wraps around. */
  function Wrap64(x: int): (r: int)
    ensures -INT64 <= r < INT64
  {
    (x + INT64) % (2 * INT64) - INT64
  }

  /** The n-th value of `backoff`, starting at 100 ms and doubled in int64 nanoseconds. */
  function Backoff(n: nat): (r: int)
    ensures -INT64 <= r < INT64
  {
    if n == 0 then 100 * MILLISECOND else Wrap64(2 * Backoff(n - 1))
  }

  lemma {:induction false} Pow2Grows(m: nat, n: nat)
    requires m <= n
    ensures Pow2(m) <= Pow2(n)
    decreases n - m
  {
    if m < n {
      Pow2Grows(m + 1, n);
    }
  }

  lemma SomePowers()
    ensures Pow2(36) == 0x10_0000_0000 && Pow2(37) == 0x20_0000_0000
  {
    assert Pow2(9) == 0x200;
    assert Pow2(18) == 0x4_0000;
    assert Pow2(27) == 0x800_0000;
  }

  lemma WrapKeeps(x: int)
    requires -INT64 <= x < INT64
    ensures Wrap64(x) == x
  {}

  /** Doubling is exact up to its 37th value and never after: from then on it wraps around. */
  lemma {:induction false} BackoffDoubles(n: nat)
    ensures Backoff(n) == 100 * MILLISECOND * Pow2(n) <==> n <= 36
  {
    hide Wrap64;
    SomePowers();
    if n > 36 {
      Pow2Grows(37, n);
    } else if n > 0 {
      BackoffDoubles(n - 1);
      Pow2Grows(n, 36);
      WrapKeeps(2 * Backoff(n - 1));
    }
  }

  /** The waits before n + 1 attempts. */
  function Waits(n: nat): (w: seq<int>)
    ensures |w| == n
  {
    if n == 0 then [] else Waits(n - 1) + [Backoff(n - 1)]
  }

  function Total(waits: seq<int>): int {
    if waits == [] then 0 else Total(waits[..|waits| - 1]) + waits[|waits| - 1]
  }

  lemma {:induction false} TotalBackoff(n: nat)
    requires n <= 37
    ensures Total(Waits(n)) == 100 * MILLISECOND * (Pow2(n) - 1)
  {
    if n == 0 {
    } else {
      TotalBackoff(n - 1);
      BackoffDoubles(n - 1);
      assert Waits(n)[..|Waits(n)| - 1] == Waits(n - 1);
    }
  }

  // ---------------------------------------------------------------- the retry loop

  datatype Reply = ConnError(error: int) | Response(status: int, body: nat)

  /** What the world does at one attempt: whether the context is found cancelled in the wait before
      it, how the request ends, when, and which breaker calls other users make meanwhile. */
  datatype Attempt = Attempt(cancelled: bool, reply: Reply, at: int, meanwhile: seq<Call>)

  datatype Error = CircuitOpen | MarshalFailed | BuildFailed | Cancelled | Transport(error: int)

  predicate Below500(r: Reply) {
    r.Response? && r.status < 500
  }

  /** The breaker outcome a completed attempt is worth. */
  function Outcome(a: Attempt): Call {
    if Below500(a.reply) then Success(a.at) else Failure(a.at)
  }

  /** The breaker calls while these attempts complete: one of their own each, after those of others. */
  function Records(attempts: seq<Attempt>): seq<Call> {
    if attempts == [] then []
    else
      var a := attempts[|attempts| - 1];
      Records(attempts[..|attempts| - 1]) + a.meanwhile + [Outcome(a)]
  }

  function Bodies(attempts: seq<Attempt>): seq<nat> {
    if attempts == [] then []
    else
      var a := attempts[|attempts| - 1];
      Bodies(attempts[..|attempts| - 1]) + (if a.reply.Response? then [a.reply.body] else [])
  }

  /** These are the bodies of exactly the attempts that got a response. */
  ghost predicate ResponsesOf(attempts: seq<Attempt>, bodies: seq<nat>) {
    forall b :: b in bodies <==>
      exists i :: 0 <= i < |attempts| && attempts[i].reply.Response? && attempts[i].reply.body == b
  }

  lemma {:induction false} BodiesAreResponses(attempts: seq<Attempt>)
    ensures ResponsesOf(attempts, Bodies(attempts))
    decreases |attempts|
  {
    if attempts == [] {
    } else {
      var n := |attempts| - 1;
      BodiesAreResponses(attempts[..n]);
      assert forall i :: 0 <= i < n ==> attempts[..n][i] == attempts[i];
    }
  }

  /** A completed attempt answered below 500 ends the run of failures; any other prolongs it by one. */
  lemma OutcomeCounts(h: seq<Call>, a: Attempt)
    ensures TrailingFailures(h + [Outcome(a)])
            == if a.reply.Response? && a.reply.status < 500 then 0 else TrailingFailures(h) + 1
    ensures !(a.reply.Response? && a.reply.status < 500) ==> LastFailure(h + [Outcome(a)]) == a.at
  {
    assert (h + [Outcome(a)])[..|h|] == h;
  }

  /** Attempts that all fail, with nobody else at the breaker, prolong the run by their number. */
  lemma {:induction false} FailuresAddUp(h: seq<Call>, attempts: seq<Attempt>)
    requires forall i :: 0 <= i < |attempts| ==> attempts[i].meanwhile == []
    requires forall i :: 0 <= i < |attempts| ==> attempts[i].reply.ConnError? || attempts[i].reply.status >= 500
    ensures TrailingFailures(h + Records(attempts)) == TrailingFailures(h) + |attempts|
    decreases |attempts|
  {
    hide TrailingFailures;
    if attempts == [] {
      assert h + Records(attempts) == h;
    } else {
      var n := |attempts| - 1;
      FailuresAddUp(h, attempts[..n]);
      OutcomeCounts(h + Records(attempts[..n]), attempts[n]);
      assert h + Records(attempts) == h + Records(attempts[..n]) + [Outcome(attempts[n])];
    }
  }

  /** The history as attempt a leaves it: no failure since a success when it was answered below 500,
      and otherwise a run of failures that ends with it. */
  predicate EndsWith(h: seq<Call>, a: Attempt) {
    if a.reply.Response? && a.reply.status < 500 then TrailingFailures(h) == 0
    else TrailingFailures(h) > 0 && LastFailure(h) == a.at
  }

  /** Calls in the order of the clock, from one time to another. */
  ghost predicate Timely(calls: seq<Call>, from: int, to: int) {
    && (forall i :: 0 <= i < |calls| ==> from <= calls[i].at <= to)
    && (forall i, j :: 0 <= i < j < |calls| ==> calls[i].at <= calls[j].at)
  }

  /** When attempt i begins: after the one before it. */
  function Began(now: int, script: seq<Attempt>, i: nat): int
    requires i <= |script|
  {
    if i == 0 then now else script[i - 1].at
  }

  ghost predicate Ordered(now: int, script: seq<Attempt>) {
    forall i :: 0 <= i < |script| ==>
      Began(now, script, i) <= script[i].at && Timely(script[i].meanwhile, Began(now, script, i), script[i].at)
  }

  /** `sent` requests went out, none but the last answered below 500, no wait was cancelled. */
  ghost predicate Retried(script: seq<Attempt>, sent: nat) {
    && sent <= |script|
    && (forall i :: 0 <= i < sent - 1 ==> !Below500(script[i].reply))
    && (forall i :: 0 < i < sent ==> !script[i].cancelled)
  }

  /** Why the call ended as it did after `sent` requests. */
  ghost predicate Ended(script: seq<Attempt>, retries: int, sent: nat, resp: Option<Reply>, err: Option<Error>)
    requires Retried(script, sent) && retries <= |script|
  {
    match resp
    case Some(r) =>
      err.None? && sent > 0 && r == script[sent - 1].reply && r.Response? && (r.status < 500 || sent == retries)
    case None =>
      match err
      case None => sent == 0 && retries <= 0
      case Some(Cancelled) =>
        0 < sent < retries && script[sent].cancelled && !Below500(script[sent - 1].reply)
      case Some(Transport(e)) => 0 < sent == retries && script[sent - 1].reply == ConnError(e)
      case Some(_) => sent == 0
  }

  lemma NothingSent(script: seq<Attempt>)
    ensures Records(script[..0]) == [] && Bodies(script[..0]) == [] && Waits(0) == []
  {}

  lemma BackoffStep(n: nat)
    ensures Backoff(0) == 100 * MILLISECOND
    ensures Backoff(n + 1) == Wrap64(Backoff(n) * 2)
    ensures Waits(0) == [] && Waits(n + 1) == Waits(n) + [Backoff(n)]
  {}

  lemma OneMoreAttempt(base: seq<Call>, script: seq<Attempt>, n: nat)
    requires 0 < n <= |script|
    ensures var a := script[n - 1];
            && base + Records(script[..n]) == base + Records(script[..n - 1]) + a.meanwhile + [Outcome(a)]
            && Bodies(script[..n]) == Bodies(script[..n - 1]) + (if a.reply.Response? then [a.reply.body] else [])
  {
    assert script[..n][..n - 1] == script[..n - 1];
  }

  lemma LastOutcomeShows(base: seq<Call>, script: seq<Attempt>, n: nat)
    requires 0 < n <= |script|
    ensures EndsWith(base + Records(script[..n]), script[n - 1])
  {
    hide TrailingFailures, LastFailure, Outcome, Records, Bodies;
    OneMoreAttempt(base, script, n);
    OutcomeCounts(base + Records(script[..n - 1]) + script[n - 1].meanwhile, script[n - 1]);
  }

  /** Other users call the breaker. */
  method Meanwhile(cb: CircuitBreaker, calls: seq<Call>, ghost from: int, ghost to: int)
    requires cb.Valid() && cb.clock <= from <= to && Timely(calls, from, to)
    modifies cb
    ensures cb.Valid() && cb.clock <= to
    ensures cb.history == old(cb.history) + calls
  {
    hide TrailingFailures, LastFailure, MayProceed;
    for i := 0 to |calls|
      invariant cb.Valid() && cb.clock <= to && (i < |calls| ==> cb.clock <= calls[i].at)
      invariant cb.history == old(cb.history) + calls[..i]
    {
      match calls[i] {
        case Allowed(at) => var _ := cb.Allow(at);
        case Success(at) => cb.RecordSuccess(at);
        case Failure(at) => cb.RecordFailure(at);
      }
    }
  }

  /** Tells the breaker, if any, how a completed attempt went, after what others told it. */
  method Record(cb: CircuitBreaker?, a: Attempt, ghost base: seq<Call>, ghost script: seq<Attempt>, ghost n: nat, ghost now: int)
    requires 0 < n <= |script| && a == script[n - 1] && Ordered(now, script)
    requires cb != null ==> cb.Valid() && cb.clock <= Began(now, script, n - 1) && cb.history == base + Records(script[..n - 1])
    modifies cb
    ensures cb != null ==> cb.Valid() && cb.clock == a.at && cb.history == base + Records(script[..n])
  {
    OneMoreAttempt(base, script, n);
    if cb != null {
      Meanwhile(cb, a.meanwhile, Began(now, script, n - 1), a.at);
      if Below500(a.reply) {
        cb.RecordSuccess(a.at);
      } else {
        cb.RecordFailure(a.at);
      }
    }
  }

  /** The loop of PostJSON. */
  method RetryLoop(cb: CircuitBreaker?, retries: int, builds: bool, script: seq<Attempt>, ghost base: seq<Call>, ghost now: int)
    returns (resp: Option<Reply>, err: Option<Error>, sent: nat, closed: seq<nat>, waits: seq<int>)
    requires cb != null ==> cb.Valid() && cb.clock <= now && cb.history == base
    requires retries <= |script| && Ordered(now, script)
    modifies cb
    ensures sent <= |script| && (sent == 0 || sent <= retries)
    ensures cb != null ==> cb.Valid() && cb.history == base + Records(script[..sent])
    ensures Retried(script, sent) && Ended(script, retries, sent, resp, err)
    ensures closed == Bodies(script[..if resp.Some? then sent - 1 else sent])
    ensures waits == Waits(if sent == 0 then 0 else sent - 1)
    ensures err != Some(CircuitOpen) && err != Some(MarshalFailed)
    ensures err == Some(BuildFailed) <==> !builds && retries > 0
  {
    hide Backoff, Waits, Wrap64, Records, Bodies, Ordered, Outcome;
    BackoffStep(0);
    NothingSent(script);
    resp, err, sent, closed, waits := None, None, 0, [], [];
    var backoff := 100 * MILLISECOND;
    var attempt := 0;
    while attempt < retries
      invariant attempt == sent && sent <= |script| && (sent == 0 || sent <= retries)
      invariant cb != null ==> cb.Valid() && cb.history == base + Records(script[..sent])
      invariant cb != null ==> cb.clock <= Began(now, script, sent)
      invariant Retried(script, sent) && (sent > 0 ==> builds && !Below500(script[sent - 1].reply))
      invariant resp == None && (sent == 0 ==> err == None)
      invariant 0 < sent == retries ==> script[sent - 1].reply.ConnError? && err == Some(Transport(script[sent - 1].reply.error))
      invariant closed == Bodies(script[..sent])
      invariant waits == Waits(if sent == 0 then 0 else sent - 1) && backoff == Backoff(|waits|)
    {
      var a := script[attempt];
      if attempt > 0 {
        if a.cancelled {
          err := Some(Cancelled);
          return;
        }
        BackoffStep(sent - 1);
        waits := waits + [backoff];
        backoff := Wrap64(backoff * 2);
      }
      if !builds {
        err := Some(BuildFailed);
        return;
      }
      sent := sent + 1;
      OneMoreAttempt(base, script, sent);
      if a.reply.ConnError? {
        Record(cb, a, base, script, sent, now);
        err := Some(Transport(a.reply.error));
      } else if a.reply.status >= 500 && attempt < retries - 1 {
        closed := closed + [a.reply.body];
        Record(cb, a, base, script, sent, now);
        err := None;
      } else {
        Record(cb, a, base, script, sent, now);
        resp, err := Some(a.reply), None;
        return;
      }
      attempt := attempt + 1;
    }
  }

  /** PostJSON.  `marshals` and `builds` say whether the body marshals and the request builds.
      Beside Go's two results it returns the number of requests sent, the response bodies closed
      and the backoffs waited out. */
  method PostJSON(cb: CircuitBreaker?, retries: int, marshals: bool, builds: bool, now: int, script: seq<Attempt>)
    returns (resp: Option<Reply>, err: Option<Error>, sent: nat, closed: seq<nat>, waits: seq<int>)
    requires cb != null ==> cb.Valid() && cb.clock <= now
    requires retries <= |script| && Ordered(now, script)
    modifies cb
    ensures sent <= |script| && (sent == 0 || sent <= retries)
    ensures cb != null ==> cb.Valid() && cb.history == old(cb.history) + [Allowed(now)] + Records(script[..sent])
    ensures Retried(script, sent) && Ended(script, retries, sent, resp, err)
    ensures closed == Bodies(script[..if resp.Some? then sent - 1 else sent])
    ensures ResponsesOf(script[..if resp.Some? then sent - 1 else sent], closed)
    ensures cb != null && sent > 0 ==> EndsWith(cb.history, script[sent - 1])
    ensures 0 < sent <= 38 ==> Total(waits) == 100 * MILLISECOND * (Pow2(sent - 1) - 1)
    ensures waits == Waits(if sent == 0 then 0 else sent - 1)
    ensures var open := cb != null && !old(MayProceed(cb.history, cb.threshold, cb.cooldown, now));
            && (err == Some(CircuitOpen) <==> open)
            && (err == Some(MarshalFailed) <==> !open && !marshals)
            && (err == Some(BuildFailed) <==> !open && marshals && !builds && retries > 0)
            && (resp.None? && err.None? <==> !open && marshals && retries <= 0)
  {
    hide Backoff, Waits, Pow2, Total, MayProceed, Records, Bodies, ResponsesOf, EndsWith, TrailingFailures, LastFailure, Ordered, Below500;
    resp, err, sent, closed, waits := None, None, 0, [], [];
    NothingSent(script);
    BodiesAreResponses(script[..0]);
    ghost var base: seq<Call> := [];
    if cb != null {
      base := cb.history + [Allowed(now)];
      var ok := cb.Allow(now);
      if !ok {
        err := Some(CircuitOpen);
        return;
      }
    }
    if !marshals {
      err := Some(MarshalFailed);
      return;
    }
    resp, err, sent, closed, waits := RetryLoop(cb, retries, builds, script, base, now);
    BodiesAreResponses(script[..if resp.Some? then sent - 1 else sent]);
    if sent > 0 {
      LastOutcomeShows(base, script, sent);
    }
    if 0 < sent <= 38 {
      TotalBackoff(sent - 1);
    }
  }
}
