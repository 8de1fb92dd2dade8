/** The per-IP limiter of middleware/ratelimit.go.  The clock never goes back. */
module RateLimit {
  import opened Option

  datatype Bucket = Bucket(tokens: int, resetAt: int)

  datatype Config = Config(capacity: int, window: int)

  /** A hit: who makes it and the clock reading it is judged by. */
  datatype Arrival = Arrival(ip: string, at: int)

  /** One hit on the bucket of one IP: the bucket afterwards and the answer. */
  function Hit(c: Config, b: Option<Bucket>, now: int): (Bucket, bool) {
    if b.None? || now > b.value.resetAt then (Bucket(c.capacity - 1, now + c.window), true)
    else if b.value.tokens <= 0 then (b.value, false)
    else (b.value.(tokens := b.value.tokens - 1), true)
  }

  function BucketOf(buckets: map<string, Bucket>, ip: string): Option<Bucket> {
    if ip in buckets then Some(buckets[ip]) else None
  }

  function HitMap(c: Config, buckets: map<string, Bucket>, ip: string, now: int): (map<string, Bucket>, bool) {
    var (b, ok) := Hit(c, BucketOf(buckets, ip), now);
    (buckets[ip := b], ok)
  }

  function RunAll(c: Config, hits: seq<Arrival>): (r: (map<string, Bucket>, seq<bool>))
    ensures |r.1| == |hits|
  {
    if hits == [] then (map[], [])
    else
      var (buckets, answers) := RunAll(c, hits[..|hits| - 1]);
      var (buckets', ok) := HitMap(c, buckets, hits[|hits| - 1].ip, hits[|hits| - 1].at);
      (buckets', answers + [ok])
  }

  class IPRateLimiter {
    const config: Config
    var buckets: map<string, Bucket>

    constructor (config: Config)
      ensures this.config == config && buckets == map[]
    {
      this.config := config;
      buckets := map[];
    }

    method Allow(ip: string, now: int) returns (ok: bool)
      modifies this
      ensures (buckets, ok) == HitMap(config, old(buckets), ip, now)
    {
      if ip !in buckets || now > buckets[ip].resetAt {
        buckets := buckets[ip := Bucket(config.capacity - 1, now + config.window)];
        return true;
      }
      if buckets[ip].tokens <= 0 {
        assert buckets[ip := buckets[ip]] == buckets;
        return false;
      }
      buckets := buckets[ip := buckets[ip].(tokens := buckets[ip].tokens - 1)];
      return true;
    }

    /** Serves a whole sequence of hits, one call each. */
    method Serve(hits: seq<Arrival>) returns (answers: seq<bool>)
      requires buckets == map[]
      modifies this
      ensures (buckets, answers) == RunAll(config, hits)
    {
      answers := [];
      assert hits[..0] == [];
      for i := 0 to |hits|
        invariant (buckets, answers) == RunAll(config, hits[..i])
      {
        var ok := Allow(hits[i].ip, hits[i].at);
        answers := answers + [ok];
        assert hits[..i + 1][..i] == hits[..i];
      }
      assert hits[..|hits|] == hits;
    }
  }

  // ---------------------------------------------------------------- IPs do not interfere

  /** One IP's bucket and answers when only its own hits, at these times, are served. */
  function RunAlone(c: Config, times: seq<int>): (r: (Option<Bucket>, seq<bool>))
    ensures |r.1| == |times|
  {
    if times == [] then (None, [])
    else
      var (b, answers) := RunAlone(c, times[..|times| - 1]);
      var (b', ok) := Hit(c, b, times[|times| - 1]);
      (Some(b'), answers + [ok])
  }

  function TimesOf(hits: seq<Arrival>, ip: string): seq<int> {
    if hits == [] then []
    else TimesOf(hits[..|hits| - 1], ip) + (if hits[|hits| - 1].ip == ip then [hits[|hits| - 1].at] else [])
  }

  function AnswersOf(hits: seq<Arrival>, answers: seq<bool>, ip: string): (r: seq<bool>)
    requires |answers| == |hits|
    ensures |r| == |TimesOf(hits, ip)|
  {
    if hits == [] then []
    else
      AnswersOf(hits[..|hits| - 1], answers[..|hits| - 1], ip)
      + (if hits[|hits| - 1].ip == ip then [answers[|hits| - 1]] else [])
  }

  /** Each IP is answered as if its own hits had been served alone. */
  lemma {:induction false} IPsAreIndependent(c: Config, hits: seq<Arrival>, ip: string)
    ensures BucketOf(RunAll(c, hits).0, ip) == RunAlone(c, TimesOf(hits, ip)).0
    ensures AnswersOf(hits, RunAll(c, hits).1, ip) == RunAlone(c, TimesOf(hits, ip)).1
    decreases |hits|
  {
    if hits == [] {
    } else {
      var init := hits[..|hits| - 1];
      IPsAreIndependent(c, init, ip);
      var answers := RunAll(c, hits).1;
      assert answers[..|hits| - 1] == RunAll(c, init).1;
      var last := hits[|hits| - 1];
      if last.ip == ip {
        var times := TimesOf(hits, ip);
        assert times == TimesOf(init, ip) + [last.at];
        assert times[..|times| - 1] == TimesOf(init, ip);
      } else {
        assert TimesOf(hits, ip) == TimesOf(init, ip);
        assert AnswersOf(hits, answers, ip) == AnswersOf(init, RunAll(c, init).1, ip);
      }
    }
  }

  // ---------------------------------------------------------------- how many hits get through

  ghost predicate Sorted(times: seq<int>) {
    forall i, j :: 0 <= i < j < |times| ==> times[i] <= times[j]
  }

  /** The index of the hit that opened the bucket the latest hit fell into. */
  function Opening(window: int, times: seq<int>): (o: nat)
    requires times != []
    ensures o < |times|
  {
    if |times| == 1 then 0
    else
      var o := Opening(window, times[..|times| - 1]);
      if times[|times| - 1] > times[o] + window then |times| - 1 else o
  }

  /** What a full bucket admits: its opening hit gets through even when the capacity is zero or less. */
  function PerBucket(c: Config): int {
    if c.capacity < 1 then 1 else c.capacity
  }

  function Admitted(answers: seq<bool>): nat {
    if answers == [] then 0
    else Admitted(answers[..|answers| - 1]) + if answers[|answers| - 1] then 1 else 0
  }

  /** Admitted hits with a time in the closed interval [from, to]. */
  function AdmittedIn(times: seq<int>, answers: seq<bool>, from: int, to: int): nat
    requires |times| == |answers|
  {
    if times == [] then 0
    else
      var n := |times| - 1;
      AdmittedIn(times[..n], answers[..n], from, to) + if answers[n] && from <= times[n] <= to then 1 else 0
  }

  /** Admitted hits at or after `from`. */
  function AdmittedFrom(times: seq<int>, answers: seq<bool>, from: int): nat
    requires |times| == |answers|
  {
    if times == [] then 0
    else
      var n := |times| - 1;
      AdmittedFrom(times[..n], answers[..n], from) + if answers[n] && from <= times[n] then 1 else 0
  }

  lemma FirstHit(c: Config, t: int, from: int, to: int)
    ensures RunAlone(c, [t]) == (Some(Bucket(c.capacity - 1, t + c.window)), [true])
    ensures AdmittedIn([t], [true], from, to) == if from <= t <= to then 1 else 0
    ensures AdmittedFrom([t], [true], from) == if from <= t then 1 else 0
  {
    assert [t][..0] == [] && [true][..0] == [];
    assert RunAlone(c, []) == (None, []);
    assert [] + [true] == [true];
  }

  lemma OneAdmitted()
    ensures Admitted([true]) == 1
  {
    assert [true][..0] == [];
  }

  lemma OneMoreAnswer(answers: seq<bool>, ok: bool)
    ensures Admitted(answers + [ok]) == Admitted(answers) + if ok then 1 else 0
  {
    assert (answers + [ok])[..|answers|] == answers;
  }

  /** The bucket b after a run whose current bucket has admitted `admitted` hits since it opened. */
  predicate BucketIs(c: Config, b: Option<Bucket>, openedAt: int, admitted: nat) {
    b == Some(Bucket(c.capacity - admitted, openedAt + c.window)) && 1 <= admitted <= PerBucket(c)
  }

  lemma HitMovesBucket(c: Config, b: Option<Bucket>, openedAt: int, admitted: nat, now: int)
    requires BucketIs(c, b, openedAt, admitted)
    ensures var (b', ok) := Hit(c, b, now);
            if now > openedAt + c.window then ok && BucketIs(c, Some(b'), now, 1)
            else BucketIs(c, Some(b'), openedAt, admitted + if ok then 1 else 0)
  {}

  /** The bucket after any hits: it closes one window after its opening hit, and what it has left
      is its capacity less what it admitted. */
  lemma {:induction false} BucketTellsAdmitted(c: Config, times: seq<int>)
    requires times != []
    ensures var (b, answers) := RunAlone(c, times);
            var o := Opening(c.window, times);
            && b.Some? && b.value.resetAt == times[o] + c.window
            && b.value.tokens == c.capacity - Admitted(answers[o..])
            && 1 <= Admitted(answers[o..]) <= PerBucket(c)
    decreases |times|
  {
    hide Admitted, Hit;
    var n := |times| - 1;
    var init, now := times[..n], times[n];
    var answers, before := RunAlone(c, times).1, RunAlone(c, init).1;
    var o := Opening(c.window, times);
    OneAdmitted();
    if n == 0 {
      assert RunAlone(c, init) == (None, []) && times == [now];
      FirstHit(c, now, now, now);
      assert answers[o..] == [true];
    } else {
      BucketTellsAdmitted(c, init);
      var o' := Opening(c.window, init);
      HitMovesBucket(c, RunAlone(c, init).0, init[o'], Admitted(before[o'..]), now);
      if o == n {
        assert answers[o..] == [true];
      } else {
        assert answers[o..] == before[o..] + [answers[n]];
        OneMoreAnswer(before[o..], answers[n]);
      }
    }
  }

  /** A hit is denied exactly when the bucket it falls into has already admitted its capacity. */
  lemma DeniedExactlyWhenFull(c: Config, times: seq<int>)
    requires times != []
    ensures var answers := RunAlone(c, times).1;
            var n := |times| - 1;
            var o := Opening(c.window, times);
            !answers[n] <==> o < n && Admitted(answers[o..n]) == PerBucket(c)
  {
    var n := |times| - 1;
    var init := times[..n];
    if n > 0 {
      BucketTellsAdmitted(c, init);
      var answers := RunAlone(c, times).1;
      var o := Opening(c.window, times);
      if o < n {
        assert answers[o..n] == RunAlone(c, init).1[o..];
      }
    }
  }

  lemma {:induction false} IntervalBelowRay(times: seq<int>, answers: seq<bool>, from: int, to: int)
    requires |times| == |answers|
    ensures AdmittedIn(times, answers, from, to) <= AdmittedFrom(times, answers, from)
    decreases |times|
  {
    if times == [] {
    } else {
      IntervalBelowRay(times[..|times| - 1], answers[..|times| - 1], from, to);
    }
  }

  lemma {:induction false} NothingFrom(times: seq<int>, answers: seq<bool>, from: int)
    requires |times| == |answers| && forall i :: 0 <= i < |times| ==> times[i] < from
    ensures AdmittedFrom(times, answers, from) == 0
    decreases |times|
  {
    if times == [] {
    } else {
      NothingFrom(times[..|times| - 1], answers[..|times| - 1], from);
    }
  }

  /** What the hits so far have put at or after `from`: after the current bucket's opening only its
      later hits, and within a window before that opening at most a bucket's worth less one more,
      because the bucket before opened more than a window earlier. */
  ghost predicate Bounded(c: Config, times: seq<int>, from: int)
    requires times != []
  {
    var answers := RunAlone(c, times).1;
    var o := Opening(c.window, times);
    var since := AdmittedFrom(times, answers, from);
    var here := Admitted(answers[o..]);
    && (from > times[o] ==> since <= here - 1)
    && (from >= times[o] - c.window ==> since <= here + PerBucket(c) - 1)
    && AdmittedIn(times, answers, from, from + c.window) <= 2 * PerBucket(c) - 1
  }

  /** What the latest hit adds to each count. */
  lemma LatestHit(c: Config, times: seq<int>, from: int, to: int)
    requires |times| > 1
    ensures var n := |times| - 1;
            var init, now := times[..n], times[n];
            var answers, before := RunAlone(c, times).1, RunAlone(c, init).1;
            var o, o' := Opening(c.window, times), Opening(c.window, init);
            var ok := if answers[n] then 1 else 0;
            && AdmittedFrom(times, answers, from) == AdmittedFrom(init, before, from) + (if from <= now then ok else 0)
            && AdmittedIn(times, answers, from, to)
               == AdmittedIn(init, before, from, to) + (if from <= now <= to then ok else 0)
            && (if now > times[o'] + c.window then o == n && ok == 1 && Admitted(answers[o..]) == 1
                else o == o' && Admitted(answers[o..]) == Admitted(before[o..]) + ok)
  {
    var n := |times| - 1;
    var init := times[..n];
    var answers, before := RunAlone(c, times).1, RunAlone(c, init).1;
    var o := Opening(c.window, times);
    assert answers[..n] == before;
    BucketTellsAdmitted(c, init);
    if o == n {
      assert answers[o..] == [true];
      assert [true][..0] == [];
    } else {
      assert answers[o..][..n - o] == before[o..];
    }
  }

  lemma BoundedAtFirst(c: Config, t: int, from: int)
    ensures Bounded(c, [t], from)
  {
    hide RunAlone, AdmittedFrom, AdmittedIn;
    FirstHit(c, t, from, from + c.window);
    assert [true][0..] == [true];
    assert [true][..0] == [];
    assert Admitted([true]) == 1;
  }

  lemma BoundedAfter(c: Config, times: seq<int>, from: int)
    requires |times| > 1 && Sorted(times) && Bounded(c, times[..|times| - 1], from)
    ensures Bounded(c, times, from)
  {
    hide Opening, Admitted, AdmittedFrom, AdmittedIn, RunAlone;
    var n := |times| - 1;
    var init := times[..n];
    LatestHit(c, times, from, from + c.window);
    BucketTellsAdmitted(c, init);
    BucketTellsAdmitted(c, times);
    IntervalBelowRay(times, RunAlone(c, times).1, from, from + c.window);
    if from > times[n] {
      NothingFrom(init, RunAlone(c, init).1, from);
    }
  }

  lemma {:induction false} AlwaysBounded(c: Config, times: seq<int>, from: int)
    requires times != [] && Sorted(times)
    ensures Bounded(c, times, from)
    decreases |times|
  {
    hide Bounded;
    if |times| == 1 {
      assert times == [times[0]];
      BoundedAtFirst(c, times[0], from);
    } else {
      AlwaysBounded(c, times[..|times| - 1], from);
      BoundedAfter(c, times, from);
    }
  }

  /** The hits of an IP admitted in the closed interval as long as the window that starts at `from`. */
  function AdmittedHits(c: Config, hits: seq<Arrival>, ip: string, from: int): nat {
    AdmittedIn(TimesOf(hits, ip), AnswersOf(hits, RunAll(c, hits).1, ip), from, from + c.window)
  }

  /** It holds at most 2 * capacity - 1 of them (one, when the capacity is below one), if the hits are
      judged in the order of their clock readings. */
  lemma WindowBound(c: Config, hits: seq<Arrival>, ip: string, from: int)
    requires Sorted(TimesOf(hits, ip))
    ensures AdmittedHits(c, hits, ip, from) <= 2 * PerBucket(c) - 1
  {
    IPsAreIndependent(c, hits, ip);
    if TimesOf(hits, ip) != [] {
      AlwaysBounded(c, TimesOf(hits, ip), from);
    }
  }

  // ---------------------------------------------------------------- the bound is reached

  function Repeat(t: int, k: nat): (r: seq<int>)
    ensures |r| == k && forall i :: 0 <= i < k ==> r[i] == t
  {
    if k == 0 then [] else Repeat(t, k - 1) + [t]
  }

  lemma OneMoreHit(c: Config, times: seq<int>, t: int, from: int, to: int)
    ensures var (b, answers) := RunAlone(c, times);
            var (b', ok) := Hit(c, b, t);
            && RunAlone(c, times + [t]) == (Some(b'), answers + [ok])
            && AdmittedIn(times + [t], answers + [ok], from, to)
               == AdmittedIn(times, answers, from, to) + if ok && from <= t <= to then 1 else 0
  {
    assert (times + [t])[..|times|] == times;
    var (b, answers) := RunAlone(c, times);
    var (b', ok) := Hit(c, b, t);
    assert (answers + [ok])[..|times|] == answers;
  }

  /** k more hits at one time inside the open bucket, with k tokens left. */
  lemma {:induction false} RepeatedHits(c: Config, times: seq<int>, t: int, k: nat, from: int, to: int)
    requires var b := RunAlone(c, times).0; b.Some? && t <= b.value.resetAt && k <= b.value.tokens && from <= t <= to
    ensures var (b, answers) := RunAlone(c, times);
            var (b', answers') := RunAlone(c, times + Repeat(t, k));
            && b' == Some(b.value.(tokens := b.value.tokens - k))
            && AdmittedIn(times + Repeat(t, k), answers', from, to) == AdmittedIn(times, answers, from, to) + k
  {
    hide RunAlone, AdmittedIn;
    if k == 0 {
      assert times + Repeat(t, 0) == times;
    } else {
      RepeatedHits(c, times, t, k - 1, from, to);
      OneMoreHit(c, times + Repeat(t, k - 1), t, from, to);
      assert times + Repeat(t, k) == times + Repeat(t, k - 1) + [t];
    }
  }

  /** For every capacity and window of at least one, some hits reach the bound: one at 0, the rest
      of that bucket at its very end, and a full bucket right after. */
  lemma WindowBoundIsTight(c: Config)
    requires c.capacity >= 1 && c.window >= 1
    ensures var times := [0] + Repeat(c.window, c.capacity - 1) + [c.window + 1] + Repeat(c.window + 1, c.capacity - 1);
            AdmittedIn(times, RunAlone(c, times).1, c.window, c.window + c.window) == 2 * c.capacity - 1
  {
    var from, to := c.window, c.window + c.window;
    hide RunAlone, AdmittedIn, Repeat;
    FirstHit(c, 0, from, to);
    RepeatedHits(c, [0], c.window, c.capacity - 1, from, to);
    var first := [0] + Repeat(c.window, c.capacity - 1);
    OneMoreHit(c, first, c.window + 1, from, to);
    RepeatedHits(c, first + [c.window + 1], c.window + 1, c.capacity - 1, from, to);
  }

  // ---------------------------------------------------------------- the documented cap

  function HitsAt(times: seq<int>, ip: string): seq<Arrival> {
    if times == [] then [] else HitsAt(times[..|times| - 1], ip) + [Arrival(ip, times[|times| - 1])]
  }

  lemma {:induction false} HitsAtTimes(times: seq<int>, ip: string)
    ensures TimesOf(HitsAt(times, ip), ip) == times
    decreases |times|
  {
    if times == [] {
    } else {
      HitsAtTimes(times[..|times| - 1], ip);
      var hits := HitsAt(times, ip);
      assert hits[..|hits| - 1] == HitsAt(times[..|times| - 1], ip);
    }
  }

  /** Some hits of an IP exceed the capacity in one window: the bound is reached, and a bucket without
      capacity still admits its opening hit. */
  lemma TooManyHits(c: Config, ip: string) returns (hits: seq<Arrival>, from: int)
    requires c.window >= 1 && c.capacity != 1
    ensures Sorted(TimesOf(hits, ip)) && AdmittedHits(c, hits, ip, from) > c.capacity
  {
    hide RunAlone, AdmittedIn, TimesOf, AnswersOf, RunAll, HitsAt;
    var times;
    if c.capacity < 1 {
      times, from := [0], 0;
      FirstHit(c, 0, 0, c.window);
    } else {
      times := [0] + Repeat(c.window, c.capacity - 1) + [c.window + 1] + Repeat(c.window + 1, c.capacity - 1);
      from := c.window;
      WindowBoundIsTight(c);
    }
    hits := HitsAt(times, ip);
    HitsAtTimes(times, ip);
    IPsAreIndependent(c, hits, ip);
  }

  /** The documented cap, `capacity` hits per IP within a rolling window, holds exactly for a
      capacity of one. */
  lemma RollingCapExactlyWhen(c: Config)
    requires c.window >= 1
    ensures (forall hits, ip, from :: Sorted(TimesOf(hits, ip)) ==> AdmittedHits(c, hits, ip, from) <= c.capacity)
            <==> c.capacity == 1
  {
    hide AdmittedHits, TimesOf;
    if c.capacity == 1 {
      forall hits, ip, from | Sorted(TimesOf(hits, ip))
        ensures AdmittedHits(c, hits, ip, from) <= 1
      {
        WindowBound(c, hits, ip, from);
      }
    } else {
      var hits, from := TooManyHits(c, "");
    }
  }

  // ---------------------------------------------------------------- readings that reach the lock late

  /** The clock is read before the lock is taken.  When every reading reaches the lock within `lag`,
      a later hit's reading is at most `lag` below an earlier one's. */
  ghost predicate Lagging(times: seq<int>, lag: nat) {
    forall i, j :: 0 <= i < j < |times| ==> times[i] <= times[j] + lag
  }

  /** How many buckets can have opened from `low` to t: openings are more than a window apart. */
  function BucketsBy(window: nat, low: int, t: int): nat {
    if t < low then 0 else (t - low) / (window + 1) + 1
  }

  lemma QuotientAtLeast(x: int, w: nat, q: nat)
    requires w > 0 && q * w <= x
    ensures q <= x / w
  {
    assert x < (x / w + 1) * w;
  }

  lemma BucketsGrow(window: nat, low: int, t: int, t': int)
    requires low <= t <= t'
    ensures BucketsBy(window, low, t) <= BucketsBy(window, low, t')
    ensures t + window < t' ==> BucketsBy(window, low, t) + 1 <= BucketsBy(window, low, t')
  {
    var w, q := window + 1, (t - low) / (window + 1);
    assert q * w <= t - low;
    if t + window < t' {
      assert (q + 1) * w <= t' - low;
      QuotientAtLeast(t' - low, w, q + 1);
    } else {
      QuotientAtLeast(t' - low, w, q);
    }
  }

  /** What the hits so far have put into [from, to], by where the current bucket opened. */
  ghost predicate LagBounded(c: Config, times: seq<int>, from: int, to: int, lag: nat)
    requires times != [] && c.window >= 0
  {
    var answers := RunAlone(c, times).1;
    var o := Opening(c.window, times);
    var count, here := AdmittedIn(times, answers, from, to), Admitted(answers[o..]);
    var low, high := from - c.window, to + lag;
    && (times[o] < low ==> count == 0)
    && (low <= times[o] <= high ==> count <= PerBucket(c) * (BucketsBy(c.window, low, times[o]) - 1) + here)
    && (high < times[o] ==> count <= PerBucket(c) * BucketsBy(c.window, low, high))
  }

  lemma LagBoundedAtFirst(c: Config, t: int, from: int, to: int, lag: nat)
    requires c.window >= 0 && from <= to
    ensures LagBounded(c, [t], from, to, lag)
  {
    hide RunAlone, AdmittedIn, BucketsBy;
    FirstHit(c, t, from, to);
    assert [true][0..] == [true];
    assert [true][..0] == [];
    assert Admitted([true]) == 1;
    var low, high := from - c.window, to + lag;
    BucketsPositive(c, low, high);
    if t >= low {
      BucketsPositive(c, low, t);
    }
  }

  lemma BucketsPositive(c: Config, low: int, t: int)
    requires c.window >= 0 && low <= t
    ensures PerBucket(c) * BucketsBy(c.window, low, t) == PerBucket(c) * (BucketsBy(c.window, low, t) - 1) + PerBucket(c)
    ensures PerBucket(c) >= 1 && PerBucket(c) * (BucketsBy(c.window, low, t) - 1) >= 0
  {}

  /** A later opening makes room for what was counted before it. */
  lemma RoomForMore(c: Config, low: int, t: int, t': int)
    requires c.window >= 0 && low <= t <= t'
    ensures var p := PerBucket(c);
            && p * BucketsBy(c.window, low, t) <= p * BucketsBy(c.window, low, t')
            && (t + c.window < t' ==> p * BucketsBy(c.window, low, t) <= p * (BucketsBy(c.window, low, t') - 1))
  {
    hide BucketsBy;
    BucketsGrow(c.window, low, t, t');
  }

  lemma LagBoundedAfter(c: Config, times: seq<int>, from: int, to: int, lag: nat)
    requires |times| > 1 && c.window >= 0 && from <= to && Lagging(times, lag)
    requires LagBounded(c, times[..|times| - 1], from, to, lag)
    ensures LagBounded(c, times, from, to, lag)
  {
    hide Opening, Admitted, AdmittedIn, RunAlone, BucketsBy, PerBucket;
    var n := |times| - 1;
    var init, now := times[..n], times[n];
    LatestHit(c, times, from, to);
    BucketTellsAdmitted(c, init);
    BucketTellsAdmitted(c, times);
    var opening := init[Opening(c.window, init)];
    var low, high := from - c.window, to + lag;
    BucketsPositive(c, low, high);
    if low <= opening {
      BucketsPositive(c, low, opening);
      if opening <= high {
        RoomForMore(c, low, opening, high);
      }
      if opening <= now {
        RoomForMore(c, low, opening, now);
      }
    }
    if low <= now {
      BucketsPositive(c, low, now);
    }
  }

  lemma {:induction false} AlwaysLagBounded(c: Config, times: seq<int>, from: int, to: int, lag: nat)
    requires times != [] && c.window >= 0 && from <= to && Lagging(times, lag)
    ensures LagBounded(c, times, from, to, lag)
    decreases |times|
  {
    hide LagBounded;
    if |times| == 1 {
      assert times == [times[0]];
      LagBoundedAtFirst(c, times[0], from, to, lag);
    } else {
      AlwaysLagBounded(c, times[..|times| - 1], from, to, lag);
      LagBoundedAfter(c, times, from, to, lag);
    }
  }

  lemma NothingAdmitted(from: int, to: int)
    ensures AdmittedIn([], [], from, to) == 0
  {}

  lemma LaggedAlone(c: Config, times: seq<int>, from: int, to: int, lag: nat)
    requires c.window >= 0 && from <= to && Lagging(times, lag)
    ensures AdmittedIn(times, RunAlone(c, times).1, from, to) <= PerBucket(c) * BucketsBy(c.window, from - c.window, to + lag)
  {
    hide Opening, RunAlone, AdmittedIn, BucketsBy, PerBucket, Admitted, Lagging;
    var low, high := from - c.window, to + lag;
    BucketsPositive(c, low, high);
    if times == [] {
      NothingAdmitted(from, to);
    } else {
      AlwaysLagBounded(c, times, from, to, lag);
      BucketTellsAdmitted(c, times);
      var opening := times[Opening(c.window, times)];
      if low <= opening <= high {
        BucketsPositive(c, low, opening);
        RoomForMore(c, low, opening, high);
      }
    }
  }

  /** With readings up to `lag` late, a window holds no more than the buckets that can open within two
      windows and the lag: two buckets' worth without lag, three up to a lag of a window. */
  lemma LaggedWindowBound(c: Config, hits: seq<Arrival>, ip: string, from: int, lag: nat)
    requires c.window >= 0 && Lagging(TimesOf(hits, ip), lag)
    ensures AdmittedHits(c, hits, ip, from) <= PerBucket(c) * ((2 * c.window + lag) / (c.window + 1) + 1)
  {
    hide RunAlone, RunAll, AdmittedIn, Lagging, TimesOf, AnswersOf, PerBucket;
    IPsAreIndependent(c, hits, ip);
    LaggedAlone(c, TimesOf(hits, ip), from, from + c.window, lag);
    assert BucketsBy(c.window, from - c.window, from + c.window + lag) == (2 * c.window + lag) / (c.window + 1) + 1;
  }
}
