/** The tenant cache of tenant/tenant.go under step 3 of resolveTenant, split at its lock
    boundaries so that requests interleave.  The clock never goes back. */
module TenantCache {
  const DEFAULT_TTL := 300_000_000_000  // five minutes in nanoseconds

  datatype Entry = Entry(tenant: string, expires: int)

  /** The user a request is for. */
  datatype Who = Who(source: string, uid: string)

  /** The only source the middleware passes. */
  const SOURCE := "zitadel"

  function Key(who: Who): string {
    who.source + ":" + who.uid
  }

  /** Sources without a colon, such as the middleware's, make keys unambiguous. */
  lemma KeyInjective(a: Who, b: Who)
    requires ':' !in a.source && ':' !in b.source && Key(a) == Key(b)
    ensures a == b
  {
    var k := Key(a);
    assert k[|a.source|] == ':' && k[|b.source|] == ':';
    assert |a.source| == |b.source|;
    assert k[..|a.source|] == a.source && k[|a.source| + 1..] == a.uid;
    assert k[..|b.source|] == b.source && k[|b.source| + 1..] == b.uid;
  }

  // ---------------------------------------------------------------- the cache on its own

  class UidCache {
    const ttl: int
    var m: map<string, Entry>

    constructor (ttl: int)
      ensures m == map[] && this.ttl > 0
      ensures this.ttl == if ttl > 0 then ttl else 5 * 60 * 1_000_000_000
    {
      this.ttl := if ttl <= 0 then DEFAULT_TTL else ttl;
      m := map[];
    }

    /** `check` and `recheck` are the two clock readings.  An expired entry is never served; it is
        deleted, and no other entry is touched. */
    method Get(who: Who, check: int, recheck: int) returns (tenant: string)
      requires check <= recheck
      modifies this`m
      ensures Key(who) in old(m) && check <= old(m)[Key(who)].expires ==> tenant == old(m)[Key(who)].tenant && m == old(m)
      ensures Key(who) in old(m) && check > old(m)[Key(who)].expires ==> tenant == "" && m == old(m) - {Key(who)}
      ensures Key(who) !in old(m) ==> tenant == "" && m == old(m)
    {
      var key := Key(who);
      if key !in m {
        return "";
      }
      var entry := m[key];
      if check > entry.expires {
        if key in m && recheck > m[key].expires {
          m := m - {key};
        }
        return "";
      }
      return entry.tenant;
    }

    method Set(who: Who, tenant: string, now: int)
      modifies this`m
      ensures m == old(m)[Key(who) := Entry(tenant, now + ttl)]
    {
      m := m[Key(who) := Entry(tenant, now + ttl)];
    }
  }

  // ---------------------------------------------------------------- interleaved requests

  /** Where a request is: it has read an entry, found it expired, missed, or got an answer to store. */
  datatype Phase = Idle | Read(who: Who, entry: Entry) | Expired(who: Who) | Missed(who: Who) | Answered(who: Who, tenant: string)

  datatype Answer = Answer(who: Who, tenant: string)
  datatype Stored = Stored(who: Who, tenant: string, at: int)
  /** A tenant served from the cache, when, and the expiry time of the entry it came from. */
  datatype Served = Served(who: Who, tenant: string, at: int, expires: int)

  /** The cache, the requests, the clock, and the record of answers, stores and cache hits. */
  datatype State = State(cache: map<string, Entry>, requests: map<nat, Phase>, now: int,
                         answers: set<Answer>, stored: set<Stored>, served: set<Served>)

  datatype Step =
    | Lookup(r: nat, uid: string)                               // the read under the read lock
    | Check(r: nat, now: int)                                   // the expiry check
    | Evict(r: nat, now: int)                                   // the re-check and delete under the lock
    | Resolve(r: nat, resolved: string, provisioned: string)    // the resolver's, then the provisioner's answer
    | Store(r: nat, now: int)                                   // the write under the lock

  function PhaseOf(s: State, r: nat): Phase {
    if r in s.requests then s.requests[r] else Idle
  }

  function Move(s: State, r: nat, phase: Phase): State {
    s.(requests := s.requests[r := phase])
  }

  function At(s: State, now: int): State {
    s.(now := if now > s.now then now else s.now)
  }

  /** A clock reading below an earlier one cannot happen and is ignored. */
  function Apply(ttl: int, s: State, step: Step): State {
    match step
    case Lookup(r, uid) =>
      var who := Who(SOURCE, uid);
      if PhaseOf(s, r) != Idle || uid == "" then s
      else if Key(who) in s.cache then Move(s, r, Read(who, s.cache[Key(who)]))
      else Move(s, r, Missed(who))
    case Check(r, now) =>
      if !PhaseOf(s, r).Read? || now < s.now then s
      else
        var Read(who, entry) := PhaseOf(s, r);
        if now > entry.expires then Move(At(s, now), r, Expired(who))
        else if entry.tenant == "" then Move(At(s, now), r, Missed(who))
        else Move(At(s, now).(served := s.served + {Served(who, entry.tenant, now, entry.expires)}), r, Idle)
    case Evict(r, now) =>
      if !PhaseOf(s, r).Expired? || now < s.now then s
      else
        var who := PhaseOf(s, r).who;
        var s1 := Move(At(s, now), r, Missed(who));
        if Key(who) in s.cache && now > s.cache[Key(who)].expires then s1.(cache := s.cache - {Key(who)}) else s1
    case Resolve(r, resolved, provisioned) =>
      if !PhaseOf(s, r).Missed? then s
      else
        var who := PhaseOf(s, r).who;
        var tenant := if resolved != "" then resolved else provisioned;
        if tenant == "" then Move(s, r, Idle)
        else Move(s.(answers := s.answers + {Answer(who, tenant)}), r, Answered(who, tenant))
    case Store(r, now) =>
      if !PhaseOf(s, r).Answered? || now < s.now then s
      else
        var Answered(who, tenant) := PhaseOf(s, r);
        Move(At(s, now).(cache := s.cache[Key(who) := Entry(tenant, now + ttl)],
                         stored := s.stored + {Stored(who, tenant, now)}), r, Idle)
  }

  function Run(ttl: int, start: int, steps: seq<Step>): State {
    if steps == [] then State(map[], map[], start, {}, {}, {})
    else Apply(ttl, Run(ttl, start, steps[..|steps| - 1]), steps[|steps| - 1])
  }

  predicate Known(who: Who) {
    who.source == SOURCE && who.uid != ""
  }

  ghost predicate PhaseOk(ttl: int, s: State, phase: Phase) {
    match phase
    case Idle => true
    case Read(who, entry) => Known(who) && Stored(who, entry.tenant, entry.expires - ttl) in s.stored
    case Expired(who) => Known(who)
    case Missed(who) => Known(who)
    case Answered(who, tenant) => Known(who) && Answer(who, tenant) in s.answers
  }

  ghost predicate Inv(ttl: int, s: State) {
    && (forall who: Who :: who.source == SOURCE && Key(who) in s.cache ==>
          Stored(who, s.cache[Key(who)].tenant, s.cache[Key(who)].expires - ttl) in s.stored)
    && (forall r :: r in s.requests ==> PhaseOk(ttl, s, s.requests[r]))
    && (forall x :: x in s.stored ==> x.at <= s.now && Answer(x.who, x.tenant) in s.answers)
    && (forall x :: x in s.answers ==> x.tenant != "")
    && (forall x :: x in s.served ==> Stored(x.who, x.tenant, x.expires - ttl) in s.stored && x.expires - ttl <= x.at <= x.expires)
  }

  lemma StoreKeeps(ttl: int, s: State, step: Step)
    requires Inv(ttl, s) && step.Store?
    ensures Inv(ttl, Apply(ttl, s, step))
  {
    if PhaseOf(s, step.r).Answered? && step.now >= s.now {
      var Answered(who, tenant) := PhaseOf(s, step.r);
      var s' := Apply(ttl, s, step);
      assert PhaseOk(ttl, s, s.requests[step.r]);
      forall w: Who | w.source == SOURCE && Key(w) in s'.cache
        ensures Stored(w, s'.cache[Key(w)].tenant, s'.cache[Key(w)].expires - ttl) in s'.stored
      {
        if Key(w) == Key(who) {
          KeyInjective(w, who);
        }
      }
    }
  }

  lemma StepKeeps(ttl: int, s: State, step: Step)
    requires Inv(ttl, s)
    ensures Inv(ttl, Apply(ttl, s, step))
  {
    hide Key;
    match step
    case Lookup(r, uid) =>
    case Check(r, now) =>
      if PhaseOf(s, r).Read? { assert PhaseOk(ttl, s, s.requests[r]); }
    case Evict(r, now) =>
      if PhaseOf(s, r).Expired? { assert PhaseOk(ttl, s, s.requests[r]); }
    case Resolve(r, resolved, provisioned) =>
      if PhaseOf(s, r).Missed? { assert PhaseOk(ttl, s, s.requests[r]); }
    case Store(r, now) => StoreKeeps(ttl, s, step);
  }

  lemma {:induction false} RunKeeps(ttl: int, start: int, steps: seq<Step>)
    ensures Inv(ttl, Run(ttl, start, steps))
    decreases |steps|
  {
    if steps == [] {
    } else {
      RunKeeps(ttl, start, steps[..|steps| - 1]);
      StepKeeps(ttl, Run(ttl, start, steps[..|steps| - 1]), steps[|steps| - 1]);
    }
  }

  /** At step i a request that had missed for this user got the tenant: the resolver's answer, or the
      provisioner's when the resolver had none. */
  predicate ResolvedAt(ttl: int, start: int, steps: seq<Step>, i: nat, who: Who, tenant: string) {
    && i < |steps| && steps[i].Resolve?
    && PhaseOf(Run(ttl, start, steps[..i]), steps[i].r) == Missed(who)
    && tenant != "" && tenant == if steps[i].resolved != "" then steps[i].resolved else steps[i].provisioned
  }

  /** At step i a request with this answer for this user stored it. */
  predicate StoredAt(ttl: int, start: int, steps: seq<Step>, i: nat, x: Stored) {
    && i < |steps| && steps[i].Store? && steps[i].now == x.at
    && PhaseOf(Run(ttl, start, steps[..i]), steps[i].r) == Answered(x.who, x.tenant)
  }

  ghost predicate StoredOnce(ttl: int, start: int, steps: seq<Step>, x: Stored) {
    exists i :: StoredAt(ttl, start, steps, i, x)
  }

  lemma EarlierStep(ttl: int, start: int, steps: seq<Step>, n: nat, i: nat)
    requires i < n <= |steps|
    ensures steps[..n][i] == steps[i] && Run(ttl, start, steps[..n][..i]) == Run(ttl, start, steps[..i])
  {
    assert steps[..n][..i] == steps[..i];
  }

  lemma {:induction false} AnswersComeFromResolvers(ttl: int, start: int, steps: seq<Step>, a: Answer)
    requires a in Run(ttl, start, steps).answers
    ensures exists i :: ResolvedAt(ttl, start, steps, i, a.who, a.tenant)
    decreases |steps|
  {
    var n := |steps| - 1;
    if a in Run(ttl, start, steps[..n]).answers {
      AnswersComeFromResolvers(ttl, start, steps[..n], a);
      var i :| ResolvedAt(ttl, start, steps[..n], i, a.who, a.tenant);
      EarlierStep(ttl, start, steps, n, i);
      assert ResolvedAt(ttl, start, steps, i, a.who, a.tenant);
    } else {
      assert ResolvedAt(ttl, start, steps, n, a.who, a.tenant);
    }
  }

  lemma {:induction false} StoredComesFromStores(ttl: int, start: int, steps: seq<Step>, x: Stored)
    requires x in Run(ttl, start, steps).stored
    ensures StoredOnce(ttl, start, steps, x)
    decreases |steps|
  {
    var n := |steps| - 1;
    if x in Run(ttl, start, steps[..n]).stored {
      StoredComesFromStores(ttl, start, steps[..n], x);
      var i :| StoredAt(ttl, start, steps[..n], i, x);
      EarlierStep(ttl, start, steps, n, i);
      assert StoredAt(ttl, start, steps, i, x);
    } else {
      assert StoredAt(ttl, start, steps, n, x);
    }
  }

  /** In every interleaving, a tenant served from the cache was stored for the same user, at most the
      ttl before the expiry check, and is what the resolver, or failing that the provisioner, had
      answered for that user. */
  lemma ServedIsFresh(ttl: int, start: int, steps: seq<Step>, x: Served)
    requires x in Run(ttl, start, steps).served
    ensures x.expires - ttl <= x.at <= x.expires
    ensures StoredOnce(ttl, start, steps, Stored(x.who, x.tenant, x.expires - ttl))
    ensures exists i :: ResolvedAt(ttl, start, steps, i, x.who, x.tenant)
  {
    RunKeeps(ttl, start, steps);
    StoredComesFromStores(ttl, start, steps, Stored(x.who, x.tenant, x.expires - ttl));
    AnswersComeFromResolvers(ttl, start, steps, Answer(x.who, x.tenant));
  }

  /** A step removes an entry exactly when it is the eviction of that expired entry, by a request that
      found it expired; only a store of the same key replaces one. */
  lemma EvictedExactlyWhenExpired(ttl: int, s: State, step: Step, key: string)
    requires key in s.cache
    ensures var s' := Apply(ttl, s, step);
            && (key !in s'.cache <==>
                && step.Evict? && PhaseOf(s, step.r).Expired? && Key(PhaseOf(s, step.r).who) == key
                && step.now >= s.now && step.now > s.cache[key].expires)
            && (key in s'.cache && s'.cache[key] != s.cache[key] ==>
                step.Store? && PhaseOf(s, step.r).Answered? && Key(PhaseOf(s, step.r).who) == key)
  {}

  // ---------------------------------------------------------------- a stored answer is served for a whole ttl

  lemma OneMoreStep(ttl: int, start: int, steps: seq<Step>, step: Step)
    ensures Run(ttl, start, steps + [step]) == Apply(ttl, Run(ttl, start, steps), step)
  {
    assert (steps + [step])[..|steps|] == steps;
  }

  /** The entry of this key was stored no earlier than `at`. */
  predicate Lasting(ttl: int, s: State, key: string, at: int) {
    key in s.cache && s.cache[key].expires >= at + ttl
  }

  lemma LastingStep(ttl: int, s: State, step: Step, key: string, at: int)
    requires Lasting(ttl, s, key, at) && at <= s.now
    ensures s.now <= Apply(ttl, s, step).now
    ensures Apply(ttl, s, step).now <= at + ttl ==> Lasting(ttl, Apply(ttl, s, step), key, at)
  {
    hide Key;
  }

  lemma ClockAdvances(ttl: int, s: State, step: Step)
    ensures s.now <= Apply(ttl, s, step).now
  {}

  /** From a store on, through any further steps until the ttl is over, the key stays cached. */
  lemma {:induction false} StoredLasts(ttl: int, start: int, steps: seq<Step>, r: nat, at: int, more: seq<Step>)
    requires PhaseOf(Run(ttl, start, steps), r).Answered? && Run(ttl, start, steps).now <= at
    requires Run(ttl, start, steps + [Store(r, at)] + more).now <= at + ttl
    ensures var s := Run(ttl, start, steps + [Store(r, at)] + more);
            at <= s.now && Lasting(ttl, s, Key(PhaseOf(Run(ttl, start, steps), r).who), at)
    decreases |more|
  {
    hide Run, Key;
    var all := steps + [Store(r, at)] + more;
    if more == [] {
      assert all == steps + [Store(r, at)];
      OneMoreStep(ttl, start, steps, Store(r, at));
    } else {
      var n := |more| - 1;
      var init := steps + [Store(r, at)] + more[..n];
      assert all == init + [more[n]];
      OneMoreStep(ttl, start, init, more[n]);
      ClockAdvances(ttl, Run(ttl, start, init), more[n]);
      StoredLasts(ttl, start, steps, r, at, more[..n]);
      LastingStep(ttl, Run(ttl, start, init), more[n], Key(PhaseOf(Run(ttl, start, steps), r).who), at);
    }
  }

  /** Steps of other requests leave a request where it is. */
  lemma {:induction false} OthersLeave(ttl: int, start: int, steps: seq<Step>, q: nat, more: seq<Step>)
    requires forall step :: step in more ==> step.r != q
    ensures PhaseOf(Run(ttl, start, steps + more), q) == PhaseOf(Run(ttl, start, steps), q)
    ensures Run(ttl, start, steps).now <= Run(ttl, start, steps + more).now
    decreases |more|
  {
    hide Run, Key;
    if more == [] {
      assert steps + more == steps;
    } else {
      var n := |more| - 1;
      assert more[n] in more;
      OthersLeave(ttl, start, steps, q, more[..n]);
      assert steps + more == steps + more[..n] + [more[n]];
      OneMoreStep(ttl, start, steps + more[..n], more[n]);
    }
  }

  /** In every interleaving, a stored answer spares the same user's requests the resolver for a whole
      ttl: whatever steps come between the store, a lookup and its expiry check, the request is
      served from the cache, by that store or a later one. */
  lemma StoredIsServed(ttl: int, start: int, steps: seq<Step>, r: nat, at: int, more: seq<Step>, q: nat, others: seq<Step>,
                       check: int)
    requires PhaseOf(Run(ttl, start, steps), r).Answered? && Run(ttl, start, steps).now <= at
    requires PhaseOf(Run(ttl, start, steps + [Store(r, at)] + more), q) == Idle
    requires forall step :: step in others ==> step.r != q
    requires var who := PhaseOf(Run(ttl, start, steps), r).who;
             Run(ttl, start, steps + [Store(r, at)] + more + [Lookup(q, who.uid)] + others).now <= check <= at + ttl
    ensures var who := PhaseOf(Run(ttl, start, steps), r).who;
            var before := steps + [Store(r, at)] + more + [Lookup(q, who.uid)] + others;
            var s, s' := Run(ttl, start, before), Run(ttl, start, before + [Check(q, check)]);
            && s'.answers == s.answers && PhaseOf(s', q) == Idle
            && exists x :: x in s'.served && x.who == who && x.at == check && x.expires - ttl >= at
  {
    hide Run, Key;
    var who := PhaseOf(Run(ttl, start, steps), r).who;
    var stored := steps + [Store(r, at)] + more;
    var looked := stored + [Lookup(q, who.uid)];
    var before := looked + others;
    OneMoreStep(ttl, start, stored, Lookup(q, who.uid));
    OneMoreStep(ttl, start, before, Check(q, check));
    OthersLeave(ttl, start, looked, q, others);
    StoredLasts(ttl, start, steps, r, at, more);
    RunKeeps(ttl, start, steps);
    RunKeeps(ttl, start, before);
    assert PhaseOk(ttl, Run(ttl, start, steps), Run(ttl, start, steps).requests[r]);
    assert who == Who(SOURCE, who.uid);
    var entry := Run(ttl, start, stored).cache[Key(who)];
    assert PhaseOf(Run(ttl, start, before), q) == Read(who, entry);
    assert PhaseOk(ttl, Run(ttl, start, before), Run(ttl, start, before).requests[q]);
    assert Answer(who, entry.tenant) in Run(ttl, start, before).answers;
    assert Served(who, entry.tenant, check, entry.expires) in Run(ttl, start, before + [Check(q, check)]).served;
  }
}
