/** The snapshot store of featureflags/postgres.go and Allowed of featureflags/allowed.go.  A
    refresh publishes a freshly loaded map; an invalidation loads the published map and later
    publishes a copy of it without one key.  Invalidations exclude each other, refreshes are
    collapsed to one at a time, and the two kinds interleave freely. */
module FeatureFlags {
  import opened Option

  datatype Flag = Flag(enabled: bool, roles: seq<string>)

  type Flags = map<string, Flag>

  /** The copy Invalidate builds. */
  method CopyWithout(from: Flags, key: string) returns (cp: Flags)
    ensures cp == from - {key}
  {
    cp := map[];
    var todo := from.Keys;
    while todo != {}
      invariant todo <= from.Keys
      invariant cp == map k | k in from && k !in todo && k != key :: from[k]
    {
      var k :| k in todo;
      todo := todo - {k};
      if k == key {
        continue;
      }
      cp := cp[k := from[k]];
    }
  }

  /** Allowed on the snapshot Get reads: an unknown or disabled flag, or no common role, denies. */
  method Allowed(flags: Flags, key: string, callerRoles: seq<string>) returns (ok: bool)
    ensures ok <==> && key in flags && flags[key].enabled
                    && exists i, j :: 0 <= i < |callerRoles| && 0 <= j < |flags[key].roles| && callerRoles[i] == flags[key].roles[j]
  {
    if key !in flags || !flags[key].enabled {
      return false;
    }
    var roles := flags[key].roles;
    if |callerRoles| == 0 || |roles| == 0 {
      return false;
    }
    for i := 0 to |callerRoles|
      invariant forall i', j' :: 0 <= i' < i && 0 <= j' < |roles| ==> callerRoles[i'] != roles[j']
    {
      for j := 0 to |roles|
        invariant forall j' :: 0 <= j' < j ==> callerRoles[i] != roles[j']
      {
        if callerRoles[i] == roles[j] {
          return true;
        }
      }
    }
    return false;
  }

  // ---------------------------------------------------------------- the state machine

  /** The published map; a loaded map not yet published; an invalidation between its load and its
      store, with the map it loaded. */
  datatype State = State(published: Flags, loading: Option<Flags>, invalidating: Option<(string, Flags)>)

  datatype Step =
    | RefreshLoad(flags: Flags)  // the database read of a refresh succeeds
    | RefreshFail                // it fails: nothing is published
    | RefreshStore
    | InvalidateLoad(key: string)
    | InvalidateStore

  const INIT := State(map[], None, None)

  function Apply(s: State, step: Step): State {
    match step
    case RefreshLoad(flags) => if s.loading.Some? then s else s.(loading := Some(flags))
    case RefreshFail => s
    case RefreshStore => if s.loading.None? then s else s.(published := s.loading.value, loading := None)
    case InvalidateLoad(key) => if s.invalidating.Some? then s else s.(invalidating := Some((key, s.published)))
    case InvalidateStore =>
      if s.invalidating.None? then s
      else
        var (key, snapshot) := s.invalidating.value;
        s.(published := snapshot - {key}, invalidating := None)
  }

  function Run(steps: seq<Step>): State {
    if steps == [] then INIT else Apply(Run(steps[..|steps| - 1]), steps[|steps| - 1])
  }

  lemma NoSteps()
    ensures Run([]) == INIT
  {}

  lemma OneMoreStep(steps: seq<Step>, step: Step)
    ensures Run(steps + [step]) == Apply(Run(steps), step)
  {
    assert (steps + [step])[..|steps|] == steps;
  }

  // ---------------------------------------------------------------- what the history says

  /** The read of a refresh that has not published yet. */
  function Pending(steps: seq<Step>): Option<Flags> {
    if steps == [] then None
    else
      var before := Pending(steps[..|steps| - 1]);
      match steps[|steps| - 1]
      case RefreshLoad(flags) => if before.None? then Some(flags) else before
      case RefreshStore => None
      case _ => before
  }

  /** The key of the invalidation in flight. */
  function Invalidating(steps: seq<Step>): Option<string> {
    if steps == [] then None
    else
      var before := Invalidating(steps[..|steps| - 1]);
      match steps[|steps| - 1]
      case InvalidateLoad(key) => if before.None? then Some(key) else before
      case InvalidateStore => None
      case _ => before
  }

  /** The keys whose invalidation has published since the last refresh did. */
  function Gone(steps: seq<Step>): set<string> {
    if steps == [] then {}
    else
      var init := steps[..|steps| - 1];
      match steps[|steps| - 1]
      case RefreshStore => if Pending(init).Some? then {} else Gone(init)
      case InvalidateStore => if Invalidating(init).Some? then Gone(init) + {Invalidating(init).value} else Gone(init)
      case _ => Gone(init)
  }

  /** The read the latest published refresh had made. */
  function LastPublished(steps: seq<Step>): Flags {
    if steps == [] then map[]
    else
      var init := steps[..|steps| - 1];
      if steps[|steps| - 1].RefreshStore? && Pending(init).Some? then Pending(init).value else LastPublished(init)
  }

  // ---------------------------------------------------------------- the invariant

  /** part holds nothing but entries of whole. */
  ghost predicate Restricts(part: Flags, whole: Flags) {
    forall k :: k in part ==> k in whole && whole[k] == part[k]
  }

  /** Everything in flags comes from one single successful read. */
  ghost predicate FromOneRead(flags: Flags, steps: seq<Step>) {
    flags == map[] || exists i :: 0 <= i < |steps| && steps[i].RefreshLoad? && Restricts(flags, steps[i].flags)
  }

  ghost predicate Inv(steps: seq<Step>) {
    var s := Run(steps);
    && FromOneRead(s.published, steps) && s.published.Keys !! Gone(steps)
    && s.loading == Pending(steps) && (s.loading.Some? ==> RefreshLoad(s.loading.value) in steps)
    && s.invalidating.Some? == Invalidating(steps).Some?
    && (s.invalidating.Some? ==>
          var (key, snapshot) := s.invalidating.value;
          key == Invalidating(steps).value && FromOneRead(snapshot, steps) && snapshot.Keys !! Gone(steps))
  }

  lemma StillFromOneRead(part: Flags, whole: Flags, steps: seq<Step>, more: seq<Step>)
    requires FromOneRead(whole, steps) && Restricts(part, whole)
    ensures FromOneRead(part, steps + more)
  {
    if whole == map[] {
      assert part == map[];
    } else {
      var i :| 0 <= i < |steps| && steps[i].RefreshLoad? && Restricts(whole, steps[i].flags);
      assert (steps + more)[i] == steps[i] && Restricts(part, (steps + more)[i].flags);
    }
  }

  lemma ReadIsFromOneRead(flags: Flags, steps: seq<Step>, step: Step)
    requires RefreshLoad(flags) in steps
    ensures FromOneRead(flags, steps + [step])
  {
    var i :| 0 <= i < |steps| && steps[i] == RefreshLoad(flags);
    assert (steps + [step])[i] == steps[i] && Restricts(flags, steps[i].flags);
  }

  lemma StepKeeps(steps: seq<Step>, step: Step)
    requires Inv(steps)
    ensures Inv(steps + [step])
  {
    hide FromOneRead;
    var all, s := steps + [step], Run(steps);
    assert all[..|steps|] == steps && all[|steps|] == step;
    StillFromOneRead(s.published, s.published, steps, [step]);
    if s.loading.Some? {
      assert FromOneRead(s.loading.value, all) by { ReadIsFromOneRead(s.loading.value, steps, step); }
    }
    if s.invalidating.Some? {
      var (key, snapshot) := s.invalidating.value;
      StillFromOneRead(snapshot, snapshot, steps, [step]);
      StillFromOneRead(snapshot - {key}, snapshot, steps, [step]);
    }
  }

  lemma {:induction false} RunKeeps(steps: seq<Step>)
    ensures Inv(steps)
    decreases |steps|
  {
    if steps == [] {
    } else {
      var init, last := steps[..|steps| - 1], steps[|steps| - 1];
      RunKeeps(init);
      StepKeeps(init, last);
      assert init + [last] == steps;
    }
  }

  // ---------------------------------------------------------------- what is published

  /** In every interleaving, what is published is empty or a restriction of one single successful
      read, without the keys invalidated since the last refresh published. */
  lemma PublishedComesFromOneRead(steps: seq<Step>)
    ensures FromOneRead(Run(steps).published, steps) && Run(steps).published.Keys !! Gone(steps)
  {
    RunKeeps(steps);
  }

  /** Nobody is allowed a feature unless some successful read had it enabled for one of their roles. */
  lemma AllowedNeedsALoad(steps: seq<Step>, key: string, role: string)
    requires var flags := Run(steps).published; key in flags && flags[key].enabled && role in flags[key].roles
    ensures exists i :: 0 <= i < |steps| && steps[i].RefreshLoad? && key in steps[i].flags
                        && steps[i].flags[key].enabled && role in steps[i].flags[key].roles
  {
    RunKeeps(steps);
  }

  lemma {:induction false} StaysInFlight(steps: seq<Step>, key: string, between: seq<Step>)
    requires Run(steps).invalidating.None? && InvalidateStore !in between
    ensures Invalidating(steps + [InvalidateLoad(key)] + between) == Some(key)
    decreases |between|
  {
    hide Run;
    var all := steps + [InvalidateLoad(key)] + between;
    if between == [] {
      RunKeeps(steps);
      assert all == steps + [InvalidateLoad(key)] && all[..|steps|] == steps;
    } else {
      StaysInFlight(steps, key, between[..|between| - 1]);
      assert all[..|all| - 1] == steps + [InvalidateLoad(key)] + between[..|between| - 1];
    }
  }

  /** Whatever happens between and after, the key of an invalidation is absent from the moment it
      publishes until a refresh publishes. */
  lemma {:induction false} InvalidatedStaysAbsent(steps: seq<Step>, key: string, between: seq<Step>, more: seq<Step>)
    requires Run(steps).invalidating.None? && InvalidateStore !in between && RefreshStore !in more
    ensures var all := steps + [InvalidateLoad(key)] + between + [InvalidateStore] + more;
            key !in Run(all).published && key in Gone(all)
    decreases |more|
  {
    hide Run;
    var loaded := steps + [InvalidateLoad(key)] + between;
    var all := loaded + [InvalidateStore] + more;
    if more == [] {
      assert all == loaded + [InvalidateStore] && all[..|loaded|] == loaded;
      StaysInFlight(steps, key, between);
    } else {
      var n := |more| - 1;
      InvalidatedStaysAbsent(steps, key, between, more[..n]);
      assert all[..|all| - 1] == loaded + [InvalidateStore] + more[..n];
    }
    RunKeeps(all);
  }

  // ---------------------------------------------------------------- is what is published current?

  /** What is published is the latest published refresh less exactly the keys invalidated since. */
  predicate Current(steps: seq<Step>) {
    Run(steps).published == LastPublished(steps) - Gone(steps)
  }

  /** Whether what is published, and what an invalidation in flight has loaded, is older than the
      latest published refresh. */
  datatype Marks = Marks(published: bool, snapshot: bool)

  /** A published refresh makes the published map fresh and the snapshot of any invalidation in
      flight stale; loading and storing carry the mark along. */
  function Mark(refreshing: bool, invalidating: bool, m: Marks, step: Step): Marks {
    match step
    case RefreshLoad(_) => m
    case RefreshFail => m
    case RefreshStore => if refreshing then Marks(false, invalidating) else m
    case InvalidateLoad(_) => if invalidating then m else Marks(m.published, m.published)
    case InvalidateStore => if invalidating then Marks(m.snapshot, m.snapshot) else m
  }

  function Stale(steps: seq<Step>): Marks {
    if steps == [] then Marks(false, false)
    else
      var init := steps[..|steps| - 1];
      Mark(Pending(init).Some?, Invalidating(init).Some?, Stale(init), steps[|steps| - 1])
  }

  /** In every run, what is not marked stale is current. */
  lemma {:induction false} FreshIsCurrent(steps: seq<Step>)
    ensures !Stale(steps).published ==> Current(steps)
    ensures Run(steps).invalidating.Some? && !Stale(steps).snapshot ==>
              Run(steps).invalidating.value.1 == LastPublished(steps) - Gone(steps)
    decreases |steps|
  {
    if steps == [] {
    } else {
      FreshIsCurrent(steps[..|steps| - 1]);
      RunKeeps(steps[..|steps| - 1]);
    }
  }

  /** The same steps up to what the database reads return. */
  ghost predicate SameShape(a: seq<Step>, b: seq<Step>) {
    |a| == |b| && forall i :: 0 <= i < |a| ==> a[i] == b[i] || (a[i].RefreshLoad? && b[i].RefreshLoad?)
  }

  lemma {:induction false} ShapeDecidesMarks(a: seq<Step>, b: seq<Step>)
    requires SameShape(a, b)
    ensures Stale(a) == Stale(b) && Pending(a).Some? == Pending(b).Some? && Invalidating(a) == Invalidating(b)
    decreases |a|
  {
    if a == [] {
    } else {
      ShapeDecidesMarks(a[..|a| - 1], b[..|b| - 1]);
    }
  }

  /** The map that the read at step n returns in the run that tells all reads apart. */
  function Tagged(tag: string, n: nat): Flags {
    map[tag := Flag(true, seq(n, _ => ""))]
  }

  function Relabel(steps: seq<Step>, tag: string): (r: seq<Step>)
    ensures |r| == |steps|
  {
    if steps == [] then []
    else
      var n := |steps| - 1;
      Relabel(steps[..n], tag) + [if steps[n].RefreshLoad? then RefreshLoad(Tagged(tag, n)) else steps[n]]
  }

  lemma {:induction false} RelabelKeepsShape(steps: seq<Step>, tag: string)
    ensures SameShape(steps, Relabel(steps, tag))
    decreases |steps|
  {
    if steps == [] {
    } else {
      RelabelKeepsShape(steps[..|steps| - 1], tag);
    }
  }

  /** flags lacks the key tag or holds it from a read before step n. */
  predicate ReadBefore(flags: Flags, tag: string, n: nat) {
    tag in flags ==> |flags[tag].roles| < n
  }

  predicate Differs(flags: Flags, tag: string, from: Flags) {
    tag in from && (tag in flags ==> flags[tag] != from[tag])
  }

  /** What holds of a relabelled run: a pending read differs from everything stored, and whatever is
      marked stale differs from the latest published refresh. */
  ghost predicate ToldApart(s: State, last: Flags, m: Marks, tag: string, n: nat) {
    && ReadBefore(s.published, tag, n) && ReadBefore(last, tag, n)
    && (m.published ==> Differs(s.published, tag, last))
    && (s.loading.Some? ==> ReadBefore(s.loading.value, tag, n) && Differs(s.published, tag, s.loading.value))
    && (s.invalidating.Some? ==>
          var (key, snapshot) := s.invalidating.value;
          && key != tag && ReadBefore(snapshot, tag, n)
          && (m.snapshot ==> Differs(snapshot, tag, last))
          && (s.loading.Some? ==> Differs(snapshot, tag, s.loading.value)))
  }

  lemma NothingToTell(tag: string)
    ensures ToldApart(INIT, map[], Marks(false, false), tag, 0)
  {}

  lemma ToldApartStep(s: State, last: Flags, m: Marks, step: Step, tag: string, n: nat)
    requires ToldApart(s, last, m, tag, n)
    requires step.InvalidateLoad? ==> step.key != tag
    requires step.RefreshLoad? ==> step.flags == Tagged(tag, n)
    ensures ToldApart(Apply(s, step), if step.RefreshStore? && s.loading.Some? then s.loading.value else last,
                      Mark(s.loading.Some?, s.invalidating.Some?, m, step), tag, n + 1)
  {}

  lemma NotInFlight(steps: seq<Step>, last: Flags, m: Marks, tag: string, n: nat)
    requires ToldApart(Run(steps), last, m, tag, n) && Inv(steps)
    ensures Invalidating(steps) != Some(tag)
  {}

  lemma {:induction false} RelabelledToldApart(steps: seq<Step>, tag: string)
    requires forall step :: step in steps && step.InvalidateLoad? ==> step.key != tag
    ensures var r := Relabel(steps, tag); ToldApart(Run(r), LastPublished(r), Stale(r), tag, |steps|) && tag !in Gone(r)
    decreases |steps|
  {
    hide Apply, Mark, ToldApart;
    if steps == [] {
      NothingToTell(tag);
    } else {
      var n := |steps| - 1;
      var r := Relabel(steps, tag);
      assert steps[n] in steps;
      assert r[..n] == Relabel(steps[..n], tag);
      RelabelledToldApart(steps[..n], tag);
      ToldApartStep(Run(r[..n]), LastPublished(r[..n]), Stale(r[..n]), r[n], tag, n);
      RunKeeps(r[..n]);
      assert Invalidating(r[..n]) != Some(tag) by { NotInFlight(r[..n], LastPublished(r[..n]), Stale(r[..n]), tag, n); }
    }
  }

  /** A key no step invalidates. */
  lemma {:induction false} FreshKey(steps: seq<Step>) returns (tag: string)
    ensures forall step :: step in steps && step.InvalidateLoad? ==> |step.key| < |tag|
    decreases |steps|
  {
    if steps == [] {
      tag := "";
    } else {
      var last := steps[|steps| - 1];
      tag := FreshKey(steps[..|steps| - 1]);
      if last.InvalidateLoad? {
        tag := tag + last.key + "+";
      }
    }
  }

  /** A run's published map is current, whatever the run's reads return, exactly when it is not marked
      stale. */
  lemma CurrentExactlyWhenFresh(steps: seq<Step>)
    ensures (forall other :: SameShape(steps, other) ==> Current(other)) <==> !Stale(steps).published
  {
    if Stale(steps).published {
      var tag := FreshKey(steps);
      var r := Relabel(steps, tag);
      RelabelKeepsShape(steps, tag);
      ShapeDecidesMarks(steps, r);
      RelabelledToldApart(steps, tag);
      assert !Current(r);
    } else {
      forall other | SameShape(steps, other)
        ensures Current(other)
      {
        ShapeDecidesMarks(steps, other);
        FreshIsCurrent(other);
      }
    }
  }

  /** A stale run: invalidating one key puts back a flag the refresh had changed. */
  lemma OverlapRestoresOldFlag() returns (steps: seq<Step>)
    ensures var s := Run(steps);
            "f" in s.published && s.published["f"].enabled && "f" in LastPublished(steps) && !LastPublished(steps)["f"].enabled
  {
    hide Run;
    var on, off := map["f" := Flag(true, [])], map["f" := Flag(false, [])];
    var a := [RefreshLoad(on)];
    assert Run([]) == INIT by { NoSteps(); }
    OneMoreStep([], RefreshLoad(on));
    assert [] + [RefreshLoad(on)] == a;
    OneMoreStep(a, RefreshStore);
    var b := a + [RefreshStore];
    OneMoreStep(b, InvalidateLoad("g"));
    var c := b + [InvalidateLoad("g")];
    OneMoreStep(c, RefreshLoad(off));
    var d := c + [RefreshLoad(off)];
    OneMoreStep(d, RefreshStore);
    var e := d + [RefreshStore];
    OneMoreStep(e, InvalidateStore);
    steps := e + [InvalidateStore];
    assert steps[..|steps| - 1] == e && e[..|e| - 1] == d;
    assert Pending(d) == Some(off) by { RunKeeps(d); }
    assert LastPublished(e) == off;
  }
}
