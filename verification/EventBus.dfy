/** The Postgres event bus of eventbus/postgres.go: at-least-once delivery driven by one stored
    offset per consumer and topic.  A poll is three separate steps (read a batch, call the handler
    on each event, store the offset) that interleave freely with publishers and other pollers.
    Event ids are positive and become visible in increasing order. */
module EventBus {

  const NIL_TENANT_ID := "00000000-0000-0000-0000-000000000000"

  datatype Event = Event(id: nat, tenant: string, topic: string, payload: string)

  /** The key of an offset row. */
  datatype Sub = Sub(consumer: string, topic: string)

  /** Where a poller is inside pollOnce. */
  datatype Phase = Idle | Delivering(pending: seq<Event>) | Saving(lastId: nat)

  /** The events table in id order, the offset rows, each poller's phase, and which events each
      consumer's handler has accepted without error. */
  datatype State = State(events: seq<Event>, offsets: map<Sub, nat>, pollers: map<nat, Phase>,
                         handled: set<(string, nat)>)

  /** Which subscription each poller serves, several may serve the same one, and the batch size. */
  datatype Config = Config(who: nat -> Sub, batchSize: nat)

  datatype Step =
    | Publish(id: nat, tenant: string, topic: string, payload: string)
    | Subscribe(p: nat)            // inserts offset 0 unless the row exists
    | Read(p: nat)                 // reads the next batch
    | Handle(p: nat, ok: bool)     // calls the handler on the next event of the batch
    | Save(p: nat, applied: bool)  // updates the offset row; the update may be lost
    | Abandon(p: nat)              // any error or crash ends the poll

  const INIT := State([], map[], map[], {})

  function LastId(events: seq<Event>): nat {
    if events == [] then 0 else events[|events| - 1].id
  }

  function PhaseOf(s: State, p: nat): Phase {
    if p in s.pollers then s.pollers[p] else Idle
  }

  /** The rows of SELECT ... WHERE topic = $1 AND id > offset ORDER BY id, without the limit. */
  function Waiting(events: seq<Event>, topic: string, offset: nat): seq<Event> {
    if events == [] then []
    else
      var e := events[|events| - 1];
      Waiting(events[..|events| - 1], topic, offset) + (if e.topic == topic && e.id > offset then [e] else [])
  }

  function Batch(events: seq<Event>, topic: string, offset: nat, limit: nat): seq<Event> {
    var w := Waiting(events, topic, offset);
    if |w| <= limit then w else w[..limit]
  }

  function Move(s: State, p: nat, phase: Phase): State {
    s.(pollers := s.pollers[p := phase])
  }

  /** A step that is not enabled does nothing, so every sequence of steps is a run. */
  function Apply(c: Config, s: State, step: Step): State {
    match step
    case Publish(id, tenant, topic, payload) =>
      if id <= LastId(s.events) then s
      else s.(events := s.events + [Event(id, if tenant == "" then NIL_TENANT_ID else tenant, topic, payload)])
    case Subscribe(p) =>
      if c.who(p) in s.offsets then s else s.(offsets := s.offsets[c.who(p) := 0])
    case Read(p) =>
      if PhaseOf(s, p) != Idle || c.who(p) !in s.offsets then s
      else
        var batch := Batch(s.events, c.who(p).topic, s.offsets[c.who(p)], c.batchSize);
        if batch == [] then s else Move(s, p, Delivering(batch))
    case Handle(p, ok) =>
      (match PhaseOf(s, p)
       case Delivering(pending) =>
         if pending == [] then s
         else if !ok then Move(s, p, Idle)
         else
           var rest := pending[1..];
           Move(s.(handled := s.handled + {(c.who(p).consumer, pending[0].id)}), p,
                if rest == [] then Saving(pending[0].id) else Delivering(rest))
       case _ => s)
    case Save(p, applied) =>
      (match PhaseOf(s, p)
       case Saving(lastId) =>
         if applied && c.who(p) in s.offsets then Move(s.(offsets := s.offsets[c.who(p) := lastId]), p, Idle)
         else Move(s, p, Idle)
       case _ => s)
    case Abandon(p) => Move(s, p, Idle)
  }

  function Run(c: Config, steps: seq<Step>): State {
    if steps == [] then INIT else Apply(c, Run(c, steps[..|steps| - 1]), steps[|steps| - 1])
  }

  lemma NoSteps(c: Config)
    ensures Run(c, []) == INIT
  {}

  lemma OneMoreStep(c: Config, steps: seq<Step>, step: Step)
    ensures Run(c, steps + [step]) == Apply(c, Run(c, steps), step)
  {
    assert (steps + [step])[..|steps|] == steps;
  }

  // ---------------------------------------------------------------- the invariant

  ghost predicate Increasing(events: seq<Event>) {
    && (forall i :: 0 <= i < |events| ==> events[i].id > 0)
    && (forall i, j :: 0 <= i < j < |events| ==> events[i].id < events[j].id)
  }

  /** The consumer has handled every event of its topic with an id up to n. */
  ghost predicate DoneUpTo(s: State, sub: Sub, n: int) {
    forall e :: e in s.events && e.topic == sub.topic && e.id <= n ==> (sub.consumer, e.id) in s.handled
  }

  /** pending is a run of consecutive events of the topic. */
  ghost predicate Segment(events: seq<Event>, topic: string, pending: seq<Event>) {
    && pending != []
    && Increasing(pending)
    && (forall e :: e in pending ==> e in events && e.topic == topic)
    && (forall e :: e in events && e.topic == topic && pending[0].id <= e.id <= LastId(pending) ==> e in pending)
  }

  ghost predicate PhaseOk(s: State, sub: Sub, phase: Phase) {
    match phase
    case Idle => true
    case Delivering(pending) => Segment(s.events, sub.topic, pending) && DoneUpTo(s, sub, pending[0].id - 1)
    case Saving(n) => n <= LastId(s.events) && DoneUpTo(s, sub, n)
  }

  ghost predicate Inv(c: Config, s: State) {
    && Increasing(s.events)
    && (forall sub :: sub in s.offsets ==> s.offsets[sub] <= LastId(s.events) && DoneUpTo(s, sub, s.offsets[sub]))
    && (forall p :: p in s.pollers ==> PhaseOk(s, c.who(p), s.pollers[p]))
  }

  // ---------------------------------------------------------------- the rows a poll reads

  lemma AppendIncreases(w: seq<Event>, e: Event)
    requires Increasing(w) && e.id > 0 && forall x :: x in w ==> x.id < e.id
    ensures Increasing(w + [e])
  {
    assert forall i :: 0 <= i < |w| ==> w[i] in w;
  }

  lemma {:induction false} WaitingMembers(events: seq<Event>, topic: string, offset: nat)
    ensures forall e :: e in Waiting(events, topic, offset) <==> e in events && e.topic == topic && e.id > offset
  {
    if events == [] {
    } else {
      WaitingMembers(events[..|events| - 1], topic, offset);
      assert events == events[..|events| - 1] + [events[|events| - 1]];
    }
  }

  lemma {:induction false} WaitingRows(events: seq<Event>, topic: string, offset: nat)
    requires Increasing(events)
    ensures Increasing(Waiting(events, topic, offset))
    ensures forall e :: e in Waiting(events, topic, offset) <==> e in events && e.topic == topic && e.id > offset
  {
    WaitingMembers(events, topic, offset);
    if events == [] {
    } else {
      var init := events[..|events| - 1];
      WaitingRows(init, topic, offset);
      if |Waiting(events, topic, offset)| > |Waiting(init, topic, offset)| {
        assert forall x :: x in init ==> x.id < events[|events| - 1].id;
        AppendIncreases(Waiting(init, topic, offset), events[|events| - 1]);
      }
    }
  }

  lemma BatchIsSegment(events: seq<Event>, topic: string, offset: nat, limit: nat)
    requires Increasing(events) && Batch(events, topic, offset, limit) != []
    ensures var b := Batch(events, topic, offset, limit);
            Segment(events, topic, b) && b[0].id > offset
            && (forall e :: e in events && e.topic == topic && e.id < b[0].id ==> e.id <= offset)
  {
    hide Waiting;
    WaitingRows(events, topic, offset);
    var w := Waiting(events, topic, offset);
    var b := Batch(events, topic, offset, limit);
    assert b == w[..|b|];
    forall e | e in events && e.topic == topic && offset < e.id <= LastId(b)
      ensures e in b
    {
      var i :| 0 <= i < |w| && w[i] == e;
      assert i < |b|;
      assert b[i] == e;
    }
    assert b[0] in w;
    HeadIsLeast(w);
  }

  lemma HeadIsLeast(w: seq<Event>)
    requires Increasing(w)
    ensures forall e :: e in w ==> w[0].id <= e.id
  {}

  // ---------------------------------------------------------------- every step keeps the invariant

  lemma LastIdBounds(events: seq<Event>)
    requires Increasing(events)
    ensures forall e :: e in events ==> 0 < e.id <= LastId(events)
  {}

  lemma PublishKeeps(c: Config, s: State, step: Step)
    requires Inv(c, s) && step.Publish? && step.id > LastId(s.events)
    ensures Inv(c, Apply(c, s, step))
  {
    var s' := Apply(c, s, step);
    var e := s'.events[|s.events|];
    LastIdBounds(s.events);
    assert forall x :: x in s'.events <==> x in s.events || x == e;
    forall p | p in s'.pollers
      ensures PhaseOk(s', c.who(p), s'.pollers[p])
    {
      assert PhaseOk(s, c.who(p), s.pollers[p]);
      if s.pollers[p].Delivering? {
        LastIdBounds(s.pollers[p].pending);
        assert s.pollers[p].pending[|s.pollers[p].pending| - 1] in s.events;
      }
    }
  }

  lemma PollerMoves(c: Config, s: State, s': State, p: nat, phase: Phase)
    requires Inv(c, s) && s' == Move(s, p, phase) && PhaseOk(s, c.who(p), phase)
    ensures Inv(c, s')
  {
    forall q | q in s'.pollers
      ensures PhaseOk(s', c.who(q), s'.pollers[q])
    {
      assert q != p ==> PhaseOk(s, c.who(q), s.pollers[q]);
    }
  }

  /** Handling one more event only adds to what is done. */
  lemma HandlingKeeps(c: Config, s: State, s': State, key: (string, nat))
    requires Inv(c, s) && s' == s.(handled := s.handled + {key})
    ensures Inv(c, s')
  {
    forall q | q in s'.pollers
      ensures PhaseOk(s', c.who(q), s'.pollers[q])
    {
      assert PhaseOk(s, c.who(q), s.pollers[q]);
    }
  }

  lemma SegmentTail(s: State, sub: Sub, pending: seq<Event>)
    requires Segment(s.events, sub.topic, pending) && |pending| > 1 && DoneUpTo(s, sub, pending[0].id)
    ensures PhaseOk(s, sub, Delivering(pending[1..]))
  {
    var rest := pending[1..];
    assert forall i :: 0 <= i < |rest| ==> rest[i] == pending[i + 1];
    forall e | e in s.events && e.topic == sub.topic && rest[0].id <= e.id <= LastId(rest)
      ensures e in rest
    {
      var i :| 0 <= i < |pending| && pending[i] == e;
      assert rest[i - 1] == e;
    }
    HeadIsLeast(rest);
    assert forall e :: e in pending ==> e == pending[0] || e in rest;
    assert LastId(rest) == LastId(pending);
  }

  lemma HandleKeeps(c: Config, s: State, p: nat)
    requires Inv(c, s) && PhaseOf(s, p).Delivering?
    ensures Inv(c, Apply(c, s, Handle(p, true)))
  {
    var sub := c.who(p);
    var pending := PhaseOf(s, p).pending;
    assert PhaseOk(s, sub, s.pollers[p]);
    var s1 := s.(handled := s.handled + {(sub.consumer, pending[0].id)});
    HandlingKeeps(c, s, s1, (sub.consumer, pending[0].id));
    LastIdBounds(s.events);
    assert pending[0] in s.events;
    forall e | e in s1.events && e.topic == sub.topic && e.id <= pending[0].id
      ensures (sub.consumer, e.id) in s1.handled
    {
      if e.id == pending[0].id {
        assert e in pending;
      }
    }
    var rest := pending[1..];
    if rest == [] {
      PollerMoves(c, s1, Move(s1, p, Saving(pending[0].id)), p, Saving(pending[0].id));
    } else {
      SegmentTail(s1, sub, pending);
      PollerMoves(c, s1, Move(s1, p, Delivering(rest)), p, Delivering(rest));
    }
  }

  lemma SubscribeKeeps(c: Config, s: State, p: nat)
    requires Inv(c, s)
    ensures Inv(c, Apply(c, s, Subscribe(p)))
  {
    var s' := Apply(c, s, Subscribe(p));
    LastIdBounds(s.events);
    forall q | q in s'.pollers
      ensures PhaseOk(s', c.who(q), s'.pollers[q])
    {
      assert PhaseOk(s, c.who(q), s.pollers[q]);
    }
  }

  lemma SaveKeeps(c: Config, s: State, p: nat)
    requires Inv(c, s) && PhaseOf(s, p).Saving? && c.who(p) in s.offsets
    ensures Inv(c, Apply(c, s, Save(p, true)))
  {
    var s1 := s.(offsets := s.offsets[c.who(p) := PhaseOf(s, p).lastId]);
    assert PhaseOk(s, c.who(p), s.pollers[p]);
    forall q | q in s1.pollers
      ensures PhaseOk(s1, c.who(q), s1.pollers[q])
    {
      assert PhaseOk(s, c.who(q), s.pollers[q]);
    }
    assert Inv(c, s1);
    PollerMoves(c, s1, Move(s1, p, Idle), p, Idle);
  }

  lemma ReadKeeps(c: Config, s: State, p: nat)
    requires Inv(c, s) && c.who(p) in s.offsets
    requires Batch(s.events, c.who(p).topic, s.offsets[c.who(p)], c.batchSize) != []
    ensures Inv(c, Move(s, p, Delivering(Batch(s.events, c.who(p).topic, s.offsets[c.who(p)], c.batchSize))))
  {
    hide Batch;
    var sub := c.who(p);
    var b := Batch(s.events, sub.topic, s.offsets[sub], c.batchSize);
    BatchIsSegment(s.events, sub.topic, s.offsets[sub], c.batchSize);
    assert DoneUpTo(s, sub, s.offsets[sub]);
    PollerMoves(c, s, Move(s, p, Delivering(b)), p, Delivering(b));
  }

  lemma StepKeeps(c: Config, s: State, step: Step)
    requires Inv(c, s)
    ensures Inv(c, Apply(c, s, step))
  {
    hide Inv, Batch;
    match step
    case Publish(id, _, _, _) => if id > LastId(s.events) { PublishKeeps(c, s, step); }
    case Subscribe(p) => SubscribeKeeps(c, s, p);
    case Read(p) =>
      if Apply(c, s, step) != s { ReadKeeps(c, s, p); }
    case Handle(p, ok) =>
      if PhaseOf(s, p).Delivering? {
        if ok { HandleKeeps(c, s, p); } else { PollerMoves(c, s, Move(s, p, Idle), p, Idle); }
      }
    case Save(p, applied) =>
      if PhaseOf(s, p).Saving? {
        if applied && c.who(p) in s.offsets { SaveKeeps(c, s, p); } else { PollerMoves(c, s, Move(s, p, Idle), p, Idle); }
      }
    case Abandon(p) => PollerMoves(c, s, Move(s, p, Idle), p, Idle);
  }

  lemma {:induction false} RunKeeps(c: Config, steps: seq<Step>)
    ensures Inv(c, Run(c, steps))
    decreases |steps|
  {
    if steps == [] {
    } else {
      RunKeeps(c, steps[..|steps| - 1]);
      StepKeeps(c, Run(c, steps[..|steps| - 1]), steps[|steps| - 1]);
    }
  }

  // ---------------------------------------------------------------- delivery guarantees

  /** In state s this step calls the handler of this consumer on the event with this id, and the
      handler returns no error. */
  predicate CallsOk(c: Config, s: State, step: Step, consumer: string, id: nat) {
    && step.Handle? && step.ok && c.who(step.p).consumer == consumer
    && var phase := PhaseOf(s, step.p);
       phase.Delivering? && phase.pending != [] && phase.pending[0].id == id
  }

  predicate CalledOk(c: Config, steps: seq<Step>, i: nat, consumer: string, id: nat) {
    i < |steps| && CallsOk(c, Run(c, steps[..i]), steps[i], consumer, id)
  }

  lemma CalledOkEarlier(c: Config, steps: seq<Step>, n: nat, i: nat, consumer: string, id: nat)
    requires i < n <= |steps|
    ensures CalledOk(c, steps[..n], i, consumer, id) <==> CalledOk(c, steps, i, consumer, id)
  {
    assert steps[..n][..i] == steps[..i];
  }

  lemma StepHandles(c: Config, s: State, step: Step, consumer: string, id: nat)
    ensures (consumer, id) in Apply(c, s, step).handled <==> (consumer, id) in s.handled || CallsOk(c, s, step, consumer, id)
  {
    hide Batch, LastId;
  }

  lemma LastStepHandles(c: Config, steps: seq<Step>, consumer: string, id: nat)
    requires steps != []
    ensures (consumer, id) in Run(c, steps).handled <==>
            (consumer, id) in Run(c, steps[..|steps| - 1]).handled || CalledOk(c, steps, |steps| - 1, consumer, id)
  {
    hide Apply, CallsOk;
    StepHandles(c, Run(c, steps[..|steps| - 1]), steps[|steps| - 1], consumer, id);
  }

  /** An event counts as handled by a consumer exactly when some call of its handler on that event
      returned no error. */
  lemma {:induction false} HandledExactlyWhenCalled(c: Config, steps: seq<Step>, consumer: string, id: nat)
    ensures (consumer, id) in Run(c, steps).handled <==> exists i :: CalledOk(c, steps, i, consumer, id)
    decreases |steps|
  {
    if steps == [] {
    } else {
      hide Run, Apply, CallsOk;
      var n := |steps| - 1;
      HandledExactlyWhenCalled(c, steps[..n], consumer, id);
      LastStepHandles(c, steps, consumer, id);
      forall i: nat | i < n
        ensures CalledOk(c, steps[..n], i, consumer, id) <==> CalledOk(c, steps, i, consumer, id)
      {
        CalledOkEarlier(c, steps, n, i, consumer, id);
      }
    }
  }

  /** In every interleaving, for every event a stored offset has passed, some call of that consumer's
      handler on the event returned no error. */
  lemma AtLeastOnce(c: Config, steps: seq<Step>, sub: Sub, e: Event)
    requires var s := Run(c, steps); sub in s.offsets && e in s.events && e.topic == sub.topic && e.id <= s.offsets[sub]
    ensures exists i :: CalledOk(c, steps, i, sub.consumer, e.id)
  {
    RunKeeps(c, steps);
    HandledExactlyWhenCalled(c, steps, sub.consumer, e.id);
  }

  /** In every interleaving, when the handler is about to see an event, a call of it on every event of
      the topic with a smaller id has already returned no error. */
  lemma InOrder(c: Config, steps: seq<Step>, p: nat, e: Event)
    requires var s := Run(c, steps);
             && PhaseOf(s, p).Delivering? && e in s.events && e.topic == c.who(p).topic
             && |PhaseOf(s, p).pending| > 0 && e.id < PhaseOf(s, p).pending[0].id
    ensures exists i :: CalledOk(c, steps, i, c.who(p).consumer, e.id)
  {
    RunKeeps(c, steps);
    var s := Run(c, steps);
    assert PhaseOk(s, c.who(p), s.pollers[p]);
    HandledExactlyWhenCalled(c, steps, c.who(p).consumer, e.id);
  }

  /** A call that returns an error ends the poll where it is: no offset moves, and unless another
      poller has moved it past them the event and those after it will be read again. */
  lemma FailedCallIsRetried(c: Config, steps: seq<Step>, p: nat)
    requires var s := Run(c, steps);
             && PhaseOf(s, p).Delivering? && PhaseOf(s, p).pending != [] && c.who(p) in s.offsets
             && s.offsets[c.who(p)] < PhaseOf(s, p).pending[0].id
    ensures var s, s' := Run(c, steps), Run(c, steps + [Handle(p, false)]);
            && PhaseOf(s', p) == Idle && s'.offsets == s.offsets && s'.handled == s.handled
            && forall e :: e in PhaseOf(s, p).pending ==> e in Waiting(s'.events, c.who(p).topic, s'.offsets[c.who(p)])
  {
    hide Run, Waiting;
    var s := Run(c, steps);
    OneMoreStep(c, steps, Handle(p, false));
    RunKeeps(c, steps);
    assert PhaseOk(s, c.who(p), s.pollers[p]);
    WaitingRows(s.events, c.who(p).topic, s.offsets[c.who(p)]);
  }

  /** The event log only grows at its end. */
  lemma {:induction false} EventsOnlyAppend(c: Config, steps: seq<Step>, more: seq<Step>)
    ensures Run(c, steps).events <= Run(c, steps + more).events
    decreases |more|
  {
    hide Run;
    if more == [] {
      assert steps + more == steps;
    } else {
      var n := |more| - 1;
      EventsOnlyAppend(c, steps, more[..n]);
      assert steps + more == steps + more[..n] + [more[n]];
      OneMoreStep(c, steps + more[..n], more[n]);
    }
  }

  /** A published event is there from then on, whatever happens, with its tenant or the sentinel. */
  lemma PublishedStays(c: Config, steps: seq<Step>, id: nat, tenant: string, topic: string, payload: string, more: seq<Step>)
    requires id > LastId(Run(c, steps).events)
    ensures Event(id, if tenant == "" then "00000000-0000-0000-0000-000000000000" else tenant, topic, payload)
            in Run(c, steps + [Publish(id, tenant, topic, payload)] + more).events
  {
    hide Run;
    OneMoreStep(c, steps, Publish(id, tenant, topic, payload));
    var s := Run(c, steps + [Publish(id, tenant, topic, payload)]);
    EventsOnlyAppend(c, steps + [Publish(id, tenant, topic, payload)], more);
    assert s.events[|s.events| - 1] in s.events;
  }

  // ---------------------------------------------------------------- one poller per subscription

  ghost predicate Solo(c: Config, sub: Sub) {
    forall p, q :: c.who(p) == sub && c.who(q) == sub ==> p == q
  }

  function OffsetOf(s: State, sub: Sub): int {
    if sub in s.offsets then s.offsets[sub] else -1
  }

  /** What a poller of sub still has to deliver or store lies above the offset. */
  ghost predicate PhaseAhead(s: State, sub: Sub, phase: Phase) {
    match phase
    case Idle => true
    case Delivering(pending) => sub in s.offsets && pending != [] && s.offsets[sub] < pending[0].id
    case Saving(n) => sub in s.offsets && s.offsets[sub] < n
  }

  ghost predicate Ahead(c: Config, s: State, sub: Sub) {
    forall p :: c.who(p) == sub ==> PhaseAhead(s, sub, PhaseOf(s, p))
  }

  lemma AheadAfterMove(c: Config, s: State, sub: Sub, s': State, p: nat, phase: Phase)
    requires Ahead(c, s, sub) && s' == Move(s, p, phase)
    requires c.who(p) == sub ==> PhaseAhead(s, sub, phase)
    ensures Ahead(c, s', sub) && OffsetOf(s', sub) == OffsetOf(s, sub)
  {
    forall q | c.who(q) == sub
      ensures PhaseAhead(s', sub, PhaseOf(s', q))
    {
      assert PhaseAhead(s, sub, PhaseOf(s, q));
    }
  }

  /** Steps that leave the pollers alone and keep or create the offset. */
  lemma AheadAfterTable(c: Config, s: State, sub: Sub, s': State)
    requires Ahead(c, s, sub) && s'.pollers == s.pollers && (sub in s.offsets ==> sub in s'.offsets && s'.offsets[sub] == s.offsets[sub])
    ensures Ahead(c, s', sub)
  {
    forall q | c.who(q) == sub
      ensures PhaseAhead(s', sub, PhaseOf(s', q))
    {
      assert PhaseAhead(s, sub, PhaseOf(s, q));
    }
  }

  lemma SoloRead(c: Config, s: State, p: nat, sub: Sub)
    requires Inv(c, s) && Ahead(c, s, sub)
    ensures Ahead(c, Apply(c, s, Read(p)), sub) && OffsetOf(Apply(c, s, Read(p)), sub) == OffsetOf(s, sub)
  {
    hide Batch, Ahead;
    var s' := Apply(c, s, Read(p));
    if s' != s {
      var me := c.who(p);
      var b := Batch(s.events, me.topic, s.offsets[me], c.batchSize);
      BatchIsSegment(s.events, me.topic, s.offsets[me], c.batchSize);
      AheadAfterMove(c, s, sub, s', p, Delivering(b));
    }
  }

  lemma SoloHandle(c: Config, s: State, p: nat, ok: bool, sub: Sub)
    requires Inv(c, s) && Ahead(c, s, sub)
    ensures var s' := Apply(c, s, Handle(p, ok)); Ahead(c, s', sub) && OffsetOf(s', sub) == OffsetOf(s, sub)
  {
    if PhaseOf(s, p).Delivering? {
      var pending := PhaseOf(s, p).pending;
      assert PhaseOk(s, c.who(p), s.pollers[p]);
      assert |pending| > 1 ==> pending[0].id < pending[1].id;
      assert c.who(p) == sub ==> PhaseAhead(s, sub, PhaseOf(s, p));
      if ok {
        var s1 := s.(handled := s.handled + {(c.who(p).consumer, pending[0].id)});
        AheadAfterTable(c, s, sub, s1);
        var next := if pending[1..] == [] then Saving(pending[0].id) else Delivering(pending[1..]);
        AheadAfterMove(c, s1, sub, Move(s1, p, next), p, next);
      } else {
        AheadAfterMove(c, s, sub, Move(s, p, Idle), p, Idle);
      }
    }
  }

  lemma SoloSave(c: Config, s: State, p: nat, applied: bool, sub: Sub)
    requires Solo(c, sub) && Ahead(c, s, sub)
    ensures var s' := Apply(c, s, Save(p, applied)); Ahead(c, s', sub) && OffsetOf(s, sub) <= OffsetOf(s', sub)
  {
    if PhaseOf(s, p).Saving? {
      var s' := Apply(c, s, Save(p, applied));
      forall q | c.who(q) == sub
        ensures PhaseAhead(s', sub, PhaseOf(s', q))
      {
        assert PhaseAhead(s, sub, PhaseOf(s, q));
      }
      assert c.who(p) == sub ==> PhaseAhead(s, sub, PhaseOf(s, p));
    }
  }

  lemma SoloStep(c: Config, s: State, step: Step, sub: Sub)
    requires Inv(c, s) && Solo(c, sub) && Ahead(c, s, sub)
    ensures Ahead(c, Apply(c, s, step), sub) && OffsetOf(s, sub) <= OffsetOf(Apply(c, s, step), sub)
  {
    match step
    case Publish(_, _, _, _) => AheadAfterTable(c, s, sub, Apply(c, s, step));
    case Subscribe(p) => AheadAfterTable(c, s, sub, Apply(c, s, step));
    case Read(p) => SoloRead(c, s, p, sub);
    case Handle(p, ok) => SoloHandle(c, s, p, ok, sub);
    case Save(p, applied) => SoloSave(c, s, p, applied, sub);
    case Abandon(p) => AheadAfterMove(c, s, sub, Move(s, p, Idle), p, Idle);
  }

  lemma {:induction false} SoloRun(c: Config, steps: seq<Step>, sub: Sub)
    requires Solo(c, sub)
    ensures Ahead(c, Run(c, steps), sub)
    decreases |steps|
  {
    if steps == [] {
    } else {
      hide Apply, Inv, Ahead;
      var init := steps[..|steps| - 1];
      SoloRun(c, init, sub);
      RunKeeps(c, init);
      SoloStep(c, Run(c, init), steps[|steps| - 1], sub);
    }
  }

  /** With a single poller on a subscription its offset never goes back. */
  lemma {:induction false} OffsetNeverDecreases(c: Config, steps: seq<Step>, more: seq<Step>, sub: Sub)
    requires Solo(c, sub)
    ensures OffsetOf(Run(c, steps), sub) <= OffsetOf(Run(c, steps + more), sub)
    decreases |more|
  {
    hide Apply, Inv, Ahead;
    var all := steps + more;
    if more == [] {
      assert all == steps;
    } else {
      var init := steps + more[..|more| - 1];
      OffsetNeverDecreases(c, steps, more[..|more| - 1], sub);
      assert all[..|all| - 1] == init;
      RunKeeps(c, init);
      SoloRun(c, init, sub);
      SoloStep(c, Run(c, init), all[|all| - 1], sub);
    }
  }

  lemma OnlyEvent(e: Event, before: seq<Event>, offset: nat, limit: nat)
    requires limit > 0 && e.id > offset && forall x :: x in before ==> x.id <= offset
    ensures Batch(before + [e], e.topic, offset, limit) == [e]
  {
    NothingAbove(before, e.topic, offset);
    assert (before + [e])[..|before|] == before;
  }

  function Sample(sub: Sub, id: nat): Event {
    Event(id, NIL_TENANT_ID, sub.topic, "")
  }

  /** Two pollers of one subscription read the same event. */
  lemma TwoPollersRead(c: Config, sub: Sub, p: nat, q: nat) returns (steps: seq<Step>)
    requires p != q && c.who(p) == sub && c.who(q) == sub && c.batchSize > 0
    ensures var e := Sample(sub, 1);
            Run(c, steps) == State([e], map[sub := 0], map[q := Delivering([e]), p := Delivering([e])], {})
  {
    hide Run, Batch;
    NoSteps(c);
    var e := Sample(sub, 1);
    var a := [Subscribe(p)];
    OneMoreStep(c, [], Subscribe(p));
    assert [] + [Subscribe(p)] == a;
    var b := a + [Publish(1, "", sub.topic, "")];
    OneMoreStep(c, a, Publish(1, "", sub.topic, ""));
    assert Run(c, b) == State([e], map[sub := 0], map[], {});
    OnlyEvent(e, [], 0, c.batchSize);
    assert [] + [e] == [e];
    OneMoreStep(c, b, Read(q));
    OneMoreStep(c, b + [Read(q)], Read(p));
    steps := b + [Read(q)] + [Read(p)];
  }

  /** One of them goes on to the next event and stores its offset. */
  lemma OnePollerOvertakes(c: Config, sub: Sub, p: nat, q: nat) returns (steps: seq<Step>)
    requires p != q && c.who(p) == sub && c.who(q) == sub && c.batchSize > 0
    ensures Run(c, steps).offsets == map[sub := 2] && PhaseOf(Run(c, steps), q) == Delivering([Sample(sub, 1)])
  {
    hide Run, Batch;
    var e1, e2 := Sample(sub, 1), Sample(sub, 2);
    var r := TwoPollersRead(c, sub, p, q);
    OneMoreStep(c, r, Handle(p, true));
    var r1 := r + [Handle(p, true)];
    OneMoreStep(c, r1, Save(p, true));
    var r2 := r1 + [Save(p, true)];
    OneMoreStep(c, r2, Publish(2, "", sub.topic, ""));
    var r3 := r2 + [Publish(2, "", sub.topic, "")];
    assert Run(c, r3) == State([e1] + [e2], map[sub := 1], map[q := Delivering([e1]), p := Idle], {(sub.consumer, 1)});
    OnlyEvent(e2, [e1], 1, c.batchSize);
    OneMoreStep(c, r3, Read(p));
    var r4 := r3 + [Read(p)];
    OneMoreStep(c, r4, Handle(p, true));
    var r5 := r4 + [Handle(p, true)];
    OneMoreStep(c, r5, Save(p, true));
    steps := r5 + [Save(p, true)];
  }

  /** With two pollers under one consumer name the offset can go back: the slower one stores its
      older batch. */
  lemma TwoPollersMoveTheOffsetBack(c: Config, sub: Sub, p: nat, q: nat) returns (steps: seq<Step>, more: seq<Step>)
    requires p != q && c.who(p) == sub && c.who(q) == sub && c.batchSize > 0
    ensures OffsetOf(Run(c, steps), sub) == 2 && OffsetOf(Run(c, steps + more), sub) == 1
  {
    hide Run;
    steps := OnePollerOvertakes(c, sub, p, q);
    more := [Handle(q, true)] + [Save(q, true)];
    OneMoreStep(c, steps, Handle(q, true));
    OneMoreStep(c, steps + [Handle(q, true)], Save(q, true));
    assert steps + more == steps + [Handle(q, true)] + [Save(q, true)];
  }

  /** The offset of a subscription never decreases, in any run, exactly when one poller serves it. */
  lemma OffsetMonotoneExactlyWhenSolo(c: Config, sub: Sub)
    requires c.batchSize > 0
    ensures Solo(c, sub) <==>
            forall steps: seq<Step>, more: seq<Step> :: OffsetOf(Run(c, steps), sub) <= OffsetOf(Run(c, steps + more), sub)
  {
    if Solo(c, sub) {
      forall steps: seq<Step>, more: seq<Step>
        ensures OffsetOf(Run(c, steps), sub) <= OffsetOf(Run(c, steps + more), sub)
      {
        OffsetNeverDecreases(c, steps, more, sub);
      }
    } else {
      var p, q :| c.who(p) == sub && c.who(q) == sub && p != q;
      var steps, more := TwoPollersMoveTheOffsetBack(c, sub, p, q);
    }
  }

  // ---------------------------------------------------------------- draining

  /** The offset an error-free poll leaves. */
  function AfterPoll(events: seq<Event>, topic: string, offset: nat, limit: nat): nat {
    var b := Batch(events, topic, offset, limit);
    if b == [] then offset else LastId(b)
  }

  function AfterPolls(events: seq<Event>, topic: string, offset: nat, limit: nat, n: nat): nat {
    if n == 0 then offset else AfterPoll(events, topic, AfterPolls(events, topic, offset, limit, n - 1), limit)
  }

  lemma {:induction false} NothingAbove(events: seq<Event>, topic: string, n: nat)
    requires forall e :: e in events ==> e.id <= n
    ensures Waiting(events, topic, n) == []
  {
    if events == [] {
    } else {
      NothingAbove(events[..|events| - 1], topic, n);
    }
  }

  lemma WaitingLast(events: seq<Event>, topic: string, offset: nat)
    requires events != []
    ensures var e := events[|events| - 1];
            Waiting(events, topic, offset)
            == Waiting(events[..|events| - 1], topic, offset) + if e.topic == topic && e.id > offset then [e] else []
  {}

  lemma IncreasingInit(events: seq<Event>)
    requires events != [] && Increasing(events)
    ensures Increasing(events[..|events| - 1])
  {}

  lemma WaitingBelowLast(events: seq<Event>, topic: string, offset: nat, k: nat)
    requires events != [] && Increasing(events) && k < |Waiting(events[..|events| - 1], topic, offset)|
    ensures offset < Waiting(events[..|events| - 1], topic, offset)[k].id < events[|events| - 1].id
  {
    hide Waiting;
    var init := events[..|events| - 1];
    WaitingMembers(init, topic, offset);
    assert Waiting(init, topic, offset)[k] in Waiting(init, topic, offset);
  }

  lemma NothingAboveLast(events: seq<Event>, topic: string)
    requires events != [] && Increasing(events)
    ensures Waiting(events[..|events| - 1], topic, events[|events| - 1].id) == []
  {
    hide Waiting;
    NothingAbove(events[..|events| - 1], topic, events[|events| - 1].id);
  }

  lemma {:induction false} WaitingAbove(events: seq<Event>, topic: string, offset: nat, k: nat)
    requires Increasing(events) && 0 < k <= |Waiting(events, topic, offset)|
    ensures Waiting(events, topic, Waiting(events, topic, offset)[k - 1].id) == Waiting(events, topic, offset)[k..]
    decreases |events|
  {
    assert events != [];
    hide Waiting, Increasing;
    var w := Waiting(events, topic, offset);
    var init := events[..|events| - 1];
    var w' := Waiting(init, topic, offset);
    WaitingLast(events, topic, offset);
    WaitingLast(events, topic, w[k - 1].id);
    if k <= |w'| {
      IncreasingInit(events);
      WaitingAbove(init, topic, offset, k);
      WaitingBelowLast(events, topic, offset, k - 1);
      assert w[k..] == w'[k..] + w[|w'|..];
    } else {
      assert w[k - 1] == events[|events| - 1] && w[k..] == [];
      NothingAboveLast(events, topic);
    }
  }

  function Drop(w: seq<Event>, k: nat): seq<Event> {
    if |w| <= k then [] else w[k..]
  }

  lemma DropTwice(w: seq<Event>, a: nat, b: nat)
    ensures Drop(Drop(w, a), b) == Drop(w, a + b)
  {}

  /** An error-free poll takes exactly a batch off the waiting events. */
  lemma PollTakesOneBatch(events: seq<Event>, topic: string, offset: nat, limit: nat)
    requires Increasing(events)
    ensures Waiting(events, topic, AfterPoll(events, topic, offset, limit)) == Drop(Waiting(events, topic, offset), limit)
  {
    hide Waiting;
    var w := Waiting(events, topic, offset);
    var k := if |w| <= limit then |w| else limit;
    if k > 0 {
      WaitingAbove(events, topic, offset, k);
      assert LastId(w[..k]) == w[k - 1].id;
    }
  }

  lemma {:induction false} PollsTakeBatches(events: seq<Event>, topic: string, offset: nat, limit: nat, n: nat)
    requires Increasing(events)
    ensures Waiting(events, topic, AfterPolls(events, topic, offset, limit, n)) == Drop(Waiting(events, topic, offset), n * limit)
    decreases n
  {
    hide Waiting, AfterPoll, Increasing;
    if n == 0 {
    } else {
      hide Drop;
      PollsTakeBatches(events, topic, offset, limit, n - 1);
      PollTakesOneBatch(events, topic, AfterPolls(events, topic, offset, limit, n - 1), limit);
      DropTwice(Waiting(events, topic, offset), (n - 1) * limit, limit);
      assert (n - 1) * limit + limit == n * limit;
    }
  }

  lemma CeilingDivision(w: nat, limit: nat, n: nat)
    requires limit > 0
    ensures w <= n * limit <==> n >= (w + limit - 1) / limit
  {
    var q := (w + limit - 1) / limit;
    assert q * limit <= w + limit - 1 < q * limit + limit;
    if n >= q {
      assert n * limit >= q * limit;
    } else {
      assert (n + 1) * limit <= q * limit;
    }
  }

  ghost function Accepted(consumer: string, events: seq<Event>): set<(string, nat)> {
    set e | e in events :: (consumer, e.id)
  }

  lemma NoneAccepted(consumer: string, batch: seq<Event>)
    ensures Accepted(consumer, batch[..0]) == {}
  {}

  lemma OneMoreAccepted(consumer: string, batch: seq<Event>, i: nat)
    requires i < |batch|
    ensures Accepted(consumer, batch[..i + 1]) == Accepted(consumer, batch[..i]) + {(consumer, batch[i].id)}
  {
    assert batch[..i + 1] == batch[..i] + [batch[i]];
  }

  function HandleSteps(p: nat, n: nat): seq<Step> {
    if n == 0 then [] else HandleSteps(p, n - 1) + [Handle(p, true)]
  }

  lemma {:induction false} HandleBatch(c: Config, steps: seq<Step>, p: nat, batch: seq<Event>, n: nat)
    requires PhaseOf(Run(c, steps), p) == Delivering(batch) && n <= |batch|
    ensures var s := Run(c, steps + HandleSteps(p, n));
            && s.offsets == Run(c, steps).offsets && s.events == Run(c, steps).events
            && s.handled == Run(c, steps).handled + Accepted(c.who(p).consumer, batch[..n])
            && PhaseOf(s, p) == if n == |batch| && n > 0 then Saving(batch[n - 1].id) else Delivering(batch[n..])
  {
    hide Run, Accepted;
    if n == 0 {
      NoneAccepted(c.who(p).consumer, batch);
      assert steps + HandleSteps(p, 0) == steps;
    } else {
      HandleBatch(c, steps, p, batch, n - 1);
      OneMoreStep(c, steps + HandleSteps(p, n - 1), Handle(p, true));
      assert steps + HandleSteps(p, n) == steps + HandleSteps(p, n - 1) + [Handle(p, true)];
      OneMoreAccepted(c.who(p).consumer, batch, n - 1);
      assert batch[n - 1..][1..] == batch[n..];
    }
  }

  /** The steps of an error-free poll by p from state s, with nobody else at work. */
  function PollSteps(c: Config, s: State, p: nat): seq<Step> {
    if c.who(p) !in s.offsets then [Read(p)]
    else
      var n := |Batch(s.events, c.who(p).topic, s.offsets[c.who(p)], c.batchSize)|;
      if n == 0 then [Read(p)] else [Read(p)] + HandleSteps(p, n) + [Save(p, true)]
  }

  /** From any reachable state, an error-free poll hands its whole batch to the handler, moves the
      offset past it and changes nothing else. */
  lemma ErrorFreePoll(c: Config, steps: seq<Step>, p: nat)
    requires var s := Run(c, steps); PhaseOf(s, p) == Idle && c.who(p) in s.offsets
    ensures var s := Run(c, steps);
            var sub := c.who(p);
            var batch := Batch(s.events, sub.topic, s.offsets[sub], c.batchSize);
            var s' := Run(c, steps + PollSteps(c, s, p));
            && s'.offsets == s.offsets[sub := AfterPoll(s.events, sub.topic, s.offsets[sub], c.batchSize)]
            && s'.handled == s.handled + Accepted(sub.consumer, batch)
            && s'.events == s.events && PhaseOf(s', p) == Idle
  {
    hide Run, Batch, Accepted;
    var s := Run(c, steps);
    var batch := Batch(s.events, c.who(p).topic, s.offsets[c.who(p)], c.batchSize);
    OneMoreStep(c, steps, Read(p));
    if batch == [] {
      NoneAccepted(c.who(p).consumer, []);
    } else {
      HandleBatch(c, steps + [Read(p)], p, batch, |batch|);
      OneMoreStep(c, steps + [Read(p)] + HandleSteps(p, |batch|), Save(p, true));
      assert batch[..|batch|] == batch;
      assert steps + PollSteps(c, s, p) == steps + [Read(p)] + HandleSteps(p, |batch|) + [Save(p, true)];
    }
  }

  /** A run followed by n error-free polls by p. */
  function ThenPolls(c: Config, steps: seq<Step>, p: nat, n: nat): seq<Step> {
    if n == 0 then steps
    else
      var before := ThenPolls(c, steps, p, n - 1);
      before + PollSteps(c, Run(c, before), p)
  }

  lemma {:induction false} PollsFollow(c: Config, steps: seq<Step>, p: nat, n: nat)
    requires PhaseOf(Run(c, steps), p) == Idle && c.who(p) in Run(c, steps).offsets
    ensures var s, s' := Run(c, steps), Run(c, ThenPolls(c, steps, p, n));
            var sub := c.who(p);
            && PhaseOf(s', p) == Idle && s'.events == s.events
            && s'.offsets == s.offsets[sub := AfterPolls(s.events, sub.topic, s.offsets[sub], c.batchSize, n)]
  {
    hide Run, PollSteps, AfterPoll;
    if n == 0 {
      assert Run(c, steps).offsets == Run(c, steps).offsets[c.who(p) := Run(c, steps).offsets[c.who(p)]];
    } else {
      PollsFollow(c, steps, p, n - 1);
      ErrorFreePoll(c, ThenPolls(c, steps, p, n - 1), p);
    }
  }

  /** From any reachable state, n error-free polls drain the waiting events exactly when n is at least
      their number divided by the batch size, rounded up. */
  lemma DrainsInCeilPolls(c: Config, steps: seq<Step>, p: nat, n: nat)
    requires PhaseOf(Run(c, steps), p) == Idle && c.who(p) in Run(c, steps).offsets && c.batchSize > 0
    ensures var s, s' := Run(c, steps), Run(c, ThenPolls(c, steps, p, n));
            var sub := c.who(p);
            && sub in s'.offsets && s'.events == s.events
            && (Waiting(s'.events, sub.topic, s'.offsets[sub]) == []
                <==> n >= (|Waiting(s.events, sub.topic, s.offsets[sub])| + c.batchSize - 1) / c.batchSize)
  {
    hide Waiting, Run, AfterPolls, ThenPolls;
    var s, sub := Run(c, steps), c.who(p);
    RunKeeps(c, steps);
    PollsFollow(c, steps, p, n);
    PollsTakeBatches(s.events, sub.topic, s.offsets[sub], c.batchSize, n);
    CeilingDivision(|Waiting(s.events, sub.topic, s.offsets[sub])|, c.batchSize, n);
  }

  /** No event is visible without a tenant: system events carry the sentinel. */
  lemma {:induction false} EventsCarryTenants(c: Config, steps: seq<Step>, e: Event)
    requires e in Run(c, steps).events
    ensures e.tenant != "" && exists step :: step in steps && step.Publish? && step.id == e.id
                                             && e.tenant == (if step.tenant == "" then NIL_TENANT_ID else step.tenant)
                                             && e.topic == step.topic && e.payload == step.payload
    decreases |steps|
  {
    var init, last := steps[..|steps| - 1], steps[|steps| - 1];
    assert last in steps;
    if e in Run(c, init).events {
      EventsCarryTenants(c, init, e);
    }
  }

  // ---------------------------------------------------------------- pollOnce itself

  /** Every stored offset has been passed by its consumer. */
  ghost predicate Stored(events: seq<Event>, offsets: map<Sub, nat>, handled: set<(string, nat)>) {
    && Increasing(events)
    && forall sub :: sub in offsets ==>
         offsets[sub] <= LastId(events) && DoneUpTo(State(events, offsets, map[], handled), sub, offsets[sub])
  }

  lemma StoredWithMore(events: seq<Event>, offsets: map<Sub, nat>, handled: set<(string, nat)>, more: set<(string, nat)>)
    requires Stored(events, offsets, handled)
    ensures Stored(events, offsets, handled + more)
  {
    forall sub | sub in offsets
      ensures DoneUpTo(State(events, offsets, map[], handled + more), sub, offsets[sub])
    {
      assert DoneUpTo(State(events, offsets, map[], handled), sub, offsets[sub]);
    }
  }

  lemma StoredAfterBatch(events: seq<Event>, offsets: map<Sub, nat>, handled: set<(string, nat)>, sub: Sub, limit: nat)
    requires Stored(events, offsets, handled) && sub in offsets
    requires Batch(events, sub.topic, offsets[sub], limit) != []
    ensures var b := Batch(events, sub.topic, offsets[sub], limit);
            LastId(b) > 0 && Stored(events, offsets[sub := LastId(b)], handled + Accepted(sub.consumer, b))
  {
    hide Batch;
    var b := Batch(events, sub.topic, offsets[sub], limit);
    var h := handled + Accepted(sub.consumer, b);
    BatchIsSegment(events, sub.topic, offsets[sub], limit);
    LastIdBounds(events);
    assert b[|b| - 1] in events;
    StoredWithMore(events, offsets, handled, Accepted(sub.consumer, b));
    var offsets' := offsets[sub := LastId(b)];
    forall x | x in offsets'
      ensures DoneUpTo(State(events, offsets', map[], h), x, offsets'[x])
    {
      assert x in offsets ==> DoneUpTo(State(events, offsets, map[], h), x, offsets[x]);
      if x == sub {
        forall e | e in events && e.topic == sub.topic && e.id <= LastId(b)
          ensures (sub.consumer, e.id) in h
        {
          if e.id >= b[0].id {
            assert e in b;
          }
        }
      }
    }
  }

  class PostgresBus {
    var events: seq<Event>
    var offsets: map<Sub, nat>
    ghost var handled: set<(string, nat)>
    const consumer: string
    const batchSize: nat

    ghost predicate Valid()
      reads this
    {
      Stored(events, offsets, handled)
    }

    constructor (consumer: string, batchSize: nat)
      ensures Valid() && events == [] && offsets == map[] && this.consumer == consumer
      ensures this.batchSize == if batchSize == 0 then 100 else batchSize
    {
      this.consumer := consumer;
      this.batchSize := if batchSize == 0 then 100 else batchSize;
      events, offsets, handled := [], map[], {};
    }

    /** One poll with nobody else at work: `read` says whether the query succeeds and `failing` holds
        the ids of the events whose handler call fails.  The events before the first failure are
        handled, in order; the offset moves past the whole batch exactly when the read succeeded,
        none failed and the update is applied. */
    method PollOnce(topic: string, read: bool, failing: set<nat>, saved: bool) returns (err: bool, delivered: nat)
      requires Valid()
      modifies this`offsets, this`handled
      ensures Valid()
      ensures var sub := Sub(consumer, topic);
              var batch := if read && sub in old(offsets) then Batch(events, topic, old(offsets[sub]), batchSize) else [];
              && delivered <= |batch|
              && (forall i :: 0 <= i < delivered ==> batch[i].id !in failing)
              && (delivered < |batch| ==> batch[delivered].id in failing)
              && handled == old(handled) + Accepted(consumer, batch[..delivered])
              && (err <==> !read || delivered < |batch| || (batch != [] && !saved))
              && offsets == (if sub !in old(offsets) || err then old(offsets)
                             else old(offsets)[sub := AfterPoll(events, topic, old(offsets[sub]), batchSize)])
    {
      hide Batch, Stored, Accepted;
      err, delivered := !read, 0;
      var sub := Sub(consumer, topic);
      if !read || sub !in offsets {
        NoneAccepted(consumer, []);
        return;
      }
      var batch := Batch(events, topic, offsets[sub], batchSize);
      if batch != [] {
        StoredAfterBatch(events, offsets, handled, sub, batchSize);
      }
      var lastId := 0;
      NoneAccepted(consumer, batch);
      while delivered < |batch|
        invariant delivered <= |batch| && forall i :: 0 <= i < delivered ==> batch[i].id !in failing
        invariant handled == old(handled) + Accepted(consumer, batch[..delivered])
        invariant lastId == if delivered == 0 then 0 else batch[delivered - 1].id
        invariant offsets == old(offsets)
      {
        var e := batch[delivered];
        if e.id in failing {
          err := true;
          StoredWithMore(events, offsets, old(handled), Accepted(consumer, batch[..delivered]));
          return;
        }
        handled := handled + {(consumer, e.id)};
        OneMoreAccepted(consumer, batch, delivered);
        delivered, lastId := delivered + 1, e.id;
      }
      assert batch[..delivered] == batch;
      StoredWithMore(events, offsets, old(handled), Accepted(consumer, batch));
      if lastId > 0 {
        err := !saved;
        if saved {
          offsets := offsets[sub := lastId];
        }
      }
    }
  }
}
