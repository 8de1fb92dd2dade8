/** The settings manager of settings/manager.go: an in-memory cache loaded from app_settings once
    and then kept fresh by polling for rows stamped above a watermark.  Stamps are positive
    integers; every write stamps its row above all earlier stamps. */
module Settings {
  import opened Option
  import Json

  datatype Row = Row(value: string, secret: bool, stamp: nat)

  /** One row of a query result. */
  datatype Found = Found(key: string, row: Row)

  /** The cached form of value_json: a JSON string is decoded, null is the empty string and any
      other text is kept as it is. */
  function Decode(value: string): string {
    var s := Json.SkipSpace(value);
    if s != "" && s[0] == '\"' then
      match Json.ParseChars(s[1..])
      case BadText => value
      case Text(decoded, rest) => if Json.SkipSpace(rest) == "" then decoded else value
    else if "null" <= s && Json.SkipSpace(s[4..]) == "" then ""
    else value
  }

  /** A JSON string is cached as the text it spells, whatever the text and the space around it. */
  lemma StringIsDecoded(before: string, text: string, after: string)
    requires Json.AllSpace(before) && Json.AllSpace(after)
    ensures Decode(before + Json.Quote(text) + after) == text
  {
    hide Json.ParseChars, Json.Escape, Json.AllSpace;
    var s := Json.Quote(text) + after;
    assert before + Json.Quote(text) + after == before + s;
    assert s[0] == '\"' && s[1..] == Json.Escape(text) + "\"" + after;
    Json.SpaceSkipped(before, s);
    Json.QuotedReadsBack(text, after);
    assert after + "" == after;
    Json.SpaceSkipped(after, "");
  }

  lemma NullIsEmpty(before: string, after: string)
    requires Json.AllSpace(before) && Json.AllSpace(after)
    ensures Decode(before + "null" + after) == ""
  {
    hide Json.AllSpace;
    var s := "null" + after;
    assert before + "null" + after == before + s;
    assert s[4..] == after && after + "" == after;
    Json.SpaceSkipped(before, s);
    Json.SpaceSkipped(after, "");
  }

  /** Any other JSON value, and text that is no JSON value, is cached as it stands. */
  lemma OtherTextIsKept(value: string)
    requires !Json.IsJson(value) || Json.SkipSpace(value)[0] !in {'\"', 'n'}
    ensures Decode(value) == value
  {
    hide Json.ParseChars, Json.SkipNumber, Json.SkipArray, Json.ParseObject;
    if "null" <= Json.SkipSpace(value) {
      assert Json.SkipLiteral(Json.SkipSpace(value), "null") == Some(Json.SkipSpace(value)[4..]);
    }
  }

  function ApplyRow(cache: map<string, string>, f: Found): map<string, string> {
    if f.row.secret then cache else cache[f.key := Decode(f.row.value)]
  }

  function ApplyRows(cache: map<string, string>, rows: seq<Found>): map<string, string> {
    if rows == [] then cache
    else ApplyRow(ApplyRows(cache, rows[..|rows| - 1]), rows[|rows| - 1])
  }

  function Later(a: nat, b: nat): nat {
    if b > a then b else a
  }

  function Latest(from: nat, rows: seq<Found>): nat {
    if rows == [] then from else Later(Latest(from, rows[..|rows| - 1]), rows[|rows| - 1].row.stamp)
  }

  // ---------------------------------------------------------------- the manager

  type Listener = nat

  /** The listener calls a sequence of applied rows makes. */
  datatype Call = Call(fn: Listener, key: string, value: string)

  function CallsFor(fns: seq<Listener>, key: string, value: string): seq<Call> {
    seq(|fns|, i requires 0 <= i < |fns| => Call(fns[i], key, value))
  }

  function ListenersOf(listeners: map<string, seq<Listener>>, key: string): seq<Listener> {
    if key in listeners then listeners[key] else []
  }

  function CallsOf(listeners: map<string, seq<Listener>>, rows: seq<Found>): seq<Call> {
    if rows == [] then []
    else
      var f := rows[|rows| - 1];
      CallsOf(listeners, rows[..|rows| - 1])
      + (if f.row.secret then [] else CallsFor(ListenersOf(listeners, f.key), f.key, Decode(f.row.value)))
  }

  /** The listeners called are exactly those of the keys of non-secret rows, each with the key and the
      decoded value: no secret reaches one. */
  lemma {:induction false} CallsCarryRows(listeners: map<string, seq<Listener>>, rows: seq<Found>, call: Call)
    ensures call in CallsOf(listeners, rows) <==>
            exists f :: && f in rows && !f.row.secret && call.key == f.key && call.value == Decode(f.row.value)
                        && f.key in listeners && call.fn in listeners[f.key]
    decreases |rows|
  {
    hide Decode;
    if rows == [] {
    } else {
      var init, last := rows[..|rows| - 1], rows[|rows| - 1];
      CallsCarryRows(listeners, init, call);
      assert forall f :: f in rows <==> f in init || f == last;
      var fns := ListenersOf(listeners, last.key);
      assert call in CallsFor(fns, last.key, Decode(last.row.value))
             <==> call.fn in fns && call.key == last.key && call.value == Decode(last.row.value) by {
        CallsForMembers(fns, last.key, Decode(last.row.value), call);
      }
    }
  }

  lemma CallsForMembers(fns: seq<Listener>, key: string, value: string, call: Call)
    ensures call in CallsFor(fns, key, value) <==> call.fn in fns && call.key == key && call.value == value
  {
    if call.fn in fns && call.key == key && call.value == value {
      var i :| 0 <= i < |fns| && fns[i] == call.fn;
      assert CallsFor(fns, key, value)[i] == call;
    }
  }

  class Manager {
    var cache: map<string, string>
    var listeners: map<string, seq<Listener>>
    var pollLastSeen: nat
    var calls: seq<Call>  // the listener calls made so far

    constructor ()
      ensures cache == map[] && listeners == map[] && pollLastSeen == 0 && calls == []
    {
      cache, listeners, pollLastSeen, calls := map[], map[], 0, [];
    }

    method OnChange(key: string, fn: Listener)
      modifies this`listeners
      ensures listeners == old(listeners)[key := ListenersOf(old(listeners), key) + [fn]]
    {
      listeners := listeners[key := ListenersOf(listeners, key) + [fn]];
    }

    /** Updates the cache and calls the key's listeners in registration order. */
    method ApplyChange(key: string, value: string)
      modifies this`cache, this`calls
      ensures cache == old(cache)[key := value]
      ensures calls == old(calls) + CallsFor(ListenersOf(listeners, key), key, value)
      ensures |calls| - |old(calls)| == if key in listeners then |listeners[key]| else 0
      ensures forall i :: |old(calls)| <= i < |calls| ==> calls[i] == Call(listeners[key][i - |old(calls)|], key, value)
    {
      cache := cache[key := value];
      var fns := ListenersOf(listeners, key);
      for i := 0 to |fns|
        invariant cache == old(cache)[key := value]
        invariant calls == old(calls) + CallsFor(fns, key, value)[..i]
      {
        calls := calls + [Call(fns[i], key, value)];
      }
    }

    /** A load that the driver lets read the first n of the rows of the table, which come in any
        order; fewer than all of them means an error, which is then returned. */
    method LoadFromDB(rows: seq<Found>, n: nat) returns (err: bool)
      requires n <= |rows|
      modifies this`cache, this`pollLastSeen
      ensures err == (n < |rows|)
      ensures cache == ApplyRows(old(cache), rows[..n])
      ensures pollLastSeen == Latest(old(pollLastSeen), rows[..n])
    {
      assert rows[..0] == [];
      for i := 0 to n
        invariant cache == ApplyRows(old(cache), rows[..i])
        invariant pollLastSeen == Latest(old(pollLastSeen), rows[..i])
      {
        var f := rows[i];
        assert rows[..i + 1][..i] == rows[..i];
        if f.row.stamp > pollLastSeen {
          pollLastSeen := f.row.stamp;
        }
        if !f.row.secret {
          cache := cache[f.key := Decode(f.row.value)];
        }
      }
      err := n < |rows|;
    }

    /** One poll that the driver lets read the first n of the rows its query selected; fewer than
        all of them means the result was cut short by an error, which is then returned. */
    method PollOnce(rows: seq<Found>, n: nat) returns (err: bool)
      requires n <= |rows|
      modifies this`cache, this`pollLastSeen, this`calls
      ensures err == (n < |rows|)
      ensures cache == ApplyRows(old(cache), rows[..n])
      ensures calls == old(calls) + CallsOf(listeners, rows[..n])
      ensures pollLastSeen == if Latest(0, rows[..n]) == 0 then old(pollLastSeen) else Latest(0, rows[..n])
    {
      var latest := 0;
      assert rows[..0] == [];
      for i := 0 to n
        invariant cache == ApplyRows(old(cache), rows[..i])
        invariant calls == old(calls) + CallsOf(listeners, rows[..i])
        invariant latest == Latest(0, rows[..i]) && pollLastSeen == old(pollLastSeen)
      {
        var f := rows[i];
        assert rows[..i + 1][..i] == rows[..i];
        latest := Later(latest, f.row.stamp);
        if !f.row.secret {
          ApplyChange(f.key, Decode(f.row.value));
        }
      }
      if latest != 0 {
        pollLastSeen := latest;
      }
      err := n < |rows|;
    }
  }

  // ---------------------------------------------------------------- interleaving with writers

  type Table = map<string, Row>

  /** A poll in flight: the rows its query selected and the loop has not reached, the latest stamp
      it has seen, and the highest stamp given out when the query ran. */
  datatype Phase = Idle | Polling(rest: seq<Found>, latest: nat, top: nat)

  /** The table, the highest stamp given out, and the manager's cache, watermark and poll. */
  datatype State = State(table: Table, top: nat, cache: map<string, string>, seen: nat, phase: Phase)

  datatype Step =
    | Write(key: string, value: string, secret: bool, stamp: nat)
    | Delete(key: string)
    | PollStart(rows: seq<Found>)  // the query runs and selects these rows
    | PollRow                      // the loop handles one more row
    | PollEnd                      // the loop ends, because the rows or the connection did

  ghost predicate Ascending(rows: seq<Found>) {
    forall i, j :: 0 <= i < j < |rows| ==> rows[i].row.stamp < rows[j].row.stamp
  }

  /** rows is the answer to SELECT ... WHERE updated_at > since ORDER BY updated_at. */
  ghost predicate Selects(table: Table, since: nat, rows: seq<Found>) {
    && Ascending(rows)
    && (forall f :: f in rows ==> f.key in table && table[f.key] == f.row && f.row.stamp > since)
    && (forall k :: k in table && table[k].stamp > since ==> Found(k, table[k]) in rows)
  }

  ghost function Apply(s: State, step: Step): State {
    match step
    case Write(key, value, secret, stamp) =>
      if stamp <= s.top then s else s.(table := s.table[key := Row(value, secret, stamp)], top := stamp)
    case Delete(key) => s.(table := s.table - {key})
    case PollStart(rows) =>
      if s.phase != Idle || !Selects(s.table, s.seen, rows) then s else s.(phase := Polling(rows, 0, s.top))
    case PollRow =>
      if s.phase == Idle || s.phase.rest == [] then s
      else
        var f := s.phase.rest[0];
        s.(cache := ApplyRow(s.cache, f),
           phase := Polling(s.phase.rest[1..], Later(s.phase.latest, f.row.stamp), s.phase.top))
    case PollEnd =>
      if s.phase == Idle then s
      else s.(seen := if s.phase.latest == 0 then s.seen else s.phase.latest, phase := Idle)
  }

  ghost function Run(s: State, steps: seq<Step>): State {
    if steps == [] then s else Apply(Run(s, steps[..|steps| - 1]), steps[|steps| - 1])
  }

  ghost predicate Stamped(table: Table, top: nat) {
    && (forall k :: k in table ==> 0 < table[k].stamp <= top)
    && (forall k, k' :: k in table && k' in table && table[k].stamp == table[k'].stamp ==> k == k')
  }

  /** Every non-secret row stamped up to n has its decoded value in the cache. */
  ghost predicate CachedUpTo(table: Table, cache: map<string, string>, n: nat) {
    forall k :: k in table && !table[k].secret && table[k].stamp <= n ==> k in cache && cache[k] == Decode(table[k].value)
  }

  /** rows is a full scan of the table, in any order. */
  ghost predicate Scans(table: Table, rows: seq<Found>) {
    && (forall f :: f in rows <==> f.key in table && table[f.key] == f.row)
    && (forall i, j :: 0 <= i < j < |rows| ==> rows[i].key != rows[j].key)
  }

  /** The state right after LoadFromDB scanned the table on top of the cache `before`. */
  ghost predicate Loaded(s: State, before: map<string, string>, rows: seq<Found>) {
    && s.phase == Idle && Stamped(s.table, s.top) && Scans(s.table, rows)
    && s.cache == ApplyRows(before, rows) && s.seen == Latest(0, rows)
  }

  /** A row still to be handled has not been overtaken by an older one: the table holds it, or a
      later write of its key, or nothing. */
  ghost predicate RestOk(table: Table, rest: seq<Found>, done: nat, top: nat) {
    && Ascending(rest)
    && (forall f :: f in rest ==> done < f.row.stamp <= top)
    && (forall f :: f in rest && f.key in table ==>
          table[f.key].stamp >= f.row.stamp && (table[f.key].stamp == f.row.stamp ==> table[f.key] == f.row))
    && (forall k :: k in table && done < table[k].stamp <= top ==> Found(k, table[k]) in rest)
  }

  ghost predicate Inv(s: State) {
    && Stamped(s.table, s.top) && s.seen <= s.top
    && match s.phase
       case Idle => CachedUpTo(s.table, s.cache, s.seen)
       case Polling(rest, latest, top) =>
         var done := Later(s.seen, latest);
         && (latest == 0 || s.seen < latest) && latest <= top <= s.top
         && CachedUpTo(s.table, s.cache, done) && RestOk(s.table, rest, done, top)
  }

  // ---------------------------------------------------------------- loading

  lemma {:induction false} LoadedRowsCached(before: map<string, string>, rows: seq<Found>, f: Found)
    requires f in rows && !f.row.secret
    requires forall i, j :: 0 <= i < j < |rows| ==> rows[i].key != rows[j].key
    ensures f.key in ApplyRows(before, rows) && ApplyRows(before, rows)[f.key] == Decode(f.row.value)
    decreases |rows|
  {
    var last := rows[|rows| - 1];
    var init := rows[..|rows| - 1];
    if f != last {
      assert f in init;
      var i :| 0 <= i < |rows| - 1 && rows[i] == f;
      LoadedRowsCached(before, init, f);
    }
  }

  lemma {:induction false} CachedComesFromRow(rows: seq<Found>, k: string)
    requires k in ApplyRows(map[], rows)
    ensures exists f :: f in rows && f.key == k && !f.row.secret
    decreases |rows|
  {
    var last := rows[|rows| - 1];
    if last.key == k && !last.row.secret {
      assert last in rows;
    } else {
      CachedComesFromRow(rows[..|rows| - 1], k);
    }
  }

  /** A first load cut short after n rows leaves a sound watermark exactly when every non-secret row
      it missed is stamped above all it read. */
  lemma PartialLoadSoundExactlyWhen(table: Table, rows: seq<Found>, n: nat)
    requires Scans(table, rows) && n <= |rows|
    ensures CachedUpTo(table, ApplyRows(map[], rows[..n]), Latest(0, rows[..n])) <==>
            forall i :: n <= i < |rows| && !rows[i].row.secret ==> rows[i].row.stamp > Latest(0, rows[..n])
  {
    hide ApplyRows, Latest, Decode;
    var cache, seen := ApplyRows(map[], rows[..n]), Latest(0, rows[..n]);
    forall i | n <= i < |rows|
      ensures rows[i].key !in cache && rows[i].key in table && table[rows[i].key] == rows[i].row
    {
      assert rows[i] in rows;
      if rows[i].key in cache {
        CachedComesFromRow(rows[..n], rows[i].key);
        assert false;
      }
    }
    forall k | k in table && !table[k].secret && Found(k, table[k]) in rows[..n]
      ensures k in cache && cache[k] == Decode(table[k].value)
    {
      LoadedRowsCached(map[], rows[..n], Found(k, table[k]));
    }
    assert forall k :: k in table ==> Found(k, table[k]) in rows;
    assert forall f :: f in rows ==> f in rows[..n] || f in rows[n..];
  }

  /** It can be unsound: here the newer row is read, the older one is missed and no poll will select it. */
  lemma PartialLoadMissesRow()
    ensures var newer, older := Row("n", false, 2), Row("o", false, 1);
            var table, read := map["a" := newer, "b" := older], [Found("a", newer)];
            && Scans(table, [Found("a", newer), Found("b", older)])
            && !CachedUpTo(table, ApplyRows(map[], read), Latest(0, read))
  {
    hide Decode;
    var newer, older := Row("n", false, 2), Row("o", false, 1);
    var table, rows := map["a" := newer, "b" := older], [Found("a", newer), Found("b", older)];
    assert forall f :: f in rows <==> f == rows[0] || f == rows[1];
    assert Scans(table, rows);
    assert rows[..1] == [rows[0]] && rows[..1][..0] == [];
    PartialLoadSoundExactlyWhen(table, rows, 1);
    assert Latest(0, rows[..1]) == 2;
    assert rows[1].row.stamp == 1;
  }

  lemma {:induction false} LatestBounded(rows: seq<Found>, top: nat)
    requires forall f :: f in rows ==> f.row.stamp <= top
    ensures Latest(0, rows) <= top
  {
    if rows == [] {
    } else {
      LatestBounded(rows[..|rows| - 1], top);
      assert rows[|rows| - 1] in rows;
    }
  }

  lemma LoadedIsInv(s: State, before: map<string, string>, rows: seq<Found>)
    requires Loaded(s, before, rows)
    ensures Inv(s)
  {
    LatestBounded(rows, s.top);
    forall k | k in s.table && !s.table[k].secret
      ensures k in s.cache && s.cache[k] == Decode(s.table[k].value)
    {
      LoadedRowsCached(before, rows, Found(k, s.table[k]));
    }
  }

  // ---------------------------------------------------------------- every step keeps the invariant

  lemma WriteKeeps(s: State, step: Step)
    requires Inv(s) && (step.Write? || step.Delete?)
    ensures Inv(Apply(s, step))
  {}

  lemma PollStartKeeps(s: State, rows: seq<Found>)
    requires Inv(s) && s.phase == Idle && Selects(s.table, s.seen, rows)
    ensures Inv(Apply(s, PollStart(rows)))
  {}

  lemma RestAfterRow(s: State, rest: seq<Found>, done: nat, top: nat)
    requires RestOk(s.table, rest, done, top) && rest != []
    ensures RestOk(s.table, rest[1..], rest[0].row.stamp, top)
  {
    var rest' := rest[1..];
    assert forall i :: 0 <= i < |rest'| ==> rest'[i] == rest[i + 1];
    assert forall f :: f in rest ==> f == rest[0] || f in rest';
    assert rest[0] in rest;
  }

  lemma CacheAfterRow(s: State, rest: seq<Found>, done: nat, top: nat)
    requires RestOk(s.table, rest, done, top) && rest != [] && Stamped(s.table, s.top)
    requires CachedUpTo(s.table, s.cache, done)
    ensures CachedUpTo(s.table, ApplyRow(s.cache, rest[0]), rest[0].row.stamp)
  {
    hide Decode;
    var f := rest[0];
    assert f in rest;
    forall k | k in s.table && !s.table[k].secret && s.table[k].stamp <= f.row.stamp
      ensures var c := ApplyRow(s.cache, f); k in c && c[k] == Decode(s.table[k].value)
    {
      if s.table[k].stamp > done {
        assert Found(k, s.table[k]) in rest;
      }
    }
  }

  lemma HeadAbove(s: State, rest: seq<Found>, done: nat, top: nat)
    requires RestOk(s.table, rest, done, top) && rest != []
    ensures done < rest[0].row.stamp <= top
  {
    assert rest[0] in rest;
  }

  lemma PollRowKeeps(s: State)
    requires Inv(s) && s.phase.Polling? && s.phase.rest != []
    ensures Inv(Apply(s, PollRow))
  {
    hide CachedUpTo, ApplyRow, RestOk;
    var Polling(rest, latest, top) := s.phase;
    var done := Later(s.seen, latest);
    RestAfterRow(s, rest, done, top);
    CacheAfterRow(s, rest, done, top);
    HeadAbove(s, rest, done, top);
  }

  lemma StepKeeps(s: State, step: Step)
    requires Inv(s)
    ensures Inv(Apply(s, step)) && s.seen <= Apply(s, step).seen
  {
    match step
    case Write(_, _, _, _) => WriteKeeps(s, step);
    case Delete(_) => WriteKeeps(s, step);
    case PollStart(rows) => if s.phase == Idle && Selects(s.table, s.seen, rows) { PollStartKeeps(s, rows); }
    case PollRow => if s.phase.Polling? && s.phase.rest != [] { PollRowKeeps(s); }
    case PollEnd =>
  }

  lemma {:induction false} RunKeeps(s: State, steps: seq<Step>)
    requires Inv(s)
    ensures Inv(Run(s, steps)) && s.seen <= Run(s, steps).seen
    decreases |steps|
  {
    if steps == [] {
    } else {
      RunKeeps(s, steps[..|steps| - 1]);
      StepKeeps(Run(s, steps[..|steps| - 1]), steps[|steps| - 1]);
    }
  }

  // ---------------------------------------------------------------- PollOnce is a run of steps

  function RowSteps(n: nat): seq<Step> {
    if n == 0 then [] else RowSteps(n - 1) + [PollRow]
  }

  lemma OneMoreStep(s: State, steps: seq<Step>, step: Step)
    ensures Run(s, steps + [step]) == Apply(Run(s, steps), step)
  {
    assert (steps + [step])[..|steps|] == steps;
  }

  lemma {:induction false} RowStepsRun(s: State, rows: seq<Found>, n: nat)
    requires s.phase == Idle && Selects(s.table, s.seen, rows) && n <= |rows|
    ensures Run(s, [PollStart(rows)] + RowSteps(n))
            == s.(cache := ApplyRows(s.cache, rows[..n]), phase := Polling(rows[n..], Latest(0, rows[..n]), s.top))
  {
    if n == 0 {
      OneMoreStep(s, [], PollStart(rows));
      assert [] + [PollStart(rows)] == [PollStart(rows)] + RowSteps(0);
    } else {
      hide Decode, Run, Selects;
      RowStepsRun(s, rows, n - 1);
      OneMoreStep(s, [PollStart(rows)] + RowSteps(n - 1), PollRow);
      assert [PollStart(rows)] + RowSteps(n - 1) + [PollRow] == [PollStart(rows)] + RowSteps(n);
      assert rows[..n][..n - 1] == rows[..n - 1];
      assert rows[n - 1..][1..] == rows[n..];
    }
  }

  /** The cache and watermark Manager.PollOnce leaves are those of its steps run without interference. */
  lemma PollOnceIsItsSteps(s: State, rows: seq<Found>, n: nat)
    requires s.phase == Idle && Selects(s.table, s.seen, rows) && n <= |rows|
    ensures var latest := Latest(0, rows[..n]);
            Run(s, [PollStart(rows)] + RowSteps(n) + [PollEnd])
            == s.(cache := ApplyRows(s.cache, rows[..n]), seen := if latest == 0 then s.seen else latest)
  {
    hide Run;
    RowStepsRun(s, rows, n);
    OneMoreStep(s, [PollStart(rows)] + RowSteps(n), PollEnd);
  }

  // ---------------------------------------------------------------- the promises

  /** After a load and any mix of writes, deletions and polls, complete or cut short, every current
      non-secret row stamped at or below the watermark has its decoded value in the cache, and the
      watermark has not gone back. */
  lemma WatermarkIsSound(start: State, before: map<string, string>, rows: seq<Found>, steps: seq<Step>)
    requires Loaded(start, before, rows)
    ensures var s := Run(start, steps); CachedUpTo(s.table, s.cache, s.seen) && start.seen <= s.seen
  {
    LoadedIsInv(start, before, rows);
    RunKeeps(start, steps);
  }

  /** The non-secret settings a fresh load would cache. */
  ghost function Reload(table: Table): map<string, string> {
    map k | k in table && !table[k].secret :: Decode(table[k].value)
  }

  /** It is what a load of the whole table, in any row order, puts into an empty cache. */
  lemma ReloadIsALoad(table: Table, rows: seq<Found>)
    requires Scans(table, rows)
    ensures ApplyRows(map[], rows) == Reload(table)
  {
    hide ApplyRows, Decode;
    var cache := ApplyRows(map[], rows);
    forall k | k in Reload(table)
      ensures k in cache && cache[k] == Reload(table)[k]
    {
      LoadedRowsCached(map[], rows, Found(k, table[k]));
    }
    forall k | k in cache
      ensures k in Reload(table)
    {
      CachedComesFromRow(rows, k);
      var f :| f in rows && f.key == k && !f.row.secret;
    }
  }

  /** A poll that reached its last row, with no write since its query, leaves the cache agreeing
      with a full reload on every current non-secret key, and the watermark at or above every row,
      so that the next poll selects none of them.  The cache is the reload itself exactly
      when it holds no key that was deleted or turned secret. */
  lemma CompletePollAgreesWithReload(start: State, before: map<string, string>, rows: seq<Found>, steps: seq<Step>)
    requires Loaded(start, before, rows)
    requires var s := Run(start, steps); s.phase.Polling? && s.phase.rest == [] && s.phase.top == s.top
    ensures var s := Apply(Run(start, steps), PollEnd);
            && (forall k :: k in Reload(s.table) ==> k in s.cache && s.cache[k] == Reload(s.table)[k])
            && (s.cache == Reload(s.table) <==> s.cache.Keys <= Reload(s.table).Keys)
            && (forall k :: k in s.table ==> s.table[k].stamp <= s.seen)
  {
    hide Decode, Run;
    LoadedIsInv(start, before, rows);
    RunKeeps(start, steps);
  }
}
