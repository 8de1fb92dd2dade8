/** The reconcile loop of scheduler/scheduler.go: a table of registered cron entries kept in step
    with database rows while every external call may fail. */
module Scheduler {
  import opened Option
  import Json
  import Envelope

  // ---------------------------------------------------------------- rows, keys, hashes, payloads

  /** A provider's config up to what json.Marshal makes of it: its JSON text, or None when it fails. */
  type Config = c: Option<string> | c.Some? ==> Json.IsValue(c.value) witness None

  datatype Provider = Provider(tenant: string, name: string, config: Config)

  function Key(tenant: string, name: string): string {
    tenant + ":" + name
  }

  function RowKey(p: Provider): string {
    Key(p.tenant, p.name)
  }

  /** The input of SHA-256, standing for its digest: a collision-free hash. */
  function ConfigHash(cronspec: string, config: Config): string {
    cronspec + [Json.NUL] + (match config case Some(body) => body case None => "")
  }

  /** buildPayload as marshalled: the provider name and the config, "{}" when that does not marshal. */
  function BuildPayload(p: Provider): string {
    Json.WriteObject([Json.Member("provider_name", Json.Quote(p.name)),
                      Json.Member("config", match p.config case Some(body) => body case None => "{}")])
  }

  /** t1, followed by a colon, begins t2. */
  predicate Begins(t1: string, t2: string) {
    t1 + ":" <= t2
  }

  lemma ColonFollows(t1: string, n1: string, t2: string, n2: string)
    requires t1 != t2 && |t1| <= |t2| && Key(t1, n1) == Key(t2, n2)
    ensures Begins(t1, t2)
  {
    var k := Key(t1, n1);
    assert k[..|t1|] == t1 && k[|t1|] == ':' && k[..|t2|] == t2;
    assert t2[..|t1|] == t1;
    assert |t1| < |t2|;
    assert t2[|t1|] == ':';
  }

  /** Two tenants have rows sharing a key exactly when one of them, followed by a colon, begins the other. */
  lemma TenantsShareKeysExactlyWhen(t1: string, t2: string)
    requires t1 != t2
    ensures (exists n1, n2 :: Key(t1, n1) == Key(t2, n2)) <==> Begins(t1, t2) || Begins(t2, t1)
  {
    if n1, n2 :| Key(t1, n1) == Key(t2, n2) {
      if |t1| <= |t2| {
        ColonFollows(t1, n1, t2, n2);
      } else {
        ColonFollows(t2, n2, t1, n1);
      }
    }
    if Begins(t1, t2) {
      assert Key(t1, t2[|t1| + 1..] + ":") == Key(t2, "");
    }
    if Begins(t2, t1) {
      assert Key(t1, "") == Key(t2, t1[|t2| + 1..] + ":");
    }
  }

  /** Rows sharing a key are rows of the same tenant and name, unless one tenant begins the other. */
  lemma KeyInjective(p: Provider, q: Provider)
    requires RowKey(p) == RowKey(q) && !Begins(p.tenant, q.tenant) && !Begins(q.tenant, p.tenant)
    ensures p.tenant == q.tenant && p.name == q.name
  {
    if p.tenant == q.tenant {
      SameTenantSameName(p, q);
    } else {
      TenantsShareKeysExactlyWhen(p.tenant, q.tenant);
      assert false;
    }
  }

  lemma SameTenantSameName(p: Provider, q: Provider)
    requires RowKey(p) == RowKey(q) && p.tenant == q.tenant
    ensures p.name == q.name
  {
    assert RowKey(p)[|p.tenant| + 1..] == p.name && RowKey(q)[|q.tenant| + 1..] == q.name;
  }

  /** No tenant that uuid.Parse accepts begins another. */
  ghost predicate Apart(isUuid: string -> bool) {
    forall t1, t2 :: isUuid(t1) && isUuid(t2) ==> !Begins(t1, t2)
  }

  function Upper(c: char): char {
    if 'a' <= c <= 'z' then (c as int - 32) as char else c
  }

  predicate HexDigit(c: char) {
    '0' <= c <= '9' || 'a' <= c <= 'f' || 'A' <= c <= 'F'
  }

  /** The 36 characters xxxxxxxx-xxxx-xxxx-xxxx-xxxxxxxxxxxx from position i on. */
  predicate DashedHex(t: string, i: nat)
    requires i + 36 <= |t|
  {
    forall j :: i <= j < i + 36 ==> if j - i in {8, 13, 18, 23} then t[j] == '-' else HexDigit(t[j])
  }

  /** The forms uuid.Parse documents: standard, urn:uuid: before it, one character on either side of
      it, and raw hex. */
  predicate UuidText(t: string) {
    || (|t| == 36 && DashedHex(t, 0))
    || (|t| == 45 && (forall j :: 0 <= j < 9 ==> Upper(t[j]) == "URN:UUID:"[j]) && DashedHex(t, 9))
    || (|t| == 38 && DashedHex(t, 1))
    || (|t| == 32 && forall c :: c in t ==> HexDigit(c))
  }

  lemma Landmarks(t: string)
    requires UuidText(t)
    ensures |t| >= 32
    ensures |t| == 32 ==> HexDigit(t[3]) && HexDigit(t[8]) && HexDigit(t[9])
    ensures |t| == 36 ==> t[8] == '-'
    ensures |t| == 38 ==> HexDigit(t[8]) && t[9] == '-'
    ensures |t| == 45 ==> t[3] == ':' && t[8] == ':' && HexDigit(t[9])
  {
    if |t| == 45 {
      assert Upper(t[3]) == ':' && Upper(t[8]) == ':';
    }
  }

  /** UUIDs in these forms are apart, though some of them hold colons. */
  lemma UuidsAreApart()
    ensures Apart(UuidText)
  {
    forall t1, t2 | UuidText(t1) && UuidText(t2)
      ensures !Begins(t1, t2)
    {
      if Begins(t1, t2) {
        Landmarks(t1);
        Landmarks(t2);
        assert false;
      }
    }
  }

  lemma LastNulSplits(a1: string, b1: string, a2: string, b2: string)
    requires Json.NUL !in b1 && Json.NUL !in b2
    requires a1 + [Json.NUL] + b1 == a2 + [Json.NUL] + b2
    ensures a1 == a2 && b1 == b2
  {
    var h := a1 + [Json.NUL] + b1;
    assert h[|a1|] == Json.NUL && h[|a2|] == Json.NUL;
    assert |a1| == |a2|;
    assert h[..|a1|] == a1 && h[|a1| + 1..] == b1;
    assert h[..|a2|] == a2 && h[|a2| + 1..] == b2;
  }

  /** Hashes agree exactly when cronspec and config do: JSON text never holds the NUL separator,
      so the last NUL splits the input even when the cronspec holds one. */
  lemma HashInjective(c1: string, config1: Config, c2: string, config2: Config)
    ensures ConfigHash(c1, config1) == ConfigHash(c2, config2) <==> c1 == c2 && config1 == config2
  {
    if ConfigHash(c1, config1) == ConfigHash(c2, config2) {
      var b1 := match config1 case Some(body) => body case None => "";
      var b2 := match config2 case Some(body) => body case None => "";
      LastNulSplits(c1, b1, c2, b2);
    }
  }

  /** The rows of one fetch by key; a later row with the same key replaces an earlier one. */
  function Desired(rows: seq<Provider>): (m: map<string, Provider>)
    ensures forall k :: k in m ==> m[k] in rows && RowKey(m[k]) == k
    ensures forall p :: p in rows ==> RowKey(p) in m
  {
    if rows == [] then map[]
    else
      var p := rows[|rows| - 1];
      Desired(rows[..|rows| - 1])[RowKey(p) := p]
  }

  /** Of the rows with one key the last one counts. */
  lemma {:induction false} LastRowWins(rows: seq<Provider>, i: nat)
    requires i < |rows| && forall j :: i < j < |rows| ==> RowKey(rows[j]) != RowKey(rows[i])
    ensures Desired(rows)[RowKey(rows[i])] == rows[i]
    decreases |rows|
  {
    hide RowKey;
    if i < |rows| - 1 {
      LastRowWins(rows[..|rows| - 1], i);
    }
  }

  // ---------------------------------------------------------------- what one pass must do

  /** What New fixes: the cron deriver, uuid.Parse, the task type, the queue and the optional enqueuer. */
  datatype Settings = Settings(derive: Provider -> Option<string>, isUuid: string -> bool,
                               taskType: string, queue: string, immediate: bool)

  /** A registered entry without its id, and the row it was registered from. */
  datatype View = View(hash: string, cronspec: string, row: Provider)

  /** The keys whose Unregister or Register call fails in this pass.  No pass calls either of them
      twice for one key, so this covers every way the calls of a pass can fail. */
  datatype Outcomes = Outcomes(noUnregister: set<string>, noRegister: set<string>)

  function Look<T>(m: map<string, T>, k: string): Option<T> {
    if k in m then Some(m[k]) else None
  }

  function ViewFor(cronspec: string, p: Provider): View {
    View(ConfigHash(cronspec, p.config), cronspec, p)
  }

  /** What becomes of the entry of one key. */
  function Target(s: Settings, current: Option<View>, row: Option<Provider>, k: string, o: Outcomes): Option<View> {
    match row
    case None => if k in o.noUnregister then current else None
    case Some(p) =>
      match s.derive(p)
      case None => current
      case Some(cronspec) =>
        var next := if s.isUuid(p.tenant) && k !in o.noRegister then Some(ViewFor(cronspec, p)) else None;
        if current.None? then next
        else if current.value.hash == ConfigHash(cronspec, p.config) then current
        else if k in o.noUnregister then current
        else next
  }

  ghost predicate Reconciled(s: Settings, before: map<string, View>, desired: map<string, Provider>, o: Outcomes,
                             after: map<string, View>)
  {
    forall k :: Look(after, k) == Target(s, Look(before, k), Look(desired, k), k, o)
  }

  // ---------------------------------------------------------------- outstanding work

  predicate Derivable(s: Settings, desired: map<string, Provider>, k: string) {
    k in desired && s.derive(desired[k]).Some?
  }

  /** The hash a derivable row asks for. */
  function WantedHash(s: Settings, p: Provider): string
    requires s.derive(p).Some?
  {
    ConfigHash(s.derive(p).value, p.config)
  }

  function Stale(view: map<string, View>, desired: map<string, Provider>): set<string> {
    view.Keys - desired.Keys
  }

  function Missing(s: Settings, view: map<string, View>, desired: map<string, Provider>): set<string> {
    set k | k in desired && Derivable(s, desired, k) && k !in view
  }

  function Changed(s: Settings, view: map<string, View>, desired: map<string, Provider>): set<string> {
    set k | k in desired && Derivable(s, desired, k) && k in view && view[k].hash != WantedHash(s, desired[k])
  }

  /** One call per stale or missing key, two per changed key. */
  function Work(s: Settings, view: map<string, View>, desired: map<string, Provider>): nat {
    |Stale(view, desired)| + |Missing(s, view, desired)| + 2 * |Changed(s, view, desired)|
  }

  lemma CountingWork(s: Settings, view: map<string, View>, desired: map<string, Provider>,
                     stale: set<string>, missing: set<string>, changed: set<string>)
    requires Stale(view, desired) == stale && Missing(s, view, desired) == missing && Changed(s, view, desired) == changed
    ensures Work(s, view, desired) == |stale| + |missing| + 2 * |changed|
  {}

  /** A successful Unregister of an absent key is one unit of work. */
  lemma UnregisterStaleIsOneUnit(s: Settings, view: map<string, View>, desired: map<string, Provider>, k: string)
    requires k in Stale(view, desired)
    ensures Work(s, view - {k}, desired) + 1 == Work(s, view, desired)
  {
    hide WantedHash, Derivable, Work;
    var view' := view - {k};
    var stale, missing, changed := Stale(view, desired), Missing(s, view, desired), Changed(s, view, desired);
    assert Stale(view', desired) == stale - {k};
    assert Missing(s, view', desired) == missing;
    assert Changed(s, view', desired) == changed;
    CountingWork(s, view, desired, stale, missing, changed);
    CountingWork(s, view', desired, stale - {k}, missing, changed);
  }

  /** So is a successful Unregister of a changed key, which is then missing. */
  lemma UnregisterChangedIsOneUnit(s: Settings, view: map<string, View>, desired: map<string, Provider>, k: string)
    requires k in Changed(s, view, desired)
    ensures Work(s, view - {k}, desired) + 1 == Work(s, view, desired)
    ensures k in Missing(s, view - {k}, desired)
  {
    hide WantedHash, Derivable, Work;
    var view' := view - {k};
    var stale, missing, changed := Stale(view, desired), Missing(s, view, desired), Changed(s, view, desired);
    assert Stale(view', desired) == stale;
    assert Missing(s, view', desired) == missing + {k};
    assert Changed(s, view', desired) == changed - {k};
    CountingWork(s, view, desired, stale, missing, changed);
    CountingWork(s, view', desired, stale, missing + {k}, changed - {k});
  }

  /** A successful Register of a derivable row is one unit of work. */
  lemma RegisterIsOneUnit(s: Settings, view: map<string, View>, desired: map<string, Provider>, k: string, v: View)
    requires k in Missing(s, view, desired) && v.hash == WantedHash(s, desired[k])
    ensures Work(s, view[k := v], desired) + 1 == Work(s, view, desired)
  {
    hide WantedHash, Derivable, Work;
    var view' := view[k := v];
    var stale, missing, changed := Stale(view, desired), Missing(s, view, desired), Changed(s, view, desired);
    assert Stale(view', desired) == stale;
    assert Missing(s, view', desired) == missing - {k};
    assert Changed(s, view', desired) == changed;
    CountingWork(s, view, desired, stale, missing, changed);
    CountingWork(s, view', desired, stale, missing - {k}, changed);
  }

  lemma ReplacingChangedKey(s: Settings, view: map<string, View>, desired: map<string, Provider>, k: string, cronspec: string)
    requires k in desired && s.derive(desired[k]) == Some(cronspec)
    requires k in view && view[k].hash != ConfigHash(cronspec, desired[k].config)
    ensures Work(s, view, desired) > 0 && Work(s, view - {k}, desired) + 1 == Work(s, view, desired)
  {
    hide ConfigHash, Work;
    assert k in Changed(s, view, desired);
    UnregisterChangedIsOneUnit(s, view, desired, k);
  }

  lemma AddingMissingKey(s: Settings, view: map<string, View>, desired: map<string, Provider>, k: string, cronspec: string)
    requires k in desired && s.derive(desired[k]) == Some(cronspec) && k !in view
    ensures Work(s, view, desired) > 0
    ensures Work(s, view[k := ViewFor(cronspec, desired[k])], desired) + 1 == Work(s, view, desired)
  {
    hide ConfigHash, Work;
    assert k in Missing(s, view, desired);
    RegisterIsOneUnit(s, view, desired, k, ViewFor(cronspec, desired[k]));
  }

  /** A pass in which every call succeeds and every derivable row names a valid tenant leaves no
      work: absent keys are gone, derivable rows carry their own hash and cronspec, and an
      underivable row keeps what it had. */
  lemma SuccessfulPassFinishes(s: Settings, before: map<string, View>, desired: map<string, Provider>,
                               o: Outcomes, after: map<string, View>)
    requires Reconciled(s, before, desired, o, after)
    requires o == Outcomes({}, {})
    requires forall k :: Derivable(s, desired, k) ==> s.isUuid(desired[k].tenant)
    ensures Work(s, after, desired) == 0
    ensures forall k :: k !in desired ==> k !in after
    ensures forall k :: k in desired && !Derivable(s, desired, k) ==> Look(after, k) == Look(before, k)
    ensures forall k :: Derivable(s, desired, k) ==>
              && k in after && after[k].hash == WantedHash(s, desired[k])
              && after[k].row == if k in before && before[k].hash == after[k].hash then before[k].row else desired[k]
  {
    forall k
      ensures k !in desired ==> k !in after
      ensures Derivable(s, desired, k) ==>
                && k in after && after[k].hash == WantedHash(s, desired[k])
                && after[k].row == if k in before && before[k].hash == after[k].hash then before[k].row else desired[k]
      ensures k in desired && !Derivable(s, desired, k) ==> Look(after, k) == Look(before, k)
    {
      assert Look(after, k) == Target(s, Look(before, k), Look(desired, k), k, o);
    }
    assert Stale(after, desired) == {};
    assert Missing(s, after, desired) == {};
    assert Changed(s, after, desired) == {};
  }

  lemma NoWork(s: Settings, view: map<string, View>, desired: map<string, Provider>, k: string)
    requires Work(s, view, desired) == 0
    ensures k !in Stale(view, desired) && k !in Missing(s, view, desired) && k !in Changed(s, view, desired)
  {
    hide Stale, Missing, Changed;
    assert |Stale(view, desired)| == 0 && |Missing(s, view, desired)| == 0 && |Changed(s, view, desired)| == 0;
  }

  lemma SettledKeyIsKept(s: Settings, view: map<string, View>, desired: map<string, Provider>, o: Outcomes, k: string)
    requires Work(s, view, desired) == 0
    ensures Target(s, Look(view, k), Look(desired, k), k, o) == Look(view, k)
  {
    hide Work, ConfigHash;
    NoWork(s, view, desired, k);
  }

  lemma SameLooks(a: map<string, View>, b: map<string, View>)
    requires forall k :: Look(a, k) == Look(b, k)
    ensures a == b
  {
    forall k
      ensures k in a <==> k in b
      ensures k in a ==> a[k] == b[k]
    {
      assert Look(a, k) == Look(b, k);
    }
  }

  /** With no work left, a pass changes nothing whatever would have failed. */
  lemma FinishedPassIsIdle(s: Settings, before: map<string, View>, desired: map<string, Provider>,
                           o: Outcomes, after: map<string, View>)
    requires Reconciled(s, before, desired, o, after)
    requires Work(s, before, desired) == 0
    ensures after == before
  {
    hide Target, Work;
    forall k
      ensures Look(after, k) == Look(before, k)
    {
      SettledKeyIsKept(s, before, desired, o, k);
    }
    SameLooks(before, after);
  }

  /** The outcome of a pass is determined by what was registered, the rows and the failures: no
      order in which Go ranges over its maps can show. */
  lemma OrderDoesNotShow(s: Settings, before: map<string, View>, desired: map<string, Provider>, o: Outcomes,
                         after1: map<string, View>, after2: map<string, View>)
    requires Reconciled(s, before, desired, o, after1) && Reconciled(s, before, desired, o, after2)
    ensures after1 == after2
  {
    forall k
      ensures Look(after1, k) == Look(after2, k)
    {
      assert Look(after1, k) == Target(s, Look(before, k), Look(desired, k), k, o);
    }
    SameLooks(after1, after2);
  }

  // ---------------------------------------------------------------- Asynq and the scheduler

  datatype Registration = Registration(cronspec: string, taskType: string, body: string, queue: string)

  /** Asynq as the reconciler sees it: live registrations under fresh ids; a failed call changes
      nothing.  The counters record calls and their successes. */
  class Asynq {
    var live: map<nat, Registration>
    var nextId: nat
    ghost var calls: nat
    ghost var registered: nat
    ghost var unregistered: nat

    ghost predicate Valid()
      reads this
    {
      forall id :: id in live ==> id < nextId
    }

    constructor ()
      ensures Valid() && live == map[] && calls == registered == unregistered == 0
    {
      live, nextId := map[], 0;
      calls, registered, unregistered := 0, 0, 0;
    }

    method Register(r: Registration, ok: bool) returns (id: Option<nat>)
      requires Valid()
      modifies this
      ensures Valid()
      ensures calls == old(calls) + 1 && unregistered == old(unregistered)
      ensures !ok ==> id == None && live == old(live) && nextId == old(nextId) && registered == old(registered)
      ensures ok ==> id.Some? && id.value !in old(live) && live == old(live)[id.value := r]
                     && registered == old(registered) + 1
    {
      calls := calls + 1;
      if !ok {
        return None;
      }
      id := Some(nextId);
      live, nextId, registered := live[nextId := r], nextId + 1, registered + 1;
    }

    method Unregister(id: nat, ok: bool) returns (done: bool)
      requires Valid()
      modifies this
      ensures Valid()
      ensures calls == old(calls) + 1 && registered == old(registered)
      ensures done == (ok && id in old(live))
      ensures live == (if done then old(live) - {id} else old(live))
      ensures unregistered == old(unregistered) + (if done then 1 else 0)
    {
      calls := calls + 1;
      done := ok && id in live;
      if done {
        live, unregistered := live - {id}, unregistered + 1;
      }
    }
  }

  datatype Entry = Entry(id: nat, hash: string, cronspec: string)

  /** An immediate enqueue attempted after a registration; whether it succeeds has no effect here. */
  datatype Immediate = Immediate(taskType: string, tenant: string, payload: string, queue: string)

  function ViewOf(entries: map<string, Entry>, origin: map<string, Provider>): map<string, View> {
    map k | k in entries && k in origin :: View(entries[k].hash, entries[k].cronspec, origin[k])
  }

  /** One reconcile tick: what the fetch returned (None: it failed) and which calls fail. */
  datatype Tick = Tick(fetch: Option<seq<Provider>>, outcomes: Outcomes)

  /** The rows a tick fetched, by key. */
  function Wanted(tick: Tick): map<string, Provider> {
    if tick.fetch.None? then map[] else Desired(tick.fetch.value)
  }

  /** The registration a row asks for under a cronspec. */
  function Built(s: Settings, p: Provider, cronspec: string): Result<Registration, Envelope.Error> {
    match Envelope.Wrap(s.isUuid, p.tenant, Some(BuildPayload(p)))
    case Err(e) => Err(e)
    case Ok(body) => Ok(Registration(cronspec, s.taskType, body, s.queue))
  }

  /** A JSON object that names the provider and carries its config, "{}" when that does not marshal. */
  predicate CarriesRow(payload: string, p: Provider) {
    var config := if p.config.Some? then p.config.value else "{}";
    payload != "" && payload[0] == '{'
    && Json.ParseObject(payload[1..])
       == Json.Members([Json.Member("provider_name", Json.Quote(p.name)), Json.Member("config", config)], "")
  }

  /** A registration that fires on this cronspec, on the scheduler's queue and task type, and whose
      worker unwraps the row's tenant, name and config from it. */
  ghost predicate Serves(s: Settings, p: Provider, cronspec: string, r: Registration) {
    && r.cronspec == cronspec && r.taskType == s.taskType && r.queue == s.queue
    && match Envelope.Unwrap(s.isUuid, r.body)
       case Err(_) => false
       case Ok(env) => env.tenantId == p.tenant && env.requestId == "" && CarriesRow(env.payload, p)
  }

  /** The table, the live registrations, the row each entry was registered from and the key each
      registration belongs to fit together: entry ids and live registrations correspond one to one,
      every entry records the hash of its row, and its registration is the one that row asks for. */
  ghost predicate Linked(s: Settings, entries: map<string, Entry>, live: map<nat, Registration>,
                         origin: map<string, Provider>, owner: map<nat, string>)
  {
    && origin.Keys == entries.Keys
    && owner.Keys == live.Keys
    && (forall id :: id in owner ==> owner[id] in entries && entries[owner[id]].id == id)
    && (forall k :: k in entries ==> entries[k].id in owner && owner[entries[k].id] == k)
    && (forall k :: k in entries ==> Sound(s, k, entries[k], live[entries[k].id], origin[k]))
  }

  ghost predicate Sound(s: Settings, k: string, e: Entry, r: Registration, p: Provider) {
    && RowKey(p) == k
    && e.hash == ConfigHash(e.cronspec, p.config)
    && Built(s, p, e.cronspec) == Ok(r)
  }

  lemma EmptyObject()
    ensures Json.WriteObject([]) == "{}"
  {}

  /** The payload is one JSON value, an object that carries the row. */
  lemma PayloadIsJson(p: Provider)
    ensures Json.IsValue(BuildPayload(p)) && CarriesRow(BuildPayload(p), p)
  {
    hide Json.IsValue, Json.WriteMembers, Json.ParseObject, Json.Quote;
    Json.QuoteIsValue(p.name);
    Json.WrittenObjectIsValue([]);
    assert Json.WriteObject([]) == "{}" by { EmptyObject(); }
    var list := [Json.Member("provider_name", Json.Quote(p.name)),
                 Json.Member("config", if p.config.Some? then p.config.value else "{}")];
    assert BuildPayload(p) == Json.WriteObject(list);
    Json.WrittenObjectIsValue(list);
    Json.WrittenObject(list, "");
    assert BuildPayload(p)[1..] == Json.WriteMembers(list) + "}" + "";
  }

  /** What a row of a valid tenant asks for serves it. */
  lemma RegisteredTaskUnwraps(s: Settings, p: Provider, cronspec: string)
    requires s.isUuid(p.tenant)
    ensures Built(s, p, cronspec).Ok? && Serves(s, p, cronspec, Built(s, p, cronspec).value)
  {
    hide Envelope.Unwrap, Envelope.WrapWithRequestId, Json.IsValue, CarriesRow, BuildPayload;
    PayloadIsJson(p);
    Envelope.UnwrapUndoesWrap(s.isUuid, p.tenant, "", BuildPayload(p));
  }

  lemma BuiltForValidTenants(s: Settings, p: Provider, cronspec: string)
    ensures Built(s, p, cronspec).Ok? <==> s.isUuid(p.tenant)
  {}

  /** No registration is leaked and no entry dangles; each serves the row its entry is for. */
  lemma EntriesAreExactlyTheLiveRegistrations(s: Settings, entries: map<string, Entry>, live: map<nat, Registration>,
                                              origin: map<string, Provider>, owner: map<nat, string>)
    requires Linked(s, entries, live, origin, owner)
    ensures live.Keys == set k | k in entries :: entries[k].id
    ensures forall k1, k2 :: k1 in entries && k2 in entries && k1 != k2 ==> entries[k1].id != entries[k2].id
    ensures forall k :: k in entries ==> k in origin && Serves(s, origin[k], entries[k].cronspec, live[entries[k].id])
  {
    hide Serves, Built;
    forall k | k in entries
      ensures Serves(s, origin[k], entries[k].cronspec, live[entries[k].id])
    {
      assert Sound(s, k, entries[k], live[entries[k].id], origin[k]);
      BuiltForValidTenants(s, origin[k], entries[k].cronspec);
      RegisteredTaskUnwraps(s, origin[k], entries[k].cronspec);
    }
    forall id | id in live
      ensures id in set k | k in entries :: entries[k].id
    {
      assert owner[id] in entries;
    }
  }

  lemma LinkedAfterRemove(s: Settings, entries: map<string, Entry>, live: map<nat, Registration>,
                          origin: map<string, Provider>, owner: map<nat, string>, k: string)
    requires Linked(s, entries, live, origin, owner) && k in entries
    ensures var id := entries[k].id; Linked(s, entries - {k}, live - {id}, origin - {k}, owner - {id})
  {
    hide Sound;
  }

  lemma LinkedAfterAdd(s: Settings, entries: map<string, Entry>, live: map<nat, Registration>,
                       origin: map<string, Provider>, owner: map<nat, string>, k: string, e: Entry, r: Registration, p: Provider)
    requires Linked(s, entries, live, origin, owner) && k !in entries && e.id !in live
    requires Sound(s, k, e, r, p)
    ensures Linked(s, entries[k := e], live[e.id := r], origin[k := p], owner[e.id := k])
  {
    hide Sound;
  }

  /** Each derivable row has exactly its own registration live, serving the row as it is now,
      and no key without a row is registered. */
  ghost predicate Converged(s: Settings, entries: map<string, Entry>, live: map<nat, Registration>,
                            desired: map<string, Provider>)
  {
    && entries.Keys <= desired.Keys
    && forall k :: Derivable(s, desired, k) ==>
         k in entries && entries[k].id in live
         && Serves(s, desired[k], s.derive(desired[k]).value, live[entries[k].id])
  }

  /** An entry that a row finds unchanged was registered for that row's tenant. */
  ghost predicate SameTenants(s: Settings, view: map<string, View>, desired: map<string, Provider>) {
    forall k :: Derivable(s, desired, k) && k in view && view[k].hash == WantedHash(s, desired[k]) ==>
      view[k].row.tenant == desired[k].tenant
  }

  lemma SameHashSameRegistration(s: Settings, k: string, e: Entry, r: Registration, was: Provider, row: Provider)
    requires Sound(s, k, e, r, was) && RowKey(row) == k
    requires s.derive(row).Some? && e.hash == WantedHash(s, row)
    ensures Serves(s, row, s.derive(row).value, r) <==> was.tenant == row.tenant
  {
    hide Built, Envelope.Unwrap, RowKey, CarriesRow;
    HashInjective(e.cronspec, was.config, s.derive(row).value, row.config);
    BuiltForValidTenants(s, was, e.cronspec);
    RegisteredTaskUnwraps(s, was, e.cronspec);
    if was.tenant == row.tenant {
      SameTenantSameName(was, row);
      assert was == row;
    }
  }

  /** With no work outstanding, the registrations have converged exactly when every entry was
      registered for the tenant of the row that now has its key. */
  lemma NoWorkMeansConverged(s: Settings, entries: map<string, Entry>, live: map<nat, Registration>,
                             origin: map<string, Provider>, owner: map<nat, string>, desired: map<string, Provider>)
    requires Linked(s, entries, live, origin, owner)
    requires Work(s, ViewOf(entries, origin), desired) == 0
    requires forall k :: k in desired ==> RowKey(desired[k]) == k
    ensures Converged(s, entries, live, desired) <==> SameTenants(s, ViewOf(entries, origin), desired)
  {
    hide Work, Sound, Serves, RowKey;
    var view := ViewOf(entries, origin);
    forall k | Derivable(s, desired, k)
      ensures && k in entries && entries[k].hash == WantedHash(s, desired[k])
              && (Serves(s, desired[k], s.derive(desired[k]).value, live[entries[k].id])
                  <==> origin[k].tenant == desired[k].tenant)
    {
      NoWork(s, view, desired, k);
      SameHashSameRegistration(s, k, entries[k], live[entries[k].id], origin[k], desired[k]);
    }
    forall k | k in entries
      ensures k in desired
    {
      NoWork(s, view, desired, k);
    }
  }

  /** A successful pass changes nothing about whose entries the rows find. */
  lemma PassKeepsSameTenants(s: Settings, before: map<string, View>, desired: map<string, Provider>,
                             o: Outcomes, after: map<string, View>)
    requires Reconciled(s, before, desired, o, after) && o == Outcomes({}, {})
    requires forall k :: Derivable(s, desired, k) ==> s.isUuid(desired[k].tenant)
    ensures SameTenants(s, after, desired) <==> SameTenants(s, before, desired)
  {
    hide Reconciled, Work;
    SuccessfulPassFinishes(s, before, desired, o, after);
    if SameTenants(s, after, desired) {
      forall k | Derivable(s, desired, k) && k in before && before[k].hash == WantedHash(s, desired[k])
        ensures before[k].row.tenant == desired[k].tenant
      {
        assert k in after && after[k].row == before[k].row;
      }
    }
  }

  /** Entries of valid tenants that are apart always stay with their tenant. */
  lemma ApartMeansSameTenants(s: Settings, view: map<string, View>, desired: map<string, Provider>)
    requires Apart(s.isUuid)
    requires forall k :: k in view ==> RowKey(view[k].row) == k && s.isUuid(view[k].row.tenant)
    requires forall k :: k in desired ==> RowKey(desired[k]) == k
    requires forall k :: Derivable(s, desired, k) ==> s.isUuid(desired[k].tenant)
    ensures SameTenants(s, view, desired)
  {
    hide RowKey, WantedHash;
    forall k | Derivable(s, desired, k) && k in view
      ensures view[k].row.tenant == desired[k].tenant
    {
      KeyInjective(view[k].row, desired[k]);
    }
  }

  lemma LinkedRows(s: Settings, entries: map<string, Entry>, live: map<nat, Registration>,
                   origin: map<string, Provider>, owner: map<nat, string>)
    requires Linked(s, entries, live, origin, owner)
    ensures forall k :: k in ViewOf(entries, origin) ==>
              RowKey(ViewOf(entries, origin)[k].row) == k && s.isUuid(ViewOf(entries, origin)[k].row.tenant)
  {
    hide Built, RowKey;
    forall k | k in entries
      ensures RowKey(origin[k]) == k && s.isUuid(origin[k].tenant)
    {
      assert Sound(s, k, entries[k], live[entries[k].id], origin[k]);
      BuiltForValidTenants(s, origin[k], entries[k].cronspec);
    }
  }

  /** What a first pass registers when all its calls succeed. */
  function FirstPass(s: Settings, desired: map<string, Provider>): map<string, View> {
    map k | k in desired && Derivable(s, desired, k) :: ViewFor(s.derive(desired[k]).value, desired[k])
  }

  lemma FirstPassRegisters(s: Settings, desired: map<string, Provider>, after: map<string, View>)
    requires Reconciled(s, map[], desired, Outcomes({}, {}), after)
    requires forall k :: Derivable(s, desired, k) ==> s.isUuid(desired[k].tenant)
    ensures after == FirstPass(s, desired)
  {
    hide ViewFor;
    var first := FirstPass(s, desired);
    forall k
      ensures Look(after, k) == Look(first, k)
    {
      assert Look(after, k) == Target(s, Look(map[], k), Look(desired, k), k, Outcomes({}, {}));
    }
    SameLooks(after, first);
  }

  predicate ValidRows(s: Settings, rows: seq<Provider>) {
    forall p :: p in rows ==> s.isUuid(p.tenant)
  }

  /** Two rows of different tenants that share a key. */
  lemma ClashingRows(t1: string, t2: string) returns (p: Provider, q: Provider)
    requires Begins(t1, t2)
    ensures p.tenant == t1 && q.tenant == t2 && p.config == q.config == None && RowKey(p) == RowKey(q)
  {
    p, q := Provider(t1, t2[|t1| + 1..] + ":", None), Provider(t2, "", None);
  }

  lemma OneRow(p: Provider)
    ensures Desired([p]) == map[RowKey(p) := p]
  {
    assert [p][..0] == [];
  }

  /** With one schedule for all rows, every two successful passes leave each row its own tenant's
      registration exactly when valid tenants are apart. */
  lemma ConvergesExactlyWhenApart(s: Settings, cronspec: string)
    requires forall p :: s.derive(p) == Some(cronspec)
    ensures Apart(s.isUuid) <==>
            forall rows1, rows2 :: ValidRows(s, rows1) && ValidRows(s, rows2) ==>
              SameTenants(s, FirstPass(s, Desired(rows1)), Desired(rows2))
  {
    hide RowKey, ConfigHash;
    if Apart(s.isUuid) {
      forall rows1, rows2 | ValidRows(s, rows1) && ValidRows(s, rows2)
        ensures SameTenants(s, FirstPass(s, Desired(rows1)), Desired(rows2))
      {
        hide Desired;
        ApartMeansSameTenants(s, FirstPass(s, Desired(rows1)), Desired(rows2));
      }
    } else {
      var t1, t2 :| s.isUuid(t1) && s.isUuid(t2) && Begins(t1, t2);
      var p, q := ClashingRows(t1, t2);
      var k := RowKey(p);
      OneRow(p);
      OneRow(q);
      var first, second := FirstPass(s, Desired([p])), Desired([q]);
      assert Derivable(s, second, k) && k in first && first[k].hash == WantedHash(s, second[k]);
      assert !SameTenants(s, first, second);
      assert ValidRows(s, [p]) && ValidRows(s, [q]);
    }
  }

  function Kept(view: map<string, View>, keys: set<string>): map<string, View> {
    map k | k in view && k in keys :: view[k]
  }

  lemma LinkedKeys(s: Settings, entries: map<string, Entry>, live: map<nat, Registration>,
                   origin: map<string, Provider>, owner: map<nat, string>)
    requires Linked(s, entries, live, origin, owner)
    ensures origin.Keys == entries.Keys
  {}

  lemma NothingRegistered()
    ensures ViewOf(map[], map[]) == map[]
  {}

  lemma ViewKeys(entries: map<string, Entry>, origin: map<string, Provider>)
    ensures ViewOf(entries, origin).Keys <= entries.Keys
    ensures origin.Keys == entries.Keys ==> ViewOf(entries, origin).Keys == entries.Keys
  {}

  lemma StaleKey(s: Settings, view: map<string, View>, desired: map<string, Provider>, k: string)
    requires k in view && k !in desired
    ensures Work(s, view, desired) > 0 && Work(s, view - {k}, desired) + 1 == Work(s, view, desired)
  {
    hide Work;
    UnregisterStaleIsOneUnit(s, view, desired, k);
  }

  lemma KeptOneLess(start: map<string, View>, k: string, todo: set<string>, desired: set<string>, failing: set<string>)
    ensures Kept(start, todo + desired + failing)
            == if k in todo || k in desired || k in failing then Kept(start, todo + {k} + desired + failing)
               else Kept(start, todo + {k} + desired + failing) - {k}
  {}

  lemma ViewElsewhere(entries0: map<string, Entry>, origin0: map<string, Provider>,
                      entries: map<string, Entry>, origin: map<string, Provider>, k: string)
    requires entries0 - {k} == entries - {k} && origin0 - {k} == origin - {k}
    ensures forall k' :: k' != k ==> Look(ViewOf(entries0, origin0), k') == Look(ViewOf(entries, origin), k')
  {
    forall k' | k' != k
      ensures Look(ViewOf(entries0, origin0), k') == Look(ViewOf(entries, origin), k')
    {
      SameElsewhere(entries0, entries, k, k');
      SameElsewhere(origin0, origin, k, k');
    }
  }

  lemma SameElsewhere<T>(a: map<string, T>, b: map<string, T>, k: string, k': string)
    requires a - {k} == b - {k} && k' != k
    ensures Look(a, k') == Look(b, k')
  {
    assert k' in a <==> k' in a - {k};
    assert k' in b <==> k' in b - {k};
    if k' in a {
      assert (a - {k})[k'] == a[k'] && (b - {k})[k'] == b[k'];
    }
  }

  /** The entry of k while the second loop still has the keys of todo to visit. */
  function AfterRegister(s: Settings, start: map<string, View>, desired: map<string, Provider>, o: Outcomes,
                         todo: set<string>, k: string): Option<View>
  {
    if k in desired && k !in todo then Target(s, Look(start, k), Some(desired[k]), k, o) else Look(start, k)
  }

  lemma LoopsReconcile(s: Settings, before: map<string, View>, mid: map<string, View>, desired: map<string, Provider>,
                       o: Outcomes, after: map<string, View>)
    requires mid == Kept(before, desired.Keys + o.noUnregister)
    requires forall k :: Look(after, k) == AfterRegister(s, mid, desired, o, {}, k)
    ensures Reconciled(s, before, desired, o, after)
  {
    forall k
      ensures Look(after, k) == Target(s, Look(before, k), Look(desired, k), k, o)
    {
      assert Look(after, k) == AfterRegister(s, mid, desired, o, {}, k);
      if k in desired {
        assert Look(mid, k) == Look(before, k);
      }
    }
  }

  lemma ViewAfterAdd(entries: map<string, Entry>, origin: map<string, Provider>, k: string, e: Entry, p: Provider)
    requires k !in entries && k !in origin
    ensures ViewOf(entries[k := e], origin[k := p]) == ViewOf(entries, origin)[k := View(e.hash, e.cronspec, p)]
    ensures entries[k := e] - {k} == entries && origin[k := p] - {k} == origin
  {}

  lemma ViewAfterRemove(entries: map<string, Entry>, origin: map<string, Provider>, k: string)
    ensures ViewOf(entries - {k}, origin - {k}) == ViewOf(entries, origin) - {k}
  {}

  lemma SoundEntry(s: Settings, k: string, e: Entry, r: Registration, p: Provider)
    requires RowKey(p) == k && e.hash == ConfigHash(e.cronspec, p.config) && Built(s, p, e.cronspec) == Ok(r)
    ensures Sound(s, k, e, r, p)
  {}

  class Scheduler {
    const asynq: Asynq
    const settings: Settings
    var entries: map<string, Entry>
    var enqueued: seq<Immediate>
    ghost var origin: map<string, Provider>
    ghost var owner: map<nat, string>

    ghost predicate Valid()
      reads this, asynq
    {
      asynq.Valid() && Linked(settings, entries, asynq.live, origin, owner)
    }

    /** The table up to ids. */
    ghost function Registered(): map<string, View>
      reads this
    {
      ViewOf(entries, origin)
    }

    ghost function WorkFor(desired: map<string, Provider>): nat
      reads this
    {
      Work(settings, Registered(), desired)
    }

    /** A pass whose fetch, calls and envelope wraps all succeed. */
    ghost predicate AllSucceed(tick: Tick) {
      && tick.fetch.Some? && tick.outcomes == Outcomes({}, {})
      && forall p :: p in tick.fetch.value && settings.derive(p).Some? ==> settings.isUuid(p.tenant)
    }

    /** Successful Register and Unregister calls so far. */
    ghost function Successes(): nat
      reads asynq
    {
      asynq.registered + asynq.unregistered
    }

    constructor (asynq: Asynq, settings: Settings)
      requires asynq.Valid() && asynq.live == map[]
      ensures Valid() && this.asynq == asynq && this.settings == settings && entries == map[] && origin == map[] && enqueued == []
    {
      this.asynq, this.settings := asynq, settings;
      entries, enqueued, origin, owner := map[], [], map[], map[];
    }

    method RegisterOne(p: Provider, cronspec: string, ok: bool) returns (id: Option<nat>)
      requires asynq.Valid()
      modifies asynq
      ensures asynq.Valid()
      ensures asynq.unregistered == old(asynq.unregistered)
      ensures id.Some? <==> ok && settings.isUuid(p.tenant)
      ensures id.None? ==> asynq.live == old(asynq.live) && asynq.registered == old(asynq.registered)
      ensures id.Some? ==> && id.value !in old(asynq.live)
                           && Built(settings, p, cronspec).Ok?
                           && asynq.live == old(asynq.live)[id.value := Built(settings, p, cronspec).value]
                           && Serves(settings, p, cronspec, asynq.live[id.value])
                           && asynq.registered == old(asynq.registered) + 1
    {
      hide Serves, BuildPayload, Json.WriteObject;
      if settings.isUuid(p.tenant) {
        RegisteredTaskUnwraps(settings, p, cronspec);
      }
      match Envelope.Wrap(settings.isUuid, p.tenant, Some(BuildPayload(p))) {
        case Err(_) => id := None;
        case Ok(body) =>
          id := asynq.Register(Registration(cronspec, settings.taskType, body, settings.queue), ok);
      }
    }

    /** Unregisters the entry of k and deletes it from the table, when the call succeeds. */
    method Remove(k: string, ok: bool) returns (done: bool)
      requires Valid() && k in entries
      modifies this`entries, this`origin, this`owner, asynq
      ensures Valid() && done == ok
      ensures asynq.registered == old(asynq.registered)
      ensures asynq.unregistered == old(asynq.unregistered) + (if done then 1 else 0)
      ensures entries == (if done then old(entries) - {k} else old(entries))
      ensures origin == (if done then old(origin) - {k} else old(origin))
      ensures Registered() == (if done then old(Registered()) - {k} else old(Registered()))
    {
      hide Sound, ViewOf;
      LinkedAfterRemove(settings, entries, asynq.live, origin, owner, k);
      ViewAfterRemove(entries, origin, k);
      var id := entries[k].id;
      done := asynq.Unregister(id, ok);
      if done {
        entries, origin, owner := entries - {k}, origin - {k}, owner - {id};
      }
    }

    /** Registers a row that has no entry, records it and makes the optional immediate enqueue. */
    method RegisterEntry(k: string, p: Provider, cronspec: string, ok: bool)
      requires Valid() && k !in entries && RowKey(p) == k
      modifies this, asynq
      ensures Valid()
      ensures var done := ok && settings.isUuid(p.tenant);
              && entries - {k} == old(entries) && origin - {k} == old(origin)
              && Registered() == (if done then old(Registered())[k := ViewFor(cronspec, p)] else old(Registered()))
              && asynq.unregistered == old(asynq.unregistered)
              && asynq.registered == old(asynq.registered) + (if done then 1 else 0)
              && enqueued == old(enqueued) + (if done && settings.immediate then
                   [Immediate(settings.taskType, p.tenant, BuildPayload(p), settings.queue)] else [])
    {
      hide Sound, Built, BuildPayload, Linked, ViewOf;
      assert k !in origin by { LinkedKeys(settings, entries, asynq.live, origin, owner); }
      ghost var live := asynq.live;
      var id := RegisterOne(p, cronspec, ok);
      if id.None? {
        assert entries - {k} == entries && origin - {k} == origin;
        return;
      }
      ghost var r := Built(settings, p, cronspec).value;
      var e := Entry(id.value, ConfigHash(cronspec, p.config), cronspec);
      assert Sound(settings, k, e, r, p) by { SoundEntry(settings, k, e, r, p); }
      LinkedAfterAdd(settings, entries, live, origin, owner, k, e, r, p);
      ViewAfterAdd(entries, origin, k, e, p);
      entries, origin, owner := entries[k := e], origin[k := p], owner[id.value := k];
      if settings.immediate {
        enqueued := enqueued + [Immediate(settings.taskType, p.tenant, BuildPayload(p), settings.queue)];
      }
    }

    /** One iteration of the registering loop. */
    method ReconcileKey(k: string, p: Provider, o: Outcomes, ghost desired: map<string, Provider>)
      requires Valid() && k in desired && desired[k] == p && RowKey(p) == k
      modifies this, asynq
      ensures Valid()
      ensures entries - {k} == old(entries) - {k} && origin - {k} == old(origin) - {k}
      ensures Look(Registered(), k) == Target(settings, old(Look(Registered(), k)), Some(p), k, o)
      ensures WorkFor(desired) + Successes() == old(WorkFor(desired) + Successes()) && Successes() >= old(Successes())
      ensures old(WorkFor(desired)) == 0 ==> asynq.calls == old(asynq.calls)
      ensures |enqueued| == |old(enqueued)| + if settings.immediate then asynq.registered - old(asynq.registered) else 0
    {
      hide Linked, RowKey, BuildPayload, Work, ConfigHash;
      var derived := settings.derive(p);
      if derived.None? {
        return;
      }
      var cronspec := derived.value;
      LinkedKeys(settings, entries, asynq.live, origin, owner);
      ghost var view := Registered();
      if k in entries {
        if entries[k].hash == ConfigHash(cronspec, p.config) {
          return;
        }
        ReplacingChangedKey(settings, view, desired, k, cronspec);
        var done := Remove(k, k !in o.noUnregister);
        if !done {
          return;
        }
        view := view - {k};
      }
      AddingMissingKey(settings, view, desired, k, cronspec);
      RegisterEntry(k, p, cronspec, k !in o.noRegister);
    }

    /** One iteration of the unregistering loop. */
    method UnregisterIfAbsent(k: string, desired: map<string, Provider>, o: Outcomes)
      requires Valid() && k in entries
      modifies this`entries, this`origin, this`owner, asynq
      ensures Valid()
      ensures entries.Keys >= old(entries.Keys) - {k}
      ensures Registered() == if k in desired || k in o.noUnregister then old(Registered()) else old(Registered()) - {k}
      ensures WorkFor(desired) + Successes() == old(WorkFor(desired) + Successes()) && Successes() >= old(Successes())
      ensures old(WorkFor(desired)) == 0 ==> asynq.calls == old(asynq.calls)
      ensures asynq.registered == old(asynq.registered)
    {
      hide Linked, Work, ViewOf;
      if k !in desired {
        LinkedKeys(settings, entries, asynq.live, origin, owner);
        ViewKeys(entries, origin);
        StaleKey(settings, Registered(), desired, k);
        var done := Remove(k, k !in o.noUnregister);
      }
    }

    /** The first loop: unregisters entries no longer in the database, in any order. */
    method UnregisterAbsent(desired: map<string, Provider>, o: Outcomes)
      requires Valid()
      modifies this`entries, this`origin, this`owner, asynq
      ensures Valid()
      ensures Registered() == Kept(old(Registered()), desired.Keys + o.noUnregister)
      ensures WorkFor(desired) + Successes() == old(WorkFor(desired) + Successes()) && Successes() >= old(Successes())
      ensures old(WorkFor(desired)) == 0 ==> asynq.calls == old(asynq.calls)
      ensures asynq.registered == old(asynq.registered)
    {
      hide Linked, Work, ViewOf;
      ghost var start := Registered();
      var todo := entries.Keys;
      LinkedKeys(settings, entries, asynq.live, origin, owner);
      ViewKeys(entries, origin);
      while todo != {}
        invariant Valid() && todo <= entries.Keys
        invariant Registered() == Kept(start, todo + desired.Keys + o.noUnregister)
        invariant WorkFor(desired) + Successes() == old(WorkFor(desired) + Successes()) && Successes() >= old(Successes())
        invariant old(WorkFor(desired)) == 0 ==> asynq.calls == old(asynq.calls)
        invariant asynq.registered == old(asynq.registered)
      {
        var k :| k in todo;
        ghost var todo0 := todo;
        UnregisterIfAbsent(k, desired, o);
        todo := todo - {k};
        assert todo0 == todo + {k};
        KeptOneLess(start, k, todo, desired.Keys, o.noUnregister);
      }
      assert {} + desired.Keys + o.noUnregister == desired.Keys + o.noUnregister;
    }

    /** The second loop: registers new rows and replaces changed ones, in any order. */
    method RegisterDesired(desired: map<string, Provider>, o: Outcomes)
      requires Valid() && forall k :: k in desired ==> RowKey(desired[k]) == k
      modifies this, asynq
      ensures Valid()
      ensures forall k :: Look(Registered(), k) == AfterRegister(settings, old(Registered()), desired, o, {}, k)
      ensures WorkFor(desired) + Successes() == old(WorkFor(desired) + Successes()) && Successes() >= old(Successes())
      ensures old(WorkFor(desired)) == 0 ==> asynq.calls == old(asynq.calls)
      ensures |enqueued| == |old(enqueued)| + if settings.immediate then asynq.registered - old(asynq.registered) else 0
    {
      hide Linked, Work, ViewOf, Target;
      ghost var start := Registered();
      var todo := desired.Keys;
      while todo != {}
        invariant Valid() && todo <= desired.Keys
        invariant forall k :: Look(Registered(), k) == AfterRegister(settings, start, desired, o, todo, k)
        invariant WorkFor(desired) + Successes() == old(WorkFor(desired) + Successes()) && Successes() >= old(Successes())
        invariant old(WorkFor(desired)) == 0 ==> asynq.calls == old(asynq.calls)
        invariant |enqueued| == |old(enqueued)| + if settings.immediate then asynq.registered - old(asynq.registered) else 0
      {
        var k :| k in todo;
        ghost var entries0, origin0 := entries, origin;
        ReconcileKey(k, desired[k], o, desired);
        todo := todo - {k};
        ViewElsewhere(entries0, origin0, entries, origin, k);
      }
    }

    /** One reconcile pass.  What is registered afterwards, up to ids, is a function of what was
        registered, the rows and the failures, whatever order the loops take.  Every successful
        call is one unit of outstanding work; with none outstanding the pass makes no call.  A pass
        whose calls all succeed leaves no work, and converges exactly when no row found another
        tenant's entry under its key, which valid tenants that are apart rule out. */
    method Reconcile(tick: Tick)
      requires Valid()
      modifies this, asynq
      ensures Valid()
      ensures tick.fetch.None? ==> entries == old(entries) && enqueued == old(enqueued) && asynq.calls == old(asynq.calls)
                                   && asynq.live == old(asynq.live) && origin == old(origin) && Successes() == old(Successes())
      ensures tick.fetch.Some? ==> Reconciled(settings, old(Registered()), Wanted(tick), tick.outcomes, Registered())
      ensures Successes() >= old(Successes())
      ensures tick.fetch.Some? ==> WorkFor(Wanted(tick)) + Successes() == old(WorkFor(Wanted(tick)) + Successes())
      ensures tick.fetch.Some? && old(WorkFor(Wanted(tick))) == 0 ==> asynq.calls == old(asynq.calls)
      ensures AllSucceed(tick) ==> WorkFor(Wanted(tick)) == 0
      ensures AllSucceed(tick) ==>
                (Converged(settings, entries, asynq.live, Wanted(tick)) <==> old(SameTenants(settings, Registered(), Wanted(tick))))
      ensures AllSucceed(tick) && Apart(settings.isUuid) ==> Converged(settings, entries, asynq.live, Wanted(tick))
      ensures |enqueued| == |old(enqueued)| + if settings.immediate then asynq.registered - old(asynq.registered) else 0
    {
      hide Linked, Work, ViewOf, Target, Converged;
      if tick.fetch.None? {
        return;
      }
      var desired := Desired(tick.fetch.value);
      ghost var before := Registered();
      UnregisterAbsent(desired, tick.outcomes);
      ghost var mid := Registered();
      RegisterDesired(desired, tick.outcomes);
      LoopsReconcile(settings, before, mid, desired, tick.outcomes, Registered());
      if AllSucceed(tick) {
        SuccessfulPassFinishes(settings, before, desired, tick.outcomes, Registered());
        PassKeepsSameTenants(settings, before, desired, tick.outcomes, Registered());
        NoWorkMeansConverged(settings, entries, asynq.live, origin, owner, desired);
        if Apart(settings.isUuid) {
          LinkedRows(settings, entries, asynq.live, origin, owner);
          ApartMeansSameTenants(settings, Registered(), desired);
        }
      }
    }

    /** The ticks of runLoop.  The invariant holds throughout, and as long as the rows stay the
        same the successful calls of the whole run are the drop in outstanding work.  Whatever came
        before, a successful last tick leaves the registrations converged when valid tenants are apart. */
    method RunLoop(ticks: seq<Tick>, ghost rows: seq<Provider>)
      requires Valid()
      modifies this, asynq
      ensures Valid()
      ensures (forall t :: t in ticks && t.fetch.Some? ==> t.fetch.value == rows) ==>
                WorkFor(Desired(rows)) + Successes() == old(WorkFor(Desired(rows)) + Successes())
      ensures Successes() >= old(Successes())
      ensures ticks != [] && AllSucceed(ticks[|ticks| - 1]) && Apart(settings.isUuid) ==>
                Converged(settings, entries, asynq.live, Wanted(ticks[|ticks| - 1]))
    {
      hide Linked, Work, ViewOf, Reconciled, Converged, Apart, SameTenants;
      for i := 0 to |ticks|
        invariant Valid()
        invariant (forall t :: t in ticks && t.fetch.Some? ==> t.fetch.value == rows) ==>
                    WorkFor(Desired(rows)) + Successes() == old(WorkFor(Desired(rows)) + Successes())
        invariant Successes() >= old(Successes())
        invariant i > 0 && AllSucceed(ticks[i - 1]) && Apart(settings.isUuid) ==>
                    Converged(settings, entries, asynq.live, Wanted(ticks[i - 1]))
      {
        Reconcile(ticks[i]);
      }
    }
  }

  /** Two rows of different tenants that share a key, a config and a schedule, seen one after the
      other: the second finds the entry of the first unchanged and keeps it. */
  lemma ClashingRowFindsOtherEntry(s: Settings, p: Provider, q: Provider, first: map<string, View>, second: map<string, View>)
    requires RowKey(p) == RowKey(q) && p.tenant != q.tenant && p.config == q.config
    requires s.derive(p).Some? && s.derive(q) == s.derive(p) && s.isUuid(p.tenant)
    requires Reconciled(s, map[], map[RowKey(p) := p], Outcomes({}, {}), first)
    requires Reconciled(s, first, map[RowKey(q) := q], Outcomes({}, {}), second)
    ensures !SameTenants(s, first, map[RowKey(q) := q])
    ensures RowKey(q) in second && second[RowKey(q)] == ViewFor(s.derive(p).value, p)
  {
    hide RowKey, ConfigHash;
    var k, rows1, rows2, o := RowKey(q), map[RowKey(p) := p], map[RowKey(q) := q], Outcomes({}, {});
    assert Look(first, k) == Target(s, Look(map[], k), Look(rows1, k), k, o);
    assert Look(second, k) == Target(s, Look(first, k), Look(rows2, k), k, o);
    assert Derivable(s, rows2, k) && k in first && first[k].hash == WantedHash(s, rows2[k]);
  }

  lemma LinkedServes(s: Settings, entries: map<string, Entry>, live: map<nat, Registration>,
                     origin: map<string, Provider>, owner: map<nat, string>, k: string)
    requires Linked(s, entries, live, origin, owner) && k in ViewOf(entries, origin)
    ensures var v := ViewOf(entries, origin)[k];
            entries[k].id in live && Serves(s, v.row, v.cronspec, live[entries[k].id])
  {
    hide Serves, Sound;
    EntriesAreExactlyTheLiveRegistrations(s, entries, live, origin, owner);
  }

  /** The second tenant's row is then left with the first tenant's registration, although every
      call succeeded and no work is outstanding. */
  method ServeClashingRows(settings: Settings, p: Provider, q: Provider) returns (s: Scheduler)
    requires RowKey(p) == RowKey(q) && p.tenant != q.tenant && p.config == q.config
    requires settings.derive(p).Some? && settings.derive(q) == settings.derive(p)
    requires settings.isUuid(p.tenant) && settings.isUuid(q.tenant)
    ensures s.Valid() && s.settings == settings
    ensures s.WorkFor(map[RowKey(q) := q]) == 0 && !Converged(settings, s.entries, s.asynq.live, map[RowKey(q) := q])
    ensures RowKey(q) in s.entries && s.entries[RowKey(q)].id in s.asynq.live
    ensures Serves(settings, p, settings.derive(p).value, s.asynq.live[s.entries[RowKey(q)].id])
  {
    hide Linked, Work, Target, RowKey, ConfigHash, Serves, Reconciled, Converged, SameTenants, Apart, ViewOf;
    OneRow(p);
    OneRow(q);
    var asynq := new Asynq();
    s := new Scheduler(asynq, settings);
    NothingRegistered();
    s.Reconcile(Tick(Some([p]), Outcomes({}, {})));
    ghost var first := s.Registered();
    s.Reconcile(Tick(Some([q]), Outcomes({}, {})));
    ClashingRowFindsOtherEntry(settings, p, q, first, s.Registered());
    LinkedServes(settings, s.entries, s.asynq.live, s.origin, s.owner, RowKey(q));
    ViewKeys(s.entries, s.origin);
  }
}
