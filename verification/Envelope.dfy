/** The job envelope of jobqueue/envelope.go and the request-id middleware of
    jobqueue/correlation.go.  A payload enters as the text json.Marshal gave for it, or None
    when it failed.  `isUuid` is uuid.Parse succeeding; everything holds for every choice of it. */
module Envelope {
  import opened Option
  import opened Json

  const ENVELOPE_VERSION := 1

  datatype Envelope = Envelope(version: int, tenantId: string, requestId: string, payload: string)

  datatype Error = InvalidEnvelope | MarshalFailed

  // ---------------------------------------------------------------- wrapping

  /** The struct fields json.Marshal writes, request_id being omitempty; `version` is its number. */
  function Fields(version: string, tenantId: string, requestId: string, payload: string): seq<Member> {
    [Member("version", version), Member("tenant_id", Quote(tenantId))]
    + (if requestId == "" then [] else [Member("request_id", Quote(requestId))])
    + [Member("payload", payload)]
  }

  function WrapWithRequestId(isUuid: string -> bool, tenantId: string, requestId: string, payload: Option<string>)
    : Result<string, Error>
  {
    if !isUuid(tenantId) then Err(InvalidEnvelope)
    else match payload
      case None => Err(MarshalFailed)
      case Some(raw) => Ok(WriteObject(Fields("1", tenantId, requestId, raw)))
  }

  function Wrap(isUuid: string -> bool, tenantId: string, payload: Option<string>): Result<string, Error> {
    WrapWithRequestId(isUuid, tenantId, "", payload)
  }

  // ---------------------------------------------------------------- unwrapping

  datatype Field = Version | TenantId | RequestId | Payload | Unknown

  /** The case folding encoding/json applies to keys: ASCII letters, long s and the Kelvin sign. */
  function FoldChar(c: char): char {
    if 'a' <= c <= 'z' then (c as int - 32) as char
    else if c as int == 0x17F then 'S'
    else if c as int == 0x212A then 'K'
    else c
  }

  function FoldName(key: string): string {
    seq(|key|, i requires 0 <= i < |key| => FoldChar(key[i]))
  }

  function FieldOf(key: string): Field {
    var name := FoldName(key);
    if name == "VERSION" then Version
    else if name == "TENANT_ID" then TenantId
    else if name == "REQUEST_ID" then RequestId
    else if name == "PAYLOAD" then Payload
    else Unknown
  }

  function DecimalValue(s: string): Option<nat> {
    if s == "" then Some(0)
    else if !IsDigit(s[|s| - 1]) then None
    else match DecimalValue(s[..|s| - 1])
      case None => None
      case Some(n) => Some(10 * n + (s[|s| - 1] as int - '0' as int))
  }

  /** strconv.ParseInt(raw, 10, 64) on the text of a JSON number. */
  function ParseInt64(raw: string): Option<int> {
    var negative := raw != "" && raw[0] == '-';
    match DecimalValue(if negative then raw[1..] else raw)
    case None => None
    case Some(n) =>
      var v: int := if negative then 0 - n as int else n;
      if -0x8000_0000_0000_0000 <= v < 0x8000_0000_0000_0000 then Some(v) else None
  }

  /** null leaves a field as it is; a value of another type is an error. */
  function IntField(raw: string, current: int): Option<int> {
    if raw == "null" then Some(current) else ParseInt64(raw)
  }

  function StringField(raw: string, current: string): Option<string> {
    if raw == "null" then Some(current)
    else if raw == "" || raw[0] != '\"' then None
    else match ParseChars(raw[1..])
      case BadText => None
      case Text(value, _) => Some(value)
  }

  function DecodeField(env: Envelope, m: Member): Option<Envelope> {
    match FieldOf(m.key)
    case Version => (match IntField(m.raw, env.version) case None => None case Some(v) => Some(env.(version := v)))
    case TenantId => (match StringField(m.raw, env.tenantId) case None => None case Some(t) => Some(env.(tenantId := t)))
    case RequestId => (match StringField(m.raw, env.requestId) case None => None case Some(r) => Some(env.(requestId := r)))
    case Payload => Some(env.(payload := m.raw))
    case Unknown => Some(env)
  }

  /** Decodes members in order into env; later duplicates win. */
  function DecodeFields(env: Envelope, list: seq<Member>): Option<Envelope>
    decreases |list|
  {
    if list == [] then Some(env)
    else match DecodeField(env, list[0])
      case None => None
      case Some(env') => DecodeFields(env', list[1..])
  }

  const ZERO := Envelope(0, "", "", "")

  /** json.Unmarshal into an Envelope; None is its error. */
  function Unmarshal(data: string): Option<Envelope> {
    var s := SkipSpace(data);
    if s == "" then None
    else if s[0] == '{' then
      match ParseObject(s[1..])
      case BadMembers => None
      case Members(list, rest) => if SkipSpace(rest) == "" then DecodeFields(ZERO, list) else None
    else if "null" <= s && SkipSpace(s[4..]) == "" then Some(ZERO)
    else None
  }

  function Unwrap(isUuid: string -> bool, data: string): Result<Envelope, Error> {
    match Unmarshal(data)
    case None => Err(InvalidEnvelope)
    case Some(env) =>
      if env.version == 0 then Err(InvalidEnvelope)
      else if env.version > ENVELOPE_VERSION then Err(InvalidEnvelope)
      else if !isUuid(env.tenantId) then Err(InvalidEnvelope)
      else if env.payload == "" then Err(InvalidEnvelope)
      else Ok(env)
  }

  // ---------------------------------------------------------------- properties of the envelope

  /** The members an Envelope has a field for. */
  function Known(list: seq<Member>): seq<Member> {
    if list == [] then []
    else (if FieldOf(list[0].key).Unknown? then [] else [list[0]]) + Known(list[1..])
  }

  lemma UnknownKeepsEnvelope(env: Envelope, m: Member)
    requires FieldOf(m.key).Unknown?
    ensures DecodeField(env, m) == Some(env)
  {}

  lemma {:induction false} UnknownFieldsIgnored(env: Envelope, list: seq<Member>)
    ensures DecodeFields(env, list) == DecodeFields(env, Known(list))
    decreases |list|
  {
    hide DecodeField, FieldOf;
    if list == [] {
    } else {
      var rest := Known(list[1..]);
      if FieldOf(list[0].key).Unknown? {
        UnknownKeepsEnvelope(env, list[0]);
        UnknownFieldsIgnored(env, list[1..]);
        assert Known(list) == rest;
      } else {
        assert Known(list)[0] == list[0] && Known(list)[1..] == rest;
        if DecodeField(env, list[0]).Some? {
          UnknownFieldsIgnored(DecodeField(env, list[0]).value, list[1..]);
        }
      }
    }
  }

  lemma QuotedField(s: string, current: string)
    ensures StringField(Quote(s), current) == Some(s)
  {
    QuotedReadsBack(s, "");
    assert Quote(s)[1..] == Escape(s) + "\"" + "";
    assert Quote(s)[0] == '\"';
  }

  lemma FieldNames()
    ensures FieldOf("version") == Version && FieldOf("tenant_id") == TenantId
    ensures FieldOf("request_id") == RequestId && FieldOf("payload") == Payload
  {
    assert FoldName("version") == "VERSION";
    assert FoldName("tenant_id") == "TENANT_ID";
    assert FoldName("request_id") == "REQUEST_ID";
    assert FoldName("payload") == "PAYLOAD";
  }

  lemma VersionOne()
    ensures IsValue("1") && IntField("1", 0) == Some(1)
  {
    assert "1"[..0] == "";
    assert DecimalValue("1") == Some(1);
    assert SkipNumber("1") == Some("");
  }

  lemma PayloadDecodes(env: Envelope, payload: string)
    ensures DecodeFields(env, [Member("payload", payload)]) == Some(env.(payload := payload))
  {
    hide FieldOf;
    FieldNames();
    var list := [Member("payload", payload)];
    assert list[1..] == [];
  }

  lemma FieldsDecode(version: string, v: int, tenantId: string, requestId: string, payload: string)
    requires IntField(version, 0) == Some(v)
    ensures DecodeFields(ZERO, Fields(version, tenantId, requestId, payload))
         == Some(Envelope(v, tenantId, requestId, payload))
  {
    hide FieldOf, IntField, StringField, Quote;
    FieldNames();
    QuotedField(tenantId, "");
    QuotedField(requestId, "");
    var list := Fields(version, tenantId, requestId, payload);
    var e1 := ZERO.(version := v);
    var e2 := e1.(tenantId := tenantId);
    var e3 := e2.(requestId := requestId);
    assert DecodeFields(ZERO, list) == DecodeFields(e1, list[1..]);
    assert DecodeFields(e1, list[1..]) == DecodeFields(e2, list[1..][1..]);
    PayloadDecodes(e3, payload);
    if requestId == "" {
      assert list[1..][1..] == [Member("payload", payload)];
    } else {
      assert list[1..][1..] == [Member("request_id", Quote(requestId)), Member("payload", payload)];
      assert list[1..][1..][1..] == [Member("payload", payload)];
      assert DecodeFields(e2, list[1..][1..]) == DecodeFields(e3, [Member("payload", payload)]);
    }
  }

  /** data is a JSON object with these members, in whatever spelling and spacing. */
  predicate IsObject(data: string, list: seq<Member>) {
    var s := SkipSpace(data);
    s != "" && s[0] == '{' && ParseObject(s[1..]).Members? && ParseObject(s[1..]).list == list
    && SkipSpace(ParseObject(s[1..]).rest) == ""
  }

  /** No field is given twice. */
  ghost predicate Distinct(list: seq<Member>) {
    forall i, j :: 0 <= i < j < |list| && FieldOf(list[i].key) == FieldOf(list[j].key) ==> FieldOf(list[i].key).Unknown?
  }

  /** The text of the member for a field, wherever it stands. */
  function RawOf(list: seq<Member>, f: Field): Option<string> {
    if list == [] then None
    else if FieldOf(list[0].key) == f then Some(list[0].raw)
    else RawOf(list[1..], f)
  }

  /** The envelope field by field: what the object gives, else what env has. */
  function Gather(env: Envelope, list: seq<Member>): Option<Envelope> {
    var version := match RawOf(list, Version) case None => Some(env.version) case Some(raw) => IntField(raw, env.version);
    var tenantId := match RawOf(list, TenantId) case None => Some(env.tenantId) case Some(raw) => StringField(raw, env.tenantId);
    var requestId := match RawOf(list, RequestId) case None => Some(env.requestId) case Some(raw) => StringField(raw, env.requestId);
    var payload := match RawOf(list, Payload) case None => env.payload case Some(raw) => raw;
    if version.None? || tenantId.None? || requestId.None? then None
    else Some(Envelope(version.value, tenantId.value, requestId.value, payload))
  }

  lemma {:induction false} AbsentField(list: seq<Member>, f: Field)
    requires forall m :: m in list ==> FieldOf(m.key) != f
    ensures RawOf(list, f) == None
    decreases |list|
  {
    hide FieldOf;
    if list == [] {
    } else {
      AbsentField(list[1..], f);
    }
  }

  /** Decoding in order is decoding field by field when no field is given twice. */
  lemma {:induction false} OrderDoesNotMatter(env: Envelope, list: seq<Member>)
    requires Distinct(list)
    ensures DecodeFields(env, list) == Gather(env, list)
    decreases |list|
  {
    hide FieldOf, IntField, StringField;
    if list == [] {
    } else {
      var f, rest := FieldOf(list[0].key), list[1..];
      assert forall i :: 0 <= i < |rest| ==> rest[i] == list[i + 1];
      if !f.Unknown? {
        AbsentField(rest, f);
      }
      if DecodeField(env, list[0]).Some? {
        OrderDoesNotMatter(DecodeField(env, list[0]).value, rest);
      }
    }
  }

  /** Every JSON object that gives no field twice, in any order, spelling and spacing and with any
      unknown members, is accepted exactly when its fields decode, its version is not zero and at
      most 1, its tenant is a UUID and it has a payload; and it is read field by field. */
  lemma UnwrapGate(isUuid: string -> bool, data: string, list: seq<Member>)
    requires IsObject(data, list) && Distinct(list)
    ensures Unwrap(isUuid, data)
            == match Gather(ZERO, list)
               case None => Err(InvalidEnvelope)
               case Some(env) =>
                 if env.version != 0 && env.version <= 1 && isUuid(env.tenantId) && env.payload != "" then Ok(env)
                 else Err(InvalidEnvelope)
  {
    hide DecodeFields, Gather, ParseObject, SkipSpace;
    OrderDoesNotMatter(ZERO, list);
  }

  lemma WrittenIsObject(list: seq<Member>)
    requires forall m :: m in list ==> IsValue(m.raw)
    ensures IsObject(WriteObject(list), list)
  {
    hide ParseObject, IsValue, WriteMembers;
    WrittenObject(list, "");
    var data := WriteObject(list);
    assert data[1..] == WriteMembers(list) + "}" + "";
    assert SkipSpace(data) == data;
  }

  lemma FieldsAreValues(version: string, tenantId: string, requestId: string, payload: string)
    requires IsValue(version) && IsValue(payload)
    ensures forall m :: m in Fields(version, tenantId, requestId, payload) ==> IsValue(m.raw)
  {
    hide IsValue, Quote;
    QuoteIsValue(tenantId);
    QuoteIsValue(requestId);
  }

  lemma ValuesAreNotEmpty(raw: string)
    requires IsValue(raw)
    ensures raw != ""
  {}

  /** Reading the fields a producer writes, with any version. */
  lemma UnwrapWritten(isUuid: string -> bool, version: string, v: int, tenantId: string, requestId: string, payload: string)
    requires IsValue(version) && IsValue(payload) && IntField(version, 0) == Some(v)
    ensures Unwrap(isUuid, WriteObject(Fields(version, tenantId, requestId, payload)))
            == if v != 0 && v <= 1 && isUuid(tenantId) then Ok(Envelope(v, tenantId, requestId, payload))
               else Err(InvalidEnvelope)
  {
    hide DecodeFields, ParseObject, IsValue, Fields, IntField, WriteObject, SkipSpace;
    FieldsAreValues(version, tenantId, requestId, payload);
    WrittenIsObject(Fields(version, tenantId, requestId, payload));
    FieldsDecode(version, v, tenantId, requestId, payload);
    assert payload != "" by { ValuesAreNotEmpty(payload); }
  }

  lemma MinusOne()
    ensures IsValue("-1") && IntField("-1", 0) == Some(-1)
  {
    assert "-1"[1..] == "1" && "1"[..0] == "";
    assert DecimalValue("1") == Some(1);
    assert SkipNumber("-1") == Some("");
  }

  /** A negative version is accepted. */
  lemma NegativeVersionAccepted(isUuid: string -> bool, tenantId: string, requestId: string, payload: string)
    requires isUuid(tenantId) && IsValue(payload)
    ensures Unwrap(isUuid, WriteObject(Fields("-1", tenantId, requestId, payload)))
            == Ok(Envelope(-1, tenantId, requestId, payload))
  {
    hide Unwrap, IsValue, WriteObject, Fields, IntField;
    MinusOne();
    UnwrapWritten(isUuid, "-1", -1, tenantId, requestId, payload);
  }

  /** Unwrap undoes Wrap for every accepted tenant, every request id and every JSON payload. */
  lemma UnwrapUndoesWrap(isUuid: string -> bool, tenantId: string, requestId: string, payload: string)
    requires IsValue(payload)
    ensures match WrapWithRequestId(isUuid, tenantId, requestId, Some(payload))
            case Ok(data) => isUuid(tenantId) && Unwrap(isUuid, data) == Ok(Envelope(1, tenantId, requestId, payload))
            case Err(e) => !isUuid(tenantId) && e == InvalidEnvelope
  {
    hide Unwrap, IsValue, WriteObject, Fields, IntField;
    if isUuid(tenantId) {
      VersionOne();
      UnwrapWritten(isUuid, "1", 1, tenantId, requestId, payload);
    }
  }

  lemma {:induction false} PlainTextEscapesToItself(s: string)
    requires forall i :: 0 <= i < |s| ==> EscapeChar(s[i]) == [s[i]]
    ensures Escape(s) == s
  {
    if s != "" {
      PlainTextEscapesToItself(s[1..]);
      assert [s[0]] + s[1..] == s;
    }
  }

  lemma PlainMember(key: string, name: string, raw: string)
    requires forall i :: 0 <= i < |key| ==> 'a' <= key[i] <= 'z' || key[i] == '_'
    requires name == "\"" + key + "\":"
    ensures WritePair(Member(key, raw)) == name + raw
  {
    PlainTextEscapesToItself(key);
  }

  lemma OneMorePair(m: Member, list: seq<Member>)
    requires list != []
    ensures WriteMembers([m] + list) == WritePair(m) + "," + WriteMembers(list)
    ensures WriteMembers([m]) == WritePair(m)
  {
    assert ([m] + list)[1..] == list;
  }

  lemma Regroup(v: string, kt: string, t: string, kr: string, r: string, kp: string, p: string)
    ensures "{" + (v + "," + (kt + t + "," + (kp + p))) + "}" == ("{" + v + "," + kt) + t + ("," + kp) + p + "}"
    ensures "{" + (v + "," + (kt + t + "," + (kr + r + "," + (kp + p)))) + "}"
            == ("{" + v + "," + kt) + t + ("," + kr) + r + ("," + kp) + p + "}"
  {}

  lemma WrittenFields(tenantId: string, requestId: string, payload: string)
    ensures var kt, kr, kp := "\"tenant_id\":", "\"request_id\":", "\"payload\":";
            var t, r := kt + Quote(tenantId), kr + Quote(requestId);
            WriteMembers(Fields("1", tenantId, requestId, payload))
            == "\"version\":1" + "," + (t + "," + (if requestId == "" then kp + payload else r + "," + (kp + payload)))
  {
    hide Quote, WritePair, WriteMembers;
    var t, r := Quote(tenantId), Quote(requestId);
    var mv, mt, mr, mp := Member("version", "1"), Member("tenant_id", t), Member("request_id", r), Member("payload", payload);
    PlainMember("version", "\"version\":", "1");
    PlainMember("tenant_id", "\"tenant_id\":", t);
    PlainMember("request_id", "\"request_id\":", r);
    PlainMember("payload", "\"payload\":", payload);
    assert "\"version\":" + "1" == "\"version\":1";
    var rest := if requestId == "" then [mp] else [mr] + [mp];
    OneMorePair(mp, [mp]);
    OneMorePair(mr, [mp]);
    OneMorePair(mt, rest);
    OneMorePair(mv, [mt] + rest);
    assert Fields("1", tenantId, requestId, payload) == [mv] + ([mt] + rest);
  }

  lemma WireLiterals()
    ensures "{" + "\"version\":1" + "," + "\"tenant_id\":" == "{\"version\":1,\"tenant_id\":"
    ensures "," + "\"request_id\":" == ",\"request_id\":" && "," + "\"payload\":" == ",\"payload\":"
  {}

  lemma RegroupEnds(a: string, t: string, b: string, r: string, c: string, p: string)
    ensures a + t + c + p + "}" == (a + t) + (c + p + "}")
    ensures a + t + b + r + c + p + "}" == (a + t) + b + r + (c + p + "}")
  {}

  /** The bytes on the wire: without a request id they are those of plain Wrap. */
  lemma WireFormat(isUuid: string -> bool, tenantId: string, requestId: string, payload: string)
    requires isUuid(tenantId)
    ensures var head := "{\"version\":1,\"tenant_id\":" + Quote(tenantId);
            var tail := ",\"payload\":" + payload + "}";
            && Wrap(isUuid, tenantId, Some(payload)) == Ok(head + tail)
            && WrapWithRequestId(isUuid, tenantId, requestId, Some(payload))
               == Ok(if requestId == "" then head + tail else head + ",\"request_id\":" + Quote(requestId) + tail)
  {
    hide Quote, WriteMembers, Fields;
    WrittenFields(tenantId, requestId, payload);
    WrittenFields(tenantId, "", payload);
    WireLiterals();
    var v, kt, kr, kp := "\"version\":1", "\"tenant_id\":", "\"request_id\":", "\"payload\":";
    var t, r := Quote(tenantId), Quote(requestId);
    Regroup(v, kt, t, kr, r, kp, payload);
    RegroupEnds("{" + v + "," + kt, t, "," + kr, r, "," + kp, payload);
  }

  // ---------------------------------------------------------------- the queue boundary

  /** The two values the queue carries in a Go context; "" stands for an unset value. */
  datatype Context = Context(tenantId: string, requestId: string)

  datatype Task = Task(taskType: string, body: string)

  /** EnqueueMiddleware.Enqueue up to the push: without a request id it takes Client.Enqueue's path. */
  function EnqueueTask(isUuid: string -> bool, ctx: Context, taskType: string, tenantId: string, payload: Option<string>)
    : Result<Task, Error>
  {
    var body := if ctx.requestId == "" then Wrap(isUuid, tenantId, payload)
                else WrapWithRequestId(isUuid, tenantId, ctx.requestId, payload);
    match body
    case Ok(b) => Ok(Task(taskType, b))
    case Err(e) => Err(e)
  }

  /** What the wrapped handler sees, or a task that is dead-lettered without a retry. */
  datatype Delivery = Delivered(ctx: Context, task: Task) | SkipRetry

  function WithEnvelope(isUuid: string -> bool, ctx: Context, task: Task): Delivery {
    match Unwrap(isUuid, task.body)
    case Err(_) => SkipRetry
    case Ok(env) =>
      Delivered(Context(env.tenantId, if env.requestId != "" then env.requestId else ctx.requestId),
                Task(task.taskType, env.payload))
  }

  /** A task crosses the queue with its tenant, payload and request id intact: the worker's own
      request id survives only when the producer had none. */
  lemma QueueKeepsCorrelation(isUuid: string -> bool, producer: Context, worker: Context,
                              taskType: string, tenantId: string, payload: string)
    requires IsValue(payload)
    ensures match EnqueueTask(isUuid, producer, taskType, tenantId, Some(payload))
            case Err(e) => !isUuid(tenantId) && e == InvalidEnvelope
            case Ok(task) =>
              var requestId := if producer.requestId == "" then worker.requestId else producer.requestId;
              && isUuid(tenantId)
              && WithEnvelope(isUuid, worker, task) == Delivered(Context(tenantId, requestId), Task(taskType, payload))
  {
    hide Unwrap, WrapWithRequestId;
    UnwrapUndoesWrap(isUuid, tenantId, producer.requestId, payload);
  }
}
