/** The audit log: `append_event` and `verify_chain`, and what a verifying chain of
    hashes guarantees. */
module Audit {
  import opened Results
  import opened Sequences
  import opened Json
  import opened Redaction

  /** SHA-256 of a text in hexadecimal, and the formatting of a UTC time given in
      microseconds; neither is looked into. */
  datatype Env = Env(sha: string -> string, format: int -> string)

  /** The hypothesis, where one is needed, that the hash has no collisions. */
  ghost predicate NoCollisions(env: Env) {
    forall x: string, y: string :: env.sha(x) == env.sha(y) ==> x == y
  }

  /** A datetime: clock reading and UTC offset, both in microseconds; a database may
      give back a reading without offset, which stands for UTC. */
  datatype Instant = Instant(clock: int, offset: Option<int>)

  function UtcOf(t: Instant): int {
    match t.offset case None => t.clock case Some(o) => t.clock - o
  }

  /** `_timestamp` */
  function Timestamp(env: Env, t: Instant): string {
    env.format(UtcOf(t))
  }

  datatype Request = Request(
    actorId: Option<string>, actorRole: Option<string>, sourceIp: string, correlationId: string,
    action: string, target: string, result: string, metadata: Option<Members>)

  datatype Event = Event(
    sequence: int, occurredAt: Instant,
    actorId: Option<string>, actorRole: Option<string>, sourceIp: string, correlationId: string,
    action: string, target: string, result: string,
    metadataJson: string, previousHash: string, eventHash: string)

  /** The previous hash of the first row. */
  function Genesis(): string {
    seq(64, (i: nat) => '0')
  }

  // ----- the hashed record

  const FIELD_NAMES := [
    "sequence", "occurred_at", "actor_id", "actor_role", "source_ip", "correlation_id",
    "action", "target", "result", "metadata", "previous_hash"]

  function Nullable(s: Option<string>): Json {
    match s case None => Null case Some(t) => Str(t)
  }

  function FieldValues(env: Env, e: Event, metadata: Json): seq<Json> {
    [Int(e.sequence), Str(Timestamp(env, e.occurredAt)), Nullable(e.actorId), Nullable(e.actorRole),
     Str(e.sourceIp), Str(e.correlationId), Str(e.action), Str(e.target), Str(e.result),
     metadata, Str(e.previousHash)]
  }

  function Canonical(env: Env, e: Event, metadata: Json): string {
    Dumps(Obj(Fields(FIELD_NAMES, FieldValues(env, e, metadata))))
  }

  /** The dictionary that is hashed, name by name. */
  function RecordOf(env: Env, e: Event, m: Json): Members {
    Member("sequence", Int(e.sequence),
    Member("occurred_at", Str(Timestamp(env, e.occurredAt)),
    Member("actor_id", if e.actorId.Some? then Str(e.actorId.value) else Null,
    Member("actor_role", if e.actorRole.Some? then Str(e.actorRole.value) else Null,
    Member("source_ip", Str(e.sourceIp),
    Member("correlation_id", Str(e.correlationId),
    Member("action", Str(e.action),
    Member("target", Str(e.target),
    Member("result", Str(e.result),
    Member("metadata", m,
    Member("previous_hash", Str(e.previousHash), NoMembers)))))))))))
  }

  lemma {:induction false} FieldsFrom(names: seq<string>, values: seq<Json>, k: nat)
    requires |names| == |values| && k < |names|
    ensures Fields(names[k..], values[k..]) == Member(names[k], values[k], Fields(names[k + 1..], values[k + 1..]))
  {
    assert names[k..][1..] == names[k + 1..] && values[k..][1..] == values[k + 1..];
  }

  lemma {:induction false} ThreeFields(n: seq<string>, v: seq<Json>, k: nat)
    requires |n| == |v| && k + 3 <= |n|
    ensures Fields(n[k..], v[k..]) ==
            Member(n[k], v[k], Member(n[k + 1], v[k + 1], Member(n[k + 2], v[k + 2], Fields(n[k + 3..], v[k + 3..]))))
  {
    FieldsFrom(n, v, k);
    FieldsFrom(n, v, k + 1);
    FieldsFrom(n, v, k + 2);
  }

  lemma {:induction false} ElevenFields(n: seq<string>, v: seq<Json>)
    requires |n| == |v| == 11
    ensures Fields(n, v) ==
            Member(n[0], v[0], Member(n[1], v[1], Member(n[2], v[2], Member(n[3], v[3], Member(n[4], v[4],
            Member(n[5], v[5], Member(n[6], v[6], Member(n[7], v[7], Member(n[8], v[8], Member(n[9], v[9],
            Member(n[10], v[10], NoMembers)))))))))))
  {
    ThreeFields(n, v, 0);
    ThreeFields(n, v, 3);
    ThreeFields(n, v, 6);
    FieldsFrom(n, v, 9);
    FieldsFrom(n, v, 10);
    assert n[0..] == n && v[0..] == v;
    assert n[11..] == [];
  }

  /** The hashed text is that of this dictionary. */
  lemma {:induction false} CanonicalIsRecord(env: Env, e: Event, m: Json)
    ensures Canonical(env, e, m) == Dumps(Obj(RecordOf(env, e, m)))
  {
    ElevenFields(FIELD_NAMES, FieldValues(env, e, m));
  }

  // ----- appending

  function SafeMetadata(r: Request): Json {
    Redact(Obj(match r.metadata case Some(ms) => ms case None => NoMembers))
  }

  /** The row that `append_event` builds after it has read the last one. */
  function NewEvent(env: Env, previous: Option<Event>, r: Request, now: Instant): Event {
    var metadata := SafeMetadata(r);
    var e := Event(
      if previous.Some? then previous.value.sequence + 1 else 1, now,
      r.actorId, r.actorRole, r.sourceIp, r.correlationId, r.action, r.target, r.result,
      Dumps(metadata),
      if previous.Some? then previous.value.eventHash else Genesis(), "");
    e.(eventHash := env.sha(Canonical(env, e, metadata)))
  }

  function Last(events: seq<Event>): Option<Event> {
    if events == [] then None else Some(events[|events| - 1])
  }

  /** What a row says of the append that made it: who, what and when. */
  predicate Says(row: Event, r: Request, now: Instant) {
    && row.actorId == r.actorId && row.actorRole == r.actorRole && row.sourceIp == r.sourceIp
    && row.correlationId == r.correlationId && row.action == r.action && row.target == r.target
    && row.result == r.result && UtcOf(row.occurredAt) == UtcOf(now)
    && row.metadataJson == Dumps(Redact(Obj(match r.metadata case Some(ms) => ms case None => NoMembers)))
  }

  /** A new row says what was asked, and when; the first one follows 64 zeros. */
  lemma {:induction false} NewEventSays(env: Env, previous: Option<Event>, r: Request, now: Instant)
    ensures var row := NewEvent(env, previous, r, now);
            && Says(row, r, now)
            && row.eventHash == env.sha(Dumps(Obj(RecordOf(env, row, SafeMetadata(r)))))
            && (previous == None ==> row.sequence == 1 && |row.previousHash| == 64
                                     && forall i :: 0 <= i < 64 ==> row.previousHash[i] == '0')
            && (previous.Some? ==> row.sequence == previous.value.sequence + 1
                                   && row.previousHash == previous.value.eventHash)
  {
    CanonicalIsRecord(env, NewEvent(env, previous, r, now), SafeMetadata(r));
  }

  /** A time that shows more because of its offset is the same time in UTC. */
  lemma {:induction false} OffsetDoesNotShow(env: Env, utc: int, offset: int)
    ensures Timestamp(env, Instant(utc + offset, Some(offset))) == env.format(utc) == Timestamp(env, Instant(utc, None))
  {
  }

  // ----- verifying

  /** The hash that belongs to a row; `None` when its metadata cannot be read. */
  function Calculated(env: Env, e: Event): Option<string> {
    match Loads(e.metadataJson)
    case None => None
    case Some(metadata) => Some(env.sha(Canonical(env, e, metadata)))
  }

  datatype Report =
    | Valid(count: nat, head: string)
    | Failed(failedSequence: int, count: nat)
    | Raised  // json.loads raised an exception, or the text is outside what `Loads` models

  function HashBefore(events: seq<Event>, k: nat): string
    requires k <= |events|
  {
    if k == 0 then Genesis() else events[k - 1].eventHash
  }

  /** Row `k` has the number, the previous hash and the hash it should have. */
  predicate Linked(env: Env, events: seq<Event>, k: int) {
    && 0 <= k < |events|
    && events[k].sequence == k + 1
    && events[k].previousHash == HashBefore(events, k)
    && Calculated(env, events[k]) == Some(events[k].eventHash)
  }

  ghost predicate Chain(env: Env, events: seq<Event>) {
    forall k :: 0 <= k < |events| ==> Linked(env, events, k)
  }

  /** What is reported of a log: the first row that is not linked, if any. */
  ghost predicate Reports(env: Env, events: seq<Event>, report: Report) {
    if report.Valid? then
      Chain(env, events) && report.count == |events| && report.head == HashBefore(events, |events|)
    else if report.Failed? then
      report.count == |events| && exists k :: FailsAt(env, events, k) && events[k].sequence == report.failedSequence
    else
      exists k :: RaisesAt(env, events, k)
  }

  ghost predicate FailsAt(env: Env, events: seq<Event>, k: int) {
    FirstUnlinked(env, events, k) && Calculated(env, events[k]).Some?
  }

  ghost predicate RaisesAt(env: Env, events: seq<Event>, k: int) {
    FirstUnlinked(env, events, k) && Calculated(env, events[k]).None?
  }

  ghost predicate FirstUnlinked(env: Env, events: seq<Event>, k: int) {
    0 <= k < |events| && !Linked(env, events, k) && forall j :: 0 <= j < k ==> Linked(env, events, j)
  }

  /** `verify_chain`, over the rows in the order of their sequence numbers. */
  method VerifyChain(env: Env, events: seq<Event>) returns (report: Report)
    ensures Reports(env, events, report)
  {
    var expectedPrevious := Genesis();
    for i := 0 to |events|
      invariant expectedPrevious == HashBefore(events, i)
      invariant forall j :: 0 <= j < i ==> Linked(env, events, j)
    {
      var event := events[i];
      var calculated := Calculated(env, event);
      if calculated == None {
        assert RaisesAt(env, events, i);
        return Raised;
      }
      if event.sequence != i + 1 || event.previousHash != expectedPrevious || event.eventHash != calculated.value {
        assert FailsAt(env, events, i);
        return Failed(event.sequence, |events|);
      }
      expectedPrevious := event.eventHash;
    }
    report := Valid(|events|, expectedPrevious);
  }

  /** The report is determined by the log. */
  lemma {:induction false} ReportIsUnique(env: Env, events: seq<Event>, a: Report, b: Report)
    requires Reports(env, events, a) && Reports(env, events, b)
    ensures a == b
  {
    if a.Failed? && b.Failed? {
      var k :| FailsAt(env, events, k) && events[k].sequence == a.failedSequence;
      var l :| FailsAt(env, events, l) && events[l].sequence == b.failedSequence;
      assert k == l;
    }
  }

  // ----- the record determines the fields

  /** Two rows agree on everything that is hashed: the metadata as values. */
  predicate SameRecord(env: Env, a: Event, m: Json, b: Event, n: Json) {
    && a.sequence == b.sequence && Timestamp(env, a.occurredAt) == Timestamp(env, b.occurredAt)
    && a.actorId == b.actorId && a.actorRole == b.actorRole && a.sourceIp == b.sourceIp
    && a.correlationId == b.correlationId && a.action == b.action && a.target == b.target
    && a.result == b.result && a.previousHash == b.previousHash
    && Canon(m) == Canon(n)
  }

  predicate SameEleven(x: seq<Json>, y: seq<Json>)
    requires |x| == |y| == 11
  {
    && Canon(x[0]) == Canon(y[0]) && Canon(x[1]) == Canon(y[1]) && Canon(x[2]) == Canon(y[2])
    && Canon(x[3]) == Canon(y[3]) && Canon(x[4]) == Canon(y[4]) && Canon(x[5]) == Canon(y[5])
    && Canon(x[6]) == Canon(y[6]) && Canon(x[7]) == Canon(y[7]) && Canon(x[8]) == Canon(y[8])
    && Canon(x[9]) == Canon(y[9]) && Canon(x[10]) == Canon(y[10])
  }

  lemma {:induction false} FieldsOfRecord(env: Env, a: Event, m: Json, b: Event, n: Json)
    ensures SameRecord(env, a, m, b, n) <==> SameEleven(FieldValues(env, a, m), FieldValues(env, b, n))
  {
  }

  lemma {:induction false} FieldsAreProper(env: Env, e: Event, m: Json)
    requires Proper(m)
    ensures forall i :: 0 <= i < 11 ==> Proper(FieldValues(env, e, m)[i])
  {
  }

  /** The canonical text determines all eleven hashed fields. */
  lemma {:induction false} CanonicalDeterminesFields(env: Env, a: Event, m: Json, b: Event, n: Json)
    requires Proper(m) && Proper(n)
    ensures Canonical(env, a, m) == Canonical(env, b, n) <==> SameRecord(env, a, m, b, n)
  {
    var names := FIELD_NAMES;
    FieldsAreProper(env, a, m);
    FieldsAreProper(env, b, n);
    FieldsOfRecord(env, a, m, b, n);
    SameTexts(names, FieldValues(env, a, m), FieldValues(env, b, n));
  }

  lemma {:induction false} SameTexts(names: seq<string>, x: seq<Json>, y: seq<Json>)
    requires |names| == |x| == |y| == 11 && Distinct(names)
    requires forall i :: 0 <= i < 11 ==> Proper(x[i]) && Proper(y[i])
    ensures Dumps(Obj(Fields(names, x))) == Dumps(Obj(Fields(names, y))) <==>
            forall i :: 0 <= i < 11 ==> Canon(x[i]) == Canon(y[i])
  {
    FieldsDetermined(names, x, y);
  }
}
