/** What a verifying audit log guarantees: appended rows verify, the head binds the
    whole log, and a change is reported at the row it was made. */
module AuditChain {
  import opened Results
  import opened Json
  import opened Redaction
  import opened Audit

  // ----- appended rows verify

  /** The row as a database gives it back: the same instant, perhaps written otherwise. */
  predicate StoredAs(e: Event, row: Event) {
    row == e.(occurredAt := row.occurredAt) && UtcOf(row.occurredAt) == UtcOf(e.occurredAt)
  }

  /** Metadata is a dictionary of dictionaries: each key once. */
  predicate ProperRequest(r: Request) {
    r.metadata.Some? ==> ProperMembers(r.metadata.value)
  }

  lemma {:induction false} SafeMetadataProper(r: Request)
    requires ProperRequest(r)
    ensures Proper(SafeMetadata(r))
  {
    RedactProper(Obj(match r.metadata case Some(ms) => ms case None => NoMembers));
  }

  /** The stored text of the metadata gives back the hash that was computed from the
      metadata itself. */
  lemma {:induction false} NewEventVerifies(env: Env, previous: Option<Event>, r: Request, now: Instant, row: Event)
    requires ProperRequest(r) && StoredAs(NewEvent(env, previous, r, now), row)
    ensures Calculated(env, row) == Some(row.eventHash)
  {
    var m := SafeMetadata(r);
    var e := NewEvent(env, previous, r, now);
    SafeMetadataProper(r);
    LoadsDumps(m);
    CanonProper(m);
    CanonIdempotent(m);
    CanonicalDeterminesFields(env, row, Canon(m), e.(eventHash := ""), m);
  }

  lemma {:induction false} LinkedRowExtends(env: Env, events: seq<Event>, row: Event)
    requires Chain(env, events)
    requires row.sequence == |events| + 1 && row.previousHash == HashBefore(events, |events|)
    requires Calculated(env, row) == Some(row.eventHash)
    ensures Chain(env, events + [row])
  {
    forall k | 0 <= k <= |events| ensures Linked(env, events + [row], k) {
      if k < |events| { assert Linked(env, events, k); }
    }
  }

  /** Appending to a verifying log gives a verifying log. */
  lemma {:induction false} AppendKeepsChain(env: Env, events: seq<Event>, r: Request, now: Instant, row: Event)
    requires Chain(env, events) && ProperRequest(r) && StoredAs(NewEvent(env, Last(events), r, now), row)
    ensures Chain(env, events + [row])
  {
    NewEventVerifies(env, Last(events), r, now, row);
    if events != [] { assert Linked(env, events, |events| - 1); }
    LinkedRowExtends(env, events, row);
  }

  /** A log that came about by appending only. */
  ghost predicate Built(env: Env, events: seq<Event>) {
    events == [] ||
    (Built(env, events[..|events| - 1])
     && exists r, now :: AppendedBy(env, events, r, now))
  }

  ghost predicate AppendedBy(env: Env, events: seq<Event>, r: Request, now: Instant)
    requires events != []
  {
    ProperRequest(r)
    && StoredAs(NewEvent(env, Last(events[..|events| - 1]), r, now), events[|events| - 1])
  }

  lemma {:induction false} BuiltVerifies(env: Env, events: seq<Event>)
    requires Built(env, events)
    ensures Chain(env, events)
  {
    if events != [] {
      var front := events[..|events| - 1];
      BuiltVerifies(env, front);
      var r, now :| AppendedBy(env, events, r, now);
      AppendKeepsChain(env, front, r, now, events[|events| - 1]);
      assert events == front + [events[|events| - 1]];
    }
  }

  /** The row for metadata that have been redacted to `m`. */
  function RowFor(env: Env, e: Event, m: Json): Event {
    e.(metadataJson := Dumps(m), eventHash := env.sha(Canonical(env, e, m)))
  }

  /** The text of the metadata determines the row. */
  lemma {:induction false} SameRowIff(env: Env, e: Event, m: Json, n: Json)
    requires Proper(m) && Proper(n)
    ensures RowFor(env, e, m) == RowFor(env, e, n) <==> Dumps(m) == Dumps(n)
  {
    if Dumps(m) == Dumps(n) {
      DumpsInjective(m, n);
      CanonicalDeterminesFields(env, e, m, e, n);
    }
  }

  /** What stands beneath sensitive keys leaves no trace in the row, not even in its
      hash, and all else does: the rows are the same exactly for metadata that, keys in
      order, differ beneath sensitive keys at most. */
  lemma {:induction false} SecretsLeaveNoTrace(
      env: Env, previous: Option<Event>, r: Request, a: Members, b: Members, now: Instant)
    requires ProperMembers(a) && ProperMembers(b)
    ensures NewEvent(env, previous, r.(metadata := Some(a)), now) ==
            NewEvent(env, previous, r.(metadata := Some(b)), now)
            <==> SameMembersButSecrets(CanonMembers(a), CanonMembers(b))
  {
    var e := NewEvent(env, previous, r.(metadata := Some(a)), now).(metadataJson := "", eventHash := "");
    RedactProper(Obj(a));
    RedactProper(Obj(b));
    SameRowIff(env, e, Redact(Obj(a)), Redact(Obj(b)));
    TextHidesExactlySecrets(Obj(a), Obj(b));
  }

  // ----- the head binds the log

  /** Both rows can be read and agree on every covered field. */
  predicate Agree(env: Env, a: Event, b: Event) {
    && Loads(a.metadataJson).Some? && Loads(b.metadataJson).Some?
    && SameRecord(env, a, Loads(a.metadataJson).value, b, Loads(b.metadataJson).value)
  }

  lemma {:induction false} EqualHashesAgree(env: Env, a: Event, b: Event)
    requires NoCollisions(env) && Calculated(env, a).Some? && Calculated(env, b).Some?
    ensures Calculated(env, a) == Calculated(env, b) <==> Agree(env, a, b)
  {
    LoadsProper(a.metadataJson);
    LoadsProper(b.metadataJson);
    CanonicalDeterminesFields(env, a, Loads(a.metadataJson).value, b, Loads(b.metadataJson).value);
  }

  /** A prefix of a verifying log verifies, with its own last hash as head. */
  lemma {:induction false} PrefixVerifies(env: Env, events: seq<Event>, n: nat)
    requires Chain(env, events) && n <= |events|
    ensures Reports(env, events[..n], Valid(n, HashBefore(events, n)))
  {
    forall k | 0 <= k < n ensures Linked(env, events[..n], k) {
      assert Linked(env, events, k);
    }
  }

  /** Equal heads: the last rows agree, so the logs are equally long and their
      prefixes have equal heads again. */
  lemma {:induction false} LastRowsAgree(env: Env, a: seq<Event>, b: seq<Event>)
    requires NoCollisions(env) && Chain(env, a) && Chain(env, b) && a != [] && b != []
    requires HashBefore(a, |a|) == HashBefore(b, |b|)
    ensures exists n :: |a| == |b| == n + 1 && AgreeAt(env, a, b, n) && HashBefore(a, n) == HashBefore(b, n)
  {
    var m, n := |a| - 1, |b| - 1;
    assert Linked(env, a, m) && Linked(env, b, n);
    assert Agree(env, a[m], b[n]) by { EqualHashesAgree(env, a[m], b[n]); }
    assert m == n && HashBefore(a, n) == HashBefore(b, n);
    assert AgreeAt(env, a, b, n);
  }

  /** Row `i` of both logs agrees on every covered field. */
  predicate AgreeAt(env: Env, a: seq<Event>, b: seq<Event>, i: int) {
    && 0 <= i < |a| && i < |b|
    && Agree(env, a[i], b[i]) && a[i].eventHash == b[i].eventHash
  }

  /** Two logs that verify and report the same head are the same log, as far as the
      hash covers it. */
  lemma {:induction false} HeadBindsLog(env: Env, a: seq<Event>, b: seq<Event>)
    requires NoCollisions(env) && Chain(env, a) && Chain(env, b) && a != [] && b != []
    requires HashBefore(a, |a|) == HashBefore(b, |b|)
    ensures |a| == |b| && forall i :: 0 <= i < |a| ==> AgreeAt(env, a, b, i)
  {
    LastRowsAgree(env, a, b);
    var n := |a| - 1;
    if n > 0 {
      PrefixVerifies(env, a, n);
      PrefixVerifies(env, b, n);
      HeadBindsLog(env, a[..n], b[..n]);
      forall i | 0 <= i < n ensures AgreeAt(env, a, b, i) { AgreeInFront(env, a, b, n, i); }
    }
  }

  lemma {:induction false} AgreeInFront(env: Env, a: seq<Event>, b: seq<Event>, n: nat, i: nat)
    requires i < n <= |a| && n <= |b|
    ensures AgreeAt(env, a[..n], b[..n], i) <==> AgreeAt(env, a, b, i)
  {
  }

  // ----- tampering is reported where it happened

  lemma {:induction false} OthersStayLinked(env: Env, events: seq<Event>, k: nat, e: Event, log: seq<Event>)
    requires Chain(env, events) && k < |events| && log == events[k := e]
    ensures forall j :: 0 <= j < k ==> Linked(env, log, j)
    ensures e.eventHash == events[k].eventHash ==> forall j :: k < j < |log| ==> Linked(env, log, j)
  {
    forall j | 0 <= j < |log| && j != k && (j < k || e.eventHash == events[k].eventHash)
      ensures Linked(env, log, j)
    {
      assert Linked(env, events, j);
    }
  }

  /** Changing row `k` but not its number or hash: reported at `k` exactly when the
      change is covered, and otherwise without effect on the report. */
  lemma {:induction false} ChangedRowIsReported(env: Env, events: seq<Event>, k: nat, e: Event)
    requires NoCollisions(env) && Chain(env, events) && k < |events|
    requires e.sequence == events[k].sequence && e.eventHash == events[k].eventHash
    requires Loads(e.metadataJson).Some?
    ensures !Agree(env, e, events[k]) ==> Reports(env, events[k := e], Failed(k + 1, |events|))
    ensures Agree(env, e, events[k]) ==> Reports(env, events[k := e], Valid(|events|, HashBefore(events, |events|)))
  {
    var log := events[k := e];
    assert Linked(env, events, k);
    EqualHashesAgree(env, e, events[k]);
    OthersStayLinked(env, events, k, e, log);
    assert HashBefore(log, k) == HashBefore(events, k);
    if !Agree(env, e, events[k]) {
      assert FailsAt(env, log, k);
    }
  }

  /** A row whose metadata no longer parses makes verification raise an exception. */
  lemma {:induction false} UnreadableRowRaises(env: Env, events: seq<Event>, k: nat, e: Event)
    requires Chain(env, events) && k < |events| && Loads(e.metadataJson).None?
    ensures Reports(env, events[k := e], Raised)
  {
    var log := events[k := e];
    OthersStayLinked(env, events, k, e, log);
    assert RaisesAt(env, log, k);
  }

  /** Row `k` of a verifying log is replaced by one that is linked but hashes otherwise. */
  ghost predicate Rehashed(env: Env, events: seq<Event>, log: seq<Event>, k: nat) {
    && k < |events| == |log|
    && (forall j :: 0 <= j < |events| && j != k ==> log[j] == events[j])
    && log[k].sequence == events[k].sequence && log[k].previousHash == events[k].previousHash
    && Calculated(env, log[k]) == Some(log[k].eventHash) && log[k].eventHash != events[k].eventHash
  }

  lemma {:induction false} RehashedLogLinked(env: Env, events: seq<Event>, log: seq<Event>, k: nat)
    requires Chain(env, events) && Rehashed(env, events, log, k)
    ensures forall j :: 0 <= j <= k ==> Linked(env, log, j)
  {
    forall j | 0 <= j <= k ensures Linked(env, log, j) { assert Linked(env, events, j); }
  }

  lemma {:induction false} RehashedLogReport(env: Env, events: seq<Event>, log: seq<Event>, k: nat)
    requires Chain(env, events) && Rehashed(env, events, log, k)
    ensures Reports(env, log, if k + 1 < |events| then Failed(k + 2, |events|) else Valid(|events|, log[k].eventHash))
  {
    RehashedLogLinked(env, events, log, k);
    if k + 1 < |events| {
      assert Linked(env, events, k + 1);
    }
  }

  /** Changing row `k` and recomputing its hash: reported at the next row, or, for the
      last row, only visible in the head. */
  lemma {:induction false} RehashedRowIsReported(env: Env, events: seq<Event>, k: nat, e: Event)
    requires NoCollisions(env) && Chain(env, events) && k < |events|
    requires e.sequence == events[k].sequence && e.previousHash == events[k].previousHash
    requires Calculated(env, e) == Some(e.eventHash) && !Agree(env, e, events[k])
    ensures k + 1 < |events| ==> Reports(env, events[k := e], Failed(k + 2, |events|))
    ensures k + 1 == |events| ==> Reports(env, events[k := e], Valid(|events|, e.eventHash))
                                  && e.eventHash != HashBefore(events, |events|)
  {
    assert Linked(env, events, k);
    EqualHashesAgree(env, e, events[k]);
    RehashedLogReport(env, events, events[k := e], k);
  }

  /** Deleting a row that is not the last is reported at the row that follows it. */
  lemma {:induction false} DeletedRowIsReported(env: Env, events: seq<Event>, k: nat)
    requires Chain(env, events) && k + 1 < |events|
    ensures Reports(env, events[..k] + events[k + 1..], Failed(k + 2, |events| - 1))
  {
    var log := events[..k] + events[k + 1..];
    forall j | 0 <= j < k ensures Linked(env, log, j) {
      assert Linked(env, events, j);
    }
    assert Linked(env, events, k + 1);
    assert log[k] == events[k + 1];
    assert FailsAt(env, log, k);
  }

  // ----- the log as the code uses it

  /** The table behind `append_event` and `verify_chain`, for one writer at a time. */
  class AuditLog {
    var events: seq<Event>
    const env: Env

    ghost predicate Valid()
      reads this
    {
      Chain(env, events)
    }

    constructor (env: Env)
      ensures events == [] && this.env == env && Valid()
    {
      this.env := env;
      events := [];
    }

    /** `append_event`: one more row, linked to the last one; `None` stands for the
        exception when the database does not commit it. */
    method Append(r: Request, now: Instant, commits: bool) returns (event: Option<Event>)
      requires Valid() && ProperRequest(r)
      modifies this
      ensures Valid()
      ensures event == if commits then Some(NewEvent(env, Last(old(events)), r, now)) else None
      ensures commits ==> Says(event.value, r, now)
      ensures events == if commits then old(events) + [event.value] else old(events)
    {
      var row := NewEvent(env, Last(events), r, now);
      if !commits { return None; }
      AppendKeepsChain(env, events, r, now, row);
      NewEventSays(env, Last(events), r, now);
      events := events + [row];
      event := Some(row);
    }

    /** `verify_chain` on a log that was only appended to. */
    method Verify() returns (report: Report)
      requires Valid()
      ensures report == Report.Valid(|events|, HashBefore(events, |events|))
    {
      report := VerifyChain(env, events);
      ReportIsUnique(env, events, report, Report.Valid(|events|, HashBefore(events, |events|)));
    }
  }
}
