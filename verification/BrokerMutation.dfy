/** `broker_mutation`: every change passes the rate limiter and leaves one audit event,
    unless an exception is not handled or the database does not commit. */
module BrokerMutation {
  import opened Results
  import opened Json
  import opened Redaction
  import opened Audit
  import opened AuditChain
  import opened RateLimiter

  /** What the broker does with a command: an answer, a BrokerError, or an exception
      that `broker_mutation` does not handle. */
  datatype Outcome = Answers(data: Members) | Refuses(message: string) | Crashes

  datatype Mutation = Mutation(
    subject: string, role: string, sourceIp: string, correlationId: string,
    action: string, target: string, before: Option<Members>, after: Option<Members>,
    tick: real, at: Instant, outcome: Outcome,
    commits: bool)  // whether the database takes the audit row

  datatype Response = Returned(data: Members) | TooManyRequests | BadGateway(message: string) | Unhandled

  const MUTATION_LIMIT: nat := 60
  const MUTATION_WINDOW: real := 60.0

  function MutationKey(subject: string, sourceIp: string): string {
    "mutation:" + subject + ":" + sourceIp
  }

  function LimiterCall(m: Mutation): Call {
    Call(MutationKey(m.subject, m.sourceIp), MUTATION_LIMIT, MUTATION_WINDOW, m.tick)
  }

  function OptionalObject(ms: Option<Members>): Json {
    match ms case None => Null case Some(o) => Obj(o)
  }

  function Recorded(m: Mutation, result: string, metadata: Option<Members>): Request {
    Request(Some(m.subject), Some(m.role), m.sourceIp, m.correlationId, m.action, m.target, result, metadata)
  }

  const RATE_LIMITED := "rate_limited"

  /** The event of a call that was let through or not; `None` when the exception passes
      `broker_mutation` by. */
  function EventOf(m: Mutation, accepted: bool): Option<Request> {
    if !accepted then Some(Recorded(m, RATE_LIMITED, None))
    else match m.outcome
      case Answers(data) =>
        var after := if m.after.Some? then m.after.value else data;
        Some(Recorded(m, "success",
          Some(Member("before", OptionalObject(m.before), Member("after", Obj(after), NoMembers)))))
      case Refuses(message) =>
        Some(Recorded(m, "failure",
          Some(Member("before", OptionalObject(m.before), Member("error", Str(message), NoMembers)))))
      case Crashes => None
  }

  predicate ProperMutation(m: Mutation) {
    && (m.before.Some? ==> ProperMembers(m.before.value))
    && (m.after.Some? ==> ProperMembers(m.after.value))
    && (m.outcome.Answers? ==> ProperMembers(m.outcome.data))
  }

  lemma {:induction false} EventIsProper(m: Mutation, accepted: bool)
    requires ProperMutation(m) && EventOf(m, accepted).Some?
    ensures ProperRequest(EventOf(m, accepted).value)
  {
    var k, a, e := "before", "after", "error";
    assert |k| == 6 && |a| == 5 && |e| == 5;
    if accepted && m.outcome.Answers? {
      TwoMembers(k, OptionalObject(m.before), a, Obj(if m.after.Some? then m.after.value else m.outcome.data));
    } else if accepted {
      TwoMembers(k, OptionalObject(m.before), e, Str(m.outcome.message));
    }
  }

  lemma {:induction false} TwoMembers(k: string, v: Json, l: string, w: Json)
    requires k != l && Proper(v) && Proper(w)
    ensures ProperMembers(Member(k, v, Member(l, w, NoMembers)))
  {
    assert !HasKey(NoMembers, k) && !HasKey(NoMembers, l) && ProperMembers(NoMembers);
    assert !HasKey(Member(l, w, NoMembers), k) && ProperMembers(Member(l, w, NoMembers));
  }

  // ----- the code

  class Service {
    const limiter: Limiter
    const log: AuditLog
    /** The commands that have been sent to the broker. */
    var sent: seq<Mutation>

    ghost predicate Valid()
      reads this, limiter, log
    {
      limiter.Valid() && log.Valid()
    }

    constructor (env: Env)
      ensures Valid() && fresh(limiter) && fresh(log)
      ensures limiter.calls == [] && log.events == [] && sent == [] && log.env == env
    {
      limiter := new Limiter();
      log := new AuditLog(env);
      sent := [];
    }

    ghost function State(): World
      reads this, limiter, log
    {
      World(limiter.calls, log.events, sent)
    }

    /** `audit`: records how the call went; false stands for the exception. */
    method Audit(m: Mutation, accepted: bool) returns (recorded: bool)
      requires Valid() && ProperMutation(m) && EventOf(m, accepted).Some?
      modifies log
      ensures log.Valid() && recorded == m.commits
      ensures log.events == Record(log.env, old(log.events), EventOf(m, accepted), m.at, m.commits)
    {
      EventIsProper(m, accepted);
      var event := log.Append(EventOf(m, accepted).value, m.at, m.commits);
      recorded := event.Some?;
    }

    /** `broker_mutation` */
    method Mutate(m: Mutation) returns (response: Response)
      requires Valid() && ProperMutation(m)
      modifies this, limiter, log
      ensures Valid()
      ensures State() == Step(log.env, old(State()), Action.Mutate(m))
      ensures response ==
              if !m.commits then Unhandled
              else if !LetThrough(old(State()), m) then TooManyRequests
              else match m.outcome
                case Answers(data) => Returned(data)
                case Refuses(message) => BadGateway(message)
                case Crashes => Unhandled
    {
      var c := LimiterCall(m);
      var accepted := limiter.Check(c.key, c.limit, c.window, c.now);
      if !accepted {
        var recorded := Audit(m, false);
        return if recorded then TooManyRequests else Unhandled;
      }
      sent := sent + [m];
      match m.outcome {
        case Answers(data) =>
          var recorded := Audit(m, true);
          response := if recorded then Returned(data) else Unhandled;
        case Refuses(message) =>
          var recorded := Audit(m, true);
          response := if recorded then BadGateway(message) else Unhandled;
        case Crashes =>
          response := Unhandled;
      }
    }
  }

  // ----- whole runs

  /** What the process does: a mutation, or, for other requests, a check under another
      key or an event of their own. */
  datatype Action = Mutate(m: Mutation) | OtherCheck(call: Call) | OtherEvent(r: Request, at: Instant, commits: bool)

  /** The limiter's calls, the audit rows and the commands sent. */
  datatype World = World(calls: seq<Call>, events: seq<Event>, sent: seq<Mutation>)

  /** The limiter lets the mutation through. */
  predicate LetThrough(w: World, m: Mutation) {
    Accepted(w.calls + [LimiterCall(m)], |w.calls|)
  }

  function Record(env: Env, events: seq<Event>, r: Option<Request>, at: Instant, commits: bool): seq<Event> {
    if r == None || !commits then events else events + [NewEvent(env, Last(events), r.value, at)]
  }

  function Step(env: Env, w: World, a: Action): World {
    match a
    case Mutate(m) =>
      World(w.calls + [LimiterCall(m)],
            Record(env, w.events, EventOf(m, LetThrough(w, m)), m.at, m.commits),
            if LetThrough(w, m) then w.sent + [m] else w.sent)
    case OtherCheck(call) => w.(calls := w.calls + [call])
    case OtherEvent(r, at, commits) => w.(events := Record(env, w.events, Some(r), at, commits))
  }

  function RunAll(env: Env, actions: seq<Action>): World {
    if actions == [] then World([], [], [])
    else Step(env, RunAll(env, actions[..|actions| - 1]), actions[|actions| - 1])
  }

  ghost predicate ProperAction(a: Action) {
    match a
    case Mutate(m) => ProperMutation(m)
    case OtherCheck(call) => !("mutation:" <= call.key)
    case OtherEvent(r, _, _) => ProperRequest(r)
  }

  lemma {:induction false} RecordKeepsChain(
      env: Env, events: seq<Event>, r: Option<Request>, at: Instant, commits: bool)
    requires Chain(env, events) && (r.Some? ==> ProperRequest(r.value))
    ensures Chain(env, Record(env, events, r, at, commits))
  {
    if r.Some? && commits { AppendKeepsChain(env, events, r.value, at, NewEvent(env, Last(events), r.value, at)); }
  }

  /** The audit log verifies after every run. */
  lemma {:induction false} LogAlwaysVerifies(env: Env, actions: seq<Action>)
    requires forall i :: 0 <= i < |actions| ==> ProperAction(actions[i])
    ensures Chain(env, RunAll(env, actions).events)
  {
    if actions != [] {
      var n := |actions| - 1;
      var w := RunAll(env, actions[..n]);
      LogAlwaysVerifies(env, actions[..n]);
      match actions[n] {
        case Mutate(m) =>
          var event := EventOf(m, LetThrough(w, m));
          if event.Some? { EventIsProper(m, LetThrough(w, m)); }
          RecordKeepsChain(env, w.events, event, m.at, m.commits);
        case OtherCheck(_) =>
        case OtherEvent(r, at, commits) => RecordKeepsChain(env, w.events, Some(r), at, commits);
      }
    }
  }

  // ----- events and commands

  /** The step leaves no event although it should: the broker's exception passes
      `broker_mutation` by, or the row is not committed. */
  predicate Lost(w: World, a: Action) {
    match a
    case Mutate(m) => !m.commits || (LetThrough(w, m) && m.outcome.Crashes?)
    case OtherCheck(_) => false
    case OtherEvent(_, _, commits) => !commits
  }

  /** What stands in the metadata: nothing when the limiter refused; otherwise the redacted
      state before, and the redacted state after, given or answered, or the error. */
  ghost predicate Details(text: string, m: Mutation, accepted: bool) {
    && Loads(text).Some? && Loads(text).value.Obj?
    && var ms := Loads(text).value.members;
       && (forall k :: HasKey(ms, k) <==>
             && accepted
             && (k == "before" || (k == "after" && m.outcome.Answers?) || (k == "error" && m.outcome.Refuses?)))
       && (accepted ==> Get(ms, "before") == if m.before.Some? then Canon(Redact(Obj(m.before.value))) else Null)
       && (accepted && m.outcome.Answers? ==>
             Get(ms, "after") == Canon(Redact(Obj(if m.after.Some? then m.after.value else m.outcome.data))))
       && (accepted && m.outcome.Refuses? ==> Get(ms, "error") == Str(m.outcome.message))
  }

  /** What a row says of a mutation: who, what, when, and what became of it. */
  ghost predicate Tells(e: Event, m: Mutation, accepted: bool) {
    && e.actorId == Some(m.subject) && e.actorRole == Some(m.role) && e.sourceIp == m.sourceIp
    && e.correlationId == m.correlationId && e.action == m.action && e.target == m.target
    && UtcOf(e.occurredAt) == UtcOf(m.at)
    && (e.result == "rate_limited" <==> !accepted)
    && (e.result == "success" <==> accepted && m.outcome.Answers?)
    && (e.result == "failure" <==> accepted && m.outcome.Refuses?)
    && (ProperMutation(m) ==> Details(e.metadataJson, m, accepted))
  }

  lemma {:induction false} NotSensitive(key: string)
    requires key == "before" || key == "after" || key == "error"
    ensures !IsSensitive(key)
  {
    SensitiveIff(key);
    forall part, i
      | part in {"password", "secret", "token", "authorization", "cookie", "private_key", "payload"}
        && 0 <= i && i + |part| <= |key|
      ensures !SpelledAt(key, part, i)
    {
      assert |part| >= 5;
      assert key[i..i + |part|][0] == key[i] && key[i..i + |part|][1] == key[i + 1];
    }
  }

  /** A redacted dictionary of two plain names, as it is read back. */
  lemma {:induction false} ReadBack(k: string, v: Json, l: string, w: Json)
    requires k != l && !IsSensitive(k) && !IsSensitive(l) && Proper(v) && Proper(w)
    ensures var text := Loads(Dumps(Redact(Obj(Member(k, v, Member(l, w, NoMembers))))));
            && text.Some? && text.value.Obj?
            && var ms := text.value.members;
               && (forall key :: HasKey(ms, key) <==> key == k || key == l)
               && Get(ms, k) == Canon(Redact(v)) && Get(ms, l) == Canon(Redact(w))
  {
    var ms := RedactMembers(Member(k, v, Member(l, w, NoMembers)));
    TwoMembers(k, v, l, w);
    RedactMembersProper(Member(k, v, Member(l, w, NoMembers)));
    LoadsDumps(Obj(ms));
    assert RedactMembers(Member(l, w, NoMembers)) == Member(l, Redact(w), NoMembers);
    assert ms == Member(k, Redact(v), Member(l, Redact(w), NoMembers));
    forall key ensures HasKey(CanonMembers(ms), key) <==> key == k || key == l {
      CanonMember(ms, key);
      assert HasKey(ms.rest, key) <==> key == l;
    }
    CanonMember(ms, k);
    CanonMember(ms, l);
  }

  lemma {:induction false} EventDetails(m: Mutation, accepted: bool)
    requires ProperMutation(m) && EventOf(m, accepted).Some?
    ensures Details(Dumps(SafeMetadata(EventOf(m, accepted).value)), m, accepted)
  {
    var b, a, e := "before", "after", "error";
    assert |b| == 6 && |a| == 5 && |e| == 5 && a[0] == 'a' && e[0] == 'e';
    NotSensitive(b);
    NotSensitive(a);
    NotSensitive(e);
    if !accepted {
      LoadsDumps(Obj(NoMembers));
    } else if m.outcome.Answers? {
      ReadBack(b, OptionalObject(m.before), a, Obj(if m.after.Some? then m.after.value else m.outcome.data));
    } else {
      ReadBack(b, OptionalObject(m.before), e, Str(m.outcome.message));
    }
  }

  /** One call of `broker_mutation`: a command exactly when the limiter lets it through,
      and one more event, which tells what became of it, exactly when it is not lost. */
  lemma {:induction false} OneEventPerMutation(env: Env, w: World, m: Mutation)
    ensures var next := Step(env, w, Mutate(m));
            && next.sent == (if LetThrough(w, m) then w.sent + [m] else w.sent)
            && (Lost(w, Mutate(m)) ==> next.events == w.events)
            && (!Lost(w, Mutate(m)) ==>
                  && |next.events| == |w.events| + 1 && w.events <= next.events
                  && Tells(next.events[|w.events|], m, LetThrough(w, m)))
  {
    assert "success"[0] == 's' && "failure"[0] == 'f' && RATE_LIMITED[0] == 'r';
    if !Lost(w, Mutate(m)) {
      NewEventSays(env, Last(w.events), EventOf(m, LetThrough(w, m)).value, m.at);
      if ProperMutation(m) { EventDetails(m, LetThrough(w, m)); }
    }
  }

  /** The actions that should leave an event. */
  function Recording(actions: seq<Action>): nat {
    if actions == [] then 0
    else Recording(actions[..|actions| - 1]) + if actions[|actions| - 1].OtherCheck? then 0 else 1
  }

  function LostIn(env: Env, actions: seq<Action>): nat {
    if actions == [] then 0
    else
      var n := |actions| - 1;
      LostIn(env, actions[..n]) + if Lost(RunAll(env, actions[..n]), actions[n]) then 1 else 0
  }

  ghost predicate NoneLost(env: Env, actions: seq<Action>) {
    forall i :: 0 <= i < |actions| ==> !LostAt(env, actions, i)
  }

  predicate LostAt(env: Env, actions: seq<Action>, i: int) {
    0 <= i < |actions| && Lost(RunAll(env, actions[..i]), actions[i])
  }

  lemma {:induction false} LostAtInFront(env: Env, actions: seq<Action>, n: nat, i: nat)
    requires i < n <= |actions|
    ensures LostAt(env, actions[..n], i) <==> LostAt(env, actions, i)
  {
    assert actions[..n][..i] == actions[..i];
  }

  lemma {:induction false} NoneLostStep(env: Env, actions: seq<Action>, n: nat)
    requires n + 1 == |actions|
    ensures NoneLost(env, actions) <==> NoneLost(env, actions[..n]) && !LostAt(env, actions, n)
  {
    forall i | 0 <= i < n ensures LostAt(env, actions[..n], i) <==> LostAt(env, actions, i) {
      LostAtInFront(env, actions, n, i);
    }
    if NoneLost(env, actions[..n]) && !LostAt(env, actions, n) {
      forall i | 0 <= i < |actions| ensures !LostAt(env, actions, i) { assert i < n || i == n; }
    }
  }

  lemma {:induction false} NoneLostIff(env: Env, actions: seq<Action>)
    ensures NoneLost(env, actions) <==> LostIn(env, actions) == 0
  {
    if actions != [] {
      NoneLostStep(env, actions, |actions| - 1);
      NoneLostIff(env, actions[..|actions| - 1]);
    }
  }

  lemma {:induction false} EventsAddUp(env: Env, actions: seq<Action>)
    ensures |RunAll(env, actions).events| + LostIn(env, actions) == Recording(actions)
  {
    if actions != [] {
      var n := |actions| - 1;
      EventsAddUp(env, actions[..n]);
      if actions[n].Mutate? { OneEventPerMutation(env, RunAll(env, actions[..n]), actions[n].m); }
    }
  }

  /** Over every run: the events and the lost ones add up to what should be recorded, so
      there is one event for each exactly when nothing was lost. */
  lemma {:induction false} OneEventEach(env: Env, actions: seq<Action>)
    ensures |RunAll(env, actions).events| + LostIn(env, actions) == Recording(actions)
    ensures |RunAll(env, actions).events| == Recording(actions) <==> NoneLost(env, actions)
  {
    EventsAddUp(env, actions);
    NoneLostIff(env, actions);
  }

  /** The rows that do not say `rate_limited`. */
  function Unlimited(events: seq<Event>): seq<Event> {
    if events == [] then []
    else
      var n := |events| - 1;
      if events[n].result == RATE_LIMITED then Unlimited(events[..n]) else Unlimited(events[..n]) + [events[n]]
  }

  /** Commands that were sent without leaving an event. */
  function LostCommands(env: Env, actions: seq<Action>): nat {
    if actions == [] then 0
    else
      var n := |actions| - 1;
      var w := RunAll(env, actions[..n]);
      LostCommands(env, actions[..n])
      + if actions[n].Mutate? && LetThrough(w, actions[n].m) && Lost(w, actions[n]) then 1 else 0
  }

  /** Rows of other requests that do not say `rate_limited`. */
  function OtherRows(actions: seq<Action>): nat {
    if actions == [] then 0
    else
      var last := actions[|actions| - 1];
      OtherRows(actions[..|actions| - 1])
      + if last.OtherEvent? && last.commits && last.r.result != RATE_LIMITED then 1 else 0
  }

  /** Over every run: the commands sent are as many as the rows that do not say
      `rate_limited`, but for the rows of other requests and the lost ones. */
  lemma {:induction false} CommandsAddUp(env: Env, actions: seq<Action>)
    ensures var w := RunAll(env, actions);
            |w.sent| + OtherRows(actions) == |Unlimited(w.events)| + LostCommands(env, actions)
  {
    if actions != [] {
      var n := |actions| - 1;
      var w := RunAll(env, actions[..n]);
      CommandsAddUp(env, actions[..n]);
      match actions[n] {
        case Mutate(m) => StepUnlimited(env, w, m);
        case OtherCheck(_) =>
        case OtherEvent(_, _, _) =>
      }
    }
  }

  lemma {:induction false} StepUnlimited(env: Env, w: World, m: Mutation)
    ensures var before, after := Unlimited(w.events), Unlimited(Step(env, w, Mutate(m)).events);
            if LetThrough(w, m) && !Lost(w, Mutate(m))
            then exists row :: after == before + [row] && Tells(row, m, true)
            else after == before
  {
    OneEventPerMutation(env, w, m);
  }

  /** When nothing is lost and no other request records anything, the rows that do not
      say `rate_limited` tell the commands that were sent, one by one and in order. */
  lemma {:induction false} RowsTellCommands(env: Env, actions: seq<Action>)
    requires NoneLost(env, actions) && forall i :: 0 <= i < |actions| ==> !actions[i].OtherEvent?
    ensures var w := RunAll(env, actions);
            && |Unlimited(w.events)| == |w.sent|
            && forall i :: 0 <= i < |w.sent| ==> Tells(Unlimited(w.events)[i], w.sent[i], true)
  {
    if actions != [] {
      var n := |actions| - 1;
      var w := RunAll(env, actions[..n]);
      NoneLostStep(env, actions, n);
      RowsTellCommands(env, actions[..n]);
      if actions[n].Mutate? { StepUnlimited(env, w, actions[n].m); }
    }
  }

  lemma {:induction false} EventsOnlyGrow(env: Env, actions: seq<Action>, n: nat)
    requires n <= |actions|
    ensures RunAll(env, actions[..n]).events <= RunAll(env, actions).events
    decreases |actions|
  {
    var last := |actions| - 1;
    if n == |actions| {
      assert actions[..n] == actions;
    } else {
      EventsOnlyGrow(env, actions[..last], n);
      assert actions[..last][..n] == actions[..n];
      StepGrows(env, RunAll(env, actions[..last]), actions[last]);
    }
  }

  lemma {:induction false} StepGrows(env: Env, w: World, a: Action)
    ensures w.events <= Step(env, w, a).events
  {
  }

  /** Where in the log the row of action `i` stands. */
  function RowOf(env: Env, actions: seq<Action>, i: nat): int
    requires i < |actions|
  {
    Recording(actions[..i]) - LostIn(env, actions[..i])
  }

  /** In every run, each mutation that is not lost has its own row, which tells whether
      the limiter let it through and what became of it. */
  lemma {:induction false} MutationHasRow(env: Env, actions: seq<Action>, i: nat)
    requires i < |actions| && actions[i].Mutate? && !LostAt(env, actions, i)
    ensures var events, row := RunAll(env, actions).events, RowOf(env, actions, i);
            0 <= row < |events| && Tells(events[row], actions[i].m, LetThrough(RunAll(env, actions[..i]), actions[i].m))
  {
    var w := RunAll(env, actions[..i]);
    OneEventEach(env, actions[..i]);
    OneEventPerMutation(env, w, actions[i].m);
    assert actions[..i + 1][..i] == actions[..i];
    EventsOnlyGrow(env, actions, i + 1);
  }

  /** No two actions that are not lost share a row. */
  lemma {:induction false} RowsDiffer(env: Env, actions: seq<Action>, i: nat, j: nat)
    requires i < j < |actions| && !actions[i].OtherCheck? && !LostAt(env, actions, i)
    ensures RowOf(env, actions, i) < RowOf(env, actions, j)
    decreases j
  {
    var n := j - 1;
    assert actions[..j][..n] == actions[..n];
    if i < n { RowsDiffer(env, actions, i, n); }
  }

  // ----- the rate of commands

  /** The times at which commands of a key were sent. */
  function SentTimes(sent: seq<Mutation>, key: string): seq<real> {
    if sent == [] then []
    else
      var n := |sent| - 1;
      SentTimes(sent[..n], key)
      + if MutationKey(sent[n].subject, sent[n].sourceIp) == key then [sent[n].tick] else []
  }

  lemma {:induction false} HistoryOfNext(calls: seq<Call>, c: Call, key: string)
    ensures History(calls + [c], key) ==
            History(calls, key) + if c.key == key && Accepted(calls + [c], |calls|) then [c.now] else []
  {
    assert (calls + [c])[..|calls|] == calls;
  }

  /** Commands are sent at exactly the times the limiter has let a mutation through. */
  lemma {:induction false} SentIsHistory(env: Env, actions: seq<Action>, key: string)
    requires forall i :: 0 <= i < |actions| ==> ProperAction(actions[i])
    requires "mutation:" <= key
    ensures SentTimes(RunAll(env, actions).sent, key) == History(RunAll(env, actions).calls, key)
  {
    if actions != [] {
      var n := |actions| - 1;
      var w := RunAll(env, actions[..n]);
      SentIsHistory(env, actions[..n], key);
      match actions[n] {
        case Mutate(m) =>
          HistoryOfNext(w.calls, LimiterCall(m), key);
          assert (w.sent + [m])[..|w.sent|] == w.sent;
        case OtherCheck(call) => HistoryOfNext(w.calls, call, key);
        case OtherEvent(_, _, _) =>
      }
    }
  }

  lemma {:induction false} MutationsAreSteady(env: Env, actions: seq<Action>, key: string, i: nat)
    requires forall i :: 0 <= i < |actions| ==> ProperAction(actions[i])
    requires "mutation:" <= key && i < |RunAll(env, actions).calls| && RunAll(env, actions).calls[i].key == key
    ensures RunAll(env, actions).calls[i].limit == MUTATION_LIMIT
    ensures RunAll(env, actions).calls[i].window == MUTATION_WINDOW
  {
    var n := |actions| - 1;
    var w := RunAll(env, actions[..n]);
    if i < |w.calls| { MutationsAreSteady(env, actions[..n], key, i); }
  }

  /** The clock does not go back for the calls of one key. */
  ghost predicate ClockRuns(calls: seq<Call>, key: string) {
    forall i, j :: 0 <= i < j < |calls| ==> ClockInOrder(calls, key, i, j)
  }

  lemma {:induction false} MutationsSteady(env: Env, actions: seq<Action>, key: string)
    requires forall i :: 0 <= i < |actions| ==> ProperAction(actions[i])
    requires "mutation:" <= key && ClockRuns(RunAll(env, actions).calls, key)
    ensures Steady(RunAll(env, actions).calls, key, MUTATION_LIMIT, MUTATION_WINDOW)
  {
    var calls := RunAll(env, actions).calls;
    forall i | 0 <= i < |calls| ensures UnderRule(calls[i], key, MUTATION_LIMIT, MUTATION_WINDOW) {
      if calls[i].key == key { MutationsAreSteady(env, actions, key, i); }
    }
  }

  lemma {:induction false} BoundOfHistory(times: seq<real>, calls: seq<Call>, key: string, lo: real, k: nat)
    requires times == History(calls, key) && Steady(calls, key, MUTATION_LIMIT, MUTATION_WINDOW)
    ensures CountIn(times, lo, lo + k as real * MUTATION_WINDOW) <= k * MUTATION_LIMIT
  {
    RateBound(calls, key, MUTATION_LIMIT, MUTATION_WINDOW, lo, k);
  }

  /** In any half-open interval of `k` times 60 seconds at most `60 * k` commands are
      sent for one key, whatever else the process limits or records. */
  lemma {:induction false} SendRateIsBounded(env: Env, actions: seq<Action>, key: string, lo: real, k: nat)
    requires forall i :: 0 <= i < |actions| ==> ProperAction(actions[i])
    requires "mutation:" <= key && ClockRuns(RunAll(env, actions).calls, key)
    ensures var times := SentTimes(RunAll(env, actions).sent, key);
            CountIn(times, lo, lo + k as real * 60.0) <= 60 * k
  {
    MutationsSteady(env, actions, key);
    SentIsHistory(env, actions, key);
    BoundOfHistory(SentTimes(RunAll(env, actions).sent, key), RunAll(env, actions).calls, key, lo, k);
  }

  /** The times at which commands of one actor and address were sent. */
  function CommandTimes(sent: seq<Mutation>, subject: string, sourceIp: string): seq<real> {
    if sent == [] then []
    else
      var n := |sent| - 1;
      CommandTimes(sent[..n], subject, sourceIp)
      + if sent[n].subject == subject && sent[n].sourceIp == sourceIp then [sent[n].tick] else []
  }

  lemma {:induction false} CountInAppend(times: seq<real>, more: seq<real>, lo: real, hi: real)
    requires |more| <= 1
    ensures CountIn(times + more, lo, hi) == CountIn(times, lo, hi) + CountIn(more, lo, hi)
  {
    if more == [] {
      assert times + more == times;
    } else {
      assert (times + more)[..|times|] == times && more[..0] == [];
    }
  }

  /** Actors whose keys coincide share a limit, so each of them is bounded by it. */
  lemma {:induction false} CommandsOfKey(sent: seq<Mutation>, subject: string, sourceIp: string, lo: real, hi: real)
    ensures CountIn(CommandTimes(sent, subject, sourceIp), lo, hi) <=
            CountIn(SentTimes(sent, MutationKey(subject, sourceIp)), lo, hi)
  {
    if sent != [] {
      var n := |sent| - 1;
      var m, key := sent[n], MutationKey(subject, sourceIp);
      CommandsOfKey(sent[..n], subject, sourceIp, lo, hi);
      CountInAppend(CommandTimes(sent[..n], subject, sourceIp),
                    if m.subject == subject && m.sourceIp == sourceIp then [m.tick] else [], lo, hi);
      CountInAppend(SentTimes(sent[..n], key),
                    if MutationKey(m.subject, m.sourceIp) == key then [m.tick] else [], lo, hi);
    }
  }

  lemma {:induction false} ActorWithinKey(sent: seq<Mutation>, subject: string, sourceIp: string, lo: real, k: nat)
    ensures CountIn(CommandTimes(sent, subject, sourceIp), lo, lo + k as real * 60.0) <=
            CountIn(SentTimes(sent, MutationKey(subject, sourceIp)), lo, lo + k as real * 60.0)
  {
    CommandsOfKey(sent, subject, sourceIp, lo, lo + k as real * 60.0);
  }

  /** So at most `60 * k` commands in `k` minutes for one actor at one address. */
  lemma {:induction false} ActorRateIsBounded(
      env: Env, actions: seq<Action>, subject: string, sourceIp: string, lo: real, k: nat)
    requires forall i :: 0 <= i < |actions| ==> ProperAction(actions[i])
    requires ClockRuns(RunAll(env, actions).calls, MutationKey(subject, sourceIp))
    ensures var times := CommandTimes(RunAll(env, actions).sent, subject, sourceIp);
            CountIn(times, lo, lo + k as real * 60.0) <= 60 * k
  {
    SendRateIsBounded(env, actions, MutationKey(subject, sourceIp), lo, k);
    ActorWithinKey(RunAll(env, actions).sent, subject, sourceIp, lo, k);
  }

  /** Who shares a limit: actor and address count as one text. */
  lemma {:induction false} SameKeyIff(s: string, i: string, t: string, j: string)
    ensures MutationKey(s, i) == MutationKey(t, j) <==> s + ":" + i == t + ":" + j
    ensures ':' !in s && ':' !in t ==> (MutationKey(s, i) == MutationKey(t, j) <==> s == t && i == j)
  {
    var p := "mutation:";
    assert MutationKey(s, i) == p + (s + ":" + i) && MutationKey(t, j) == p + (t + ":" + j);
    assert (p + (s + ":" + i))[|p|..] == s + ":" + i && (p + (t + ":" + j))[|p|..] == t + ":" + j;
    if ':' !in s && ':' !in t && s + ":" + i == t + ":" + j { FirstColon(s, i, t, j); }
  }

  lemma {:induction false} FirstColon(s: string, i: string, t: string, j: string)
    requires ':' !in s && ':' !in t && s + ":" + i == t + ":" + j
    ensures s == t && i == j
  {
    var u := s + ":" + i;
    assert u[|s|] == ':' && u[|t|] == ':';
    forall k | 0 <= k < |s| ensures u[k] != ':' { assert u[k] == s[k]; }
    forall k | 0 <= k < |t| ensures u[k] != ':' { assert u[k] == t[k]; }
    assert s == u[..|s|] && t == u[..|t|] && i == u[|s| + 1..] && j == u[|t| + 1..];
  }
}
