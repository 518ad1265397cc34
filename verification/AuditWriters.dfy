/** Any number of writers in `append_event` at once, each taking its steps between
    those of the others: the committed table is always one verifying chain. */
module AuditWriters {
  import opened Results
  import opened Sequences
  import opened Audit
  import opened AuditChain

  /** How far a writer has come in its transaction. */
  datatype Phase =
    | Start
    | Locked
    | HasRead(previous: Option<Event>)
    | Pending(row: Event, at: Instant)
    | Done(at: Instant)
    | Aborted

  /** `locking` tells the PostgreSQL path, with the advisory lock, from the other. */
  datatype Writer = Writer(locking: bool, request: Request, phase: Phase)

  /** The committed rows with, for each, the writer it came from; the holder of the
      advisory lock; and all writers. */
  datatype System = System(table: seq<Event>, authors: seq<nat>, holder: Option<nat>, writers: map<nat, Writer>)

  /** The row with the greatest sequence number. */
  ghost predicate Greatest(table: seq<Event>, previous: Option<Event>) {
    match previous
    case None => table == []
    case Some(e) => e in table && forall r :: r in table ==> r.sequence <= e.sequence
  }

  /** The unique columns `sequence` and `event_hash`. */
  ghost predicate Admissible(table: seq<Event>, row: Event) {
    forall i :: 0 <= i < |table| ==> table[i].sequence != row.sequence && table[i].eventHash != row.eventHash
  }

  function Release(s: System, w: nat): Option<nat> {
    if s.holder == Some(w) then None else s.holder
  }

  function Moved(s: System, w: nat, phase: Phase): map<nat, Writer>
    requires w in s.writers
  {
    s.writers[w := s.writers[w].(phase := phase)]
  }

  // ----- the steps of one writer

  ghost predicate Acquire(s: System, t: System, w: nat) {
    && w in s.writers && s.writers[w].locking && s.writers[w].phase == Start && s.holder == None
    && t == s.(holder := Some(w), writers := Moved(s, w, Locked))
  }

  ghost predicate ReadLast(s: System, t: System, w: nat, previous: Option<Event>) {
    && w in s.writers && s.writers[w].phase == (if s.writers[w].locking then Locked else Start)
    && Greatest(s.table, previous)
    && t == s.(writers := Moved(s, w, HasRead(previous)))
  }

  ghost predicate Insert(env: Env, s: System, t: System, w: nat, now: Instant) {
    && w in s.writers && s.writers[w].phase.HasRead?
    && var row := NewEvent(env, s.writers[w].phase.previous, s.writers[w].request, now);
       t == s.(writers := Moved(s, w, Pending(row, now)))
  }

  ghost predicate Commit(s: System, t: System, w: nat, row: Event) {
    && w in s.writers && s.writers[w].phase.Pending?
    && StoredAs(s.writers[w].phase.row, row) && Admissible(s.table, row)
    && t == System(s.table + [row], s.authors + [w], Release(s, w),
                  Moved(s, w, Done(s.writers[w].phase.at)))
  }

  /** A violated constraint or any other failure rolls the transaction back. */
  ghost predicate Abort(s: System, t: System, w: nat) {
    && w in s.writers && !s.writers[w].phase.Done? && s.writers[w].phase != Aborted
    && t == s.(holder := Release(s, w), writers := Moved(s, w, Aborted))
  }

  /** An UPDATE or DELETE statement on a row: the trigger raises an exception before
      anything has changed. */
  ghost predicate Rewrite(s: System, t: System, k: int) {
    0 <= k < |s.table| && t == s
  }

  ghost predicate StepOf(env: Env, s: System, t: System, w: nat) {
    || Acquire(s, t, w)
    || Abort(s, t, w)
    || (exists previous :: ReadLast(s, t, w, previous))
    || (exists now :: Insert(env, s, t, w, now))
    || (exists row :: Commit(s, t, w, row))
  }

  ghost predicate Next(env: Env, s: System, t: System) {
    (exists w :: StepOf(env, s, t, w)) || (exists k :: Rewrite(s, t, k))
  }

  ghost predicate Init(s: System) {
    && s.table == [] && s.authors == [] && s.holder == None
    && forall w :: w in s.writers ==> s.writers[w].phase == Start && ProperRequest(s.writers[w].request)
  }

  ghost predicate Run(env: Env, states: seq<System>) {
    states != [] && Init(states[0]) && forall i :: 0 < i < |states| ==> Next(env, states[i - 1], states[i])
  }

  // ----- the invariant

  /** What a writer has read or built goes back to some earlier length of the table. */
  ghost predicate FromPrefix(env: Env, table: seq<Event>, writer: Writer) {
    match writer.phase
    case HasRead(previous) => exists n :: ReadAt(table, previous, n)
    case Pending(row, at) => exists n :: BuiltAt(env, table, writer.request, row, n, at)
    case _ => true
  }

  ghost predicate ReadAt(table: seq<Event>, previous: Option<Event>, n: int) {
    0 <= n <= |table| && previous == Last(table[..n])
  }

  ghost predicate BuiltAt(env: Env, table: seq<Event>, r: Request, row: Event, n: int, now: Instant) {
    0 <= n <= |table| && row == NewEvent(env, Last(table[..n]), r, now)
  }

  predicate InSection(phase: Phase) {
    phase.Locked? || phase.HasRead? || phase.Pending?
  }

  /** Rows and finished writers correspond one to one. */
  ghost predicate Ledger(s: System) {
    && |s.authors| == |s.table|
    && Distinct(s.authors)
    && (forall w :: w in s.authors <==> w in s.writers && s.writers[w].phase.Done?)
  }

  ghost predicate Faithful(s: System) {
    forall i :: 0 <= i < |s.table| && i < |s.authors| ==>
      s.authors[i] in s.writers && RecordsOf(s.table[i], s.writers[s.authors[i]])
  }

  /** The writer has finished, and the row says what it asked to record, and when. */
  predicate RecordsOf(row: Event, writer: Writer) {
    writer.phase.Done? && Says(row, writer.request, writer.phase.at)
  }

  ghost predicate Inv(env: Env, s: System) {
    && Chain(env, s.table) && Ledger(s) && Faithful(s)
    && forall w :: w in s.writers ==>
         ProperRequest(s.writers[w].request) && FromPrefix(env, s.table, s.writers[w])
  }

  // ----- every step keeps the invariant

  lemma {:induction false} ChainNumbers(env: Env, table: seq<Event>)
    requires Chain(env, table)
    ensures forall k :: 0 <= k < |table| ==> table[k].sequence == k + 1
  {
    forall k | 0 <= k < |table| ensures table[k].sequence == k + 1 { assert Linked(env, table, k); }
  }

  lemma {:induction false} GreatestIsLast(env: Env, table: seq<Event>, previous: Option<Event>)
    requires Chain(env, table) && Greatest(table, previous)
    ensures previous == Last(table)
  {
    ChainNumbers(env, table);
    if table != [] {
      var k :| 0 <= k < |table| && table[k] == previous.value;
      assert table[|table| - 1] in table;
    }
  }

  lemma {:induction false} QuietStepKeepsInv(env: Env, s: System, t: System, w: nat, phase: Phase)
    requires Inv(env, s) && w in s.writers && !s.writers[w].phase.Done? && !phase.Done?
    requires t.table == s.table && t.authors == s.authors && t.writers == Moved(s, w, phase)
    requires FromPrefix(env, t.table, t.writers[w])
    ensures Inv(env, t)
  {
  }

  /** A row built on an earlier length of the table has the number of a row that has
      been committed since. */
  lemma {:induction false} StaleRowIsRefused(
      env: Env, table: seq<Event>, r: Request, e: Event, row: Event, n: int, now: Instant)
    requires Chain(env, table) && BuiltAt(env, table, r, e, n, now) && StoredAs(e, row)
    ensures row.sequence == n + 1
    ensures n < |table| ==> !Admissible(table, row)
  {
    ChainNumbers(env, table);
    if n < |table| { assert table[n].sequence == row.sequence; }
  }

  /** The unique sequence number alone makes a commit extend the very row it read. */
  lemma {:induction false} CommitExtendsLast(env: Env, s: System, w: nat, row: Event)
    requires Inv(env, s) && w in s.writers && s.writers[w].phase.Pending?
    requires StoredAs(s.writers[w].phase.row, row) && Admissible(s.table, row)
    ensures s.writers[w].phase.row == NewEvent(env, Last(s.table), s.writers[w].request, s.writers[w].phase.at)
  {
    var writer := s.writers[w];
    assert FromPrefix(env, s.table, writer);
    var n :| BuiltAt(env, s.table, writer.request, writer.phase.row, n, writer.phase.at);
    StaleRowIsRefused(env, s.table, writer.request, writer.phase.row, row, n, writer.phase.at);
    assert s.table[..n] == s.table;
  }

  lemma {:induction false} LongerTable(env: Env, table: seq<Event>, row: Event, writer: Writer)
    requires FromPrefix(env, table, writer)
    ensures FromPrefix(env, table + [row], writer)
  {
    match writer.phase
    case HasRead(previous) =>
      var n :| ReadAt(table, previous, n);
      assert (table + [row])[..n] == table[..n];
      assert ReadAt(table + [row], previous, n);
    case Pending(e, at) =>
      var n :| BuiltAt(env, table, writer.request, e, n, at);
      assert (table + [row])[..n] == table[..n];
      assert BuiltAt(env, table + [row], writer.request, e, n, at);
    case _ =>
  }

  lemma {:induction false} CommitKeepsLedger(s: System, t: System, w: nat, row: Event)
    requires Ledger(s) && Faithful(s) && Commit(s, t, w, row) && Says(row, s.writers[w].request, s.writers[w].phase.at)
    ensures Ledger(t) && Faithful(t)
  {
    assert w !in s.authors;
    forall v ensures v in t.authors <==> v in t.writers && t.writers[v].phase.Done? {
      assert v in t.authors <==> v in s.authors || v == w;
      assert v in s.authors <==> v in s.writers && s.writers[v].phase.Done?;
    }
    forall i | 0 <= i < |t.table|
      ensures t.authors[i] in t.writers && RecordsOf(t.table[i], t.writers[t.authors[i]])
    {
      if i < |s.table| { assert s.authors[i] in s.writers && RecordsOf(s.table[i], s.writers[s.authors[i]]); }
    }
  }

  lemma {:induction false} CommitKeepsInv(env: Env, s: System, t: System, w: nat, row: Event)
    requires Inv(env, s) && Commit(s, t, w, row)
    ensures Inv(env, t)
  {
    var writer := s.writers[w];
    CommitExtendsLast(env, s, w, row);
    NewEventSays(env, Last(s.table), writer.request, writer.phase.at);
    AppendKeepsChain(env, s.table, writer.request, writer.phase.at, row);
    CommitKeepsLedger(s, t, w, row);
    forall v | v in t.writers
      ensures ProperRequest(t.writers[v].request) && FromPrefix(env, t.table, t.writers[v])
    {
      assert v in s.writers;
      if v != w { LongerTable(env, s.table, row, s.writers[v]); }
    }
  }

  lemma {:induction false} ReadKeepsInv(env: Env, s: System, t: System, w: nat, previous: Option<Event>)
    requires Inv(env, s) && ReadLast(s, t, w, previous)
    ensures Inv(env, t)
  {
    GreatestIsLast(env, s.table, previous);
    assert s.table[..|s.table|] == s.table;
    assert ReadAt(t.table, previous, |s.table|);
    QuietStepKeepsInv(env, s, t, w, HasRead(previous));
  }

  lemma {:induction false} InsertKeepsInv(env: Env, s: System, t: System, w: nat, now: Instant)
    requires Inv(env, s) && Insert(env, s, t, w, now)
    ensures Inv(env, t)
  {
    assert FromPrefix(env, s.table, s.writers[w]);
    var n :| ReadAt(s.table, s.writers[w].phase.previous, n);
    assert BuiltAt(env, t.table, s.writers[w].request, t.writers[w].phase.row, n, now);
    QuietStepKeepsInv(env, s, t, w, t.writers[w].phase);
  }

  lemma {:induction false} NextKeepsInv(env: Env, s: System, t: System)
    requires Inv(env, s) && Next(env, s, t)
    ensures Inv(env, t) && s.table <= t.table
  {
    if exists k :: Rewrite(s, t, k) { return; }
    var w :| StepOf(env, s, t, w);
    if Acquire(s, t, w) {
      QuietStepKeepsInv(env, s, t, w, Locked);
    } else if Abort(s, t, w) {
      QuietStepKeepsInv(env, s, t, w, Aborted);
    } else if previous :| ReadLast(s, t, w, previous) {
      ReadKeepsInv(env, s, t, w, previous);
    } else if now :| Insert(env, s, t, w, now) {
      InsertKeepsInv(env, s, t, w, now);
    } else {
      var row :| Commit(s, t, w, row);
      CommitKeepsInv(env, s, t, w, row);
    }
  }

  /** In every reachable state, with or without the advisory lock, the table verifies
      and has one row, saying what was asked, for each writer that has finished. */
  lemma {:induction false} RunKeepsInv(env: Env, states: seq<System>)
    requires Run(env, states)
    ensures forall s :: s in states ==>
              Inv(env, s) && Reports(env, s.table, Valid(|s.table|, HashBefore(s.table, |s.table|)))
  {
    for n := 1 to |states|
      invariant forall i :: 0 <= i < n ==> Inv(env, states[i])
    {
      NextKeepsInv(env, states[n - 1], states[n]);
    }
  }

  function Finished(s: System): set<nat> {
    set w | w in s.writers && s.writers[w].phase.Done?
  }

  /** So there are as many rows as writers that have finished. */
  lemma {:induction false} OneRowPerFinishedWriter(env: Env, states: seq<System>, i: nat)
    requires Run(env, states) && i < |states|
    ensures |Finished(states[i])| == |states[i].table|
  {
    var s := states[i];
    RunKeepsInv(env, states);
    SizeOfDistinct(s.authors);
    assert Finished(s) == Elements(s.authors);
  }

  /** Committed rows are never changed or removed. */
  lemma {:induction false} RowsOnlyGrow(env: Env, states: seq<System>, i: nat, j: nat)
    requires Run(env, states) && i <= j < |states|
    ensures states[i].table <= states[j].table
    decreases j
  {
    if i < j {
      RowsOnlyGrow(env, states, i, j - 1);
      RunKeepsInv(env, states);
      NextKeepsInv(env, states[j - 1], states[j]);
    }
  }

  // ----- with the advisory lock

  /** When every writer locks: one at a time is between lock and commit, and what it
      has read is still the last row. */
  ghost predicate Exclusive(env: Env, s: System) {
    && (forall w :: w in s.writers ==> s.writers[w].locking)
    && (forall w :: w in s.writers && InSection(s.writers[w].phase) ==> s.holder == Some(w))
    && (forall w :: w in s.writers ==> Current(env, s.table, s.writers[w]))
  }

  ghost predicate Current(env: Env, table: seq<Event>, writer: Writer) {
    match writer.phase
    case HasRead(previous) => previous == Last(table)
    case Pending(row, at) => row == NewEvent(env, Last(table), writer.request, at)
    case _ => true
  }

  lemma {:induction false} NextKeepsExclusive(env: Env, s: System, t: System)
    requires Inv(env, s) && Exclusive(env, s) && Next(env, s, t)
    ensures Exclusive(env, t)
  {
    if exists k :: Rewrite(s, t, k) { return; }
    var w :| StepOf(env, s, t, w);
    if previous :| ReadLast(s, t, w, previous) { GreatestIsLast(env, s.table, previous); }
    forall v | v in t.writers
      ensures t.writers[v].locking && (InSection(t.writers[v].phase) ==> t.holder == Some(v))
      ensures Current(env, t.table, t.writers[v])
    {
      if v == w { MoverStaysCurrent(env, s, t, w); } else { OtherStaysCurrent(env, s, t, w, v); }
    }
  }

  lemma {:induction false} MoverStaysCurrent(env: Env, s: System, t: System, w: nat)
    requires Exclusive(env, s) && StepOf(env, s, t, w)
    requires forall previous :: ReadLast(s, t, w, previous) ==> previous == Last(s.table)
    ensures t.writers[w].locking && (InSection(t.writers[w].phase) ==> t.holder == Some(w))
    ensures Current(env, t.table, t.writers[w])
  {
    assert InSection(s.writers[w].phase) ==> s.holder == Some(w);
    assert Current(env, s.table, s.writers[w]);
  }

  lemma {:induction false} OtherStaysCurrent(env: Env, s: System, t: System, w: nat, v: nat)
    requires Exclusive(env, s) && StepOf(env, s, t, w) && v in t.writers && v != w
    ensures t.writers[v].locking && (InSection(t.writers[v].phase) ==> t.holder == Some(v))
    ensures Current(env, t.table, t.writers[v])
  {
    assert v in s.writers && t.writers[v] == s.writers[v];
    assert Current(env, s.table, s.writers[v]);
    assert InSection(s.writers[v].phase) ==> s.holder == Some(v);
    assert InSection(s.writers[w].phase) ==> s.holder == Some(w);
  }

  /** The lock is only ever held by a writer between lock and commit: it is released. */
  ghost predicate HeldInside(s: System) {
    s.holder.Some? ==> s.holder.value in s.writers && InSection(s.writers[s.holder.value].phase)
  }

  lemma {:induction false} StepKeepsHeld(env: Env, s: System, t: System, w: nat)
    requires HeldInside(s) && StepOf(env, s, t, w)
    ensures HeldInside(t)
  {
    if t.holder.Some? && t.holder.value != w {
      assert t.holder == s.holder && t.writers[t.holder.value] == s.writers[t.holder.value];
    }
  }

  lemma {:induction false} NextKeepsHeld(env: Env, s: System, t: System)
    requires HeldInside(s) && Next(env, s, t)
    ensures HeldInside(t)
  {
    if w: nat :| StepOf(env, s, t, w) {
      StepKeepsHeld(env, s, t, w);
    }
  }

  lemma {:induction false} LockIsReleased(env: Env, states: seq<System>)
    requires Run(env, states)
    ensures forall s :: s in states ==> HeldInside(s)
  {
    for n := 1 to |states|
      invariant forall i :: 0 <= i < n ==> HeldInside(states[i])
    {
      NextKeepsHeld(env, states[n - 1], states[n]);
    }
  }

  lemma {:induction false} RunKeepsExclusive(env: Env, states: seq<System>)
    requires Run(env, states)
    requires forall w :: w in states[0].writers ==> states[0].writers[w].locking
    ensures forall s :: s in states ==> Exclusive(env, s)
  {
    RunKeepsInv(env, states);
    for n := 1 to |states|
      invariant forall i :: 0 <= i < n ==> Exclusive(env, states[i])
    {
      NextKeepsExclusive(env, states[n - 1], states[n]);
    }
  }

  /** A lock holder's row never violates a unique constraint: no append is lost to
      another writer. */
  lemma {:induction false} LockHoldersNeverCollide(env: Env, s: System, w: nat, row: Event)
    requires NoCollisions(env) && Inv(env, s) && Exclusive(env, s)
    requires w in s.writers && s.writers[w].phase.Pending? && StoredAs(s.writers[w].phase.row, row)
    ensures Admissible(s.table, row)
  {
    assert Current(env, s.table, s.writers[w]);
    ChainNumbers(env, s.table);
    NewEventVerifies(env, Last(s.table), s.writers[w].request, s.writers[w].phase.at, row);
    forall i | 0 <= i < |s.table|
      ensures s.table[i].sequence != row.sequence && s.table[i].eventHash != row.eventHash
    {
      DifferentNumberDifferentHash(env, s.table, i, row);
    }
  }

  lemma {:induction false} DifferentNumberDifferentHash(env: Env, table: seq<Event>, i: nat, row: Event)
    requires NoCollisions(env) && Chain(env, table) && i < |table|
    requires Calculated(env, row) == Some(row.eventHash) && row.sequence != table[i].sequence
    ensures table[i].eventHash != row.eventHash
  {
    assert Linked(env, table, i);
    EqualHashesAgree(env, table[i], row);
  }
}
