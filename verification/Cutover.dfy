/** The cutover from the legacy files: checkpoint, replacement of the live state, and
    rollback, for every way in which the commands can fail. */
module Cutover {
  import opened Results
  import opened Sequences

  /** The commands that may fail, in the order of the scripts; `EndRun` is the command
      that runs the installer, failing after the installer has done its work. */
  datatype Command =
    | MakeDirectories | SaveState | SavePasswords | SaveOwners | SaveAcl | HashState | WriteHash | WritePointer
    | Harden | FetchBase | Generate | CheckSyntax | AnnounceStop | StopBroker | RunInstaller | CopyNew | ChangeOwner
    | ChangeMode | Rename | EndRun | StartBroker | Probe | Farewell
    | AnnounceRollback | CopyBack

  /** What happens in one run of a script: the failing commands, what a broken copy
      leaves behind, and whether the broker is found healthy at each poll. */
  datatype Luck = Luck(fails: set<Command>, garbage: string, healthy: nat -> bool)

  /** The inputs of a migration: the contents that the live state goes through while
      the broker carries out the commands of hardening, as far as it comes; the generated
      candidate; and whether a failure is injected after the cutover. */
  datatype Plan = Plan(hardening: seq<string>, candidate: string, hasAcl: bool, inject: bool)

  const POLLS: nat := 36

  ghost predicate BecomesHealthy(healthy: nat -> bool) {
    exists i: nat :: i < POLLS && healthy(i)
  }

  /** The commands of the installer and of the steps around it. */
  const INSTALLER := {StopBroker, RunInstaller, CopyNew, ChangeOwner, ChangeMode, Rename, EndRun, StartBroker, Probe}

  const BEFORE_CUTOVER :=
    {MakeDirectories, SaveState, SavePasswords, SaveOwners, HashState, WriteHash, WritePointer,
     Harden, FetchBase, Generate, CheckSyntax, AnnounceStop}

  /** The commands of a rollback, once its checks have passed. */
  const RESTORE := INSTALLER + {HashState, MakeDirectories, CopyBack, Farewell}

  /** No command fails on the way to the checkpoint. */
  ghost predicate CanCheckpoint(plan: Plan, luck: Luck) {
    && luck.fails !! {MakeDirectories, SaveState, SavePasswords, SaveOwners, HashState, WriteHash, WritePointer}
    && (plan.hasAcl ==> SaveAcl !in luck.fails)
  }

  /** Nothing fails, and the broker comes up with the candidate. */
  ghost predicate Succeeds(plan: Plan, luck: Luck) {
    && luck.fails !! BEFORE_CUTOVER + INSTALLER && (plan.hasAcl ==> SaveAcl !in luck.fails)
    && plan.candidate != "" && BecomesHealthy(luck.healthy) && !plan.inject
  }

  /** That leaves no command that could have failed, but those of a rollback and the copy
      of an ACL file that is not there. */
  lemma {:induction false} SuccessIsComplete(plan: Plan, luck: Luck)
    requires Succeeds(plan, luck) && Farewell !in luck.fails
    ensures luck.fails <= {CopyBack, AnnounceRollback} + if plan.hasAcl then {} else {SaveAcl}
  {
    forall c | c in luck.fails ensures c == CopyBack || c == AnnounceRollback || (c == SaveAcl && !plan.hasAcl) {
      EveryCommand(c);
    }
  }

  /** Likewise a rollback that goes through. */
  lemma {:induction false} RestoreIsComplete(fails: set<Command>)
    requires fails !! RESTORE
    ensures fails <= {SaveState, SavePasswords, SaveOwners, SaveAcl, WriteHash, WritePointer, Harden, FetchBase,
                      Generate, CheckSyntax, AnnounceStop, AnnounceRollback}
  {
    forall c | c in fails
      ensures c in {SaveState, SavePasswords, SaveOwners, SaveAcl, WriteHash, WritePointer, Harden, FetchBase,
                    Generate, CheckSyntax, AnnounceStop, AnnounceRollback}
    {
      EveryCommand(c);
    }
  }

  lemma {:induction false} EveryCommand(c: Command)
    ensures c in BEFORE_CUTOVER + INSTALLER + {SaveAcl, Farewell, CopyBack, AnnounceRollback}
  {
  }

  class Host {
    /** dynamic-security.json in the data volume, and the installer's temporary file. */
    var live: string
    var temporary: Option<string>
    /** The checkpoint: the saved state and its checksum. */
    var saved: Option<string>
    var savedHash: Option<string>
    var running: bool
    /** Every content that the live file has had. */
    ghost var trail: seq<string>
    const sha: string -> string

    constructor (live: string, sha: string -> string)
      ensures this.live == live && this.sha == sha && running && trail == [live]
      ensures saved == None && savedHash == None && temporary == None
    {
      this.live := live;
      this.sha := sha;
      temporary, saved, savedHash, running := None, None, None, true;
      trail := [live];
    }

    /** The polling loop. */
    method WaitForHealth(healthy: nat -> bool) returns (ok: bool)
      ensures ok <==> exists i: nat :: i < 36 && healthy(i)
      ensures ok <==> BecomesHealthy(healthy)
    {
      for i := 0 to POLLS
        invariant forall j: nat :: j < i ==> !healthy(j)
      {
        if healthy(i) { return true; }
      }
      ok := false;
    }

    /** install-dynsec-state.sh: the live file changes by the final rename or not at all. */
    method Install(source: string, luck: Luck) returns (ok: bool)
      modifies this`live, this`temporary, this`trail
      ensures ok <==> source != "" && luck.fails !! {RunInstaller, CopyNew, ChangeOwner, ChangeMode, Rename}
      ensures ok ==> live == source && trail == old(trail) + [source] && temporary == None
      ensures !ok ==> live == old(live) && trail == old(trail)
    {
      if RunInstaller in luck.fails || source == "" { return false; }
      if CopyNew in luck.fails {
        temporary := Some(luck.garbage);
        return false;
      }
      temporary := Some(source);
      if ChangeOwner in luck.fails || ChangeMode in luck.fails || Rename in luck.fails { return false; }
      live, temporary := source, None;
      trail := trail + [live];
      ok := true;
    }

    /** Stop, install, start, wait and probe: common to both scripts. */
    method Replace(source: string, luck: Luck) returns (ok: bool)
      modifies this`live, this`temporary, this`trail, this`running
      ensures ok <==> source != "" && luck.fails !! INSTALLER && BecomesHealthy(luck.healthy)
      ensures ok ==> live == source && running
      ensures (live == old(live) && trail == old(trail)) || (live == source && trail == old(trail) + [source])
    {
      if StopBroker in luck.fails { return false; }
      running := false;
      var installed := Install(source, luck);
      if !installed || EndRun in luck.fails || StartBroker in luck.fails { return false; }
      running := true;
      var healthy := WaitForHealth(luck.healthy);
      ok := healthy && Probe !in luck.fails;
    }

    ghost predicate Checkpointed(original: string)
      reads this
    {
      saved == Some(original) && savedHash == Some(sha(original))
    }

    /** rollback-dynsec.sh: restores the checkpoint behind its checksum, or leaves it
        as it is. */
    method Rollback(luck: Luck) returns (ok: bool)
      modifies this`live, this`temporary, this`trail, this`running
      ensures ok <==>
              && saved.Some? && saved.value != "" && savedHash == Some(sha(saved.value))
              && luck.fails !! RESTORE && BecomesHealthy(luck.healthy)
      ensures ok ==> live == saved.value && running
      ensures (live == old(live) && trail == old(trail)) || (saved == Some(live) && trail == old(trail) + [live])
    {
      if saved == None || saved == Some("") || savedHash == None { return false; }
      if HashState in luck.fails || sha(saved.value) != savedHash.value { return false; }
      if MakeDirectories in luck.fails || CopyBack in luck.fails { return false; }
      ok := Replace(saved.value, luck);
      ok := ok && Farewell !in luck.fails;
    }

    /** migrate-dynsec.sh up to the checkpoint: nothing live is touched. */
    method Checkpoint(plan: Plan, luck: Luck) returns (ok: bool)
      modifies this`saved, this`savedHash
      ensures ok <==> CanCheckpoint(plan, luck)
      ensures ok ==> Checkpointed(live)
    {
      if MakeDirectories in luck.fails { return false; }
      if SaveState in luck.fails {
        saved := Some(luck.garbage);
        return false;
      }
      saved := Some(live);
      if SavePasswords in luck.fails || SaveOwners in luck.fails { return false; }
      if plan.hasAcl && SaveAcl in luck.fails { return false; }
      if HashState in luck.fails { return false; }
      if WriteHash in luck.fails {
        savedHash := Some(luck.garbage);
        return false;
      }
      savedHash := Some(sha(live));
      ok := WritePointer !in luck.fails;
    }

    /** The live file has only had contents from `allowed` since `before`. */
    ghost predicate TrailWithin(before: seq<string>, allowed: set<string>)
      reads this
    {
      before <= trail && forall i :: |before| <= i < |trail| ==> trail[i] in allowed
    }

    /** migrate-dynsec.sh with its ERR trap. `luck` governs the migration, `repair` the
        rollback if there is one; `exit` is whether the status is zero, and `rolledBack`
        whether a rollback that was due went through. */
    method Migrate(plan: Plan, luck: Luck, repair: Luck) returns (exit: bool, ghost rolledBack: Option<bool>)
      modifies this
      // Status zero means that nothing failed, and leaves the candidate live.
      ensures exit <==> Succeeds(plan, luck) && Farewell !in luck.fails
      ensures exit ==> live == plan.candidate && running
      // A failure after the checkpoint starts a rollback, one before it touches nothing.
      ensures rolledBack.Some? <==> CanCheckpoint(plan, luck) && !Succeeds(plan, luck)
      ensures !CanCheckpoint(plan, luck) ==> live == old(live) && running == old(running) && trail == old(trail)
      // Otherwise the original is live, or the rollback itself failed and the checkpoint
      // is intact, or only the last message failed.
      ensures !exit && !Succeeds(plan, luck) ==>
                live == old(live) || (rolledBack == Some(false) && Checkpointed(old(live)))
      ensures !exit && Succeeds(plan, luck) ==> live == plan.candidate && rolledBack == None
      ensures !exit && rolledBack == None && !Succeeds(plan, luck) ==> live == old(live)
      ensures rolledBack == Some(true) ==> live == old(live) && running
      ensures rolledBack.Some? ==>
                (rolledBack.value <==>
                   && old(live) != "" && AnnounceRollback !in repair.fails && repair.fails !! RESTORE
                   && BecomesHealthy(repair.healthy))
      // The live file never holds anything but a complete state.
      ensures TrailWithin(old(trail), Elements(plan.hardening) + {plan.candidate, old(live)})
    {
      rolledBack := None;
      ghost var original := live;
      var checkpointed := Checkpoint(plan, luck);
      if !checkpointed { return false, None; }
      var ok := CutOver(plan, luck);
      if !ok {
        if AnnounceRollback in repair.fails { return false, Some(false); }
        var restored := Rollback(repair);
        return false, Some(restored);
      }
      exit := Farewell !in luck.fails;
    }

    /** The commands of harden-dynsec.sh, each of which may make the broker write its
        state anew. */
    method Harden(contents: seq<string>)
      modifies this`live, this`trail
      ensures trail == old(trail) + contents
      ensures live == if contents == [] then old(live) else contents[|contents| - 1]
    {
      for i := 0 to |contents|
        invariant trail == old(trail) + contents[..i]
        invariant live == if i == 0 then old(live) else contents[i - 1]
      {
        live := contents[i];
        trail := trail + [live];
      }
    }

    /** The part of migrate-dynsec.sh under RESTORE_REQUIRED. */
    method CutOver(plan: Plan, luck: Luck) returns (ok: bool)
      modifies this`live, this`temporary, this`trail, this`running
      ensures ok <==> luck.fails !! {Command.Harden, FetchBase, Generate, CheckSyntax, AnnounceStop} + INSTALLER
                      && plan.candidate != "" && BecomesHealthy(luck.healthy) && !plan.inject
      ensures ok ==> live == plan.candidate && running
      ensures TrailWithin(old(trail), Elements(plan.hardening) + {plan.candidate})
    {
      Harden(plan.hardening);
      if Command.Harden in luck.fails || FetchBase in luck.fails || Generate in luck.fails { return false; }
      if CheckSyntax in luck.fails || AnnounceStop in luck.fails { return false; }
      ok := Replace(plan.candidate, luck);
      ok := ok && !plan.inject;
    }
  }
}
