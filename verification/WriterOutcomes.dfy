/** Which error a refused or interrupted call returns, and that a call whose change is on disk returns success. */
module WriterOutcomes {
  import opened Text
  import opened Frontmatter
  import opened Writer
  import opened WriterInvariant
  import opened WriterSteps
  import opened WriterEffects
  import opened WriterLocks
  import opened WriterRuns
  import opened WriterSafety
  import opened WriterTexts
  import opened WriterProgress
  import opened WriterTurns

  /**
   * The call has returned this error, with nothing logged, and marked its attempt failed if it had one. The notes are
   * as before, and its temporary file is gone.
   */
  ghost predicate Fails(s: State, t: State, c: nat, code: Code)
    requires c in s.calls
  {
    && c in t.calls && t.calls[c].stage == Returned(Failure(code)) && t.calls[c].entries == s.calls[c].entries
    && t.calls[c].closing == (if s.calls[c].attempt then Rejected else Open) && SameNotes(s, t)
    && (match s.calls[c].stage
        case Filling(_, temp, _) => WithoutTemp(s, t, temp)
        case Ready(_, temp, _) => WithoutTemp(s, t, temp)
        case Cleaning(temp, _) => WithoutTemp(s, t, temp)
        case _ => SameTemps(s, t))
  }

  lemma FromFailed(cfg: Config, s: State, c: nat, code: Code) returns (actions: seq<Action>)
    requires Inv(cfg, s) && c in s.live && s.calls[c].stage == Finished(Failure(code)) && s.calls[c].closing == Open
    ensures Fails(s, Run(cfg, s, actions), c, code)
  {
    hide LockInv, DiskInv, TempInv, HoldInv, ShapeInv, HistoryInv, AuditInv, Run, ContentAt, ClosingEvents, ClosingRows;
    hide Complete;
    var a := Act(c, Proceed);
    var u := Step(cfg, s, a);
    RunPrepend(cfg, s, a, []);
    assert u == Complete(s, c, true);
    FailedRecorded(s, c, code);
    SameContents(s, u);
    var rest := FromFailedRecorded(cfg, u, c, code);
    RunPrepend(cfg, s, a, rest);
    actions := [a] + rest;
  }

  lemma FailedRecorded(s: State, c: nat, code: Code)
    requires c in s.live && c in s.calls && s.calls[c].stage == Finished(Failure(code))
    ensures var u := Complete(s, c, true);
      SameDisk(s, u) && u.live == s.live && c in u.calls && u.calls[c] == s.calls[c].(
        stage := Recorded(Failure(code)), closing := if s.calls[c].attempt then Rejected else s.calls[c].closing)
  {
    hide ClosingEvents, ClosingRows;
  }

  lemma FromFailedRecorded(cfg: Config, s: State, c: nat, code: Code) returns (actions: seq<Action>)
    requires Inv(cfg, s) && c in s.live && s.calls[c].stage == Recorded(Failure(code))
    ensures var t := Run(cfg, s, actions);
      c in t.calls && t.calls[c] == s.calls[c].(stage := Returned(Failure(code))) && SameNotes(s, t) && SameTemps(s, t)
  {
    hide LockInv, DiskInv, TempInv, HoldInv, ShapeInv, HistoryInv, AuditInv, Run, ContentAt, Gone;
    var a := Act(c, Proceed);
    var t := Step(cfg, s, a);
    RunPrepend(cfg, s, a, []);
    RunNothing(cfg, t);
    assert t == Leave(s, c, s.calls[c].(stage := Returned(Failure(code))));
    SameContents(s, t);
    actions := [a] + [];
  }

  // ---------------------------------------------------------------- refusals

  /** Why a call with nothing in its way is refused, told by what its path shows. */
  ghost predicate IsRefused(k: Call, shown: Option<string>, code: Code) {
    if k.op.Create? then
      if shown.Some? then code == PathExists else exists why :: Unmakeable(k.op, "", why) && code == Refused(why)
    else if shown.None? then code == PathMissing
    else if k.base != Some(Sha256(shown.value)) then code == RetryableConflict
    else exists why :: Unmakeable(k.op, shown.value, why) && code == Refused(why)
  }

  lemma FailsAfter(cfg: Config, s: State, c: nat, m: Call, rest: seq<Action>, code: Code)
    requires Inv(cfg, s) && c in s.live && Checking(s.calls[c].stage)
    requires m == Checked(cfg, s.calls[c], ContentAt(s, Identity(cfg, s.calls[c])))
    requires var u := Step(cfg, s, Act(c, Proceed));
      Inv(cfg, u) && c in u.calls && Fails(u, Run(cfg, u, rest), c, code)
    ensures Fails(s, Run(cfg, s, [Act(c, Proceed)] + rest), c, code)
  {
    hide LockInv, DiskInv, TempInv, HoldInv, ShapeInv, HistoryInv, AuditInv, Run, ContentAt, Step, NextText;
    CheckStep(cfg, s, c, m);
    RunPrepend(cfg, s, Act(c, Proceed), rest);
  }

  lemma CheckingOpen(cfg: Config, s: State, c: nat)
    requires ShapeInv(cfg, s) && c in s.calls && Checking(s.calls[c].stage)
    ensures s.calls[c].closing == Open
    ensures !s.calls[c].stage.Matched? ==> s.calls[c].seen == None
  {
    assert Shape(cfg, c, s.calls[c]);
  }

  /** A check that finds the reason to refuse. */
  lemma FromChecked(cfg: Config, s: State, c: nat, code: Code) returns (actions: seq<Action>)
    requires Inv(cfg, s) && c in s.live && Checking(s.calls[c].stage)
    requires Checked(cfg, s.calls[c], ContentAt(s, Identity(cfg, s.calls[c])))
          == s.calls[c].(stage := Finished(Failure(code)))
    ensures Fails(s, Run(cfg, s, actions), c, code)
  {
    hide LockInv, DiskInv, TempInv, HoldInv, ShapeInv, HistoryInv, AuditInv, Run, ContentAt, Step, NextText, Checked;
    var m := s.calls[c].(stage := Finished(Failure(code)));
    CheckingOpen(cfg, s, c);
    CheckStep(cfg, s, c, m);
    var rest := FromFailed(cfg, Step(cfg, s, Act(c, Proceed)), c, code);
    FailsAfter(cfg, s, c, m, rest, code);
    actions := [Act(c, Proceed)] + rest;
  }

  /** The text cannot be made. */
  lemma FromUnmakeable(cfg: Config, s: State, c: nat, why: string) returns (actions: seq<Action>)
    requires Inv(cfg, s) && c in s.live && (s.calls[c].stage.Vacant? || s.calls[c].stage.Matched?)
    requires Ordered(s.calls[c].op) && Unmakeable(s.calls[c].op, SeenText(s.calls[c]), why)
    ensures Fails(s, Run(cfg, s, actions), c, Refused(why))
  {
    hide LockInv, DiskInv, TempInv, HoldInv, ShapeInv, HistoryInv, AuditInv, Run, ContentAt, Step, NextText;
    hide HasSection, Writable, Ordered;
    RefusedExactly(cfg.nf, s.calls[c].op, SeenText(s.calls[c]), why);
    actions := FromChecked(cfg, s, c, Refused(why));
  }

  /** A refused call returns that very code, and nothing a note name shows has changed. */
  lemma CallIsRefused(cfg: Config, s: State, c: nat, code: Code) returns (actions: seq<Action>)
    requires Inv(cfg, s) && c in s.live && s.calls[c].stage.Entered? && Ordered(s.calls[c].op)
    requires IsRefused(s.calls[c], ContentAt(s, Identity(cfg, s.calls[c])), code)
    ensures Fails(s, Run(cfg, s, actions), c, code)
  {
    hide LockInv, DiskInv, TempInv, HoldInv, ShapeInv, HistoryInv, AuditInv, Run, ContentAt, Step, NextText;
    hide Unmakeable, Ordered;
    var a, k := Act(c, Proceed), s.calls[c];
    var shown := ContentAt(s, Identity(cfg, k));
    CheckingOpen(cfg, s, c);
    if k.op.Create? == shown.Some? {
      actions := FromChecked(cfg, s, c, code);
    } else {
      var m := Checked(cfg, k, shown);
      CheckStep(cfg, s, c, m);
      var u := Step(cfg, s, a);
      var rest;
      if k.op.Create? {
        var why :| Unmakeable(k.op, "", why) && code == Refused(why);
        rest := FromUnmakeable(cfg, u, c, why);
      } else {
        rest := FromExaminedRefused(cfg, u, c, shown.value, code);
      }
      FailsAfter(cfg, s, c, m, rest, code);
      actions := [a] + rest;
    }
  }

  lemma FromExaminedRefused(cfg: Config, s: State, c: nat, text: string, code: Code) returns (actions: seq<Action>)
    requires Inv(cfg, s) && c in s.live && s.calls[c].stage.Examined? && Ordered(s.calls[c].op)
    requires ContentAt(s, Identity(cfg, s.calls[c])) == Some(text)
    requires !s.calls[c].op.Create? && IsRefused(s.calls[c], Some(text), code)
    ensures Fails(s, Run(cfg, s, actions), c, code)
  {
    hide LockInv, DiskInv, TempInv, HoldInv, ShapeInv, HistoryInv, AuditInv, Run, ContentAt, Step, NextText;
    hide Unmakeable, Ordered;
    var a, k := Act(c, Proceed), s.calls[c];
    if k.base != Some(Sha256(text)) {
      actions := FromChecked(cfg, s, c, RetryableConflict);
    } else {
      var why :| Unmakeable(k.op, text, why) && code == Refused(why);
      var m := k.(stage := Matched, seen := Some(text));
      CheckStep(cfg, s, c, m);
      var rest := FromUnmakeable(cfg, Step(cfg, s, a), c, why);
      FailsAfter(cfg, s, c, m, rest, code);
      actions := [a] + rest;
    }
  }

  // ---------------------------------------------------------------- interruptions

  lemma FailingOpen(cfg: Config, s: State, c: nat)
    requires ShapeInv(cfg, s) && c in s.calls && Failing(s.calls[c].stage)
    ensures s.calls[c].closing == Open
  {
    assert Shape(cfg, c, s.calls[c]);
  }

  lemma FromCleaningFailed(cfg: Config, s: State, c: nat, code: Code) returns (actions: seq<Action>)
    requires Inv(cfg, s) && c in s.live && s.calls[c].stage.Cleaning? && s.calls[c].stage.outcome == Failure(code)
    requires s.calls[c].closing == Open
    ensures Fails(s, Run(cfg, s, actions), c, code)
  {
    hide LockInv, DiskInv, TempInv, HoldInv, ShapeInv, HistoryInv, AuditInv, Run, ContentAt;
    var a := Act(c, Proceed);
    RunPrepend(cfg, s, a, []);
    var u := Step(cfg, s, a);
    assert u == Clean(s, c, true);
    CleanDisk(s, c, true);
    var rest := FromFailed(cfg, u, c, code);
    RunPrepend(cfg, s, a, rest);
    actions := [a] + rest;
  }

  /** An await that fails before the call's change is on disk ends the call with its code; the notes stay. */
  lemma InterruptedCallFails(cfg: Config, s: State, c: nat, code: Code) returns (actions: seq<Action>)
    requires Inv(cfg, s) && c in s.live && Failing(s.calls[c].stage)
    ensures actions != [] && actions[0] == Act(c, Fail(code)) && Fails(s, Run(cfg, s, actions), c, code)
  {
    hide LockInv, DiskInv, TempInv, HoldInv, ShapeInv, HistoryInv, AuditInv, Run, ContentAt, At;
    var a, k := Act(c, Fail(code)), s.calls[c];
    FailingOpen(cfg, s, c);
    RunPrepend(cfg, s, a, []);
    var u := Step(cfg, s, a);
    BrokenStep(cfg, s, c, code);
    SameContents(s, u);
    var rest;
    if Broken(k, code).stage.Cleaning? {
      rest := FromCleaningFailed(cfg, u, c, code);
    } else {
      rest := FromFailed(cfg, u, c, code);
    }
    RunPrepend(cfg, s, a, rest);
    actions := [a] + rest;
  }

  lemma BrokenStep(cfg: Config, s: State, c: nat, code: Code)
    requires c in s.live && s.live <= s.calls.Keys && Failing(s.calls[c].stage)
    ensures var u := Step(cfg, s, Act(c, Fail(code)));
      SameDisk(s, u) && u.live == s.live && c in u.calls && u.calls[c] == Broken(s.calls[c], code)
  {
    hide SameDisk, At, Broken, FailCall, Step;
    AsAct(cfg, s, c, Fail(code));
    BrokenIs(s, c, code);
    AtOnly(s, c, Broken(s.calls[c], code));
  }

  lemma BrokenIs(s: State, c: nat, code: Code)
    requires c in s.calls && Failing(s.calls[c].stage)
    ensures FailCall(s, c, code) == At(s, c, Broken(s.calls[c], code))
  {
    hide At, Broken, Leave, Start, Clean, Complete;
  }

  lemma AtOnly(s: State, c: nat, m: Call)
    requires c in s.calls
    ensures var u := At(s, c, m); SameDisk(s, u) && u.live == s.live && c in u.calls && u.calls[c] == m
  {}

  // ---------------------------------------------------------------- success stands

  ghost function OutcomeOf(stage: Stage): Option<Outcome> {
    match stage
    case Cleaning(_, outcome) => Some(outcome)
    case Finished(outcome) => Some(outcome)
    case Recorded(outcome) => Some(outcome)
    case Returned(outcome) => Some(outcome)
    case _ => None
  }

  /** An outcome once reached is the one returned, whatever cleaning up and recording run into. */
  lemma OutcomeStays(cfg: Config, s: State, action: Action, c: nat)
    requires Inv(cfg, s) && c in s.calls && OutcomeOf(s.calls[c].stage).Some?
    ensures var t := Step(cfg, s, action); c in t.calls && OutcomeOf(t.calls[c].stage) == OutcomeOf(s.calls[c].stage)
  {
    hide LockInv, DiskInv, TempInv, HoldInv, ShapeInv, HistoryInv, AuditInv, StepCall;
    match action
    case Act(d, choice) =>
      if d in s.live {
        if d == c {
          OwnOutcomeStays(cfg, s, c, choice);
        } else {
          OthersStay(cfg, s, d, choice, c);
        }
      }
    case _ =>
  }

  lemma OwnOutcomeStays(cfg: Config, s: State, c: nat, choice: Choice)
    requires c in s.live && s.live <= s.calls.Keys && OutcomeOf(s.calls[c].stage).Some?
    ensures var t := StepCall(cfg, s, c, choice);
      c in t.calls && OutcomeOf(t.calls[c].stage) == OutcomeOf(s.calls[c].stage)
  {
    hide LookUp, Acquire, Check, OpenTemp, Fill, Seal, Publish, Link, Unlink, Start, Clean, Complete, Leave, At, Broken;
    var k := s.calls[c];
    match k.stage
    case Cleaning(_, outcome) =>
      CleanOutcome(s, c, !choice.Fail?);
    case Finished(outcome) =>
      CompleteOutcome(s, c, !choice.Fail?);
    case Recorded(outcome) =>
      LeaveOutcome(s, c, k.(stage := Returned(outcome)));
    case _ =>
  }

  lemma CleanOutcome(s: State, c: nat, removed: bool)
    requires c in s.calls && s.calls[c].stage.Cleaning?
    ensures var t := Clean(s, c, removed); c in t.calls && t.calls[c].stage == Finished(s.calls[c].stage.outcome)
  {}

  lemma CompleteOutcome(s: State, c: nat, stored: bool)
    requires c in s.calls && s.calls[c].stage.Finished?
    ensures var t := Complete(s, c, stored); c in t.calls && t.calls[c].stage == Recorded(s.calls[c].stage.outcome)
  {
    hide ClosingEvents, ClosingRows;
  }

  lemma LeaveOutcome(s: State, c: nat, m: Call)
    requires c in s.calls
    ensures var t := Leave(s, c, m); c in t.calls && t.calls[c] == m && t.calls == s.calls[c := m]
  {
    hide Gone;
  }

  /** Only the call that steps moves on. */
  lemma OthersStay(cfg: Config, s: State, d: nat, choice: Choice, c: nat)
    requires d in s.live && s.live <= s.calls.Keys && c in s.calls && c != d
    ensures var t := StepCall(cfg, s, d, choice); c in t.calls && t.calls[c] == s.calls[c]
  {
    hide LookUp, Acquire, Check, OpenTemp, Fill, Seal, Publish, Link, Unlink, Start, Clean, Complete, Leave, At, Broken;
    hide FailCall, AdvanceCall;
    var k := s.calls[d];
    if k.stage.Returned? {
      ReturnedStill(cfg, s, d, choice);
    } else if choice.Fail? {
      if Departs(k.stage, choice) {
        FailDeparts(s, d, choice.code);
        LeaveOutcome(s, d, FailCall(s, d, choice.code).calls[d]);
      } else {
        FailKinds(s, d, choice.code);
      }
    } else if k.stage.Arrived? || k.stage.Waiting? || Checking(k.stage) {
      EarlyStay(cfg, s, d, choice);
    } else if k.stage.Recorded? {
      RecordedLeaves(cfg, s, d, choice);
      LeaveOutcome(s, d, k.(stage := Returned(k.stage.outcome)));
    } else {
      AdvanceKinds(cfg, s, d, choice);
    }
  }

  lemma RecordedLeaves(cfg: Config, s: State, d: nat, choice: Choice)
    requires d in s.live && s.live <= s.calls.Keys && s.calls[d].stage.Recorded?
    ensures AdvanceCall(cfg, s, d, choice) == Leave(s, d, s.calls[d].(stage := Returned(s.calls[d].stage.outcome)))
  {
    hide LookUp, Acquire, Check, OpenTemp, Fill, Seal, Publish, Link, Unlink, Start, Clean, Complete, Leave;
  }

  lemma ReturnedStill(cfg: Config, s: State, d: nat, choice: Choice)
    requires d in s.live && s.live <= s.calls.Keys && s.calls[d].stage.Returned?
    ensures StepCall(cfg, s, d, choice) == s
  {
    hide LookUp, Acquire, Check, OpenTemp, Fill, Seal, Publish, Link, Unlink, Start, Clean, Complete, Leave, At, Broken;
  }

  lemma EarlyStay(cfg: Config, s: State, d: nat, choice: Choice)
    requires d in s.live && s.live <= s.calls.Keys && !choice.Fail?
    requires var g := s.calls[d].stage; g.Arrived? || g.Waiting? || Checking(g)
    ensures var t := AdvanceCall(cfg, s, d, choice); d in t.calls && t.calls == s.calls[d := t.calls[d]]
  {
    hide LookUp, Acquire, Checked, ContentAt;
    if s.calls[d].stage.Arrived? {
      LookUpShape(cfg, s, d);
    } else if s.calls[d].stage.Waiting? {
      AcquireShape(s, d);
      assert s.calls == s.calls[d := s.calls[d]];
    }
  }

  lemma {:induction false} RunOutcomeStays(cfg: Config, s: State, actions: seq<Action>, c: nat)
    requires Inv(cfg, s) && c in s.calls && OutcomeOf(s.calls[c].stage).Some?
    ensures var t := Run(cfg, s, actions); c in t.calls && OutcomeOf(t.calls[c].stage) == OutcomeOf(s.calls[c].stage)
    decreases |actions|
  {
    hide Inv, Step;
    if actions == [] {
    } else {
      var last := |actions| - 1;
      RunOutcomeStays(cfg, s, actions[..last], c);
      OutcomeStays(cfg, Run(cfg, s, actions[..last]), actions[last], c);
    }
  }

  lemma OwnChangeOutcome(cfg: Config, c: nat, k: Call, e: Entry)
    requires Shape(cfg, c, k) && e in k.entries && e.own
    ensures OutcomeOf(k.stage).Some? && OutcomeOf(k.stage).value.Success?
  {
    hide NextText;
  }

  /**
   * Once a call's change is on disk, success is the only thing it can return, in every continuation: a failing
   * cleanup or audit insert does not turn it into an error.
   */
  lemma SuccessStands(cfg: Config, s: State, i: nat, actions: seq<Action>)
    requires Reachable(cfg, s) && i < |s.history| && s.history[i].own
    ensures var t, c := Run(cfg, s, actions), s.history[i].call;
      && c in s.calls && OutcomeOf(s.calls[c].stage).Some? && OutcomeOf(s.calls[c].stage).value.Success?
      && c in t.calls && OutcomeOf(t.calls[c].stage) == OutcomeOf(s.calls[c].stage)
      && (t.calls[c].stage.Returned? ==> t.calls[c].stage.outcome.Success?)
  {
    hide Reachable, LockInv, DiskInv, TempInv, HoldInv, AuditInv, EntriesOf, Shape, Run, LastAfter, Sound;
    NoLostUpdate(cfg, s, i);
    var e := s.history[i];
    LoggedOf(s.history, i);
    assert EntriesOf(s.history, e.call) == EntriesMade(s, e.call);
    assert Shape(cfg, e.call, s.calls[e.call]);
    OwnChangeOutcome(cfg, e.call, s.calls[e.call], e);
    RunOutcomeStays(cfg, s, actions, e.call);
  }

  // ---------------------------------------------------------------- other ways around an obstacle

  /** A create that loses the race for its name fails with the same error as one that comes late. */
  lemma LateCreateFails(cfg: Config, s: State, c: nat) returns (actions: seq<Action>)
    requires Inv(cfg, s) && c in s.live && s.calls[c].stage.Ready? && s.calls[c].op.Create?
    requires NoteName(Identity(cfg, s.calls[c])) in s.names
    ensures Fails(s, Run(cfg, s, actions), c, PathExists)
  {
    hide LockInv, DiskInv, TempInv, HoldInv, ShapeInv, HistoryInv, AuditInv, Run, ContentAt, At;
    var a, k := Act(c, Proceed), s.calls[c];
    FailingOpen(cfg, s, c);
    RunPrepend(cfg, s, a, []);
    var u := Step(cfg, s, a);
    var m := k.(stage := Cleaning(k.stage.temp, Failure(PathExists)));
    assert u == At(s, c, m);
    AtOnly(s, c, m);
    SameContents(s, u);
    var rest := FromCleaningFailed(cfg, u, c, PathExists);
    RunPrepend(cfg, s, a, rest);
    actions := [a] + rest;
  }

  lemma FromTaken(cfg: Config, s: State, c: nat, suffix: string) returns (actions: seq<Action>)
    requires Inv(cfg, s) && c in s.live && s.calls[c].stage.Trashing?
    requires NoteName(Identity(cfg, s.calls[c])) in s.names
    requires NoteName(cfg.identity(s.calls[c].stage.target)) in s.names
    requires NoteName(cfg.identity(TrashTarget(cfg, suffix))) !in s.names
    ensures var t, k := Run(cfg, s, actions), s.calls[c];
      var id, to := Identity(cfg, k), cfg.identity(TrashTarget(cfg, suffix));
      Returns(t, c, Success(Sha256(SeenText(k)), Some(TrashTarget(cfg, suffix))))
      && ContentAt(t, id) == None && ContentAt(t, to) == ContentAt(s, id) && OnlyAt(s, t, id, to)
  {
    hide LockInv, DiskInv, TempInv, HoldInv, ShapeInv, HistoryInv, AuditInv, Run, ContentAt, At, TrashTarget;
    var a, k := Act(c, Suffix(suffix)), s.calls[c];
    RunPrepend(cfg, s, a, []);
    var u := Step(cfg, s, a);
    var m := k.(stage := Trashing(TrashTarget(cfg, suffix)));
    assert u == At(s, c, m);
    AtOnly(s, c, m);
    SameContents(s, u);
    var rest := TrashCanSucceed(cfg, u, c);
    RunPrepend(cfg, s, a, rest);
    actions := [a] + rest;
  }

  /** A soft delete whose trash name is taken goes on under another one, and moves the note there. */
  lemma DeleteCanRetry(cfg: Config, s: State, c: nat, suffix: string) returns (actions: seq<Action>)
    requires Inv(cfg, s) && c in s.live && s.calls[c].stage.Trashing?
    requires NoteName(Identity(cfg, s.calls[c])) in s.names
    requires NoteName(cfg.identity(s.calls[c].stage.target)) in s.names
    requires NoteName(cfg.identity(cfg.trash + "/" + suffix)) !in s.names
    ensures var t, k := Run(cfg, s, actions), s.calls[c];
      var id, to := Identity(cfg, k), cfg.identity(cfg.trash + "/" + suffix);
      Returns(t, c, Success(Sha256(SeenText(k)), Some(cfg.trash + "/" + suffix)))
      && ContentAt(t, id) == None && ContentAt(t, to) == ContentAt(s, id) && OnlyAt(s, t, id, to)
  {
    assert TrashTarget(cfg, suffix) == cfg.trash + "/" + suffix;
    hide LockInv, DiskInv, TempInv, HoldInv, ShapeInv, HistoryInv, AuditInv, Run, ContentAt, TrashTarget, Returns;
    hide OnlyAt;
    actions := FromTaken(cfg, s, c, suffix);
  }

  /** A call whose start event cannot be stored goes on without an attempt; only an invalid path turns it away. */
  lemma UnauditedGoesOn(cfg: Config, s: State, c: nat, code: Code)
    requires Inv(cfg, s) && c in s.live && s.calls[c].stage.Owning?
    ensures var u := Step(cfg, s, Act(c, Fail(code)));
      && c in u.calls && SameNotes(s, u) && u.events == s.events
      && if code == InvalidPath then u.live == s.live - {c} && u.calls[c].stage == Returned(Failure(InvalidPath))
         else u.live == s.live && u.calls[c] == s.calls[c].(stage := Entered, attempt := false)
  {
    hide LockInv, DiskInv, TempInv, HoldInv, ShapeInv, HistoryInv, AuditInv, ContentAt, Gone;
    SameContents(s, Step(cfg, s, Act(c, Fail(code))));
  }
}
