/** Whole runs of the writer: any interleaving of calls, failing awaits and crashes. */
module WriterRuns {
  import opened Text
  import opened Frontmatter
  import opened Writer
  import opened WriterInvariant
  import opened WriterSteps
  import opened WriterEffects
  import opened WriterLocks

  lemma FailCallKeeps(cfg: Config, s: State, c: nat, code: Code)
    requires Inv(cfg, s) && c in s.live
    ensures Inv(cfg, FailCall(s, c, code))
  {
    hide LockInv, DiskInv, TempInv, HoldInv, ShapeInv, HistoryInv, AuditInv, Leave, Clean, Complete, Start, Broken;
    match s.calls[c].stage
    case Arrived => LeaveKeeps(cfg, s, c, Failure(code));
    case Waiting => LeaveKeeps(cfg, s, c, Failure(code));
    case Owning =>
      if code == InvalidPath {
        LeaveKeeps(cfg, s, c, Failure(code));
      } else {
        StartKeeps(cfg, s, c, false);
      }
    case Cleaning(_, _) => CleanKeeps(cfg, s, c, false);
    case Finished(_) => CompleteKeeps(cfg, s, c, false);
    case Recorded(outcome) => LeaveKeeps(cfg, s, c, outcome);
    case Returned(_) =>
    case _ => FailKeeps(cfg, s, c, code);
  }

  lemma AdvanceKeeps(cfg: Config, s: State, c: nat, choice: Choice)
    requires Inv(cfg, s) && c in s.live
    ensures Inv(cfg, AdvanceCall(cfg, s, c, choice))
  {
    hide LockInv, DiskInv, TempInv, HoldInv, ShapeInv, HistoryInv, AuditInv;
    hide LookUp, Acquire, Start, Check, OpenTemp, Fill, Seal, Publish, Clean, Link, Unlink, Complete, Leave;
    match s.calls[c].stage
    case Arrived => LookUpKeeps(cfg, s, c);
    case Waiting => AcquireKeeps(cfg, s, c);
    case Owning => StartKeeps(cfg, s, c, true);
    case Decided(_) => OpenTempKeeps(cfg, s, c);
    case Filling(_, _, _) => if choice.Chunk? { FillKeeps(cfg, s, c, choice.count); } else { SealKeeps(cfg, s, c); }
    case Ready(_, _, _) => PublishKeeps(cfg, s, c);
    case Cleaning(_, _) => CleanKeeps(cfg, s, c, true);
    case Trashing(_) => LinkKeeps(cfg, s, c, if choice.Suffix? then choice.text else "");
    case Linked(_) => UnlinkKeeps(cfg, s, c);
    case Removing => UnlinkKeeps(cfg, s, c);
    case Finished(_) => CompleteKeeps(cfg, s, c, true);
    case Recorded(outcome) => LeaveKeeps(cfg, s, c, outcome);
    case Returned(_) =>
    case _ => CheckKeeps(cfg, s, c);
  }

  /** Every step of every interleaving, crashes included, keeps the invariant. */
  lemma StepKeeps(cfg: Config, s: State, action: Action)
    requires Inv(cfg, s)
    ensures Inv(cfg, Step(cfg, s, action))
  {
    hide LockInv, DiskInv, TempInv, HoldInv, ShapeInv, HistoryInv, AuditInv, FailCall, AdvanceCall;
    match action
    case Arrive(path, op, base) => ArriveKeeps(cfg, s, path, op, base);
    case Crash => CrashKeeps(cfg, s);
    case Act(c, choice) =>
      if c in s.live {
        if choice.Fail? { FailCallKeeps(cfg, s, c, choice.code); } else { AdvanceKeeps(cfg, s, c, choice); }
      }
  }

  ghost function Run(cfg: Config, s: State, actions: seq<Action>): (t: State)
    requires Inv(cfg, s)
    ensures Inv(cfg, t)
    decreases |actions|
  {
    if actions == [] then s
    else
      var last := |actions| - 1;
      var u := Run(cfg, s, actions[..last]);
      StepKeeps(cfg, u, actions[last]);
      Step(cfg, u, actions[last])
  }

  lemma RunAppend(cfg: Config, s: State, actions: seq<Action>, action: Action)
    requires Inv(cfg, s)
    ensures Run(cfg, s, actions + [action]) == Step(cfg, Run(cfg, s, actions), action)
  {
    hide Inv, Step;
    assert (actions + [action])[..|actions|] == actions;
  }

  /** The states some run from some vault ends in. */
  ghost predicate Reachable(cfg: Config, t: State): (r: bool)
    ensures r ==> Inv(cfg, t)
  {
    exists s: State, actions: seq<Action> :: Init(s) && t == RunFrom(cfg, s, actions)
  }

  lemma ReachableStep(cfg: Config, s: State, action: Action)
    requires Reachable(cfg, s)
    ensures Reachable(cfg, Step(cfg, s, action))
  {
    hide LockInv, DiskInv, TempInv, HoldInv, ShapeInv, HistoryInv, AuditInv, Init, Step, Run;
    var origin, actions :| Init(origin) && s == RunFrom(cfg, origin, actions);
    RunFromAppend(cfg, origin, actions, action);
    assert Step(cfg, s, action) == RunFrom(cfg, origin, actions + [action]);
  }

  lemma RunFromAppend(cfg: Config, s: State, actions: seq<Action>, action: Action)
    requires Init(s)
    ensures RunFrom(cfg, s, actions + [action]) == Step(cfg, RunFrom(cfg, s, actions), action)
  {
    hide Inv, Init, Step, Run;
    InitInv(cfg, s);
    RunAppend(cfg, s, actions, action);
  }

  ghost function RunFrom(cfg: Config, s: State, actions: seq<Action>): (t: State)
    requires Init(s)
    ensures Inv(cfg, t)
  {
    InitInv(cfg, s);
    Run(cfg, s, actions)
  }
}
