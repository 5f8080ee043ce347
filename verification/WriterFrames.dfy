/** What one step of the writer may change on disk, in the change log and in the lock map. */
module WriterFrames {
  import opened Text
  import opened Frontmatter
  import opened Writer
  import opened WriterInvariant
  import opened WriterSteps
  import opened WriterEffects
  import opened WriterLocks
  import opened WriterRuns

  function InodeAt(s: State, name: string): Option<nat> {
    if NoteName(name) in s.names then Some(s.names[NoteName(name)]) else None
  }

  /** Finished bytes stay. */
  ghost predicate PreparedStay(s: State, t: State) {
    forall i | i in s.prepared ::
      i in t.prepared && t.prepared[i] == s.prepared[i] && (i in s.data ==> i in t.data && t.data[i] == s.data[i])
  }

  /** At most one note name is pointed elsewhere, and then the change is logged under that name. */
  ghost predicate OneNameMoves(s: State, t: State) {
    || (t.history == s.history && forall n: string :: InodeAt(t, n) == InodeAt(s, n))
    || (exists e :: t.history == s.history + [e] && forall n: string | n != e.name :: InodeAt(t, n) == InodeAt(s, n))
  }

  ghost predicate Frame(s: State, t: State) { PreparedStay(s, t) && OneNameMoves(s, t) && t.initial == s.initial }

  ghost predicate Still(s: State, t: State) {
    t.history == s.history && t.prepared == s.prepared && t.data == s.data && t.names == s.names
        && t.initial == s.initial
  }

  ghost predicate SameLocks(s: State, t: State) { t.locks == s.locks }

  lemma QuietFrame(s: State, t: State)
    requires Still(s, t)
    ensures Frame(s, t)
  {}

  lemma RecordStill(s: State, c: nat, k: Call)
    ensures Still(s, At(s, c, k)) && SameLocks(s, At(s, c, k))
    ensures Still(s, Leave(s, c, k)) && SameLocks(s, Leave(s, c, k))
  {}

  lemma AuditStill(s: State, c: nat, stored: bool)
    requires c in s.calls
    ensures Still(s, Start(s, c, stored)) && SameLocks(s, Start(s, c, stored))
    ensures s.calls[c].stage.Finished? ==> Still(s, Complete(s, c, stored)) && SameLocks(s, Complete(s, c, stored))
  {
    hide Closed, ClosingEvents, ClosingRows;
  }

  lemma ReadStill(cfg: Config, s: State, c: nat)
    requires c in s.live && s.live <= s.calls.Keys
    ensures Still(s, Check(cfg, s, c)) && SameLocks(s, Check(cfg, s, c))
    ensures Still(s, Acquire(s, c)) && SameLocks(s, Acquire(s, c))
    ensures Still(s, LookUp(cfg, s, c))
  {
    hide Checked, ContentAt, Kept;
  }

  lemma OpenTempFrame(s: State, c: nat)
    requires DiskInv(s) && c in s.calls && s.calls[c].stage.Decided?
    ensures Frame(s, OpenTemp(s, c))
  {}

  lemma FillFrame(cfg: Config, s: State, c: nat, count: nat)
    requires Known(s) && TempInv(s) && c in s.live && s.calls[c].stage.Filling?
    ensures Frame(s, Fill(s, c, count)) && Frame(s, Seal(s, c))
  {
    OtherTemp(s, c);
  }

  lemma CleanFrame(s: State, c: nat, removed: bool)
    requires c in s.calls && s.calls[c].stage.Cleaning?
    ensures Frame(s, Clean(s, c, removed))
  {}

  lemma ChangedFrame(s: State, c: nat, names: map<Name, nat>, e: Entry, stage: Stage)
    requires c in s.calls
    requires forall n: string | n != e.name ::
      (NoteName(n) in names <==> NoteName(n) in s.names)
          && (NoteName(n) in names ==> names[NoteName(n)] == s.names[NoteName(n)])
    ensures Frame(s, Changed(s, c, names, e, stage))
  {}

  lemma PublishFrame(cfg: Config, s: State, c: nat)
    requires c in s.calls && s.calls[c].stage.Ready?
    ensures Frame(s, Publish(cfg, s, c))
  {
    hide Frame, Changed, ContentAt;
    var k := s.calls[c];
    var Ready(next, temp, inode) := k.stage;
    var id := Identity(cfg, k);
    if k.op.Create? && NoteName(id) in s.names {
      RecordStill(s, c, k.(stage := Cleaning(temp, Failure(PathExists))));
      QuietFrame(s, Publish(cfg, s, c));
    } else {
      ChangedFrame(s, c, Published(s, id, temp, inode, k.op.Create?),
          Entry(c, id, k.base, true, ContentAt(s, id), Some(next)),
                   Cleaning(temp, Success(Sha256(next), None)));
    }
  }

  lemma LinkFrame(cfg: Config, s: State, c: nat, suffix: string)
    requires c in s.calls && s.calls[c].stage.Trashing?
    ensures Frame(s, Link(cfg, s, c, suffix))
  {
    hide Frame, Changed, ContentAt;
    var k := s.calls[c];
    var from, to := NoteName(Identity(cfg, k)), cfg.identity(k.stage.target);
    if from !in s.names || NoteName(to) in s.names {
      QuietFrame(s, Link(cfg, s, c, suffix));
    } else {
      ChangedFrame(s, c, s.names[NoteName(to) := s.names[from]],
                   Entry(c, to, None, false, ContentAt(s, to), ContentAt(s, Identity(cfg, k))), Linked(k.stage.target));
    }
  }

  lemma UnlinkFrame(cfg: Config, s: State, c: nat)
    requires c in s.calls && (s.calls[c].stage.Linked? || s.calls[c].stage.Removing?)
    ensures Frame(s, Unlink(cfg, s, c))
  {
    hide Frame, Changed, ContentAt;
    var k := s.calls[c];
    var id := Identity(cfg, k);
    if NoteName(id) !in s.names {
      QuietFrame(s, Unlink(cfg, s, c));
    } else {
      ChangedFrame(s, c, s.names - {NoteName(id)}, Entry(c, id, k.base, true, ContentAt(s, id), None),
                   Finished(Success(Sha256(SeenText(k)), if k.stage.Linked? then Some(k.stage.target) else None)));
    }
  }

  lemma FailFrame(s: State, c: nat, code: Code)
    requires c in s.calls
    ensures Frame(s, FailCall(s, c, code)) && SameLocks(s, FailCall(s, c, code))
  {
    hide Frame, Clean, Broken, Start, Complete, Still, SameLocks, At, Leave;
    if s.calls[c].stage.Cleaning? {
      CleanFrame(s, c, false);
      CleanLocks(s, c, false);
    } else {
      AuditStill(s, c, false);
      FailStill(s, c, code);
      QuietFrame(s, FailCall(s, c, code));
    }
  }

  lemma FailStill(s: State, c: nat, code: Code)
    requires c in s.calls && !s.calls[c].stage.Cleaning?
    ensures Still(s, FailCall(s, c, code)) && SameLocks(s, FailCall(s, c, code))
  {
    hide Broken, Start, Complete, Still, SameLocks, At, Leave;
    var k := s.calls[c];
    AuditStill(s, c, false);
    RecordStill(s, c, k.(stage := Returned(Failure(code))));
    RecordStill(s, c, Broken(k, code));
    match k.stage
    case Recorded(outcome) => RecordStill(s, c, k.(stage := Returned(outcome)));
    case Returned(_) => StillItself(s);
    case _ =>
  }

  lemma StillItself(s: State)
    ensures Still(s, s) && SameLocks(s, s)
  {}

  lemma AdvanceFrame(cfg: Config, s: State, c: nat, choice: Choice)
    requires Inv(cfg, s) && c in s.live
    ensures Frame(s, AdvanceCall(cfg, s, c, choice))
  {
    hide Frame, LockInv, DiskInv, TempInv, HoldInv, ShapeInv, HistoryInv, AuditInv;
    hide OpenTemp, Fill, Seal, Publish, Clean, Link, Unlink, LookUp, Acquire, Check, Start, Complete, Leave, Still,
        SameLocks;
    match s.calls[c].stage
    case Decided(_) => OpenTempFrame(s, c);
    case Filling(_, _, _) => FillFrame(cfg, s, c, if choice.Chunk? then choice.count else 0);
    case Ready(_, _, _) => PublishFrame(cfg, s, c);
    case Cleaning(_, _) => CleanFrame(s, c, true);
    case Trashing(_) => LinkFrame(cfg, s, c, if choice.Suffix? then choice.text else "");
    case Linked(_) => UnlinkFrame(cfg, s, c);
    case Removing => UnlinkFrame(cfg, s, c);
    case Recorded(outcome) =>
      RecordStill(s, c, s.calls[c].(stage := Returned(outcome)));
      QuietFrame(s, AdvanceCall(cfg, s, c, choice));
    case _ =>
      StillItself(s);
      ReadStill(cfg, s, c);
      AuditStill(s, c, true);
      QuietFrame(s, AdvanceCall(cfg, s, c, choice));
  }

  lemma StepFrame(cfg: Config, s: State, action: Action)
    requires Inv(cfg, s)
    ensures Frame(s, Step(cfg, s, action))
  {
    hide Frame, LockInv, DiskInv, TempInv, HoldInv, ShapeInv, HistoryInv, AuditInv, FailCall, AdvanceCall;
    match action
    case Act(c, choice) =>
      if c in s.live {
        if choice.Fail? { FailFrame(s, c, choice.code); } else { AdvanceFrame(cfg, s, c, choice); }
      } else {
        StillItself(s);
        QuietFrame(s, s);
      }
    case _ => QuietFrame(s, Step(cfg, s, action));
  }

  /** Over a run the log only grows, and finished bytes stay. */
  lemma {:induction false} RunFrame(cfg: Config, s: State, actions: seq<Action>)
    requires Inv(cfg, s)
    ensures var t := Run(cfg, s, actions); s.history <= t.history && PreparedStay(s, t) && t.initial == s.initial
    decreases |actions|
  {
    hide Inv, Step;
    if actions == [] {
    } else {
      var last := |actions| - 1;
      RunFrame(cfg, s, actions[..last]);
      StepFrame(cfg, Run(cfg, s, actions[..last]), actions[last]);
    }
  }

  // ---------------------------------------------------------------- locks

  lemma CleanLocks(s: State, c: nat, removed: bool)
    requires c in s.calls && s.calls[c].stage.Cleaning?
    ensures SameLocks(s, Clean(s, c, removed))
  {}

  lemma TempLocks(s: State, c: nat, count: nat)
    requires c in s.calls
    ensures s.calls[c].stage.Decided? ==> SameLocks(s, OpenTemp(s, c))
    ensures s.calls[c].stage.Filling? ==> SameLocks(s, Fill(s, c, count)) && SameLocks(s, Seal(s, c))
  {}

  lemma PublishLocks(cfg: Config, s: State, c: nat)
    requires c in s.calls && s.calls[c].stage.Ready?
    ensures SameLocks(s, Publish(cfg, s, c))
  {
    hide ContentAt;
  }

  lemma RemovalLocks(cfg: Config, s: State, c: nat, suffix: string)
    requires c in s.calls
    ensures s.calls[c].stage.Trashing? ==> SameLocks(s, Link(cfg, s, c, suffix))
    ensures s.calls[c].stage.Linked? || s.calls[c].stage.Removing? ==> SameLocks(s, Unlink(cfg, s, c))
  {
    hide ContentAt, TrashTarget;
  }

  /** Only a lookup and a crash change the lock map. */
  lemma AdvanceSameLocks(cfg: Config, s: State, c: nat, choice: Choice)
    requires c in s.live && s.live <= s.calls.Keys && !s.calls[c].stage.Arrived?
    ensures SameLocks(s, AdvanceCall(cfg, s, c, choice))
  {
    hide OpenTemp, Fill, Seal, Publish, Clean, Link, Unlink, LookUp, Acquire, Check, Start, Complete, Leave, Still,
        SameLocks;
    StillItself(s);
    ReadStill(cfg, s, c);
    AuditStill(s, c, true);
    TempLocks(s, c, if choice.Chunk? then choice.count else 0);
    RemovalLocks(cfg, s, c, if choice.Suffix? then choice.text else "");
    match s.calls[c].stage
    case Ready(_, _, _) => PublishLocks(cfg, s, c);
    case Cleaning(_, _) => CleanLocks(s, c, true);
    case Recorded(outcome) => RecordStill(s, c, s.calls[c].(stage := Returned(outcome)));
    case _ =>
  }
}
