/** A call that owns its lock and is left alone can always finish, and then with the result its mutation is for. */
module WriterProgress {
  import opened Text
  import opened Frontmatter
  import opened Writer
  import opened WriterInvariant
  import opened WriterSteps
  import opened WriterEffects
  import opened WriterLocks
  import opened WriterRuns
  import opened WriterSafety
  import opened WriterTexts

  lemma {:induction false} RunPrepend(cfg: Config, s: State, action: Action, actions: seq<Action>)
    requires Inv(cfg, s)
    ensures Inv(cfg, Step(cfg, s, action)) && Run(cfg, s, [action] + actions) == Run(cfg, Step(cfg, s, action), actions)
    decreases |actions|
  {
    hide Inv, Step;
    StepKeeps(cfg, s, action);
    var all := [action] + actions;
    if actions == [] {
      RunAppend(cfg, s, [], action);
      assert all == [] + [action];
    } else {
      var before := actions[..|actions| - 1];
      RunPrepend(cfg, s, action, before);
      assert all[..|all| - 1] == [action] + before;
    }
  }

  /** The call has returned this outcome, and its completion is stored. */
  ghost predicate Returns(t: State, c: nat, outcome: Outcome) {
    c in t.calls && t.calls[c].stage == Returned(outcome) && t.calls[c].closing == Completed
  }

  ghost predicate SameNotes(s: State, t: State) { forall n: string :: ContentAt(t, n) == ContentAt(s, n) }

  /** The same temporary names. */
  ghost predicate SameTemps(s: State, t: State) {
    forall id: nat :: TempName(id) in t.names <==> TempName(id) in s.names
  }

  /** All temporary names but this one. */
  ghost predicate WithoutTemp(s: State, t: State, temp: nat) {
    forall id: nat :: TempName(id) in t.names <==> TempName(id) in s.names && id != temp
  }

  ghost predicate OnlyAt(s: State, t: State, a: string, b: string) {
    forall n: string | n != a && n != b :: ContentAt(t, n) == ContentAt(s, n)
  }

  lemma FromRecorded(cfg: Config, s: State, c: nat, outcome: Outcome) returns (actions: seq<Action>)
    requires Inv(cfg, s) && c in s.live && s.calls[c].stage == Recorded(outcome) && s.calls[c].closing == Completed
    ensures var t := Run(cfg, s, actions); Returns(t, c, outcome) && SameNotes(s, t) && SameTemps(s, t)
  {
    hide LockInv, DiskInv, TempInv, HoldInv, ShapeInv, HistoryInv, AuditInv, Run, ContentAt;
    actions := [Act(c, Proceed)] + [];
    RunPrepend(cfg, s, Act(c, Proceed), []);
    var t := Step(cfg, s, Act(c, Proceed));
    RunNothing(cfg, t);
    assert t == Leave(s, c, s.calls[c].(stage := Returned(outcome)));
    SameContents(s, t);
  }

  lemma FromFinished(cfg: Config, s: State, c: nat, outcome: Outcome) returns (actions: seq<Action>)
    requires Inv(cfg, s) && c in s.live && s.calls[c].stage == Finished(outcome) && outcome.Success?
    ensures var t := Run(cfg, s, actions); Returns(t, c, outcome) && SameNotes(s, t) && SameTemps(s, t)
  {
    hide LockInv, DiskInv, TempInv, HoldInv, ShapeInv, HistoryInv, AuditInv, Run, ContentAt, ClosingEvents, ClosingRows;
    var a := Act(c, Proceed);
    RunPrepend(cfg, s, a, []);
    var u := Step(cfg, s, a);
    assert u == Complete(s, c, true);
    SameContents(s, u);
    var rest := FromRecorded(cfg, u, c, outcome);
    RunPrepend(cfg, s, a, rest);
    actions := [a] + rest;
  }

  lemma FromCleaning(cfg: Config, s: State, c: nat, outcome: Outcome) returns (actions: seq<Action>)
    requires Inv(cfg, s) && c in s.live && s.calls[c].stage.Cleaning? && s.calls[c].stage.outcome == outcome
    requires outcome.Success?
    ensures var t := Run(cfg, s, actions); Returns(t, c, outcome) && SameNotes(s, t)
    ensures WithoutTemp(s, Run(cfg, s, actions), s.calls[c].stage.temp)
  {
    hide LockInv, DiskInv, TempInv, HoldInv, ShapeInv, HistoryInv, AuditInv, Run, ContentAt;
    var a := Act(c, Proceed);
    RunPrepend(cfg, s, a, []);
    var u := Step(cfg, s, a);
    assert u == Clean(s, c, true);
    CleanDisk(s, c, true);
    var rest := FromFinished(cfg, u, c, outcome);
    RunPrepend(cfg, s, a, rest);
    actions := [a] + rest;
  }

  /** The new text is published under the call's own name, which a create finds free. */
  lemma FromReady(cfg: Config, s: State, c: nat, next: string) returns (actions: seq<Action>)
    requires Inv(cfg, s) && c in s.live && s.calls[c].stage.Ready? && s.calls[c].stage.next == next
    requires s.calls[c].op.Create? ==> NoteName(Identity(cfg, s.calls[c])) !in s.names
    ensures var t, id := Run(cfg, s, actions), Identity(cfg, s.calls[c]);
      Returns(t, c, Success(Sha256(next), None)) && ContentAt(t, id) == Some(next) && OnlyAt(s, t, id, id)
    ensures WithoutTemp(s, Run(cfg, s, actions), s.calls[c].stage.temp)
  {
    hide LockInv, DiskInv, TempInv, HoldInv, ShapeInv, HistoryInv, AuditInv, Run, ContentAt, Changed;
    var a, k, id := Act(c, Proceed), s.calls[c], Identity(cfg, s.calls[c]);
    RunPrepend(cfg, s, a, []);
    var u := Step(cfg, s, a);
    ReadyFacts(cfg, s, c);
    var Ready(_, temp, inode) := k.stage;
    var e := Entry(c, id, k.base, true, ContentAt(s, id), Some(next));
    var names := Published(s, id, temp, inode, k.op.Create?);
    ChangedAdvances(s, c, names, e, Cleaning(temp, Success(Sha256(next), None)));
    assert u == Changed(s, c, names, e, Cleaning(temp, Success(Sha256(next), None)));
    PublishedDisk(s, u, id, temp, inode, k.op.Create?);
    var rest := FromCleaning(cfg, u, c, Success(Sha256(next), None));
    RunPrepend(cfg, s, a, rest);
    actions := [a] + rest;
  }

  lemma FromSealing(cfg: Config, s: State, c: nat, next: string) returns (actions: seq<Action>)
    requires Inv(cfg, s) && c in s.live && s.calls[c].stage.Filling? && s.calls[c].stage.next == next
    requires s.calls[c].stage.inode in s.data && s.data[s.calls[c].stage.inode] == next
    requires s.calls[c].op.Create? ==> NoteName(Identity(cfg, s.calls[c])) !in s.names
    ensures var t, id := Run(cfg, s, actions), Identity(cfg, s.calls[c]);
      Returns(t, c, Success(Sha256(next), None)) && ContentAt(t, id) == Some(next) && OnlyAt(s, t, id, id)
    ensures WithoutTemp(s, Run(cfg, s, actions), s.calls[c].stage.temp)
  {
    hide LockInv, DiskInv, TempInv, HoldInv, ShapeInv, HistoryInv, AuditInv, Run, ContentAt;
    var a := Act(c, Proceed);
    RunPrepend(cfg, s, a, []);
    var u := Step(cfg, s, a);
    assert u == Seal(s, c);
    SealDisk(s, c);
    var rest := FromReady(cfg, u, c, next);
    RunPrepend(cfg, s, a, rest);
    actions := [a] + rest;
  }

  lemma FromFilling(cfg: Config, s: State, c: nat, next: string) returns (actions: seq<Action>)
    requires Inv(cfg, s) && c in s.live && s.calls[c].stage.Filling? && s.calls[c].stage.next == next
    requires s.calls[c].op.Create? ==> NoteName(Identity(cfg, s.calls[c])) !in s.names
    ensures var t, id := Run(cfg, s, actions), Identity(cfg, s.calls[c]);
      Returns(t, c, Success(Sha256(next), None)) && ContentAt(t, id) == Some(next) && OnlyAt(s, t, id, id)
    ensures WithoutTemp(s, Run(cfg, s, actions), s.calls[c].stage.temp)
  {
    hide LockInv, DiskInv, TempInv, HoldInv, ShapeInv, HistoryInv, AuditInv, Run, ContentAt;
    var a := Act(c, Chunk(|next|));
    RunPrepend(cfg, s, a, []);
    var u := Step(cfg, s, a);
    assert u == Fill(s, c, |next|);
    FillDisk(s, c, |next|);
    FillAll(s, c, next);
    var rest := FromSealing(cfg, u, c, next);
    RunPrepend(cfg, s, a, rest);
    actions := [a] + rest;
  }

  lemma FillAll(s: State, c: nat, next: string)
    requires Known(s) && TempInv(s) && c in s.live && s.calls[c].stage.Filling? && s.calls[c].stage.next == next
    ensures var u := Fill(s, c, |next|); u == s.(data := u.data)
    ensures var u, inode := Fill(s, c, |next|), s.calls[c].stage.inode; inode in u.data && u.data[inode] == next
  {}

  lemma FreshTemp(cfg: Config, s: State)
    requires Inv(cfg, s)
    ensures TempName(s.nextTemp) !in s.names
  {}

  lemma FromDecided(cfg: Config, s: State, c: nat, next: string) returns (actions: seq<Action>)
    requires Inv(cfg, s) && c in s.live && s.calls[c].stage == Decided(next)
    requires s.calls[c].op.Create? ==> NoteName(Identity(cfg, s.calls[c])) !in s.names
    ensures var t, id := Run(cfg, s, actions), Identity(cfg, s.calls[c]);
      Returns(t, c, Success(Sha256(next), None)) && ContentAt(t, id) == Some(next) && OnlyAt(s, t, id, id)
    ensures SameTemps(s, Run(cfg, s, actions))
  {
    hide LockInv, DiskInv, TempInv, HoldInv, ShapeInv, HistoryInv, AuditInv, Run, ContentAt;
    FreshTemp(cfg, s);
    var a := Act(c, Proceed);
    RunPrepend(cfg, s, a, []);
    var u := Step(cfg, s, a);
    assert u == OpenTemp(s, c);
    OpenTempDisk(s, c);
    var rest := FromFilling(cfg, u, c, next);
    RunPrepend(cfg, s, a, rest);
    actions := [a] + rest;
  }

  // ---------------------------------------------------------------- edits

  predicate Edits(op: Mutation) { !op.Create? && !op.Delete? && !op.HardDelete? }

  /** One check step of a call that has not read, or has read, its note. */
  lemma CheckStep(cfg: Config, s: State, c: nat, m: Call)
    requires Inv(cfg, s) && c in s.live && Checking(s.calls[c].stage)
    requires m == Checked(cfg, s.calls[c], ContentAt(s, Identity(cfg, s.calls[c])))
    ensures var u := Step(cfg, s, Act(c, Proceed));
      Inv(cfg, u) && SameNotes(s, u) && u.live == s.live && c in u.calls && u.calls[c] == m && u.names == s.names
  {
    hide LockInv, DiskInv, TempInv, HoldInv, ShapeInv, HistoryInv, AuditInv, Checked, ContentAt;
    StepKeeps(cfg, s, Act(c, Proceed));
    SameContents(s, Check(cfg, s, c));
  }

  lemma FromMatched(cfg: Config, s: State, c: nat, next: string) returns (actions: seq<Action>)
    requires Inv(cfg, s) && c in s.live && s.calls[c].stage.Matched? && Edits(s.calls[c].op)
    requires NextText(cfg.nf, s.calls[c].op, SeenText(s.calls[c])) == Ok(next)
    ensures var t, id := Run(cfg, s, actions), Identity(cfg, s.calls[c]);
      Returns(t, c, Success(Sha256(next), None)) && ContentAt(t, id) == Some(next) && OnlyAt(s, t, id, id)
    ensures SameTemps(s, Run(cfg, s, actions))
  {
    hide LockInv, DiskInv, TempInv, HoldInv, ShapeInv, HistoryInv, AuditInv, Run, ContentAt, NextText, Step, At;
    var a, k := Act(c, Proceed), s.calls[c];
    var m := Checked(cfg, k, ContentAt(s, Identity(cfg, k)));
    assert m == k.(stage := Decided(next));
    CheckStep(cfg, s, c, m);
    var rest := FromDecided(cfg, Step(cfg, s, a), c, next);
    RunPrepend(cfg, s, a, rest);
    actions := [a] + rest;
  }

  lemma FromExamined(cfg: Config, s: State, c: nat, text: string, next: string) returns (actions: seq<Action>)
    requires Inv(cfg, s) && c in s.live && s.calls[c].stage.Examined? && Edits(s.calls[c].op)
    requires ContentAt(s, Identity(cfg, s.calls[c])) == Some(text) && s.calls[c].base == Some(Sha256(text))
    requires NextText(cfg.nf, s.calls[c].op, text) == Ok(next)
    ensures var t, id := Run(cfg, s, actions), Identity(cfg, s.calls[c]);
      Returns(t, c, Success(Sha256(next), None)) && ContentAt(t, id) == Some(next) && OnlyAt(s, t, id, id)
    ensures SameTemps(s, Run(cfg, s, actions))
  {
    hide LockInv, DiskInv, TempInv, HoldInv, ShapeInv, HistoryInv, AuditInv, Run, ContentAt, NextText, Step, At;
    var a, k := Act(c, Proceed), s.calls[c];
    var m := Checked(cfg, k, ContentAt(s, Identity(cfg, k)));
    assert m == k.(stage := Matched, seen := Some(text));
    CheckStep(cfg, s, c, m);
    var rest := FromMatched(cfg, Step(cfg, s, a), c, next);
    RunPrepend(cfg, s, a, rest);
    actions := [a] + rest;
  }

  lemma FromEntered(cfg: Config, s: State, c: nat, text: string, next: string) returns (actions: seq<Action>)
    requires Inv(cfg, s) && c in s.live && s.calls[c].stage.Entered? && Edits(s.calls[c].op)
    requires ContentAt(s, Identity(cfg, s.calls[c])) == Some(text) && s.calls[c].base == Some(Sha256(text))
    requires NextText(cfg.nf, s.calls[c].op, text) == Ok(next)
    ensures var t, id := Run(cfg, s, actions), Identity(cfg, s.calls[c]);
      Returns(t, c, Success(Sha256(next), None)) && ContentAt(t, id) == Some(next) && OnlyAt(s, t, id, id)
    ensures SameTemps(s, Run(cfg, s, actions))
  {
    hide LockInv, DiskInv, TempInv, HoldInv, ShapeInv, HistoryInv, AuditInv, Run, ContentAt, NextText, Step, At;
    var a, k := Act(c, Proceed), s.calls[c];
    var m := Checked(cfg, k, ContentAt(s, Identity(cfg, k)));
    assert m == k.(stage := Examined);
    CheckStep(cfg, s, c, m);
    var rest := FromExamined(cfg, Step(cfg, s, a), c, text, next);
    RunPrepend(cfg, s, a, rest);
    actions := [a] + rest;
  }

  /**
   * Replace, field update and section replacement: with the right base and a text that can be made, the call succeeds
   * with it.
   */
  lemma EditCanSucceed(cfg: Config, s: State, c: nat, text: string, next: string) returns (actions: seq<Action>)
    requires Inv(cfg, s) && c in s.live && s.calls[c].stage.Entered? && Edits(s.calls[c].op)
    requires ContentAt(s, Identity(cfg, s.calls[c])) == Some(text) && s.calls[c].base == Some(Sha256(text))
    requires Lawful(cfg.nf) && Ordered(s.calls[c].op) && Makes(cfg.nf, s.calls[c].op, text, next)
    ensures var t, id := Run(cfg, s, actions), Identity(cfg, s.calls[c]);
      Returns(t, c, Success(Sha256(next), None)) && ContentAt(t, id) == Some(next) && OnlyAt(s, t, id, id)
    ensures SameTemps(s, Run(cfg, s, actions))
  {
    hide LockInv, DiskInv, TempInv, HoldInv, ShapeInv, HistoryInv, AuditInv, Run, ContentAt, NextText, Makes;
    hide Lawful, Ordered;
    MakesExactly(cfg.nf, s.calls[c].op, text, next);
    actions := FromEntered(cfg, s, c, text, next);
  }

  lemma FromVacant(cfg: Config, s: State, c: nat, next: string) returns (actions: seq<Action>)
    requires Inv(cfg, s) && c in s.live && s.calls[c].stage.Vacant? && s.calls[c].op.Create?
    requires NoteName(Identity(cfg, s.calls[c])) !in s.names
    requires NextText(cfg.nf, s.calls[c].op, SeenText(s.calls[c])) == Ok(next)
    ensures var t, id := Run(cfg, s, actions), Identity(cfg, s.calls[c]);
      Returns(t, c, Success(Sha256(next), None)) && ContentAt(t, id) == Some(next) && OnlyAt(s, t, id, id)
    ensures SameTemps(s, Run(cfg, s, actions))
  {
    hide LockInv, DiskInv, TempInv, HoldInv, ShapeInv, HistoryInv, AuditInv, Run, ContentAt, NextText, Step, At;
    var a, k := Act(c, Proceed), s.calls[c];
    var m := Checked(cfg, k, ContentAt(s, Identity(cfg, k)));
    assert m == k.(stage := Decided(next));
    CheckStep(cfg, s, c, m);
    var rest := FromDecided(cfg, Step(cfg, s, a), c, next);
    RunPrepend(cfg, s, a, rest);
    actions := [a] + rest;
  }

  lemma Unseen(cfg: Config, s: State, c: nat)
    requires Inv(cfg, s) && c in s.live && s.calls[c].stage.Entered?
    ensures s.calls[c].seen == None
    ensures NoteName(Identity(cfg, s.calls[c])) !in s.names ==> ContentAt(s, Identity(cfg, s.calls[c])) == None
  {
    hide LockInv, DiskInv, TempInv, HoldInv, HistoryInv, AuditInv;
    assert Shape(cfg, c, s.calls[c]);
  }

  /** A create of a free name with valid fields succeeds with the rendered note. */
  lemma CreateCanSucceed(cfg: Config, s: State, c: nat) returns (actions: seq<Action>)
    requires Inv(cfg, s) && c in s.live && s.calls[c].stage.Entered? && s.calls[c].op.Create?
    requires NoteName(Identity(cfg, s.calls[c])) !in s.names && Writable(s.calls[c].op.fields)
    ensures var t, k := Run(cfg, s, actions), s.calls[c];
      var next := Rendered(cfg.nf, k.op.content, k.op.fields);
      Returns(t, c, Success(Sha256(next), None)) && ContentAt(t, Identity(cfg, k)) == Some(next)
      && OnlyAt(s, t, Identity(cfg, k), Identity(cfg, k)) && SameTemps(s, t)
  {
    hide LockInv, DiskInv, TempInv, HoldInv, ShapeInv, HistoryInv, AuditInv, Run, ContentAt, Step, At, Rendered;
    var a, k := Act(c, Proceed), s.calls[c];
    Unseen(cfg, s, c);
    var m := Checked(cfg, k, ContentAt(s, Identity(cfg, k)));
    assert m == k.(stage := Vacant);
    CheckStep(cfg, s, c, m);
    var rest := FromVacant(cfg, Step(cfg, s, a), c, Rendered(cfg.nf, k.op.content, k.op.fields));
    RunPrepend(cfg, s, a, rest);
    actions := [a] + rest;
  }

  // ---------------------------------------------------------------- deletes

  lemma FromUnlinking(cfg: Config, s: State, c: nat) returns (actions: seq<Action>)
    requires Inv(cfg, s) && c in s.live && (s.calls[c].stage.Linked? || s.calls[c].stage.Removing?)
    requires NoteName(Identity(cfg, s.calls[c])) in s.names
    ensures var t, k := Run(cfg, s, actions), s.calls[c];
      Returns(t, c, Success(Sha256(SeenText(k)), if k.stage.Linked? then Some(k.stage.target) else None))
      && ContentAt(t, Identity(cfg, k)) == None && OnlyAt(s, t, Identity(cfg, k), Identity(cfg, k))
  {
    hide LockInv, DiskInv, TempInv, HoldInv, ShapeInv, HistoryInv, AuditInv, Run, ContentAt, Changed;
    var a, k, id := Act(c, Proceed), s.calls[c], Identity(cfg, s.calls[c]);
    RunPrepend(cfg, s, a, []);
    var u := Step(cfg, s, a);
    UnlinkingOpen(cfg, s, c);
    var outcome := Success(Sha256(SeenText(k)), if k.stage.Linked? then Some(k.stage.target) else None);
    var e := Entry(c, id, k.base, true, ContentAt(s, id), None);
    ChangedAdvances(s, c, s.names - {NoteName(id)}, e, Finished(outcome));
    assert u == Changed(s, c, s.names - {NoteName(id)}, e, Finished(outcome));
    UnlinkedDisk(s, u, id);
    var rest := FromFinished(cfg, u, c, outcome);
    RunPrepend(cfg, s, a, rest);
    actions := [a] + rest;
  }

  lemma UnlinkingOpen(cfg: Config, s: State, c: nat)
    requires ShapeInv(cfg, s) && c in s.calls
    requires (s.calls[c].stage.Linked? || s.calls[c].stage.Removing? || s.calls[c].stage.Trashing?)
    ensures s.calls[c].closing == Open
  {
    assert Shape(cfg, c, s.calls[c]);
  }

  /** A soft delete whose trash name is free moves the note there and returns that name. */
  lemma TrashCanSucceed(cfg: Config, s: State, c: nat) returns (actions: seq<Action>)
    requires Inv(cfg, s) && c in s.live && s.calls[c].stage.Trashing?
    requires NoteName(Identity(cfg, s.calls[c])) in s.names
    requires NoteName(cfg.identity(s.calls[c].stage.target)) !in s.names
    ensures var t, k := Run(cfg, s, actions), s.calls[c];
      var id, to := Identity(cfg, k), cfg.identity(k.stage.target);
      Returns(t, c, Success(Sha256(SeenText(k)), Some(k.stage.target)))
      && ContentAt(t, id) == None && ContentAt(t, to) == ContentAt(s, id) && OnlyAt(s, t, id, to)
  {
    hide LockInv, DiskInv, TempInv, HoldInv, ShapeInv, HistoryInv, AuditInv, Run, ContentAt, Changed;
    var a, k, id := Act(c, Proceed), s.calls[c], Identity(cfg, s.calls[c]);
    var target := k.stage.target;
    var to := cfg.identity(target);
    RunPrepend(cfg, s, a, []);
    var u := Step(cfg, s, a);
    UnlinkingOpen(cfg, s, c);
    var names := s.names[NoteName(to) := s.names[NoteName(id)]];
    var e := Entry(c, to, None, false, ContentAt(s, to), ContentAt(s, id));
    ChangedAdvances(s, c, names, e, Linked(target));
    assert u == Changed(s, c, names, e, Linked(target));
    LinkedDisk(s, u, id, to);
    var rest := FromUnlinking(cfg, u, c);
    RunPrepend(cfg, s, a, rest);
    actions := [a] + rest;
  }

  lemma PresentName(cfg: Config, s: State, id: string)
    requires ContentAt(s, id).Some?
    ensures NoteName(id) in s.names
  {}

  lemma ToMatched(cfg: Config, s: State, c: nat, text: string) returns (u: State)
    requires Inv(cfg, s) && c in s.live && s.calls[c].stage.Entered? && !s.calls[c].op.Create?
    requires ContentAt(s, Identity(cfg, s.calls[c])) == Some(text) && s.calls[c].base == Some(Sha256(text))
    ensures Inv(cfg, u) && u == Run(cfg, s, [Act(c, Proceed), Act(c, Proceed)]) && SameNotes(s, u) && u.names == s.names
    ensures c in u.live && u.calls[c] == s.calls[c].(stage := Matched, seen := Some(text))
  {
    hide LockInv, DiskInv, TempInv, HoldInv, ShapeInv, HistoryInv, AuditInv, Run, ContentAt, Step, At;
    var a, k := Act(c, Proceed), s.calls[c];
    CheckStep(cfg, s, c, k.(stage := Examined));
    var v := Step(cfg, s, a);
    CheckStep(cfg, v, c, k.(stage := Matched, seen := Some(text)));
    u := Step(cfg, v, a);
    RunPrepend(cfg, v, a, []);
    RunNothing(cfg, u);
    RunPrepend(cfg, s, a, [a] + []);
    assert [a] + ([a] + []) == [a, a];
  }

  lemma {:induction false} RunJoin(cfg: Config, s: State, before: seq<Action>, after: seq<Action>)
    requires Inv(cfg, s)
    ensures Run(cfg, s, before + after) == Run(cfg, Run(cfg, s, before), after)
    decreases |after|
  {
    hide Inv, Step, Run;
    if after == [] {
      assert before + after == before;
      RunNothing(cfg, Run(cfg, s, before));
    } else {
      var last := |after| - 1;
      RunJoin(cfg, s, before, after[..last]);
      RunAppend(cfg, s, before + after[..last], after[last]);
      RunAppend(cfg, Run(cfg, s, before), after[..last], after[last]);
      assert after == after[..last] + [after[last]];
      assert before + after == (before + after[..last]) + [after[last]];
    }
  }

  lemma FromEnteredDelete(cfg: Config, s: State, c: nat, text: string) returns (actions: seq<Action>)
    requires Inv(cfg, s) && c in s.live && s.calls[c].stage.Entered? && s.calls[c].op.Delete?
    requires ContentAt(s, Identity(cfg, s.calls[c])) == Some(text) && s.calls[c].base == Some(Sha256(text))
    requires NoteName(cfg.identity(TrashTarget(cfg, s.calls[c].path))) !in s.names
    ensures var t, k := Run(cfg, s, actions), s.calls[c];
      var id, target := Identity(cfg, k), TrashTarget(cfg, k.path);
      Returns(t, c, Success(Sha256(text), Some(target)))
      && ContentAt(t, id) == None && ContentAt(t, cfg.identity(target)) == Some(text)
      && OnlyAt(s, t, id, cfg.identity(target))
  {
    hide LockInv, DiskInv, TempInv, HoldInv, ShapeInv, HistoryInv, AuditInv, Run, ContentAt, Step, At, TrashTarget;
    var a, k, id := Act(c, Proceed), s.calls[c], Identity(cfg, s.calls[c]);
    PresentName(cfg, s, id);
    var u := ToMatched(cfg, s, c, text);
    CheckStep(cfg, u, c, u.calls[c].(stage := Trashing(TrashTarget(cfg, k.path))));
    var v := Step(cfg, u, a);
    var rest := TrashCanSucceed(cfg, v, c);
    RunPrepend(cfg, u, a, rest);
    RunJoin(cfg, s, [a, a], [a] + rest);
    actions := [a, a] + ([a] + rest);
  }

  /** A soft delete with the right base whose first trash name is free succeeds. */
  lemma DeleteCanSucceed(cfg: Config, s: State, c: nat, text: string) returns (actions: seq<Action>)
    requires Inv(cfg, s) && c in s.live && s.calls[c].stage.Entered? && s.calls[c].op.Delete?
    requires ContentAt(s, Identity(cfg, s.calls[c])) == Some(text) && s.calls[c].base == Some(Sha256(text))
    requires NoteName(cfg.identity(cfg.trash + "/" + s.calls[c].path)) !in s.names
    ensures var t, k := Run(cfg, s, actions), s.calls[c];
      var id, target := Identity(cfg, k), cfg.trash + "/" + k.path;
      Returns(t, c, Success(Sha256(text), Some(target)))
      && ContentAt(t, id) == None && ContentAt(t, cfg.identity(target)) == Some(text)
      && OnlyAt(s, t, id, cfg.identity(target))
  {
    assert TrashTarget(cfg, s.calls[c].path) == cfg.trash + "/" + s.calls[c].path;
    hide LockInv, DiskInv, TempInv, HoldInv, ShapeInv, HistoryInv, AuditInv, Run, ContentAt, TrashTarget, Returns;
    hide OnlyAt;
    actions := FromEnteredDelete(cfg, s, c, text);
  }

  /** A hard delete with the right base succeeds. */
  lemma HardDeleteCanSucceed(cfg: Config, s: State, c: nat, text: string) returns (actions: seq<Action>)
    requires Inv(cfg, s) && c in s.live && s.calls[c].stage.Entered? && s.calls[c].op.HardDelete?
    requires ContentAt(s, Identity(cfg, s.calls[c])) == Some(text) && s.calls[c].base == Some(Sha256(text))
    ensures var t, id := Run(cfg, s, actions), Identity(cfg, s.calls[c]);
      Returns(t, c, Success(Sha256(text), None)) && ContentAt(t, id) == None && OnlyAt(s, t, id, id)
  {
    hide LockInv, DiskInv, TempInv, HoldInv, ShapeInv, HistoryInv, AuditInv, Run, ContentAt, Step, At;
    var a, id := Act(c, Proceed), Identity(cfg, s.calls[c]);
    PresentName(cfg, s, id);
    var u := ToMatched(cfg, s, c, text);
    CheckStep(cfg, u, c, u.calls[c].(stage := Removing));
    var v := Step(cfg, u, a);
    var rest := FromUnlinking(cfg, v, c);
    RunPrepend(cfg, u, a, rest);
    RunJoin(cfg, s, [a, a], [a] + rest);
    actions := [a, a] + ([a] + rest);
  }

  // ---------------------------------------------------------------- entering

  ghost predicate NobodyInside(cfg: Config, s: State, id: string)
    requires s.live <= s.calls.Keys
  {
    forall d | d in s.live && Owns(s.calls[d]) :: Identity(cfg, s.calls[d]) != id
  }

  lemma ArriveStep(cfg: Config, s: State, path: string, op: Mutation, base: Option<Hash>)
    requires Inv(cfg, s) && NobodyInside(cfg, s, cfg.identity(path))
    ensures var c, u := s.nextCall, Step(cfg, s, Arrive(path, op, base));
      Inv(cfg, u) && SameNotes(s, u) && c in u.live && NobodyInside(cfg, u, cfg.identity(path))
      && u.calls[c] == Call(path, op, base, Arrived, 0, None, false, Open, [])
  {
    hide LockInv, DiskInv, TempInv, HoldInv, ShapeInv, HistoryInv, AuditInv, ContentAt, StepCall;
    ArriveKeeps(cfg, s, path, op, base);
    SameContents(s, Step(cfg, s, Arrive(path, op, base)));
  }

  lemma LookUpStep(cfg: Config, s: State, c: nat)
    requires Inv(cfg, s) && c in s.live && s.calls[c].stage.Arrived? && NobodyInside(cfg, s, Identity(cfg, s.calls[c]))
    ensures var u := Step(cfg, s, Act(c, Proceed));
      Inv(cfg, u) && SameNotes(s, u) && c in u.live
          && u.calls[c] == s.calls[c].(stage := Waiting, lock := u.calls[c].lock)
      && NobodyInside(cfg, u, Identity(cfg, s.calls[c]))
  {
    hide LockInv, DiskInv, TempInv, HoldInv, ShapeInv, HistoryInv, AuditInv, ContentAt, Kept;
    assert Step(cfg, s, Act(c, Proceed)) == LookUp(cfg, s, c);
    LookUpKeeps(cfg, s, c);
    SameContents(s, LookUp(cfg, s, c));
  }

  lemma LockIsFree(cfg: Config, s: State, c: nat)
    requires Known(s) && LockInv(cfg, s) && c in s.live && s.calls[c].stage.Waiting?
    requires NobodyInside(cfg, s, Identity(cfg, s.calls[c]))
    ensures Acquire(s, c)
         == At(s.(stamps := Took(s.stamps, c)), c, s.calls[c].(stage := Owning))
  {
    hide Identity, At;
  }

  lemma AcquireStep(cfg: Config, s: State, c: nat)
    requires Inv(cfg, s) && c in s.live && s.calls[c].stage.Waiting? && NobodyInside(cfg, s, Identity(cfg, s.calls[c]))
    ensures var u := Step(cfg, s, Act(c, Proceed));
      Inv(cfg, u) && SameNotes(s, u) && c in u.live && u.calls[c] == s.calls[c].(stage := Owning)
  {
    hide LockInv, DiskInv, TempInv, HoldInv, ShapeInv, HistoryInv, AuditInv, ContentAt, Acquire;
    assert Step(cfg, s, Act(c, Proceed)) == Acquire(s, c);
    LockIsFree(cfg, s, c);
    AcquireKeeps(cfg, s, c);
    SameContents(s, Acquire(s, c));
  }

  lemma StartStep(cfg: Config, s: State, c: nat)
    requires Inv(cfg, s) && c in s.live && s.calls[c].stage.Owning?
    ensures var u := Step(cfg, s, Act(c, Proceed));
      Inv(cfg, u) && SameNotes(s, u) && c in u.live && u.calls[c] == s.calls[c].(stage := Entered, attempt := true)
  {
    hide LockInv, DiskInv, TempInv, HoldInv, ShapeInv, HistoryInv, AuditInv, ContentAt;
    StartKeeps(cfg, s, c, true);
    SameContents(s, Start(s, c, true));
  }

  /** A call that arrives while nobody is inside its identity can take the lock and open its audit bracket. */
  lemma CallCanEnter(cfg: Config, s: State, path: string, op: Mutation, base: Option<Hash>) returns (u: State)
    requires Inv(cfg, s) && NobodyInside(cfg, s, cfg.identity(path))
    ensures var c, a := s.nextCall, Act(s.nextCall, Proceed);
      Inv(cfg, u) && u == Run(cfg, s, [Arrive(path, op, base), a, a, a]) && SameNotes(s, u)
      && c in u.live && u.calls[c].stage.Entered? && u.calls[c].path == path && u.calls[c].op == op
      && u.calls[c].base == base
  {
    hide LockInv, DiskInv, TempInv, HoldInv, ShapeInv, HistoryInv, AuditInv, ContentAt, Step, Run, NobodyInside;
    var c, a := s.nextCall, Act(s.nextCall, Proceed);
    ArriveStep(cfg, s, path, op, base);
    var s1 := Step(cfg, s, Arrive(path, op, base));
    LookUpStep(cfg, s1, c);
    var s2 := Step(cfg, s1, a);
    AcquireStep(cfg, s2, c);
    var s3 := Step(cfg, s2, a);
    StartStep(cfg, s3, c);
    u := Step(cfg, s3, a);
    RunNothing(cfg, u);
    RunPrepend(cfg, s3, a, []);
    RunPrepend(cfg, s2, a, [a] + []);
    RunPrepend(cfg, s1, a, [a] + ([a] + []));
    RunPrepend(cfg, s, Arrive(path, op, base), [a] + ([a] + ([a] + [])));
    assert [Arrive(path, op, base)] + ([a] + ([a] + ([a] + []))) == [Arrive(path, op, base), a, a, a];
  }
}
