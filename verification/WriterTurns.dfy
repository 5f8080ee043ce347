/** The order in which calls had their turns: what each step may change of the calls and of what is recorded. */
module WriterTurns {
  import opened Text
  import opened Frontmatter
  import opened Writer
  import opened WriterInvariant
  import opened WriterSteps
  import opened WriterLocks
  import opened WriterRuns
  import opened WriterFrames
  import opened WriterSafety

  // ---------------------------------------------------------------- kinds of steps

  /** Call `c` moves on inside its turn, without reading its note. */
  ghost predicate Moves(s: State, t: State, c: nat) {
    && c in s.live && s.live <= s.calls.Keys && c in t.calls && t.calls == s.calls[c := t.calls[c]]
    && t.live == s.live && t.locks == s.locks && t.stamps == s.stamps && t.initial == s.initial
    && var k, m := s.calls[c], t.calls[c];
       Owns(k) && Owns(m) && m.path == k.path && m.seen == k.seen
  }

  /** The call returns: at the end, on a path that turns out invalid, or on a failure before its turn. */
  predicate Departs(stage: Stage, choice: Choice) {
    || stage.Recorded?
    || ((stage.Arrived? || stage.Waiting?) && choice.Fail?)
    || (stage.Owning? && choice == Fail(InvalidPath))
  }

  lemma RecordMoves(s: State, c: nat, m: Call)
    requires c in s.live && s.live <= s.calls.Keys && Owns(s.calls[c]) && Owns(m)
    requires m.path == s.calls[c].path && m.seen == s.calls[c].seen
    ensures Moves(s, At(s, c, m), c)
  {}

  lemma AuditMoves(s: State, c: nat, stored: bool)
    requires c in s.live && s.live <= s.calls.Keys
    ensures s.calls[c].stage.Owning? ==> Moves(s, Start(s, c, stored), c)
    ensures s.calls[c].stage.Finished? ==> Moves(s, Complete(s, c, stored), c)
  {
    hide ClosingEvents, ClosingRows;
  }

  lemma TempMoves(s: State, c: nat, count: nat, removed: bool)
    requires c in s.live && s.live <= s.calls.Keys
    ensures s.calls[c].stage.Decided? ==> Moves(s, OpenTemp(s, c), c)
    ensures s.calls[c].stage.Filling? ==> Moves(s, Fill(s, c, count), c) && Moves(s, Seal(s, c), c)
    ensures s.calls[c].stage.Cleaning? ==> Moves(s, Clean(s, c, removed), c)
  {
    hide OpenTemp, Fill, Seal, Clean, Moves;
    if s.calls[c].stage.Decided? {
      OpenTempMoves(s, c);
    } else if s.calls[c].stage.Filling? {
      FillMoves(s, c, count);
      SealMoves(s, c);
    } else if s.calls[c].stage.Cleaning? {
      CleanMoves(s, c, removed);
    }
  }

  lemma OpenTempMoves(s: State, c: nat)
    requires c in s.live && s.live <= s.calls.Keys && s.calls[c].stage.Decided?
    ensures Moves(s, OpenTemp(s, c), c)
  {}

  lemma FillMoves(s: State, c: nat, count: nat)
    requires c in s.live && s.live <= s.calls.Keys && s.calls[c].stage.Filling?
    ensures Moves(s, Fill(s, c, count), c)
  {
    assert s.calls == s.calls[c := s.calls[c]];
  }

  lemma SealMoves(s: State, c: nat)
    requires c in s.live && s.live <= s.calls.Keys && s.calls[c].stage.Filling?
    ensures Moves(s, Seal(s, c), c)
  {
    assert s.calls == s.calls[c := s.calls[c]];
  }

  lemma CleanMoves(s: State, c: nat, removed: bool)
    requires c in s.live && s.live <= s.calls.Keys && s.calls[c].stage.Cleaning?
    ensures Moves(s, Clean(s, c, removed), c)
  {}

  lemma ChangedMoves(s: State, c: nat, names: map<Name, nat>, e: Entry, stage: Stage)
    requires c in s.live && s.live <= s.calls.Keys && Owns(s.calls[c])
    requires !stage.Arrived? && !stage.Waiting? && !stage.Returned?
    ensures Moves(s, Changed(s, c, names, e, stage), c)
  {}

  lemma PublishMoves(cfg: Config, s: State, c: nat)
    requires c in s.live && s.live <= s.calls.Keys && s.calls[c].stage.Ready?
    ensures Moves(s, Publish(cfg, s, c), c)
  {
    hide ContentAt, Changed, At, Moves;
    var k := s.calls[c];
    var Ready(next, temp, inode) := k.stage;
    var id := Identity(cfg, k);
    var e := Entry(c, id, k.base, true, ContentAt(s, id), Some(next));
    var done := Cleaning(temp, Success(Sha256(next), None));
    RecordMoves(s, c, k.(stage := Cleaning(temp, Failure(PathExists))));
    ChangedMoves(s, c, s.names[NoteName(id) := inode] - {TempName(temp)}, e, done);
    ChangedMoves(s, c, s.names[NoteName(id) := inode], e, done);
  }

  lemma LinkMoves(cfg: Config, s: State, c: nat, suffix: string)
    requires c in s.live && s.live <= s.calls.Keys && s.calls[c].stage.Trashing?
    ensures Moves(s, Link(cfg, s, c, suffix), c)
  {
    hide ContentAt, Changed, At, Moves, TrashTarget;
    var k := s.calls[c];
    var from, to := NoteName(Identity(cfg, k)), cfg.identity(k.stage.target);
    RecordMoves(s, c, k.(stage := Finished(Failure(WriteFailed))));
    RecordMoves(s, c, k.(stage := Trashing(TrashTarget(cfg, suffix))));
    if from in s.names {
      var e := Entry(c, to, None, false, ContentAt(s, to), ContentAt(s, Identity(cfg, k)));
      ChangedMoves(s, c, s.names[NoteName(to) := s.names[from]], e, Linked(k.stage.target));
    }
  }

  lemma UnlinkMoves(cfg: Config, s: State, c: nat)
    requires c in s.live && s.live <= s.calls.Keys && (s.calls[c].stage.Linked? || s.calls[c].stage.Removing?)
    ensures Moves(s, Unlink(cfg, s, c), c)
  {
    hide ContentAt, Changed, At, Moves;
    var k := s.calls[c];
    var id := Identity(cfg, k);
    var deleted := if k.stage.Linked? then Some(k.stage.target) else None;
    RecordMoves(s, c, k.(stage := Finished(Failure(WriteFailed))));
    ChangedMoves(s, c, s.names - {NoteName(id)}, Entry(c, id, k.base, true, ContentAt(s, id), None),
                 Finished(Success(Sha256(SeenText(k)), deleted)));
  }

  /** A failing await moves the call on or makes it depart. */
  lemma FailKinds(s: State, c: nat, code: Code)
    requires c in s.live && s.live <= s.calls.Keys && !s.calls[c].stage.Returned?
    ensures var t, k := FailCall(s, c, code), s.calls[c];
      if Departs(k.stage, Fail(code)) then t == Leave(s, c, t.calls[c]) && t.calls[c] == k.(stage := t.calls[c].stage)
      else Moves(s, t, c)
  {
    hide Moves, Clean, Start, Complete, At;
    if Departs(s.calls[c].stage, Fail(code)) {
      FailDeparts(s, c, code);
    } else {
      AuditMoves(s, c, false);
      TempMoves(s, c, 0, false);
      BrokenMoves(s, c, code);
    }
  }

  lemma FailDeparts(s: State, c: nat, code: Code)
    requires c in s.calls && Departs(s.calls[c].stage, Fail(code))
    ensures var t, k := FailCall(s, c, code), s.calls[c];
      c in t.calls && t == Leave(s, c, t.calls[c]) && t.calls[c] == k.(stage := t.calls[c].stage)
  {
    hide FailCall, Gone;
    var stage := FailLeaves(s, c, code);
    var m := s.calls[c].(stage := stage);
    assert Leave(s, c, m).calls[c] == m;
  }

  lemma FailLeaves(s: State, c: nat, code: Code) returns (stage: Stage)
    requires c in s.calls && Departs(s.calls[c].stage, Fail(code))
    ensures FailCall(s, c, code) == Leave(s, c, s.calls[c].(stage := stage))
  {
    hide Leave, Start, Clean, Complete, At, Broken;
    stage := Returned(if s.calls[c].stage.Recorded? then s.calls[c].stage.outcome else Failure(code));
  }

  lemma BrokenMoves(s: State, c: nat, code: Code)
    requires c in s.live && s.live <= s.calls.Keys
    ensures Failing(s.calls[c].stage) ==> Moves(s, At(s, c, Broken(s.calls[c], code)), c)
  {
    if Failing(s.calls[c].stage) {
      RecordMoves(s, c, Broken(s.calls[c], code));
    }
  }

  /** A step without a failure looks up, acquires, checks, departs or moves on. */
  lemma AdvanceKinds(cfg: Config, s: State, c: nat, choice: Choice)
    requires c in s.live && s.live <= s.calls.Keys && !choice.Fail?
    requires var g := s.calls[c].stage; !g.Returned? && !g.Arrived? && !g.Waiting? && !Checking(g)
    ensures var t, k := AdvanceCall(cfg, s, c, choice), s.calls[c];
      if Departs(k.stage, choice) then t == Leave(s, c, t.calls[c]) && t.calls[c] == k.(stage := t.calls[c].stage)
      else Moves(s, t, c)
  {
    hide Moves, OpenTemp, Fill, Seal, Clean, Publish, Link, Unlink, Start, Complete;
    AuditMoves(s, c, true);
    TempMoves(s, c, if choice.Chunk? then choice.count else 0, true);
    match s.calls[c].stage
    case Ready(_, _, _) => PublishMoves(cfg, s, c);
    case Trashing(_) => LinkMoves(cfg, s, c, if choice.Suffix? then choice.text else "");
    case Linked(_) => UnlinkMoves(cfg, s, c);
    case Removing => UnlinkMoves(cfg, s, c);
    case _ =>
  }

  // ---------------------------------------------------------------- turns

  /** Call `c` was gone when call `d` took its lock. */
  predicate Before(stamps: Stamps, c: nat, d: nat) {
    c in stamps.left && d in stamps.entered && stamps.left[c] < stamps.entered[d]
  }

  /** Calls that had or have a turn are recorded as such, and so are those that are gone. */
  ghost predicate Stamped(s: State) {
    && (forall c | c in s.stamps.entered :: c in s.calls && s.stamps.entered[c] < s.stamps.now)
    && (forall c | c in s.stamps.left :: c in s.calls && c !in s.live && s.stamps.left[c] < s.stamps.now)
    && (forall c | c in s.calls && c !in s.live :: c in s.stamps.left)
    && (forall c | c in s.live :: c in s.calls && !s.calls[c].stage.Returned?)
    && (forall c | c in s.live :: c in s.stamps.entered <==> Owns(s.calls[c]))
  }

  /** Turns of one identity never overlap: one of two calls was gone before the other took the lock. */
  ghost predicate TurnsApart(cfg: Config, s: State)
    requires Stamped(s)
  {
    forall c, d | c in s.stamps.entered && d in s.stamps.entered && c != d
        && Identity(cfg, s.calls[c]) == Identity(cfg, s.calls[d]) ::
      Before(s.stamps, c, d) || Before(s.stamps, d, c)
  }

  /** When the call hashed its note, the note showed the text it has seen. */
  ghost predicate SawThen(cfg: Config, s: State, c: nat)
    requires c in s.calls
  {
    && c in s.stamps.readAt && c in s.stamps.entered && s.stamps.readAt[c] <= |s.history|
    && LastAfter(s.initial, s.history[..s.stamps.readAt[c]], Identity(cfg, s.calls[c])) == s.calls[c].seen
  }

  ghost predicate ReadsStand(cfg: Config, s: State) {
    forall c | c in s.calls && s.calls[c].seen.Some? :: SawThen(cfg, s, c)
  }

  /** Logged changes are made in a turn. */
  ghost predicate ChangesInTurn(s: State) {
    forall j | 0 <= j < |s.history| :: s.history[j].call in s.stamps.entered
  }

  /** Entry `j` is a change that another call made to the note of `c` after `c` hashed it. */
  ghost predicate OtherChange(cfg: Config, s: State, c: nat, j: nat)
    requires c in s.calls && c in s.stamps.readAt && j < |s.history|
  {
    var e := s.history[j];
    s.stamps.readAt[c] <= j && e.call != c && e.own && e.name == Identity(cfg, s.calls[c])
  }

  /** After a call hashed its note, its own changes follow, and others' only once it was gone before their turn. */
  ghost predicate OthersLater(cfg: Config, s: State) {
    forall c, j | c in s.calls && s.calls[c].seen.Some? && c in s.stamps.readAt && 0 <= j < |s.history| ::
      && (s.history[j].call == c ==> s.stamps.readAt[c] <= j)
      && (OtherChange(cfg, s, c, j) ==> Before(s.stamps, c, s.history[j].call))
  }

  ghost predicate TurnInv(cfg: Config, s: State) {
    Stamped(s) && TurnsApart(cfg, s) && ReadsStand(cfg, s) && ChangesInTurn(s) && OthersLater(cfg, s)
  }

  ghost predicate SamePaths(s: State, t: State) {
    forall d | d in s.calls :: d in t.calls && t.calls[d].path == s.calls[d].path
  }

  /** The calls keep their paths and the texts they have seen, and new ones have seen nothing. */
  ghost predicate Alike(s: State, t: State) {
    && SamePaths(s, t)
    && (forall d | d in s.calls :: t.calls[d].seen == s.calls[d].seen)
    && (forall d | d in t.calls && d !in s.calls :: t.calls[d].seen == None)
    && t.history == s.history && t.initial == s.initial
  }

  lemma SameOther(cfg: Config, s: State, t: State, d: nat, j: nat)
    requires d in s.calls && d in t.calls && t.calls[d].path == s.calls[d].path && t.history == s.history
    requires j < |s.history|
    requires d in s.stamps.readAt && d in t.stamps.readAt && t.stamps.readAt[d] == s.stamps.readAt[d]
    ensures OtherChange(cfg, t, d, j) <==> OtherChange(cfg, s, d, j)
  {}

  lemma SawStill(cfg: Config, s: State, t: State, d: nat)
    requires ReadsStand(cfg, s) && d in s.calls && s.calls[d].seen.Some? && d in t.calls
    requires t.calls[d].path == s.calls[d].path && t.calls[d].seen == s.calls[d].seen
    requires t.history == s.history && t.initial == s.initial && s.stamps.entered.Keys <= t.stamps.entered.Keys
    requires d in s.stamps.readAt ==> d in t.stamps.readAt && t.stamps.readAt[d] == s.stamps.readAt[d]
    ensures SawThen(cfg, t, d) && d in s.stamps.readAt
  {
    assert SawThen(cfg, s, d);
  }

  /** What is said of the past stays true as long as nothing of it changes. */
  lemma PastStands(cfg: Config, s: State, t: State)
    requires TurnInv(cfg, s) && Alike(s, t) && t.stamps.readAt == s.stamps.readAt
    requires s.stamps.entered.Keys <= t.stamps.entered.Keys
    requires forall c, d | Before(s.stamps, c, d) :: Before(t.stamps, c, d)
    ensures ReadsStand(cfg, t) && ChangesInTurn(t) && OthersLater(cfg, t)
  {
    hide LastAfter, Before, SawThen, OtherChange, Stamped, TurnsApart;
    forall d | d in t.calls && t.calls[d].seen.Some? ensures SawThen(cfg, t, d) {
      SawStill(cfg, s, t, d);
    }
    forall d, j | d in t.calls && t.calls[d].seen.Some? && d in t.stamps.readAt && 0 <= j < |t.history|
      ensures t.history[j].call == d ==> t.stamps.readAt[d] <= j
      ensures OtherChange(cfg, t, d, j) ==> Before(t.stamps, d, t.history[j].call)
    {
      SameOther(cfg, s, t, d, j);
    }
  }

  lemma ApartStands(cfg: Config, s: State, t: State)
    requires Stamped(s) && TurnsApart(cfg, s) && Stamped(t) && SamePaths(s, t) && t.stamps.entered == s.stamps.entered
    requires forall c, d | Before(s.stamps, c, d) :: Before(t.stamps, c, d)
    ensures TurnsApart(cfg, t)
  {
    hide Owns, Before;
    forall c, d | c in t.stamps.entered && d in t.stamps.entered && c != d
        && Identity(cfg, t.calls[c]) == Identity(cfg, t.calls[d])
      ensures Before(t.stamps, c, d) || Before(t.stamps, d, c)
    {
      assert c in s.calls && d in s.calls;
    }
  }

  /** A step that lets nobody take a lock. */
  lemma TurnsStand(cfg: Config, s: State, t: State)
    requires TurnInv(cfg, s) && Stamped(t) && Alike(s, t)
    requires t.stamps.readAt == s.stamps.readAt && t.stamps.entered == s.stamps.entered
    requires forall c, d | Before(s.stamps, c, d) :: Before(t.stamps, c, d)
    ensures TurnInv(cfg, t)
  {
    hide Stamped, TurnsApart, ReadsStand, ChangesInTurn, OthersLater, Before;
    PastStands(cfg, s, t);
    ApartStands(cfg, s, t);
  }

  // ---------------------------------------------------------------- moving on

  /** A logged change is made by the call that steps, and its own changes are under its own name. */
  lemma NewEntry(cfg: Config, s: State, t: State, c: nat, e: Entry)
    requires Inv(cfg, s) && Inv(cfg, t) && c in s.calls && c in t.calls && t.calls == s.calls[c := t.calls[c]]
    requires t.history == s.history + [e]
    ensures e.call == c && (e.own ==> e.name == Identity(cfg, t.calls[c]))
  {
    hide LockInv, DiskInv, TempInv, HoldInv, AuditInv, Chained, Current, EntriesOf, Shape, Sound;
    AppendedEntries(s.history, e, e.call);
    assert EntriesOf(t.history, e.call) == EntriesMade(t, e.call);
    assert EntriesOf(s.history, e.call) == EntriesMade(s, e.call);
    assert |EntriesMade(t, e.call)| == |EntriesMade(s, e.call)| + 1;
    assert e == EntriesMade(t, e.call)[|EntriesMade(s, e.call)|];
    EntriesSound(cfg, c, t.calls[c], e);
    SoundOwn(cfg, c, t.calls[c], e);
  }

  lemma MovesStamped(s: State, t: State, c: nat)
    requires Stamped(s) && Moves(s, t, c)
    ensures Stamped(t) && c in s.stamps.entered && c !in s.stamps.left
  {}

  lemma MovesAlike(s: State, t: State, c: nat)
    requires Moves(s, t, c)
    ensures Alike(s, t.(history := s.history))
  {}

  lemma QuietTurns(cfg: Config, s: State, t: State, c: nat)
    requires TurnInv(cfg, s) && Moves(s, t, c) && t.history == s.history
    ensures TurnInv(cfg, t)
  {
    hide Stamped, TurnsApart, ReadsStand, ChangesInTurn, OthersLater, Before, Alike;
    MovesStamped(s, t, c);
    MovesAlike(s, t, c);
    assert t.(history := s.history) == t;
    TurnsStand(cfg, s, t);
  }

  /** A logged change of a call in its turn: every other call that hashed the same note was gone before. */
  lemma LoggedTurns(cfg: Config, s: State, t: State, c: nat, e: Entry)
    requires TurnInv(cfg, s) && Moves(s, t, c) && t.history == s.history + [e]
    requires e.call == c && (e.own ==> e.name == Identity(cfg, t.calls[c]))
    ensures TurnInv(cfg, t)
  {
    hide Stamped, TurnsApart, ReadsStand, ChangesInTurn, OthersLater, Before, Alike, Owns;
    var u := t.(history := s.history);
    MovesStamped(s, u, c);
    MovesAlike(s, t, c);
    TurnsStand(cfg, s, u);
    LoggedBooks(cfg, u, t, c, e);
  }

  lemma LoggedBooks(cfg: Config, u: State, t: State, c: nat, e: Entry)
    requires TurnInv(cfg, u) && u == t.(history := u.history) && t.history == u.history + [e]
    requires c in t.calls && e.call == c && (e.own ==> e.name == Identity(cfg, t.calls[c]))
    requires c in u.stamps.entered && c !in u.stamps.left
    ensures TurnInv(cfg, t)
  {
    hide LastAfter, Owns;
    forall d | d in t.calls && t.calls[d].seen.Some? ensures SawThen(cfg, t, d) {
      assert SawThen(cfg, u, d);
      assert t.history[..u.stamps.readAt[d]] == u.history[..u.stamps.readAt[d]];
    }
    forall d, j | d in t.calls && t.calls[d].seen.Some? && d in t.stamps.readAt && 0 <= j < |t.history|
      ensures t.history[j].call == d ==> t.stamps.readAt[d] <= j
      ensures OtherChange(cfg, t, d, j) ==> Before(t.stamps, d, t.history[j].call)
    {
      assert SawThen(cfg, u, d);
      if j < |u.history| {
        assert t.history[j] == u.history[j];
        assert OtherChange(cfg, t, d, j) ==> OtherChange(cfg, u, d, j);
      }
    }
  }

  // ---------------------------------------------------------------- reading, entering and leaving

  lemma CheckTurns(cfg: Config, s: State, c: nat)
    requires Inv(cfg, s) && TurnInv(cfg, s) && c in s.live && Checking(s.calls[c].stage)
    ensures TurnInv(cfg, Check(cfg, s, c))
  {
    hide LockInv, DiskInv, TempInv, HoldInv, ShapeInv, HistoryInv, AuditInv, TurnInv, ContentAt, Checked;
    var k := s.calls[c];
    var m := Checked(cfg, k, ContentAt(s, Identity(cfg, k)));
    CheckedRead(cfg, k, ContentAt(s, Identity(cfg, k)));
    if m.stage.Matched? {
      ReadTurns(cfg, s, c, m);
    } else {
      RecordMoves(s, c, m);
      QuietTurns(cfg, s, At(s, c, m), c);
      assert Check(cfg, s, c) == At(s, c, m);
    }
  }

  lemma CheckedRead(cfg: Config, k: Call, found: Option<string>)
    requires Checking(k.stage)
    ensures var m := Checked(cfg, k, found);
      && Owns(k) && Owns(m) && m.path == k.path
      && (if m.stage.Matched? then k.stage.Examined? && m.seen == found && m.seen.Some? else m.seen == k.seen)
  {
    hide NextText, TrashTarget;
  }

  /** Hashing the note: the log so far leaves the name with the text, and nothing in it is this call's. */
  lemma ReadTurns(cfg: Config, s: State, c: nat, m: Call)
    requires Inv(cfg, s) && TurnInv(cfg, s) && c in s.live && s.calls[c].stage.Examined? && Owns(m)
    requires m.path == s.calls[c].path && m.seen.Some? && m.seen == ContentAt(s, Identity(cfg, s.calls[c]))
    ensures TurnInv(cfg, At(s.(stamps := Hashed(s.stamps, c, |s.history|)), c, m))
  {
    hide LockInv, DiskInv, TempInv, HoldInv, AuditInv, ContentAt, LastAfter, EntriesOf;
    var t := At(s.(stamps := Hashed(s.stamps, c, |s.history|)), c, m);
    assert s.history[..|s.history|] == s.history;
    forall j | 0 <= j < |s.history| ensures s.history[j].call != c {
      NothingLogged(cfg, s, c, j);
    }
    ReadStamped(cfg, s, t, c);
  }

  lemma NothingLogged(cfg: Config, s: State, c: nat, j: nat)
    requires ShapeInv(cfg, s) && HistoryInv(s) && c in s.calls && s.calls[c].stage.Examined? && j < |s.history|
    ensures s.history[j].call != c
  {
    hide Chained, Current, EntriesOf;
    LoggedOf(s.history, j);
    assert Shape(cfg, c, s.calls[c]);
    assert EntriesOf(s.history, c) == EntriesMade(s, c) == [];
  }

  lemma ReadStamped(cfg: Config, s: State, t: State, c: nat)
    requires TurnInv(cfg, s) && c in s.live && s.calls[c].stage.Examined? && c in t.calls && t.calls[c].seen.Some?
    requires t.calls == s.calls[c := t.calls[c]] && Owns(t.calls[c]) && t.calls[c].path == s.calls[c].path
    requires t.live == s.live && t.history == s.history && t.initial == s.initial
    requires t.stamps == Hashed(s.stamps, c, |s.history|) && forall j | 0 <= j < |s.history| :: s.history[j].call != c
    requires LastAfter(s.initial, s.history, Identity(cfg, s.calls[c])) == t.calls[c].seen
    ensures TurnInv(cfg, t)
  {
    hide LastAfter, SawThen, Stamped, TurnsApart, OtherChange;
    ReadApart(cfg, s, t, c);
    forall d | d in t.calls && t.calls[d].seen.Some? ensures SawThen(cfg, t, d) {
      if d == c {
        SeesNow(cfg, s, t, c);
      } else {
        SawStill(cfg, s, t, d);
      }
    }
    forall d, j | d in t.calls && t.calls[d].seen.Some? && d in t.stamps.readAt && 0 <= j < |t.history|
      ensures t.history[j].call == d ==> t.stamps.readAt[d] <= j
      ensures OtherChange(cfg, t, d, j) ==> Before(t.stamps, d, t.history[j].call)
    {
      if d == c {
        NotYet(cfg, t, c, j);
      } else {
        SawStill(cfg, s, t, d);
        SameOther(cfg, s, t, d, j);
      }
    }
  }

  lemma ReadApart(cfg: Config, s: State, t: State, c: nat)
    requires Stamped(s) && TurnsApart(cfg, s) && c in s.live && Owns(s.calls[c]) && c in t.calls && Owns(t.calls[c])
    requires t.calls == s.calls[c := t.calls[c]] && t.calls[c].path == s.calls[c].path && t.live == s.live
    requires t.stamps == Hashed(s.stamps, c, |s.history|)
    ensures Stamped(t) && TurnsApart(cfg, t)
  {
    hide TurnsApart, Stamped;
    ReadBooks(s, t, c);
    ApartStands(cfg, s, t);
  }

  lemma ReadBooks(s: State, t: State, c: nat)
    requires Stamped(s) && c in s.live && Owns(s.calls[c]) && c in t.calls && Owns(t.calls[c])
    requires t.calls == s.calls[c := t.calls[c]] && t.live == s.live && t.stamps == Hashed(s.stamps, c, |s.history|)
    ensures Stamped(t)
  {}

  lemma NotYet(cfg: Config, t: State, c: nat, j: nat)
    requires c in t.calls && c in t.stamps.readAt && j < t.stamps.readAt[c] && j < |t.history|
    ensures !OtherChange(cfg, t, c, j)
  {}

  lemma SeesNow(cfg: Config, s: State, t: State, c: nat)
    requires Stamped(s) && c in s.live && Owns(s.calls[c]) && c in t.calls && t.calls[c].path == s.calls[c].path
    requires t.history == s.history && t.initial == s.initial && t.stamps == Hashed(s.stamps, c, |s.history|)
    requires LastAfter(s.initial, s.history, Identity(cfg, s.calls[c])) == t.calls[c].seen
    ensures SawThen(cfg, t, c)
  {
    assert t.history[..|s.history|] == s.history;
  }

  lemma AcquireTurns(cfg: Config, s: State, c: nat)
    requires Inv(cfg, s) && TurnInv(cfg, s) && c in s.live && s.calls[c].stage.Waiting?
    ensures TurnInv(cfg, Acquire(s, c))
  {
    hide LockInv, DiskInv, TempInv, HoldInv, ShapeInv, HistoryInv, AuditInv, TurnsApart, ReadsStand, ChangesInTurn;
    hide OthersLater, Acquire;
    var t := Acquire(s, c);
    if t != s {
      AcquireShape(s, c);
      forall d | d in s.stamps.entered && Identity(cfg, s.calls[d]) == Identity(cfg, s.calls[c])
        ensures d in s.stamps.left
      {
        TurnOver(cfg, s, c, d);
      }
      EnterTurns(cfg, s, t, c);
    }
  }

  lemma AcquireShape(s: State, c: nat)
    requires c in s.live && s.live <= s.calls.Keys
    ensures var t := Acquire(s, c); t != s ==>
      && t == At(s.(stamps := Took(s.stamps, c)), c, s.calls[c].(stage := Owning))
      && forall d | d in s.live :: !(Owns(s.calls[d]) && s.calls[d].lock == s.calls[c].lock)
  {}

  /** When a lock is free, the turns of its identity are over. */
  lemma TurnOver(cfg: Config, s: State, c: nat, d: nat)
    requires Known(s) && LockInv(cfg, s) && Stamped(s) && c in s.live && Refers(s.calls[c])
    requires forall d | d in s.live :: !(Owns(s.calls[d]) && s.calls[d].lock == s.calls[c].lock)
    requires d in s.stamps.entered && d in s.calls && Identity(cfg, s.calls[d]) == Identity(cfg, s.calls[c])
    ensures d in s.stamps.left
  {
    hide Identity;
  }

  lemma EnterTurns(cfg: Config, s: State, t: State, c: nat)
    requires TurnInv(cfg, s) && c in s.live && s.calls[c].stage.Waiting?
    requires t == At(s.(stamps := Took(s.stamps, c)), c, s.calls[c].(stage := Owning))
    requires forall d | d in s.stamps.entered && Identity(cfg, s.calls[d]) == Identity(cfg, s.calls[c]) ::
        d in s.stamps.left
    ensures TurnInv(cfg, t)
  {
    hide TurnsApart, ReadsStand, ChangesInTurn, OthersLater, Before, Alike;
    EnterStamped(s, t, c);
    EnterApart(cfg, s, t, c);
    PastStands(cfg, s, t);
  }

  lemma EnterStamped(s: State, t: State, c: nat)
    requires Stamped(s) && c in s.live && s.calls[c].stage.Waiting?
    requires t == At(s.(stamps := Took(s.stamps, c)), c, s.calls[c].(stage := Owning))
    ensures Stamped(t) && Alike(s, t) && c !in s.stamps.entered
    ensures forall a, b | Before(s.stamps, a, b) :: Before(t.stamps, a, b)
  {
    EnterBooks(s, t, c);
    EnterAlike(s, t, c);
    hide Stamped, Alike;
    TookLater(s.stamps, c);
  }

  lemma EnterBooks(s: State, t: State, c: nat)
    requires Stamped(s) && c in s.live && s.calls[c].stage.Waiting?
    requires t == At(s.(stamps := Took(s.stamps, c)), c, s.calls[c].(stage := Owning))
    ensures Stamped(t) && c !in s.stamps.entered
  {}

  lemma EnterAlike(s: State, t: State, c: nat)
    requires c in s.calls && t == At(s.(stamps := Took(s.stamps, c)), c, s.calls[c].(stage := Owning))
    ensures Alike(s, t)
  {}

  lemma TookLater(stamps: Stamps, c: nat)
    requires c !in stamps.entered
    ensures forall a, b | Before(stamps, a, b) :: Before(Took(stamps, c), a, b)
  {}

  lemma EnterApart(cfg: Config, s: State, t: State, c: nat)
    requires Stamped(s) && TurnsApart(cfg, s) && Stamped(t) && SamePaths(s, t) && c in s.calls && c !in s.stamps.entered
    requires t.stamps == Took(s.stamps, c)
    requires forall d | d in s.stamps.entered && Identity(cfg, s.calls[d]) == Identity(cfg, s.calls[c]) ::
        d in s.stamps.left
    ensures TurnsApart(cfg, t)
  {
    hide TurnsApart, SamePaths, Before, Took, Owns;
    forall a, b | a in t.stamps.entered && b in t.stamps.entered && a != b
        && Identity(cfg, t.calls[a]) == Identity(cfg, t.calls[b])
      ensures Before(t.stamps, a, b) || Before(t.stamps, b, a)
    {
      PairApart(cfg, s, t, c, a, b);
    }
    ApartIs(cfg, t);
  }

  lemma ApartIs(cfg: Config, t: State)
    requires Stamped(t)
    requires forall a, b | a in t.stamps.entered && b in t.stamps.entered && a != b && a in t.calls && b in t.calls
        && Identity(cfg, t.calls[a]) == Identity(cfg, t.calls[b]) ::
      Before(t.stamps, a, b) || Before(t.stamps, b, a)
    ensures TurnsApart(cfg, t)
  {
    hide Before, Identity, Owns;
  }

  lemma PairApart(cfg: Config, s: State, t: State, c: nat, a: nat, b: nat)
    requires Stamped(s) && TurnsApart(cfg, s) && Stamped(t) && SamePaths(s, t) && c in s.calls && c !in s.stamps.entered
    requires t.stamps == Took(s.stamps, c)
    requires forall d | d in s.stamps.entered && Identity(cfg, s.calls[d]) == Identity(cfg, s.calls[c]) ::
        d in s.stamps.left
    requires a in t.stamps.entered && b in t.stamps.entered && a != b && a in t.calls && b in t.calls
    requires Identity(cfg, t.calls[a]) == Identity(cfg, t.calls[b])
    ensures Before(t.stamps, a, b) || Before(t.stamps, b, a)
  {
    hide Owns;
    assert a in s.calls && b in s.calls;
    if a != c && b != c {
      assert Before(s.stamps, a, b) || Before(s.stamps, b, a);
    }
  }

  /** Calls that are gone, by returning or in a crash. */
  lemma GoneTurns(cfg: Config, s: State, t: State, gone: set<nat>)
    requires TurnInv(cfg, s) && gone <= s.live && t.live == s.live - gone && t.stamps == Gone(s.stamps, gone)
    requires t.calls.Keys == s.calls.Keys && Alike(s, t)
    requires forall d | d in t.live :: t.calls[d] == s.calls[d]
    ensures TurnInv(cfg, t)
  {
    hide TurnsApart, ReadsStand, ChangesInTurn, OthersLater, Owns, Alike;
    TurnsStand(cfg, s, t);
  }

  lemma ArriveTurns(cfg: Config, s: State, t: State)
    requires TurnInv(cfg, s) && Arrives(s, t) && t.stamps == s.stamps
    ensures TurnInv(cfg, t)
  {
    hide TurnsApart, ReadsStand, ChangesInTurn, OthersLater, Arrives, Alike, Stamped;
    ArriveStamped(s, t);
    ArriveAlike(s, t);
    TurnsStand(cfg, s, t);
  }

  lemma ArriveStamped(s: State, t: State)
    requires Stamped(s) && Arrives(s, t) && t.stamps == s.stamps
    ensures Stamped(t)
  {
    hide SameDisk, Stamped;
    NewcomerStamped(s, t, s.nextCall);
  }

  lemma NewcomerStamped(s: State, t: State, n: nat)
    requires Stamped(s) && n !in s.calls && n in t.calls && t.calls == s.calls[n := t.calls[n]]
    requires t.calls[n].stage.Arrived? && t.live == s.live + {n} && t.stamps == s.stamps
    ensures Stamped(t)
  {}

  lemma ArriveAlike(s: State, t: State)
    requires Arrives(s, t)
    ensures Alike(s, t)
  {
    assert forall d | d in s.calls :: d != s.nextCall && t.calls[d] == s.calls[d];
  }

  lemma LookUpTurns(cfg: Config, s: State, c: nat)
    requires TurnInv(cfg, s) && c in s.live && s.live <= s.calls.Keys && s.calls[c].stage.Arrived?
    ensures TurnInv(cfg, LookUp(cfg, s, c))
  {
    hide TurnsApart, ReadsStand, ChangesInTurn, OthersLater, Stamped, Alike;
    LookUpStamped(cfg, s, c);
    TurnsStand(cfg, s, LookUp(cfg, s, c));
  }

  lemma LookUpStamped(cfg: Config, s: State, c: nat)
    requires Stamped(s) && c in s.live && s.live <= s.calls.Keys && s.calls[c].stage.Arrived?
    ensures var t := LookUp(cfg, s, c); Stamped(t) && Alike(s, t) && t.stamps == s.stamps
  {
    hide LookUp, Stamped, Alike;
    LookUpShape(cfg, s, c);
    var t := LookUp(cfg, s, c);
    WaitBooks(s, t, c);
    WaitAlike(s, t, c);
  }

  lemma LookUpShape(cfg: Config, s: State, c: nat)
    requires c in s.live && s.live <= s.calls.Keys && s.calls[c].stage.Arrived?
    ensures var t := LookUp(cfg, s, c);
      && c in t.calls && t.calls == s.calls[c := t.calls[c]] && t.live == s.live && t.stamps == s.stamps
      && t.calls[c] == s.calls[c].(stage := Waiting, lock := t.calls[c].lock)
      && t.history == s.history && t.initial == s.initial
  {
    hide Kept;
  }

  lemma WaitBooks(s: State, t: State, c: nat)
    requires Stamped(s) && c in s.live && s.calls[c].stage.Arrived? && c in t.calls && t.live == s.live
    requires t.calls == s.calls[c := t.calls[c]] && t.calls[c].stage.Waiting? && t.stamps == s.stamps
    ensures Stamped(t)
  {}

  lemma WaitAlike(s: State, t: State, c: nat)
    requires c in s.calls && c in t.calls && t.calls == s.calls[c := t.calls[c]]
    requires t.calls[c].path == s.calls[c].path && t.calls[c].seen == s.calls[c].seen
    requires t.history == s.history && t.initial == s.initial
    ensures Alike(s, t)
  {}
}
