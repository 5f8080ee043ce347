/** What becomes of a text after a call has hashed it, over whole runs and for calls that fail or are lost as well. */
module WriterHashes {
  import opened Text
  import opened Frontmatter
  import opened Writer
  import opened WriterInvariant
  import opened WriterSteps
  import opened WriterLocks
  import opened WriterRuns
  import opened WriterFrames
  import opened WriterSafety
  import opened WriterPromises
  import opened WriterTurns

  // ---------------------------------------------------------------- every step keeps the order of turns

  lemma LeaveTurns(cfg: Config, s: State, c: nat, m: Call)
    requires TurnInv(cfg, s) && c in s.live && s.live <= s.calls.Keys && m == s.calls[c].(stage := m.stage)
    ensures TurnInv(cfg, Leave(s, c, m))
  {
    hide TurnInv, Gone;
    GoneTurns(cfg, s, Leave(s, c, m), {c});
  }

  /** A step that moves a call on in its turn logs a change of that call, or nothing. */
  lemma MoveTurns(cfg: Config, s: State, t: State, c: nat)
    requires Inv(cfg, s) && Inv(cfg, t) && TurnInv(cfg, s) && Moves(s, t, c) && Frame(s, t)
    ensures TurnInv(cfg, t)
  {
    hide Inv, TurnInv, PreparedStay, InodeAt;
    if t.history == s.history {
      QuietTurns(cfg, s, t, c);
    } else {
      var e :| t.history == s.history + [e] && forall n: string | n != e.name :: InodeAt(t, n) == InodeAt(s, n);
      NewEntry(cfg, s, t, c, e);
      LoggedTurns(cfg, s, t, c, e);
    }
  }

  lemma CallTurns(cfg: Config, s: State, c: nat, choice: Choice)
    requires Inv(cfg, s) && TurnInv(cfg, s) && c in s.live
    ensures TurnInv(cfg, StepCall(cfg, s, c, choice))
  {
    hide LockInv, DiskInv, TempInv, HoldInv, ShapeInv, HistoryInv, AuditInv, TurnsApart, ReadsStand, ChangesInTurn;
    hide OthersLater, FailCall, Check, Acquire, LookUp, Moves, Frame;
    var t, k := StepCall(cfg, s, c, choice), s.calls[c];
    StepKeeps(cfg, s, Act(c, choice));
    StepFrame(cfg, s, Act(c, choice));
    AsAct(cfg, s, c, choice);
    if choice.Fail? {
      FailKinds(s, c, choice.code);
    } else if k.stage.Arrived? {
      LookUpTurns(cfg, s, c);
      return;
    } else if k.stage.Waiting? {
      AcquireTurns(cfg, s, c);
      return;
    } else if Checking(k.stage) {
      CheckTurns(cfg, s, c);
      return;
    } else {
      AdvanceKinds(cfg, s, c, choice);
    }
    if Departs(k.stage, choice) {
      LeaveTurns(cfg, s, c, t.calls[c]);
    } else {
      MoveTurns(cfg, s, t, c);
    }
  }

  lemma StepTurns(cfg: Config, s: State, action: Action)
    requires Inv(cfg, s) && TurnInv(cfg, s)
    ensures TurnInv(cfg, Step(cfg, s, action))
  {
    hide LockInv, DiskInv, TempInv, HoldInv, ShapeInv, HistoryInv, AuditInv, TurnInv, StepCall;
    match action
    case Arrive(path, op, base) =>
      ArriveKeeps(cfg, s, path, op, base);
      ArriveTurns(cfg, s, Step(cfg, s, action));
    case Crash => GoneTurns(cfg, s, Step(cfg, s, action), s.live);
    case Act(c, choice) =>
      if c in s.live {
        CallTurns(cfg, s, c, choice);
      }
  }

  lemma {:induction false} RunTurns(cfg: Config, s: State, actions: seq<Action>)
    requires Inv(cfg, s) && TurnInv(cfg, s)
    ensures TurnInv(cfg, Run(cfg, s, actions))
    decreases |actions|
  {
    hide Inv, Step, TurnInv;
    if actions == [] {
    } else {
      var last := |actions| - 1;
      RunTurns(cfg, s, actions[..last]);
      StepTurns(cfg, Run(cfg, s, actions[..last]), actions[last]);
    }
  }

  lemma InitTurns(cfg: Config, s: State)
    requires Init(s)
    ensures TurnInv(cfg, s)
  {}

  lemma ReachableTurns(cfg: Config, t: State)
    requires Reachable(cfg, t)
    ensures TurnInv(cfg, t)
  {
    hide Inv, Init, TurnInv, Run;
    var s, actions :| Init(s) && t == RunFrom(cfg, s, actions);
    InitInv(cfg, s);
    InitTurns(cfg, s);
    RunTurns(cfg, s, actions);
  }

  /** Of two calls that ever owned the lock of one identity, one had returned or was lost before the other took it. */
  lemma TurnsNeverOverlap(cfg: Config, t: State, c: nat, d: nat)
    requires Reachable(cfg, t) && c in t.stamps.entered && d in t.stamps.entered && c != d
    ensures c in t.calls && d in t.calls
    ensures Identity(cfg, t.calls[c]) == Identity(cfg, t.calls[d]) ==> Before(t.stamps, c, d) || Before(t.stamps, d, c)
  {
    hide Reachable, Inv, ReadsStand, ChangesInTurn, OthersLater;
    ReachableTurns(cfg, t);
  }

  // ---------------------------------------------------------------- a hashed text

  /** The first change of a name that is logged at or after a position. */
  ghost predicate FirstChange(t: State, name: string, from: nat, j: nat) {
    && from <= j < |t.history| && t.history[j].name == name
    && forall m | from <= m < j :: t.history[m].name != name
  }

  lemma {:induction false} LastAfterFrom(initial: map<string, string>, history: seq<Entry>, from: nat, name: string)
    requires from <= |history| && forall m | from <= m < |history| :: history[m].name != name
    ensures LastAfter(initial, history, name) == LastAfter(initial, history[..from], name)
  {
    if from == |history| {
      assert history[..from] == history;
    } else {
      var before := history[..|history| - 1];
      LastAfterFrom(initial, before, from, name);
      assert before[..from] == history[..from];
    }
  }

  /**
   * The note shows the hashed text as long as no change of it is logged, and the first change since then was made
   * over that very text, by this call itself or by one that took the lock after this one was gone.
   */
  ghost predicate StaysUntilChanged(cfg: Config, t: State, c: nat)
    requires c in t.calls && c in t.stamps.readAt
  {
    var id, from := Identity(cfg, t.calls[c]), t.stamps.readAt[c];
    && ((forall j | from <= j < |t.history| :: t.history[j].name != id) ==> ContentAt(t, id) == t.calls[c].seen)
    && (forall j: nat | FirstChange(t, id, from, j) ::
          && t.history[j].own && t.history[j].before == t.calls[c].seen
          && (t.history[j].call == c || Before(t.stamps, c, t.history[j].call)))
  }

  /** When a call hashed its note, the note showed that text, and whatever happened since, it was not lost unseen. */
  lemma HashedTextStays(cfg: Config, t: State, c: nat)
    requires Reachable(cfg, t) && c in t.calls && t.calls[c].seen.Some?
    ensures SawThen(cfg, t, c) && StaysUntilChanged(cfg, t, c)
  {
    hide Reachable, LockInv, DiskInv, TempInv, HoldInv, ShapeInv, AuditInv, Chained, EntriesOf, ContentAt, LastAfter;
    hide Stamped, TurnsApart, ChangesInTurn, Before, Identity;
    ReachableTurns(cfg, t);
    assert SawThen(cfg, t, c);
    var id, from := Identity(cfg, t.calls[c]), t.stamps.readAt[c];
    if forall j | from <= j < |t.history| :: t.history[j].name != id {
      LastAfterFrom(t.initial, t.history, from, id);
    }
    forall j: nat | FirstChange(t, id, from, j)
      ensures t.history[j].own && t.history[j].before == t.calls[c].seen
      ensures t.history[j].call == c || Before(t.stamps, c, t.history[j].call)
    {
      FirstIsOwn(cfg, t, c, j);
    }
  }

  lemma FirstIsOwn(cfg: Config, t: State, c: nat, j: nat)
    requires Reachable(cfg, t) && TurnInv(cfg, t) && c in t.calls && t.calls[c].seen.Some? && SawThen(cfg, t, c)
    requires FirstChange(t, Identity(cfg, t.calls[c]), t.stamps.readAt[c], j)
    ensures t.history[j].own && t.history[j].before == t.calls[c].seen
    ensures t.history[j].call == c || Before(t.stamps, c, t.history[j].call)
  {
    hide Reachable, Inv, LastAfter, Stamped, TurnsApart, ChangesInTurn, Before, ReadsStand, Identity;
    var from := t.stamps.readAt[c];
    NoLostUpdate(cfg, t, j);
    LastAfterFrom(t.initial, t.history[..j], from, Identity(cfg, t.calls[c]));
    assert t.history[..j][..from] == t.history[..from];
    SoundFresh(cfg, t.history[j].call, t.calls[t.history[j].call], t.history[j]);
    assert t.history[j].call == c || OtherChange(cfg, t, c, j);
  }

  // ---------------------------------------------------------------- soft delete

  /**
   * The text a soft delete hashed: still under the note's name; or changed first by a call that came after it; or
   * removed by itself, and then in the trash from before that removal.
   */
  ghost predicate Conserved(cfg: Config, t: State, c: nat)
    requires c in t.calls && c in t.stamps.readAt
  {
    var id, from := Identity(cfg, t.calls[c]), t.stamps.readAt[c];
    || ContentAt(t, id) == t.calls[c].seen
    || exists j: nat :: FirstChange(t, id, from, j) && t.history[j].before == t.calls[c].seen
        && ChangedBy(cfg, t, c, from, j)
  }

  ghost predicate ChangedBy(cfg: Config, t: State, c: nat, from: nat, j: nat)
    requires c in t.calls && j < |t.history|
  {
    || Before(t.stamps, c, t.history[j].call)
    || (t.history[j].call == c && exists target, i: nat :: from <= i < j && Trashed(cfg, t, c, target, i))
  }

  lemma {:induction false} SomeFirstChange(t: State, name: string, from: nat, m: nat) returns (j: nat)
    requires from <= m < |t.history| && t.history[m].name == name
    ensures FirstChange(t, name, from, j)
    decreases m
  {
    if k: nat :| from <= k < m && t.history[k].name == name {
      j := SomeFirstChange(t, name, from, k);
    } else {
      j := m;
    }
  }

  /**
   * From the hash check on, in every reachable state, whether the call goes on, fails, returns or is lost in a crash.
   */
  lemma SoftDeleteConserves(cfg: Config, t: State, c: nat)
    requires Reachable(cfg, t) && c in t.calls && t.calls[c].op.Delete? && t.calls[c].seen.Some?
    ensures SawThen(cfg, t, c) && Conserved(cfg, t, c)
    ensures t.calls[c].entries == [] ==> forall i | 0 <= i < |t.history| :: t.history[i].call != c
    ensures t.calls[c].entries != []
        ==> exists target, i: nat :: t.stamps.readAt[c] <= i && Trashed(cfg, t, c, target, i)
  {
    hide Reachable, LockInv, DiskInv, TempInv, AuditInv, EntriesOf, ContentAt, Chained, Current, SawThen, Trashed,
        FirstChange;
    hide Identity;
    HashedTextStays(cfg, t, c);
    LinkedAfterRead(cfg, t, c);
    var id, from := Identity(cfg, t.calls[c]), t.stamps.readAt[c];
    if m: nat :| from <= m < |t.history| && t.history[m].name == id {
      var j := SomeFirstChange(t, id, from, m);
      FirstBounds(t, id, from, j);
      if t.history[j].call == c {
        RemovedAfterLink(cfg, t, c, j);
      }
      assert ChangedBy(cfg, t, c, from, j);
    }
  }

  lemma FirstBounds(t: State, name: string, from: nat, j: nat)
    requires FirstChange(t, name, from, j)
    ensures from <= j < |t.history|
  {}

  lemma LinkedAfterRead(cfg: Config, t: State, c: nat)
    requires Reachable(cfg, t) && c in t.calls && t.calls[c].op.Delete? && t.calls[c].seen.Some?
    ensures c in t.stamps.readAt
    ensures t.calls[c].entries == [] ==> forall i | 0 <= i < |t.history| :: t.history[i].call != c
    ensures t.calls[c].entries != []
        ==> exists target, i: nat :: t.stamps.readAt[c] <= i && Trashed(cfg, t, c, target, i)
  {
    hide Reachable, LockInv, DiskInv, TempInv, HoldInv, AuditInv, EntriesOf, ContentAt, Chained, Current, Shape;
    hide Stamped, TurnsApart, ChangesInTurn, OtherChange, LastAfter, Before;
    ReachableTurns(cfg, t);
    assert SawThen(cfg, t, c);
    assert EntriesOf(t.history, c) == EntriesMade(t, c);
    forall i | 0 <= i < |t.history| && t.history[i].call == c ensures t.calls[c].entries != [] {
      LoggedOf(t.history, i);
    }
    if t.calls[c].entries != [] {
      assert Shape(cfg, c, t.calls[c]);
      var target := DeleteEntries(cfg, c, t.calls[c]);
      var i := TrashedAt(cfg, t, c, target);
      assert t.history[i].call == c;
    }
  }

  lemma RemovedAfterLink(cfg: Config, t: State, c: nat, j: nat)
    requires Reachable(cfg, t) && c in t.calls && t.calls[c].op.Delete? && t.calls[c].seen.Some?
    requires j < |t.history| && t.history[j].call == c && t.history[j].own
    ensures c in t.stamps.readAt && exists target, i: nat ::
        t.stamps.readAt[c] <= i < j && Trashed(cfg, t, c, target, i)
  {
    hide Reachable, Inv, ContentAt, LastAfter, Stamped, TurnsApart, ChangesInTurn, Before, OtherChange;
    ReachableTurns(cfg, t);
    assert SawThen(cfg, t, c);
    var i, target := RemovalAfterLink(cfg, t, j);
    TrashedFrom(cfg, t, c, target, i);
    assert t.history[i].call == c;
  }
}
