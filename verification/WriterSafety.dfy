/** What the invariant means for callers: exclusion, lost updates, publication and the trash. */
module WriterSafety {
  import opened Text
  import opened Frontmatter
  import opened Writer
  import opened WriterInvariant
  import opened WriterSteps
  import opened WriterLocks
  import opened WriterRuns
  import opened WriterFrames

  // ---------------------------------------------------------------- mutual exclusion

  /** Calls in flight share a lock object exactly when they share an identity, and one of them at most is inside. */
  lemma OneLockPerIdentity(cfg: Config, t: State, c: nat, d: nat)
    requires Reachable(cfg, t) && c in t.live && d in t.live && Refers(t.calls[c]) && Refers(t.calls[d])
    ensures t.calls[c].lock == t.calls[d].lock <==> Identity(cfg, t.calls[c]) == Identity(cfg, t.calls[d])
    ensures Owns(t.calls[c]) && Owns(t.calls[d]) && Identity(cfg, t.calls[c]) == Identity(cfg, t.calls[d]) ==> c == d
  {
    hide Reachable, DiskInv, TempInv, HoldInv, ShapeInv, HistoryInv, AuditInv, Identity, Refers;
  }

  // ---------------------------------------------------------------- the size of the lock map

  /** Each kept entry belongs to a call in flight, so a sweep leaves no more entries than calls. */
  lemma KeptBound(cfg: Config, s: State)
    requires Known(s) && LockInv(cfg, s)
    ensures |Kept(s)| <= |s.live|
  {
    hide Identity;
    var owners := set d | d in s.live && Refers(s.calls[d]);
    var names := set d | d in owners :: Identity(cfg, s.calls[d]);
    forall id | id in Kept(s) ensures id in names {
      KeptExactly(cfg, s, id);
    }
    assert Kept(s).Keys <= names;
    SubsetSize(Kept(s).Keys, names);
    ImageSize(owners, d requires d in s.calls => Identity(cfg, s.calls[d]), names);
    SubsetSize(owners, s.live);
  }

  lemma {:induction false} SubsetSize<T>(a: set<T>, b: set<T>)
    requires a <= b
    ensures |a| <= |b|
  {
    if a == {} {
    } else {
      var x :| x in a;
      SubsetSize(a - {x}, b - {x});
    }
  }

  lemma {:induction false} ImageSize<T, U>(a: set<T>, f: T --> U, b: set<U>)
    requires forall x | x in a :: f.requires(x)
    requires b == set x | x in a :: f(x)
    ensures |b| <= |a|
    decreases a
  {
    if a == {} {
    } else {
      var x :| x in a;
      var rest := set y | y in a - {x} :: f(y);
      ImageSize(a - {x}, f, rest);
      assert b == rest + {f(x)};
    }
  }

  /** Right after a lookup the map has no more entries than there are calls in flight. */
  lemma LookUpBound(cfg: Config, s: State, c: nat)
    requires Known(s) && LockInv(cfg, s) && c in s.live && s.calls[c].stage.Arrived?
    ensures |LookUp(cfg, s, c).locks| <= |s.live|
  {
    hide LockInv, Identity;
    var t := LookUp(cfg, s, c);
    LookUpLocks(cfg, s, t, c, Identity(cfg, s.calls[c]), t.calls[c].lock);
    KeptBound(cfg, t);
    forall id | id in t.locks ensures id in Kept(t) {
      KeptAfterLookUp(cfg, s, c, id);
    }
    assert Kept(t).Keys == t.locks.Keys;
    assert |t.locks| == |t.locks.Keys| == |Kept(t).Keys|;
  }

  lemma KeptAfterLookUp(cfg: Config, s: State, c: nat, id: string)
    requires Known(s) && LockInv(cfg, s) && c in s.live && s.calls[c].stage.Arrived?
    requires Known(LookUp(cfg, s, c)) && LockInv(cfg, LookUp(cfg, s, c)) && id in LookUp(cfg, s, c).locks
    ensures id in Kept(LookUp(cfg, s, c))
  {
    hide LockInv, Kept, Referenced;
    var t := LookUp(cfg, s, c);
    KeptExactly(cfg, s, id);
    KeptExactly(cfg, t, id);
    if id == Identity(cfg, s.calls[c]) {
      SameIdentity(cfg, s.calls[c], t.calls[c]);
    } else {
      var d :| d in s.live && Refers(s.calls[d]) && Identity(cfg, s.calls[d]) == id;
      assert t.calls[d] == s.calls[d];
    }
  }

  /** At any time the map has no more entries than there were calls in flight at some moment of the run. */
  lemma {:induction false} LockBound(cfg: Config, s: State, actions: seq<Action>) returns (m: nat)
    requires Init(s)
    ensures m <= |actions| && |RunFrom(cfg, s, actions).locks| <= |RunFrom(cfg, s, actions[..m]).live|
    decreases |actions|
  {
    hide Inv, Step;
    if actions == [] {
      m := 0;
      assert actions[..0] == [];
    } else {
      var last := |actions| - 1;
      m := LockBound(cfg, s, actions[..last]);
      assert actions[..last][..m] == actions[..m];
      var u := RunFrom(cfg, s, actions[..last]);
      StepBound(cfg, u, actions[last]);
      if |RunFrom(cfg, s, actions).locks| > |u.locks| {
        m := last;
      }
    }
  }

  lemma StepBound(cfg: Config, s: State, action: Action)
    requires Inv(cfg, s)
    ensures var t := Step(cfg, s, action); |t.locks| <= |s.locks| || |t.locks| <= |s.live|
  {
    hide LockInv, DiskInv, TempInv, HoldInv, ShapeInv, HistoryInv, AuditInv, FailCall, LookUp;
    if action.Act? && action.call in s.live {
      var c := action.call;
      if action.choice.Fail? {
        FailFrame(s, c, action.choice.code);
      } else if s.calls[c].stage.Arrived? {
        LookUpBound(cfg, s, c);
      } else {
        AdvanceSameLocks(cfg, s, c, action.choice);
      }
    }
  }

  /** It can have more entries than calls in flight: a dead entry stays until the next lookup sweeps it. */
  lemma DeadEntryStays(cfg: Config, s: State, path: string, op: Mutation, base: Option<Hash>)
    requires Init(s)
    ensures var c := s.nextCall;
      var t := RunFrom(cfg, s, [Arrive(path, op, base), Act(c, Proceed), Act(c, Fail(WriteFailed))]);
      |t.live| == 0 && |t.locks| == 1
  {
    hide Inv, ContentAt, Run, Step, LookUp;
    var c := s.nextCall;
    var arrive, lookUp, fail := Arrive(path, op, base), Act(c, Proceed), Act(c, Fail(WriteFailed));
    InitInv(cfg, s);
    RunNothing(cfg, s);
    RunAppend(cfg, s, [], arrive);
    RunAppend(cfg, s, [arrive], lookUp);
    RunAppend(cfg, s, [arrive, lookUp], fail);
    assert [] + [arrive] == [arrive] && [arrive] + [lookUp] == [arrive, lookUp]
        && [arrive, lookUp] + [fail] == [arrive, lookUp, fail];
    LookUpThenFail(cfg, s, Step(cfg, s, arrive), path, op, base);
  }

  lemma LookUpThenFail(cfg: Config, s: State, s1: State, path: string, op: Mutation, base: Option<Hash>)
    requires s.live == {} && s.locks == map[] && s1 == Step(cfg, s, Arrive(path, op, base))
    ensures var c := s.nextCall; var s2 := LookUp(cfg, s1, c);
      s2 == Step(cfg, s1, Act(c, Proceed)) && |s2.locks| == 1 && s2.live == {c} && c in s2.calls
      && var s3 := Step(cfg, s2, Act(c, Fail(WriteFailed))); s3.live == {} && s3.locks == s2.locks
  {
    hide Kept, StepCall, FailCall;
    NothingKept(s1);
    var c := s.nextCall;
    var s2 := LookUp(cfg, s1, c);
    assert s2.calls[c].stage.Waiting?;
    AsAct(cfg, s1, c, Proceed);
    AsAct(cfg, s2, c, Fail(WriteFailed));
    FirstLookUp(cfg, s1, c);
    FailsWaiting(cfg, s2, c);
  }

  lemma AsAct(cfg: Config, s: State, c: nat, choice: Choice)
    requires c in s.live && s.live <= s.calls.Keys
    ensures Step(cfg, s, Act(c, choice)) == StepCall(cfg, s, c, choice)
  {}

  lemma FirstLookUp(cfg: Config, s: State, c: nat)
    requires c in s.live && s.live <= s.calls.Keys && s.calls[c].stage.Arrived?
    ensures StepCall(cfg, s, c, Proceed) == LookUp(cfg, s, c)
  {
    hide LookUp;
  }

  lemma FailsWaiting(cfg: Config, s: State, c: nat)
    requires s.live == {c} && c in s.calls && s.calls[c].stage.Waiting?
    ensures var t := StepCall(cfg, s, c, Fail(WriteFailed)); t.live == {} && t.locks == s.locks
  {}

  lemma RunNothing(cfg: Config, s: State)
    requires Inv(cfg, s)
    ensures Run(cfg, s, []) == s
  {}

  lemma NothingKept(s: State)
    requires s.live <= s.calls.Keys && s.locks == map[]
    ensures Kept(s) == map[]
  {}

  // ---------------------------------------------------------------- no lost update

  /** What one logged change says about the call that made it. */
  ghost predicate Sound(cfg: Config, c: nat, k: Call, e: Entry) {
    e.call == c &&
    if e.own then
      && e.name == Identity(cfg, k) && e.base == k.base
      && (if k.op.Create? then e.before == None else e.before.Some? && e.base == Some(Sha256(e.before.value)))
      && (if k.op.Delete? || k.op.HardDelete? then e.after == None
          else
            e.after.Some? &&
            NextText(cfg.nf, k.op, if e.before.Some? then e.before.value else "") == Ok(e.after.value))
    else
      && k.op.Delete? && e.before == None && e.after.Some? && k.base == Some(Sha256(e.after.value))
      && e.name != Identity(cfg, k)
      && exists target :: UnderTrash(cfg, target) && e.name == cfg.identity(target)
  }

  lemma TrashSound(cfg: Config, c: nat, k: Call, target: string)
    requires k.op.Delete? && k.seen.Some? && k.base == Some(Sha256(k.seen.value)) && TrashName(cfg, k, target)
    ensures Sound(cfg, c, k, TrashEntry(cfg, c, k, target))
  {}

  lemma EntriesSound(cfg: Config, c: nat, k: Call, e: Entry)
    requires Shape(cfg, c, k) && e in k.entries
    ensures Sound(cfg, c, k, e)
  {
    hide NextText, Sound;
    match k.stage
    case Linked(target) => TrashSound(cfg, c, k, target);
    case Cleaning(_, outcome) => OutcomeSound(cfg, c, k, outcome, e);
    case Finished(outcome) => OutcomeSound(cfg, c, k, outcome, e);
    case Recorded(outcome) => OutcomeSound(cfg, c, k, outcome, e);
    case Returned(outcome) => OutcomeSound(cfg, c, k, outcome, e);
    case _ =>
  }

  lemma OutcomeSound(cfg: Config, c: nat, k: Call, outcome: Outcome, e: Entry)
    requires k.seen.Some? ==> !k.op.Create? && k.base == Some(Sha256(k.seen.value))
    requires OutcomeShape(cfg, c, k, outcome) && e in k.entries
    ensures Sound(cfg, c, k, e)
  {
    hide NextText;
    match outcome
    case Failure(_) =>
      var target :| k.op.Delete? && k.seen.Some? && TrashName(cfg, k, target)
          && k.entries == [TrashEntry(cfg, c, k, target)];
      TrashSound(cfg, c, k, target);
    case Success(_, deleted) =>
      if k.op.Delete? { TrashSound(cfg, c, k, deleted.value); }
  }

  lemma {:induction false} LoggedOf(history: seq<Entry>, i: nat)
    requires i < |history|
    ensures history[i] in EntriesOf(history, history[i].call)
  {
    var last := |history| - 1;
    if last <= i {
    } else {
      LoggedOf(history[..last], i);
    }
  }

  lemma {:induction false} OfLogged(history: seq<Entry>, c: nat, e: Entry) returns (i: nat)
    requires e in EntriesOf(history, c)
    ensures i < |history| && history[i] == e && e.call == c
  {
    var last := |history| - 1;
    if history[last].call == c && history[last] == e {
      i := last;
    } else {
      i := OfLogged(history[..last], c, e);
    }
  }

  /**
   * Every change was made over exactly the text the last change of that name left, and the caller's base names that
   * text.
   */
  lemma NoLostUpdate(cfg: Config, t: State, i: nat)
    requires Reachable(cfg, t) && i < |t.history|
    ensures var e := t.history[i]; e.call in t.calls && Sound(cfg, e.call, t.calls[e.call], e)
    ensures t.history[i].before == LastAfter(t.initial, t.history[..i], t.history[i].name)
  {
    hide Reachable, LockInv, DiskInv, TempInv, HoldInv, AuditInv, Sound, Shape, LastAfter, EntriesOf;
    LoggedOf(t.history, i);
    var e := t.history[i];
    assert EntriesOf(t.history, e.call) == EntriesMade(t, e.call);
    EntriesSound(cfg, e.call, t.calls[e.call], e);
  }

  lemma SoundOwn(cfg: Config, c: nat, k: Call, e: Entry)
    requires Sound(cfg, c, k, e)
    ensures e.own <==> e.name == Identity(cfg, k)
  {}

  /** The changes marked as a call's own are exactly those of the name its path stands for. */
  lemma OwnByName(cfg: Config, t: State, i: nat)
    requires Reachable(cfg, t) && i < |t.history|
    ensures var e := t.history[i]; e.call in t.calls && (e.own <==> e.name == Identity(cfg, t.calls[e.call]))
  {
    hide Reachable, Inv, Sound, Identity, LastAfter;
    NoLostUpdate(cfg, t, i);
    SoundOwn(cfg, t.history[i].call, t.calls[t.history[i].call], t.history[i]);
  }

  lemma {:induction false} LastAfterAt(initial: map<string, string>, history: seq<Entry>, i: nat)
    requires i < |history| && forall j | i < j < |history| :: history[j].name != history[i].name
    ensures LastAfter(initial, history, history[i].name) == history[i].after
  {
    var last := |history| - 1;
    if last <= i {
    } else {
      LastAfterAt(initial, history[..last], i);
    }
  }

  lemma {:induction false} LastAfterNone(initial: map<string, string>, history: seq<Entry>, name: string)
    requires forall j | 0 <= j < |history| :: history[j].name != name
    ensures LastAfter(initial, history, name) == if name in initial then Some(initial[name]) else None
  {
    if history == [] {
    } else {
      LastAfterNone(initial, history[..|history| - 1], name);
    }
  }

  /** Two successive changes of one name: the second one's base is the hash of what the first one left. */
  lemma BaseIsPreviousResult(cfg: Config, t: State, i: nat, j: nat)
    requires Reachable(cfg, t) && i < j < |t.history| && t.history[i].name == t.history[j].name
    requires forall m | i < m < j :: t.history[m].name != t.history[i].name
    ensures t.history[j].before == t.history[i].after
    ensures t.history[j].own && t.history[i].after.Some? ==> t.history[j].base == Some(Sha256(t.history[i].after.value))
  {
    hide Reachable, Inv;
    NoLostUpdate(cfg, t, j);
    LastAfterAt(t.initial, t.history[..j], i);
  }

  /** The first change of a name: its base is the hash of the note the vault started with. */
  lemma BaseIsInitialText(cfg: Config, t: State, j: nat)
    requires Reachable(cfg, t) && j < |t.history|
    requires forall m | 0 <= m < j :: t.history[m].name != t.history[j].name
    ensures var e := t.history[j]; e.before == if e.name in t.initial then Some(t.initial[e.name]) else None
    ensures var e := t.history[j]; e.own && e.name in t.initial ==> e.base == Some(Sha256(t.initial[e.name]))
  {
    hide Reachable, Inv;
    NoLostUpdate(cfg, t, j);
    LastAfterNone(t.initial, t.history[..j], t.history[j].name);
  }

  // ---------------------------------------------------------------- publication

  /**
   * A step points at most one note name elsewhere, from the text logged before to the text logged after, and never
   * touches finished bytes.
   */
  lemma StepPublishes(cfg: Config, s: State, action: Action)
    requires Reachable(cfg, s)
    ensures var t := Step(cfg, s, action);
        forall i | i in s.prepared :: i in t.data && t.data[i] == s.data[i] == s.prepared[i]
    ensures var t := Step(cfg, s, action);
      || (t.history == s.history && forall n: string :: InodeAt(t, n) == InodeAt(s, n))
      || (exists e :: t.history == s.history + [e] && Publishes(cfg, s, t, e))
  {
    hide Reachable, LockInv, TempInv, HoldInv, ShapeInv, AuditInv, Sound, Step, ContentAt, LastAfter, EntriesOf,
        InodeAt;
    var t := Step(cfg, s, action);
    ReachableStep(cfg, s, action);
    StepFrame(cfg, s, action);
    if t.history != s.history {
      var e :| t.history == s.history + [e] && forall n: string | n != e.name :: InodeAt(t, n) == InodeAt(s, n);
      NoLostUpdate(cfg, t, |s.history|);
      assert t.history[..|s.history|] == s.history;
      AppendedAfter(s.initial, s.history, e, e.name);
      SoundFresh(cfg, e.call, t.calls[e.call], e);
      assert Publishes(cfg, s, t, e);
    }
  }

  lemma SoundFresh(cfg: Config, c: nat, k: Call, e: Entry)
    requires Sound(cfg, c, k, e)
    ensures e.call == c && (!e.own || k.op.Create? ==> e.before == None)
  {}

  ghost predicate Publishes(cfg: Config, s: State, t: State, e: Entry) {
    && (forall n: string | n != e.name :: InodeAt(t, n) == InodeAt(s, n))
    && e.before == ContentAt(s, e.name) && e.after == ContentAt(t, e.name)
    && e.call in t.calls && (!e.own || t.calls[e.call].op.Create? ==> ContentAt(s, e.name) == None)
  }
}
