/** The lock map, and the steps outside the time a call owns its lock. */
module WriterLocks {
  import opened Text
  import opened Frontmatter
  import opened Writer
  import opened WriterInvariant
  import opened WriterSteps

  /** Call `c` changes without touching disk, log or audit store, and holds no text. */
  ghost predicate Touches(s: State, t: State, c: nat) {
    && c in s.live && c in t.calls && t.calls == s.calls[c := t.calls[c]] && t.live <= s.live
    && t.nextCall == s.nextCall && t.initial == s.initial && SameDisk(s, t)
    && t.events == s.events && t.rows == s.rows && t.history == s.history
  }

  lemma TouchKeeps(cfg: Config, s: State, t: State, c: nat)
    requires Inv(cfg, s) && Touches(s, t, c) && Known(t) && LockInv(cfg, t)
    requires Shape(cfg, c, t.calls[c]) && TempOf(t.calls[c]) == None && !Holds(t.calls[c])
    requires t.calls[c].entries == s.calls[c].entries
    requires EventsDue(t, c) == EventsDue(s, c) && RowsDue(t, c) == RowsDue(s, c)
    ensures Inv(cfg, t)
  {
    hide LockInv, DiskInv, TempInv, HoldInv, ShapeInv, HistoryInv, AuditInv, Shape, TempOf, Holds;
    SameContents(s, t);
    SameDiskInv(s, t);
    TouchTemps(s, t, c);
    TouchHolds(cfg, s, t, c);
    TouchShape(cfg, s, t, c);
    TouchBooks(s, t, c);
  }

  lemma TouchTemps(s: State, t: State, c: nat)
    requires Known(s) && TempInv(s) && Touches(s, t, c) && Known(t) && TempOf(t.calls[c]) == None
    ensures TempInv(t)
  {
    hide TempOk;
    forall d | d in t.live ensures TempOk(t, t.calls[d]) {
      if d != c {
        OtherTemp(s, d);
        SameTempOk(s, t, s.calls[d]);
      } else {
        NoTempOk(t, t.calls[c]);
      }
    }
  }

  lemma NoTempOk(s: State, k: Call)
    requires TempOf(k) == None
    ensures TempOk(s, k) && !k.stage.Filling?
  {}

  lemma TouchHolds(cfg: Config, s: State, t: State, c: nat)
    requires Known(s) && HoldInv(cfg, s) && Touches(s, t, c) && Known(t) && !Holds(t.calls[c])
    ensures HoldInv(cfg, t)
  {}

  lemma TouchShape(cfg: Config, s: State, t: State, c: nat)
    requires ShapeInv(cfg, s) && Touches(s, t, c) && Shape(cfg, c, t.calls[c])
    ensures ShapeInv(cfg, t)
  {
    hide Shape;
    assert forall d | d in t.calls && d != c :: d in s.calls && t.calls[d] == s.calls[d];
  }

  lemma TouchBooks(s: State, t: State, c: nat)
    requires HistoryInv(s) && AuditInv(s) && Touches(s, t, c) && c in s.calls
    requires t.calls[c].entries == s.calls[c].entries
    requires EventsDue(t, c) == EventsDue(s, c) && RowsDue(t, c) == RowsDue(s, c)
    ensures HistoryInv(t) && AuditInv(t)
  {
    SameContents(s, t);
    hide ContentAt;
    forall d: nat ensures EntriesMade(t, d) == EntriesMade(s, d) && EventsDue(t, d) == EventsDue(s, d)
        && RowsDue(t, d) == RowsDue(s, d) {
      if d != c {
        assert d in t.calls <==> d in s.calls;
      }
    }
  }

  // ---------------------------------------------------------------- the lock map

  /** After the sweep the map lists the identities of the calls that still refer to a lock, and no other. */
  lemma KeptExactly(cfg: Config, s: State, id: string)
    requires Known(s) && LockInv(cfg, s)
    ensures id in Kept(s) <==> exists d :: d in s.live && Refers(s.calls[d]) && Identity(cfg, s.calls[d]) == id
  {}

  lemma KeptReferred(cfg: Config, s: State, d: nat)
    requires Known(s) && LockInv(cfg, s) && d in s.live && Refers(s.calls[d])
    ensures Identity(cfg, s.calls[d]) in Kept(s) && Kept(s)[Identity(cfg, s.calls[d])] == s.calls[d].lock
  {}

  /** A lookup that finds a kept entry, or inserts a fresh lock object. */
  lemma LookUpLocks(cfg: Config, s: State, t: State, c: nat, id: string, lock: nat)
    requires Known(s) && LockInv(cfg, s) && c in s.live && s.calls[c].stage.Arrived? && id == Identity(cfg, s.calls[c])
    requires if id in Kept(s) then lock == Kept(s)[id] && t.nextLock == s.nextLock
             else lock == s.nextLock && t.nextLock == s.nextLock + 1
    requires t.locks == Kept(s)[id := lock] && t.live == s.live && t.nextCall == s.nextCall
    requires t.calls == s.calls[c := s.calls[c].(stage := Waiting, lock := lock)]
    ensures Known(t) && LockInv(cfg, t)
  {
    hide Referenced;
    forall d | d in t.live && Refers(t.calls[d])
      ensures Identity(cfg, t.calls[d]) in t.locks && t.locks[Identity(cfg, t.calls[d])] == t.calls[d].lock
    {
      if d != c {
        KeptReferred(cfg, s, d);
        if Identity(cfg, s.calls[d]) == id {
          assert t.locks[id] == lock;
        }
      } else {
        SameIdentity(cfg, s.calls[c], t.calls[c]);
      }
    }
    LookUpOwners(s, t, c);
  }

  lemma LookUpOwners(s: State, t: State, c: nat)
    requires Known(s) && c in s.live && t.live == s.live && c in t.calls
    requires t.calls == s.calls[c := t.calls[c]] && !Owns(t.calls[c])
    ensures forall d | d in t.live && Owns(t.calls[d]) :: t.calls[d] == s.calls[d]
  {}

  lemma SameIdentity(cfg: Config, k: Call, m: Call)
    requires k.path == m.path
    ensures Identity(cfg, k) == Identity(cfg, m)
  {}

  lemma LookUpKeeps(cfg: Config, s: State, c: nat)
    requires Inv(cfg, s) && c in s.live && s.calls[c].stage.Arrived?
    ensures Inv(cfg, LookUp(cfg, s, c))
  {
    hide LockInv, DiskInv, TempInv, HoldInv, HistoryInv, AuditInv, Shape, Kept;
    var id := Identity(cfg, s.calls[c]);
    var t := LookUp(cfg, s, c);
    assert Shape(cfg, c, s.calls[c]);
    WaitingShape(cfg, c, s.calls[c], t.calls[c].lock);
    LookUpLocks(cfg, s, t, c, id, t.calls[c].lock);
    TouchKeeps(cfg, s, t, c);
  }

  lemma WaitingShape(cfg: Config, c: nat, k: Call, lock: nat)
    requires Shape(cfg, c, k) && k.stage.Arrived?
    ensures Shape(cfg, c, k.(stage := Waiting, lock := lock)) && k.seen == None && !k.attempt && k.closing == Open
  {}

  lemma AcquireLocks(cfg: Config, s: State, c: nat)
    requires Known(s) && LockInv(cfg, s) && c in s.live && s.calls[c].stage.Waiting?
    ensures Known(Acquire(s, c)) && LockInv(cfg, Acquire(s, c))
  {
    var t := Acquire(s, c);
    if t != s {
      forall d | d in t.live
        ensures t.calls[d].lock == s.calls[d].lock && t.calls[d].path == s.calls[d].path
        ensures Refers(t.calls[d]) == Refers(s.calls[d]) && (d != c ==> t.calls[d] == s.calls[d])
      {}
      forall d | d in s.live && d != c && Owns(s.calls[d]) ensures s.calls[d].lock != s.calls[c].lock {}
    }
  }

  lemma AcquireKeeps(cfg: Config, s: State, c: nat)
    requires Inv(cfg, s) && c in s.live && s.calls[c].stage.Waiting?
    ensures Inv(cfg, Acquire(s, c))
  {
    hide LockInv, DiskInv, TempInv, HoldInv, HistoryInv, AuditInv;
    assert Shape(cfg, c, s.calls[c]);
    AcquireLocks(cfg, s, c);
    if Acquire(s, c) != s {
      TouchKeeps(cfg, s, Acquire(s, c), c);
    }
  }

  // ---------------------------------------------------------------- coming and going

  lemma LeaveLocks(cfg: Config, s: State, c: nat, m: Call)
    requires Known(s) && LockInv(cfg, s) && c in s.live
    ensures Known(Leave(s, c, m)) && LockInv(cfg, Leave(s, c, m))
  {}

  lemma LeaveKeeps(cfg: Config, s: State, c: nat, outcome: Outcome)
    requires Inv(cfg, s) && c in s.live
    requires match s.calls[c].stage
             case Arrived => outcome.Failure?
             case Waiting => outcome.Failure?
             case Owning => outcome.Failure?
             case Recorded(recorded) => outcome == recorded
             case _ => false
    ensures Inv(cfg, Leave(s, c, s.calls[c].(stage := Returned(outcome))))
  {
    hide LockInv, DiskInv, TempInv, HoldInv, HistoryInv, AuditInv, Shape;
    var k := s.calls[c];
    var m := k.(stage := Returned(outcome));
    assert Shape(cfg, c, k);
    ReturnedShape(cfg, c, k, outcome);
    LeaveLocks(cfg, s, c, m);
    TouchKeeps(cfg, s, Leave(s, c, m), c);
  }

  lemma ReturnedShape(cfg: Config, c: nat, k: Call, outcome: Outcome)
    requires Shape(cfg, c, k)
    requires match k.stage
             case Arrived => outcome.Failure?
             case Waiting => outcome.Failure?
             case Owning => outcome.Failure?
             case Recorded(recorded) => outcome == recorded
             case _ => false
    ensures Shape(cfg, c, k.(stage := Returned(outcome)))
    ensures k.stage.Recorded? || (!k.attempt && k.closing == Open)
    ensures k.closing == Completed ==> outcome.Success?
  {
    hide OutcomeShape;
    if k.stage.Recorded? {
      SameOutcome(cfg, c, k, k.(stage := Returned(outcome)), outcome);
    } else {
      NothingDone(cfg, c, k.(stage := Returned(outcome)), outcome);
    }
  }

  lemma NothingDone(cfg: Config, c: nat, k: Call, outcome: Outcome)
    requires k.entries == [] && outcome.Failure?
    ensures OutcomeShape(cfg, c, k, outcome)
  {}

  lemma ArriveKeeps(cfg: Config, s: State, path: string, op: Mutation, base: Option<Hash>)
    requires Inv(cfg, s)
    ensures Inv(cfg, Step(cfg, s, Arrive(path, op, base)))
  {
    hide LockInv, DiskInv, TempInv, HoldInv, HistoryInv, AuditInv, StepCall;
    var t := Step(cfg, s, Arrive(path, op, base));
    assert s.nextCall !in s.calls;
    forall d | d in t.live ensures d == s.nextCall || (d in s.live && t.calls[d] == s.calls[d]) {}
    SameContents(s, t);
    SameDiskInv(s, t);
    ArriveLocks(cfg, s, t);
    ArriveTemps(s, t);
    ArriveHolds(cfg, s, t);
    ArriveBooks(s, t);
  }

  ghost predicate Arrives(s: State, t: State) {
    && Known(s) && Known(t) && s.nextCall in t.calls && t.calls == s.calls[s.nextCall := t.calls[s.nextCall]]
    && t.live == s.live + {s.nextCall} && t.locks == s.locks && t.nextLock == s.nextLock && SameDisk(s, t)
    && t.initial == s.initial && t.history == s.history && t.events == s.events && t.rows == s.rows
    && var k := t.calls[s.nextCall];
        k.stage.Arrived? && k.seen == None && k.entries == [] && !k.attempt && k.closing == Open
  }

  lemma ArriveLocks(cfg: Config, s: State, t: State)
    requires Arrives(s, t) && LockInv(cfg, s)
    ensures LockInv(cfg, t)
  {
    forall d | d in t.live ensures !Refers(t.calls[d]) || (d in s.live && t.calls[d] == s.calls[d]) {}
  }

  lemma ArriveTemps(s: State, t: State)
    requires Arrives(s, t) && TempInv(s)
    ensures TempInv(t)
  {
    hide TempOk;
    forall d | d in t.live ensures TempOk(t, t.calls[d]) {
      if d != s.nextCall {
        OtherTemp(s, d);
        SameTempOk(s, t, s.calls[d]);
      } else {
        NoTempOk(t, t.calls[d]);
      }
    }
  }

  lemma ArriveHolds(cfg: Config, s: State, t: State)
    requires Arrives(s, t) && HoldInv(cfg, s)
    ensures HoldInv(cfg, t)
  {}

  lemma ArriveBooks(s: State, t: State)
    requires Arrives(s, t) && HistoryInv(s) && AuditInv(s)
    ensures HistoryInv(t) && AuditInv(t)
  {
    SameContents(s, t);
    hide ContentAt;
    assert s.nextCall !in s.calls;
    forall d: nat ensures EntriesMade(t, d) == EntriesMade(s, d) && EventsDue(t, d) == EventsDue(s, d)
        && RowsDue(t, d) == RowsDue(s, d) {}
  }

  lemma CrashKeeps(cfg: Config, s: State)
    requires Inv(cfg, s)
    ensures Inv(cfg, Step(cfg, s, Crash))
  {
    hide DiskInv, ShapeInv, ContentAt, StepCall;
    var t := Step(cfg, s, Crash);
    SameContents(s, t);
    SameDiskInv(s, t);
    SameBooks(s, t);
    CrashShape(cfg, s, t);
  }

  lemma CrashShape(cfg: Config, s: State, t: State)
    requires ShapeInv(cfg, s) && t.calls == s.calls
    ensures ShapeInv(cfg, t)
  {
    hide Shape;
  }
}
