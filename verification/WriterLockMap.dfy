/** Exactly what the lock map holds, and exactly when it holds more entries than there are calls in flight. */
module WriterLockMap {
  import opened Text
  import opened Frontmatter
  import opened Writer
  import opened WriterInvariant
  import opened WriterSteps
  import opened WriterLocks
  import opened WriterRuns
  import opened WriterSafety
  import opened WriterTurns
  import opened WriterHashes

  ghost predicate LooksUp(s: State, action: Action)
    requires s.live <= s.calls.Keys
  {
    action.Act? && action.call in s.live && s.calls[action.call].stage.Arrived? && !action.choice.Fail?
  }

  ghost predicate DepartsNow(s: State, action: Action)
    requires s.live <= s.calls.Keys
  {
    action.Act? && action.call in s.live && Departs(s.calls[action.call].stage, action.choice)
  }

  /** The identities of the calls in flight that refer to a lock. */
  ghost function Referred(cfg: Config, s: State): set<string>
    requires s.live <= s.calls.Keys
  {
    set c | c in s.live && Refers(s.calls[c]) :: Identity(cfg, s.calls[c])
  }

  // ---------------------------------------------------------------- what each kind of step does to the map

  /** A step that is no lookup, no departure and no crash keeps the map, the calls' identities and their references. */
  lemma OtherSteps(cfg: Config, s: State, action: Action)
    requires Inv(cfg, s) && Stamped(s) && !LooksUp(s, action) && !DepartsNow(s, action) && !action.Crash?
    ensures var t := Step(cfg, s, action);
      t.locks == s.locks && s.live <= t.live <= t.calls.Keys && Referred(cfg, t) == Referred(cfg, s)
  {
    hide LockInv, DiskInv, TempInv, HoldInv, ShapeInv, HistoryInv, AuditInv, StepCall, Referred;
    match action
    case Arrive(path, op, base) => ArrivalRefers(cfg, s, Step(cfg, s, action));
    case Act(c, choice) =>
      if c in s.live {
        CallKeepsMap(cfg, s, c, choice);
      }
    case Crash =>
  }

  lemma ArrivalRefers(cfg: Config, s: State, t: State)
    requires Known(s) && s.nextCall in t.calls && t.calls[s.nextCall].stage.Arrived?
    requires t.calls == s.calls[s.nextCall := t.calls[s.nextCall]] && t.live == s.live + {s.nextCall}
    ensures t.live <= t.calls.Keys && Referred(cfg, t) == Referred(cfg, s)
  {
    forall c | c in s.live ensures c in t.live && t.calls[c] == s.calls[c] {}
    assert forall c | c in t.live && Refers(t.calls[c]) :: c in s.live;
  }

  lemma CallKeepsMap(cfg: Config, s: State, c: nat, choice: Choice)
    requires Inv(cfg, s) && Stamped(s) && c in s.live && !Departs(s.calls[c].stage, choice)
    requires !(s.calls[c].stage.Arrived? && !choice.Fail?)
    ensures var t := StepCall(cfg, s, c, choice);
      t.locks == s.locks && t.live == s.live && t.live <= t.calls.Keys && Referred(cfg, t) == Referred(cfg, s)
  {
    hide LockInv, DiskInv, TempInv, HoldInv, ShapeInv, HistoryInv, AuditInv, FailCall, Check, Acquire, Leave, Referred;
    var t, k := StepCall(cfg, s, c, choice), s.calls[c];
    if choice.Fail? {
      FailKinds(s, c, choice.code);
    } else if k.stage.Waiting? {
      AcquireRefers(s, c);
    } else if Checking(k.stage) {
      CheckRefers(cfg, s, c);
    } else {
      AdvanceKinds(cfg, s, c, choice);
    }
    SameReferred(cfg, s, t, c);
  }

  /** Call `c` keeps its path and still refers to its lock, or still does not. */
  ghost predicate KeepsReference(s: State, t: State, c: nat) {
    && c in s.calls && c in t.calls && t.calls == s.calls[c := t.calls[c]] && t.live == s.live && t.locks == s.locks
    && t.calls[c].path == s.calls[c].path && Refers(t.calls[c]) == Refers(s.calls[c])
  }

  lemma AcquireRefers(s: State, c: nat)
    requires c in s.live && s.live <= s.calls.Keys && s.calls[c].stage.Waiting?
    ensures KeepsReference(s, Acquire(s, c), c)
  {
    assert s.calls == s.calls[c := s.calls[c]];
  }

  lemma CheckRefers(cfg: Config, s: State, c: nat)
    requires c in s.live && s.live <= s.calls.Keys && Checking(s.calls[c].stage)
    ensures KeepsReference(s, Check(cfg, s, c), c)
  {
    hide Checked, ContentAt;
    CheckedRead(cfg, s.calls[c], ContentAt(s, Identity(cfg, s.calls[c])));
  }

  lemma SameReferred(cfg: Config, s: State, t: State, c: nat)
    requires s.live <= s.calls.Keys && (KeepsReference(s, t, c) || Moves(s, t, c))
    ensures t.locks == s.locks && t.live == s.live && t.live <= t.calls.Keys && Referred(cfg, t) == Referred(cfg, s)
  {
    forall d | d in s.live
      ensures Refers(t.calls[d]) == Refers(s.calls[d]) && Identity(cfg, t.calls[d]) == Identity(cfg, s.calls[d])
    {}
  }

  /** A departure leaves the map as it is. */
  lemma Departure(cfg: Config, s: State, action: Action)
    requires Inv(cfg, s) && Stamped(s) && DepartsNow(s, action)
    ensures var t, c := Step(cfg, s, action), action.call;
      && t.locks == s.locks && t.live == s.live - {c} && t.live <= t.calls.Keys
      && Referred(cfg, s) == Referred(cfg, t) + if Refers(s.calls[c]) then {Identity(cfg, s.calls[c])} else {}
  {
    hide LockInv, DiskInv, TempInv, HoldInv, ShapeInv, HistoryInv, AuditInv, FailCall, AdvanceCall, Referred;
    var t, c, k := Step(cfg, s, action), action.call, s.calls[action.call];
    AsAct(cfg, s, c, action.choice);
    if action.choice.Fail? {
      FailKinds(s, c, action.choice.code);
    } else {
      AdvanceKinds(cfg, s, c, action.choice);
    }
    DepartedReferred(cfg, s, c, t.calls[c]);
  }

  lemma DepartedReferred(cfg: Config, s: State, c: nat, m: Call)
    requires c in s.live && s.live <= s.calls.Keys
    ensures var t := Leave(s, c, m);
      && t.locks == s.locks && t.live == s.live - {c} && t.live <= t.calls.Keys
      && Referred(cfg, s) == Referred(cfg, t) + if Refers(s.calls[c]) then {Identity(cfg, s.calls[c])} else {}
  {
    var t := Leave(s, c, m);
    forall d | d in s.live && d != c ensures d in t.live && t.calls[d] == s.calls[d] {}
  }

  /** A lookup leaves the map with the identities that are referred to, its own among them. */
  lemma LookUpReferred(cfg: Config, s: State, action: Action)
    requires Inv(cfg, s) && LooksUp(s, action)
    ensures var t := Step(cfg, s, action);
      t.live == s.live && t.live <= t.calls.Keys && t.locks.Keys == Referred(cfg, t) && |t.locks| <= |t.live|
  {
    hide LockInv, DiskInv, TempInv, HoldInv, ShapeInv, HistoryInv, AuditInv, LookUp;
    var c := action.call;
    var t := LookUp(cfg, s, c);
    AsAct(cfg, s, c, action.choice);
    LookUpKeeps(cfg, s, c);
    LookUpBound(cfg, s, c);
    LookUpLive(cfg, s, c);
    forall id ensures id in t.locks <==> id in Referred(cfg, t) {
      KeptExactly(cfg, t, id);
      if id in t.locks {
        KeptAfterLookUp(cfg, s, c, id);
      }
      KeptInMap(t, id);
    }
  }

  lemma LookUpLive(cfg: Config, s: State, c: nat)
    requires c in s.live && s.live <= s.calls.Keys
    ensures LookUp(cfg, s, c).live == s.live
  {
    hide Kept;
  }

  lemma KeptInMap(t: State, id: string)
    requires t.live <= t.calls.Keys
    ensures id in Kept(t) ==> id in t.locks
  {}

  // ---------------------------------------------------------------- the exact bound

  ghost predicate Bounded(s: State) { |s.locks| <= |s.live| }

  /**
   * From a state that meets the bound, a step breaks it exactly when a call departs and the map had as many entries
   * as calls.
   */
  lemma BoundBreaksExactly(cfg: Config, s: State, action: Action)
    requires Inv(cfg, s) && Stamped(s) && Bounded(s)
    ensures !Bounded(Step(cfg, s, action)) <==> DepartsNow(s, action) && |s.locks| == |s.live|
  {
    hide Inv, Stamped, Step, Referred, Departs, DepartsNow, LooksUp;
    KnownNow(cfg, s);
    var t := Step(cfg, s, action);
    if action.Crash? {
      CrashEmpties(cfg, s);
    } else if LooksUp(s, action) {
      LookUpReferred(cfg, s, action);
      LookUpStays(s, action);
    } else if DepartsNow(s, action) {
      Departure(cfg, s, action);
      OneFewer(s, action, t.live);
    } else {
      OtherSteps(cfg, s, action);
      SubsetSize(s.live, t.live);
    }
  }

  lemma OneFewer(s: State, action: Action, left: set<nat>)
    requires s.live <= s.calls.Keys && DepartsNow(s, action) && left == s.live - {action.call}
    ensures |left| + 1 == |s.live|
  {
    assert s.live == left + {action.call};
  }

  lemma KnownNow(cfg: Config, s: State)
    requires Inv(cfg, s)
    ensures s.live <= s.calls.Keys
  {}

  lemma CrashEmpties(cfg: Config, s: State)
    requires s.live <= s.calls.Keys
    ensures var t := Step(cfg, s, Crash); t.locks == map[] && t.live == {} && !DepartsNow(s, Crash)
  {}

  lemma LookUpStays(s: State, action: Action)
    requires s.live <= s.calls.Keys && LooksUp(s, action)
    ensures !DepartsNow(s, action)
  {}

  /** The bound holds throughout a run exactly when no call ever departs while the map has as many entries as calls. */
  lemma {:induction false} BoundHoldsExactly(cfg: Config, s: State, actions: seq<Action>)
    requires Init(s)
    ensures (forall m | 0 <= m <= |actions| :: Bounded(RunFrom(cfg, s, actions[..m])))
       <==> (forall m | 0 <= m < |actions| :: !Overdrawn(cfg, s, actions, m))
    decreases |actions|
  {
    hide Inv, Step, Bounded, Overdrawn, RunFrom;
    if actions == [] {
      StartsBounded(cfg, s);
      assert actions[..0] == [];
    } else {
      var last := |actions| - 1;
      var before := actions[..last];
      BoundHoldsExactly(cfg, s, before);
      assert forall m | 0 <= m <= last :: before[..m] == actions[..m];
      forall m | 0 <= m < last ensures Overdrawn(cfg, s, before, m) <==> Overdrawn(cfg, s, actions, m) {
        SamePrefix(cfg, s, actions, m);
      }
      assert actions[..last + 1] == actions && before[..last] == before;
      if Bounded(RunFrom(cfg, s, before)) {
        LastBound(cfg, s, actions);
      }
      if forall m | 0 <= m <= |actions| :: Bounded(RunFrom(cfg, s, actions[..m])) {
        forall m | 0 <= m <= last ensures Bounded(RunFrom(cfg, s, before[..m])) {
          assert Bounded(RunFrom(cfg, s, actions[..m]));
        }
        assert Bounded(RunFrom(cfg, s, actions[..last])) && Bounded(RunFrom(cfg, s, actions[..last + 1]));
      }
      if forall m | 0 <= m < |actions| :: !Overdrawn(cfg, s, actions, m) {
        forall m | 0 <= m <= |actions| ensures Bounded(RunFrom(cfg, s, actions[..m])) {
          assert Bounded(RunFrom(cfg, s, before[..last]));
          if m <= last {
            assert Bounded(RunFrom(cfg, s, before[..m]));
          }
        }
      }
    }
  }

  /** The step at `m` is a departure in a state whose map has as many entries as there are calls. */
  ghost predicate Overdrawn(cfg: Config, s: State, actions: seq<Action>, m: nat)
    requires Init(s) && m < |actions|
  {
    var u := RunFrom(cfg, s, actions[..m]);
    DepartsNow(u, actions[m]) && |u.locks| == |u.live|
  }

  lemma SamePrefix(cfg: Config, s: State, actions: seq<Action>, m: nat)
    requires Init(s) && m + 1 < |actions|
    ensures Overdrawn(cfg, s, actions[..|actions| - 1], m) <==> Overdrawn(cfg, s, actions, m)
  {
    assert actions[..|actions| - 1][..m] == actions[..m];
  }

  lemma StartsBounded(cfg: Config, s: State)
    requires Init(s)
    ensures Bounded(RunFrom(cfg, s, []))
  {}

  lemma LastBound(cfg: Config, s: State, actions: seq<Action>)
    requires Init(s) && actions != [] && Bounded(RunFrom(cfg, s, actions[..|actions| - 1]))
    ensures Bounded(RunFrom(cfg, s, actions)) <==> !Overdrawn(cfg, s, actions, |actions| - 1)
  {
    hide Inv, Init, Step, Bounded, Run, TurnInv;
    var u := RunFrom(cfg, s, actions[..|actions| - 1]);
    RunTurnsFrom(cfg, s, actions[..|actions| - 1]);
    BoundBreaksExactly(cfg, u, actions[|actions| - 1]);
    RunFromAppend(cfg, s, actions[..|actions| - 1], actions[|actions| - 1]);
    assert actions[..|actions| - 1] + [actions[|actions| - 1]] == actions;
  }

  lemma RunTurnsFrom(cfg: Config, s: State, actions: seq<Action>)
    requires Init(s)
    ensures TurnInv(cfg, RunFrom(cfg, s, actions)) && Stamped(RunFrom(cfg, s, actions))
  {
    hide Inv, Run, Stamped;
    InitInv(cfg, s);
    InitTurns(cfg, s);
    RunTurns(cfg, s, actions);
  }

  // ---------------------------------------------------------------- the exact contents

  /** The identities of calls that departed with a reference to their lock since the last lookup or crash. */
  ghost function Lingering(cfg: Config, s: State, actions: seq<Action>): set<string>
    requires Init(s)
    decreases |actions|
  {
    if actions == [] then {}
    else
      var before, action := actions[..|actions| - 1], actions[|actions| - 1];
      var u := RunFrom(cfg, s, before);
      if action.Crash? || LooksUp(u, action) then {}
      else if DepartsNow(u, action) && Refers(u.calls[action.call])
      then Lingering(cfg, s, before) + {Identity(cfg, u.calls[action.call])}
      else Lingering(cfg, s, before)
  }

  /** After any run the map lists the identities some call in flight refers to, and the lingering ones, and no other. */
  lemma {:induction false} LockMapExactly(cfg: Config, s: State, actions: seq<Action>)
    requires Init(s)
    ensures var t := RunFrom(cfg, s, actions); t.locks.Keys == Referred(cfg, t) + Lingering(cfg, s, actions)
    decreases |actions|
  {
    hide Inv, Init, Step, Run, TurnInv, Referred;
    if actions == [] {
      NothingReferred(cfg, s);
    } else {
      var before, action := actions[..|actions| - 1], actions[|actions| - 1];
      var u := RunFrom(cfg, s, before);
      LockMapExactly(cfg, s, before);
      RunTurnsFrom(cfg, s, before);
      RunFromAppend(cfg, s, before, action);
      assert before + [action] == actions;
      if action.Crash? {
        CrashEmpties(cfg, u);
        NobodyRefers(cfg, Step(cfg, u, action));
      } else if LooksUp(u, action) {
        LookUpReferred(cfg, u, action);
      } else if DepartsNow(u, action) {
        Departure(cfg, u, action);
      } else {
        OtherSteps(cfg, u, action);
      }
    }
  }

  lemma NothingReferred(cfg: Config, s: State)
    requires Init(s)
    ensures var t := RunFrom(cfg, s, []); t.locks == map[] && Referred(cfg, t) == {}
  {}

  lemma NobodyRefers(cfg: Config, t: State)
    requires t.live == {}
    ensures Referred(cfg, t) == {}
  {}
}
