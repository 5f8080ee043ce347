/**
 * Index refreshes after mutations. Each refresh lists and reads the vault path by path while other mutations
 * go on, and publishes what it saw; only one refresh runs at a time.
 */
module IndexRefresh {
  import opened Text

  /** What is at a path: every change of the path gives it a new version. */
  datatype Stamp = Stamp(version: nat, present: bool)

  datatype Stage = Waiting | Refreshing | Done(rebuilt: bool)

  /** A mutation that has made `version` of `path`, on its way through its own refresh. */
  datatype Caller = Caller(path: string, version: nat, stage: Stage)

  datatype Refresh = Refresh(owner: nat, listed: set<string>, observed: map<string, Stamp>)

  datatype State = State(
    paths: set<string>, disk: map<string, Stamp>, index: map<string, Stamp>,
    refresh: Option<Refresh>, callers: map<nat, Caller>, next: nat)

  datatype Action =
    | Mutate(path: string, present: bool)
    | Acquire(caller: nat)
    | List(listed: string)
    | Read(read: string)
    | Publish
    | Abort

  function Finish(s: State, rebuilt: bool): State
    requires s.refresh.Some? && s.refresh.value.owner in s.callers
  {
    var owner := s.refresh.value.owner;
    s.(refresh := None, callers := s.callers[owner := s.callers[owner].(stage := Done(rebuilt))])
  }

  function Step(s: State, action: Action): State
    requires Sized(s)
  {
    match action
    case Mutate(path, present) =>
      if path !in s.paths then s
      else
        var stamp := Stamp(s.disk[path].version + 1, present);
        s.(disk := s.disk[path := stamp], callers := s.callers[s.next := Caller(path, stamp.version, Waiting)],
            next := s.next + 1)
    case Acquire(c) =>
      if s.refresh.Some? || c !in s.callers || !s.callers[c].stage.Waiting? then s
      else s.(refresh := Some(Refresh(c, {}, map[])), callers := s.callers[c := s.callers[c].(stage := Refreshing)])
    case List(p) =>
      if s.refresh.None? || p !in s.paths || p in s.refresh.value.listed || p in s.refresh.value.observed then s
      else
        var r := s.refresh.value;
        s.(refresh := Some(if s.disk[p].present then r.(listed := r.listed + {p})
            else r.(observed := r.observed[p := s.disk[p]])))
    case Read(p) =>
      if s.refresh.None? || p !in s.paths || p !in s.refresh.value.listed then s
      else if !s.disk[p].present then Finish(s, false)
      else s.(refresh := Some(s.refresh.value.(observed := s.refresh.value.observed[p := s.disk[p]])))
    case Publish =>
      if s.refresh.None? || s.refresh.value.observed.Keys != s.paths then s
      else Finish(s.(index := s.refresh.value.observed), true)
    case Abort => if s.refresh.None? then s else Finish(s, false)
  }

  predicate Sized(s: State) {
    && s.disk.Keys == s.paths && s.index.Keys == s.paths
    && (forall c | c in s.callers :: c < s.next && s.callers[c].path in s.paths)
    && (s.refresh.Some? ==> s.refresh.value.owner in s.callers && s.refresh.value.observed.Keys <= s.paths)
  }

  /** No newer than the disk, and the same when as new. */
  predicate Seen(a: Stamp, disk: Stamp) { a.version <= disk.version && (a.version == disk.version ==> a == disk) }

  ghost predicate Inv(s: State) {
    && Sized(s)
    && (forall p | p in s.paths :: Seen(s.index[p], s.disk[p]))
    && (forall c | c in s.callers :: s.callers[c].version <= s.disk[s.callers[c].path].version)
    && (forall c | c in s.callers && s.callers[c].stage == Done(true) ::
        s.callers[c].version <= s.index[s.callers[c].path].version)
    && (s.refresh.Some? ==>
          var r := s.refresh.value;
          && s.callers[r.owner].stage.Refreshing?
          && (forall p | p in r.observed ::
              s.index[p].version <= r.observed[p].version && Seen(r.observed[p], s.disk[p]))
          && (forall p | p in r.observed ::
              p == s.callers[r.owner].path ==> s.callers[r.owner].version <= r.observed[p].version))
  }

  /** A vault with an index that shows no version the disk has not reached. */
  ghost predicate Init(s: State): (r: bool)
    ensures r ==> Inv(s)
  {
    s.callers == map[] && s.refresh == None && Sized(s) && forall p | p in s.paths :: Seen(s.index[p], s.disk[p])
  }

  lemma MutateKeeps(s: State, path: string, present: bool)
    requires Inv(s)
    ensures Inv(Step(s, Mutate(path, present)))
  {}

  lemma AcquireKeeps(s: State, c: nat)
    requires Inv(s)
    ensures Inv(Step(s, Acquire(c)))
  {}

  lemma FinishKeeps(s: State, rebuilt: bool)
    requires Inv(s) && s.refresh.Some?
    requires var k := s.callers[s.refresh.value.owner]; rebuilt ==> k.version <= s.index[k.path].version
    ensures Inv(Finish(s, rebuilt))
  {}

  lemma ListKeeps(s: State, p: string)
    requires Inv(s)
    ensures Inv(Step(s, List(p)))
  {}

  lemma ReadKeeps(s: State, p: string)
    requires Inv(s)
    ensures Inv(Step(s, Read(p)))
  {
    if s.refresh.Some? {
      FinishKeeps(s, false);
    }
  }

  lemma PublishKeeps(s: State)
    requires Inv(s) && s.refresh.Some? && s.refresh.value.observed.Keys == s.paths
    ensures Inv(Step(s, Publish))
  {
    var r := s.refresh.value;
    var t := s.(index := r.observed);
    assert Inv(t);
    FinishKeeps(t, true);
  }

  lemma StepKeeps(s: State, action: Action)
    requires Inv(s)
    ensures Inv(Step(s, action))
  {
    hide Seen;
    match action
    case Mutate(path, present) => MutateKeeps(s, path, present);
    case Acquire(c) => AcquireKeeps(s, c);
    case List(p) => ListKeeps(s, p);
    case Read(p) => ReadKeeps(s, p);
    case Publish => if s.refresh.Some? && s.refresh.value.observed.Keys == s.paths { PublishKeeps(s); }
    case Abort => if s.refresh.Some? { FinishKeeps(s, false); }
  }

  /** No path's version goes backward in the index. */
  lemma StepAdvances(s: State, action: Action)
    requires Inv(s)
    ensures var t := Step(s, action);
        t.paths == s.paths && Inv(t) && forall p | p in s.paths :: s.index[p].version <= t.index[p].version
  {
    StepKeeps(s, action);
  }

  ghost function Run(s: State, actions: seq<Action>): (t: State)
    requires Inv(s)
    ensures Inv(t)
    decreases |actions|
  {
    if actions == [] then s
    else
      var u := Run(s, actions[..|actions| - 1]);
      StepKeeps(u, actions[|actions| - 1]);
      Step(u, actions[|actions| - 1])
  }

  lemma {:induction false} IndexNeverGoesBack(s: State, actions: seq<Action>)
    requires Inv(s)
    ensures var t := Run(s, actions);
        t.paths == s.paths && forall p | p in s.paths :: s.index[p].version <= t.index[p].version
    decreases |actions|
  {
    hide Step;
    if actions == [] {
    } else {
      IndexNeverGoesBack(s, actions[..|actions| - 1]);
      StepAdvances(Run(s, actions[..|actions| - 1]), actions[|actions| - 1]);
    }
  }

  /** A caller that is done stays as it is. */
  lemma StepCallers(s: State, action: Action, c: nat)
    requires Inv(s) && c in s.callers && s.callers[c].stage.Done?
    ensures c in Step(s, action).callers && Step(s, action).callers[c] == s.callers[c]
  {}

  lemma {:induction false} CallersStay(s: State, actions: seq<Action>, c: nat)
    requires Inv(s) && c in s.callers && s.callers[c].stage.Done?
    ensures var t := Run(s, actions); c in t.callers && t.callers[c] == s.callers[c]
    decreases |actions|
  {
    hide Inv, Step;
    if actions == [] {
    } else {
      CallersStay(s, actions[..|actions| - 1], c);
      StepCallers(Run(s, actions[..|actions| - 1]), actions[|actions| - 1], c);
    }
  }

  /** Once its own refresh has succeeded, a mutation's version or a later one is in the index, then and ever after. */
  lemma OwnRefreshShows(s: State, before: seq<Action>, after: seq<Action>, c: nat)
    requires Init(s)
    requires c in Run(s, before).callers && Run(s, before).callers[c].stage == Done(true)
    ensures var t := Run(Run(s, before), after); var k := Run(s, before).callers[c];
      k.path in t.index && k.version <= t.index[k.path].version
      && (t.index[k.path].version == t.disk[k.path].version ==> t.index[k.path] == t.disk[k.path])
  {
    hide Run;
    CallersStay(Run(s, before), after, c);
  }

  // ---------------------------------------------------------------- what a refresh does when it succeeds or fails

  /** The index changes only when a refresh succeeds, and then to what that refresh has listed and read. */
  lemma IndexChanges(s: State, action: Action)
    requires Inv(s) && Step(s, action).index != s.index
    ensures s.refresh.Some? && action == Publish
    ensures Step(s, action).index == s.refresh.value.observed && s.refresh.value.observed.Keys == s.paths
    ensures Step(s, action).callers[s.refresh.value.owner].stage == Done(true)
  {}

  /** A listed note that is gone when it is read fails the refresh, and the index stays. */
  lemma VanishedFails(s: State, p: string)
    requires Inv(s) && s.refresh.Some? && p in s.refresh.value.listed && p in s.paths && !s.disk[p].present
    ensures var t := Step(s, Read(p));
      t.index == s.index && t.refresh == None && t.callers[s.refresh.value.owner].stage == Done(false)
  {}

  lemma {:induction false} RunPrepend(s: State, action: Action, actions: seq<Action>)
    requires Inv(s)
    ensures Inv(Step(s, action)) && Run(s, [action] + actions) == Run(Step(s, action), actions)
    decreases |actions|
  {
    hide Inv, Step;
    StepKeeps(s, action);
    var all := [action] + actions;
    if actions == [] {
      assert all[..|all| - 1] == [];
    } else {
      var before := actions[..|actions| - 1];
      RunPrepend(s, action, before);
      assert all[..|all| - 1] == [action] + before;
    }
  }

  /** A refresh under way that has seen the other paths as they are, and has still to list these. */
  ghost predicate Seeing(s: State, rest: set<string>) {
    && s.refresh.Some? && rest <= s.paths && s.disk.Keys == s.paths
    && var r := s.refresh.value;
       r.observed.Keys == s.paths - rest && r.listed !! rest && forall p | p in r.observed :: r.observed[p] == s.disk[p]
  }

  /** The same but for what the refresh has seen. */
  ghost predicate OnlySaw(s: State, t: State) {
    && t.paths == s.paths && t.disk == s.disk && t.index == s.index && t.callers == s.callers && t.next == s.next
    && s.refresh.Some? && t.refresh.Some? && t.refresh.value.owner == s.refresh.value.owner
  }

  /** One more path is seen by listing it, and reading it if it is there. */
  lemma SeesAbsent(s: State, p: string, rest: set<string>)
    requires Sized(s) && Seeing(s, rest) && p in rest && !s.disk[p].present
    ensures var t := Step(s, List(p)); OnlySaw(s, t) && Seeing(t, rest - {p})
  {}

  lemma SeesPresent(s: State, p: string, rest: set<string>)
    requires Sized(s) && Seeing(s, rest) && p in rest && s.disk[p].present
    ensures var u := Step(s, List(p));
      Sized(u) && var t := Step(u, Read(p)); OnlySaw(s, t) && Seeing(t, rest - {p})
  {}

  lemma SeeOne(s: State, p: string, rest: set<string>) returns (actions: seq<Action>)
    requires Inv(s) && Seeing(s, rest) && p in rest
    ensures var t := Run(s, actions); OnlySaw(s, t) && Seeing(t, rest - {p})
  {
    InvSized(s);
    Within(s, rest);
    hide Inv, Step, Seeing, OnlySaw, Sized;
    RunPrepend(s, List(p), []);
    var u := Step(s, List(p));
    RunNothing(u);
    if s.disk[p].present {
      SeesPresent(s, p, rest);
      RunPrepend(u, Read(p), []);
      RunNothing(Step(u, Read(p)));
      RunPrepend(s, List(p), [Read(p)] + []);
      actions := [List(p)] + ([Read(p)] + []);
    } else {
      SeesAbsent(s, p, rest);
      actions := [List(p)] + [];
    }
  }

  lemma InvSized(s: State)
    requires Inv(s)
    ensures Sized(s)
  {}

  lemma Within(s: State, rest: set<string>)
    requires Seeing(s, rest)
    ensures forall p | p in rest :: p in s.disk
  {}

  lemma RunNothing(s: State)
    requires Inv(s)
    ensures Run(s, []) == s
  {}

  lemma {:induction false} RunJoin(s: State, before: seq<Action>, after: seq<Action>)
    requires Inv(s)
    ensures Run(s, before + after) == Run(Run(s, before), after)
    decreases |after|
  {
    hide Inv, Step;
    if after == [] {
      assert before + after == before;
    } else {
      var all := before + after;
      RunJoin(s, before, after[..|after| - 1]);
      assert all[..|all| - 1] == before + after[..|after| - 1];
    }
  }

  lemma {:induction false} SeeAll(s: State, rest: set<string>) returns (actions: seq<Action>)
    requires Inv(s) && Seeing(s, rest)
    ensures var t := Run(s, actions); OnlySaw(s, t) && Seeing(t, {})
    decreases rest
  {
    hide Inv, Step, Seeing;
    if rest == {} {
      actions := [];
      RunNothing(s);
      SawNothing(s);
    } else {
      var p :| p in rest;
      var first := SeeOne(s, p, rest);
      var more := SeeAll(Run(s, first), rest - {p});
      RunJoin(s, first, more);
      actions := first + more;
    }
  }

  lemma SawNothing(s: State)
    requires Seeing(s, {})
    ensures OnlySaw(s, s)
  {}

  /** A refresh begins with nothing seen, after any other one is given up. */
  lemma Begins(s: State, c: nat)
    requires Inv(s) && c in s.callers && s.callers[c].stage.Waiting?
    ensures var idle := Step(s, Abort);
      Inv(idle) && var t := Step(idle, Acquire(c));
      && Inv(t) && Seeing(t, t.paths) && t.disk == s.disk && t.paths == s.paths && t.refresh.value.owner == c
      && c in t.callers && t.callers[c] == s.callers[c].(stage := Refreshing)
  {
    StepKeeps(s, Abort);
    StepKeeps(Step(s, Abort), Acquire(c));
    hide Seen;
  }

  lemma Ends(s: State)
    requires Inv(s) && Seeing(s, {})
    ensures var t := Step(s, Publish);
      Inv(t) && t.disk == s.disk && t.index == s.disk
      && t.callers == s.callers[s.refresh.value.owner := s.callers[s.refresh.value.owner].(stage := Done(true))]
  {
    StepKeeps(s, Publish);
    assert s.refresh.value.observed == s.disk;
  }

  /** From any state of any run, a waiting caller can have its refresh, and the index then shows the whole disk. */
  lemma RefreshCanSucceed(s: State, c: nat) returns (actions: seq<Action>)
    requires Inv(s) && c in s.callers && s.callers[c].stage.Waiting?
    ensures var t := Run(s, actions);
      t.disk == s.disk && t.index == s.disk && c in t.callers && t.callers[c] == s.callers[c].(stage := Done(true))
  {
    Begins(s, c);
    InvSized(s);
    hide Inv, Step, Seeing, Run, Sized;
    var idle := Step(s, Abort);
    InvSized(idle);
    var begun := Step(idle, Acquire(c));
    var seen := SeeAll(begun, begun.paths);
    var u := Run(begun, seen);
    Ends(u);
    RunPrepend(u, Publish, []);
    RunNothing(Step(u, Publish));
    var rest := [Publish] + [];
    RunJoin(begun, seen, rest);
    RunPrepend(idle, Acquire(c), seen + rest);
    RunPrepend(s, Abort, [Acquire(c)] + (seen + rest));
    actions := [Abort] + ([Acquire(c)] + (seen + rest));
  }
}
