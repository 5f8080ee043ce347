/** What readers of the vault, of its trash and of its audit store can rely on after any run. */
module WriterPromises {
  import opened Text
  import opened Frontmatter
  import opened Writer
  import opened WriterInvariant
  import opened WriterRuns
  import opened WriterFrames
  import opened WriterSafety

  // ---------------------------------------------------------------- readers

  /** A note shows the complete bytes of one finished prepare: the first ones, or those of the last logged change. */
  lemma NotesAreWhole(cfg: Config, t: State, n: string)
    requires Reachable(cfg, t) && NoteName(n) in t.names
    ensures t.names[NoteName(n)] in t.prepared && ContentAt(t, n) == Some(t.prepared[t.names[NoteName(n)]])
    ensures || (n in t.initial && ContentAt(t, n) == Some(t.initial[n]))
            || exists j :: 0 <= j < |t.history| && t.history[j].name == n && t.history[j].after == ContentAt(t, n)
  {
    hide Reachable, LockInv, TempInv, HoldInv, ShapeInv, AuditInv;
    LastAfterSource(t.initial, t.history, n);
  }

  lemma {:induction false} LastAfterSource(initial: map<string, string>, history: seq<Entry>, n: string)
    ensures || LastAfter(initial, history, n) == (if n in initial then Some(initial[n]) else None)
            || exists j :: 0 <= j < |history| && history[j].name == n
                && history[j].after == LastAfter(initial, history, n)
  {
    if history == [] {
    } else {
      var last := |history| - 1;
      if history[last].name != n {
        LastAfterSource(initial, history[..last], n);
        var earlier := history[..last];
        if j :| 0 <= j < last && earlier[j].name == n && earlier[j].after == LastAfter(initial, earlier, n) {
          assert history[j] == earlier[j];
        }
      }
    }
  }

  /** Bytes a reader has reached through a name are never written again, whatever runs on. */
  lemma NeverRewritten(cfg: Config, s: State, actions: seq<Action>, n: string)
    requires Reachable(cfg, s) && NoteName(n) in s.names
    ensures var i, t := s.names[NoteName(n)], Run(cfg, s, actions); i in s.data && i in t.data && t.data[i] == s.data[i]
    ensures s.history <= Run(cfg, s, actions).history
  {
    hide Reachable, Run, LockInv, TempInv, HoldInv, ShapeInv, HistoryInv, AuditInv;
    RunFrame(cfg, s, actions);
  }

  // ---------------------------------------------------------------- the trash

  lemma {:induction false} EntriesUpTo(history: seq<Entry>, c: nat, m: nat)
    requires m <= |history|
    ensures EntriesOf(history[..m], c) <= EntriesOf(history, c)
  {
    if m < |history| {
      var last := |history| - 1;
      EntriesUpTo(history[..last], c, m);
      assert history[..last][..m] == history[..m];
    } else {
      assert history[..m] == history;
    }
  }

  /** The call's text is under the trash name it was linked to, until some later change of that name. */
  ghost predicate Trashed(cfg: Config, t: State, c: nat, target: string, i: nat)
    requires c in t.calls
  {
    && TrashName(cfg, t.calls[c], target) && i < |t.history| && t.history[i] == TrashEntry(cfg, c, t.calls[c], target)
    && (|| ContentAt(t, cfg.identity(target)) == t.calls[c].seen
        || exists j :: i < j < |t.history| && t.history[j].name == cfg.identity(target))
  }

  lemma TrashedAt(cfg: Config, t: State, c: nat, target: string) returns (i: nat)
    requires Reachable(cfg, t) && c in t.calls && TrashName(cfg, t.calls[c], target)
    requires TrashEntry(cfg, c, t.calls[c], target) in t.calls[c].entries
    ensures Trashed(cfg, t, c, target, i)
  {
    hide Reachable, LockInv, DiskInv, TempInv, HoldInv, ShapeInv, AuditInv, EntriesOf, LastAfter, ContentAt;
    assert EntriesOf(t.history, c) == EntriesMade(t, c);
    i := OfLogged(t.history, c, TrashEntry(cfg, c, t.calls[c], target));
    TrashedFrom(cfg, t, c, target, i);
  }

  /** A linked text stays under its trash name as long as nothing else is logged under that name. */
  lemma TrashedFrom(cfg: Config, t: State, c: nat, target: string, i: nat)
    requires Reachable(cfg, t) && c in t.calls && TrashName(cfg, t.calls[c], target)
    requires i < |t.history| && t.history[i] == TrashEntry(cfg, c, t.calls[c], target)
    ensures Trashed(cfg, t, c, target, i)
  {
    hide Reachable, LockInv, DiskInv, TempInv, HoldInv, ShapeInv, AuditInv, EntriesOf, LastAfter, ContentAt;
    if forall j | i < j < |t.history| :: t.history[j].name != cfg.identity(target) {
      LastAfterAt(t.initial, t.history, i);
      assert ContentAt(t, cfg.identity(target)) == LastAfter(t.initial, t.history, cfg.identity(target));
    }
  }

  /** The entries of a soft delete that has read its note: nothing, the link, or the link and then the removal. */
  lemma DeleteEntries(cfg: Config, c: nat, k: Call) returns (target: string)
    requires Shape(cfg, c, k) && k.op.Delete?
    ensures k.entries != [] ==> k.seen.Some? && TrashName(cfg, k, target)
    ensures k.entries == [] || k.entries == [TrashEntry(cfg, c, k, target)]
         || k.entries == [TrashEntry(cfg, c, k, target), OwnEntry(cfg, c, k, None)]
  {
    target := "";
    match k.stage
    case Linked(linked) => target := linked;
    case Cleaning(_, outcome) => target := OutcomeTarget(cfg, c, k, outcome);
    case Finished(outcome) => target := OutcomeTarget(cfg, c, k, outcome);
    case Recorded(outcome) => target := OutcomeTarget(cfg, c, k, outcome);
    case Returned(outcome) => target := OutcomeTarget(cfg, c, k, outcome);
    case _ =>
  }

  lemma OutcomeTarget(cfg: Config, c: nat, k: Call, outcome: Outcome) returns (target: string)
    requires OutcomeShape(cfg, c, k, outcome) && k.op.Delete?
    ensures k.entries != [] ==> k.seen.Some? && TrashName(cfg, k, target)
    ensures k.entries == [] || k.entries == [TrashEntry(cfg, c, k, target)]
         || k.entries == [TrashEntry(cfg, c, k, target), OwnEntry(cfg, c, k, None)]
  {
    hide NextText;
    target := "";
    match outcome
    case Success(_, deleted) => target := deleted.value;
    case Failure(_) =>
      if k.entries != [] {
        target :| k.op.Delete? && k.seen.Some? && TrashName(cfg, k, target)
            && k.entries == [TrashEntry(cfg, c, k, target)];
      }
  }

  lemma EntriesStep(history: seq<Entry>, c: nat, j: nat)
    requires j < |history| && history[j].call == c
    ensures EntriesOf(history[..j + 1], c) == EntriesOf(history[..j], c) + [history[j]]
  {
    assert history[..j + 1][..j] == history[..j];
  }

  lemma LinkComesFirst(earlier: seq<Entry>, e: Entry, all: seq<Entry>, link: Entry, removal: Entry)
    requires earlier + [e] <= all && e.own && !link.own
    requires all == [] || all == [link] || all == [link, removal]
    ensures earlier == [link] && e == removal
  {
    assert (earlier + [e])[|earlier|] == e == all[|earlier|];
    assert earlier == all[..|earlier|];
  }

  /** The note goes only after the trash has its text. */
  lemma RemovalAfterLink(cfg: Config, t: State, j: nat) returns (i: nat, target: string)
    requires Reachable(cfg, t) && j < |t.history|
    requires var e := t.history[j]; e.own && e.call in t.calls && t.calls[e.call].op.Delete?
    ensures i < j && TrashName(cfg, t.calls[t.history[j].call], target)
    ensures t.history[i] == TrashEntry(cfg, t.history[j].call, t.calls[t.history[j].call], target)
    ensures t.history[i].after == t.history[j].before && t.history[j].after == None
  {
    hide Reachable, LockInv, DiskInv, TempInv, HoldInv, AuditInv, Shape, Sound, Chained, Current;
    var c := t.history[j].call;
    var k := t.calls[c];
    NoLostUpdate(cfg, t, j);
    LoggedOf(t.history, j);
    assert EntriesOf(t.history, c) == k.entries;
    target := DeleteEntries(cfg, c, k);
    EntriesUpTo(t.history, c, j + 1);
    EntriesStep(t.history, c, j);
    LinkComesFirst(EntriesOf(t.history[..j], c), t.history[j], k.entries, TrashEntry(cfg, c, k, target),
        OwnEntry(cfg, c, k, None));
    i := OfLogged(t.history[..j], c, TrashEntry(cfg, c, k, target));
  }

  /** A successful soft delete made exactly two changes: its text to the returned trash name, and its note gone. */
  lemma SoftDeleteSucceeds(cfg: Config, t: State, c: nat)
    requires Reachable(cfg, t) && c in t.calls && t.calls[c].op.Delete?
    requires match t.calls[c].stage
             case Returned(Success(_, _)) => true
             case Recorded(Success(_, _)) => true
             case _ => false
    ensures var k := t.calls[c]; var Success(hash, deleted) := k.stage.outcome;
      && k.seen.Some? && hash == Sha256(k.seen.value) && k.base == Some(hash) && deleted.Some?
      && TrashName(cfg, k, deleted.value)
      && EntriesOf(t.history, c) == [TrashEntry(cfg, c, k, deleted.value), OwnEntry(cfg, c, k, None)]
  {
    hide Reachable, LockInv, DiskInv, TempInv, HoldInv, AuditInv, Chained, Current, EntriesOf, NextText;
    assert Shape(cfg, c, t.calls[c]);
    assert EntriesOf(t.history, c) == EntriesMade(t, c);
  }

  // ---------------------------------------------------------------- the audit store

  lemma {:induction false} EventIn(events: seq<Event>, e: Event)
    ensures e in events <==> e in EventsOf(events, e.call)
  {
    if events == [] {
    } else {
      EventIn(events[..|events| - 1], e);
      assert events == events[..|events| - 1] + [events[|events| - 1]];
    }
  }

  lemma {:induction false} RowIn(rows: seq<Row>, r: Row)
    ensures r in rows <==> r in RowsOf(rows, r.call)
  {
    if rows == [] {
    } else {
      RowIn(rows[..|rows| - 1], r);
      assert rows == rows[..|rows| - 1] + [rows[|rows| - 1]];
    }
  }

  /** An attempt with a start event and no end event. */
  ghost predicate Pending(s: State, c: nat) {
    Started(c) in s.events && Failed(c) !in s.events && forall h :: Succeeded(c, h) !in s.events
  }

  lemma EventsOfCall(cfg: Config, t: State, c: nat)
    requires Inv(cfg, t) && c in t.calls
    ensures var k := t.calls[c]; Started(c) in t.events <==> k.attempt
    ensures var k := t.calls[c]; Failed(c) in t.events <==> k.closing == Rejected
    ensures var k := t.calls[c];
        forall h :: Succeeded(c, h) in t.events <==> k.attempt && k.closing == Completed && h == HashOf(k)
    ensures var k := t.calls[c];
        forall r: Row | r.call == c :: r in t.rows <==> k.closing == Completed && r == Row(c, k.path, k.base, HashOf(k))
  {
    hide LockInv, DiskInv, TempInv, HoldInv, ShapeInv, HistoryInv, EventsOf, RowsOf, HashOf;
    EventIn(t.events, Started(c));
    EventIn(t.events, Failed(c));
    forall h ensures Succeeded(c, h) in t.events
        <==> Succeeded(c, h) in EventsOf(t.events, c) { EventIn(t.events, Succeeded(c, h)); }
    forall r: Row | r.call == c ensures r in t.rows <==> r in RowsOf(t.rows, c) { RowIn(t.rows, r); }
    assert EventsOf(t.events, c) == EventsDue(t, c) && RowsOf(t.rows, c) == RowsDue(t, c);
  }

  /** The change a completed call made to its own path, and the hash its row carries. */
  ghost predicate DoneOnDisk(cfg: Config, t: State, c: nat, hash: Hash)
    requires c in t.calls
  {
    exists i | 0 <= i < |t.history| :: t.history[i].call == c && t.history[i].own
        && t.history[i].name == Identity(cfg, t.calls[c])
      && (if t.history[i].after.Some? then hash == Sha256(t.history[i].after.value)
          else t.history[i].before.Some? && hash == Sha256(t.history[i].before.value))
  }

  /** The call never changed what its own path shows. */
  ghost predicate OwnPathUntouched(cfg: Config, t: State, c: nat)
    requires c in t.calls
  {
    forall i | 0 <= i < |t.history| && t.history[i].call == c :: t.history[i].name != Identity(cfg, t.calls[c])
  }

  lemma ClosedMeans(cfg: Config, c: nat, k: Call)
    requires Shape(cfg, c, k)
    ensures k.closing == Completed ==> exists e ::
      && e in k.entries && e.call == c && e.own && e.name == Identity(cfg, k)
      && HashOf(k) == Sha256(if e.after.Some? then e.after.value else if e.before.Some? then e.before.value else "")
      && (e.after.Some? || e.before.Some?)
    ensures k.closing == Rejected ==> k.attempt && forall e | e in k.entries :: e.name != Identity(cfg, k)
  {
    hide NextText;
    match k.stage
    case Recorded(outcome) =>
      if outcome.Success? { assert k.entries[|k.entries| - 1] in k.entries; }
    case Returned(outcome) =>
      if outcome.Success? { assert k.entries[|k.entries| - 1] in k.entries; }
    case _ =>
  }

  lemma ClosedOnDisk(cfg: Config, t: State, c: nat)
    requires Inv(cfg, t) && c in t.calls
    ensures t.calls[c].closing == Completed ==> DoneOnDisk(cfg, t, c, HashOf(t.calls[c]))
    ensures t.calls[c].closing == Rejected ==> t.calls[c].attempt && OwnPathUntouched(cfg, t, c)
  {
    hide LockInv, DiskInv, TempInv, HoldInv, AuditInv, EntriesOf, Chained, Current, HashOf, Shape;
    var k := t.calls[c];
    ClosedMeans(cfg, c, k);
    assert EntriesOf(t.history, c) == EntriesMade(t, c);
    if k.closing == Completed {
      var e :| && e in k.entries && e.call == c && e.own && e.name == Identity(cfg, k)
        && HashOf(k) == Sha256(if e.after.Some? then e.after.value else if e.before.Some? then e.before.value else "")
        && (e.after.Some? || e.before.Some?);
      var i := OfLogged(t.history, c, e);
    }
    forall i | 0 <= i < |t.history| && t.history[i].call == c && t.history[i].name == Identity(cfg, k)
      ensures k.closing != Rejected
    {
      LoggedOf(t.history, i);
    }
  }

  /** A provenance row belongs to a change that reached the disk, and a call has at most one. */
  lemma RowsAreDone(cfg: Config, t: State, r: Row)
    requires Reachable(cfg, t) && r in t.rows
    ensures r.call in t.calls && r.path == t.calls[r.call].path && r.base == t.calls[r.call].base
    ensures DoneOnDisk(cfg, t, r.call, r.hash) && RowsOf(t.rows, r.call) == [r]
  {
    hide Reachable, LockInv, DiskInv, TempInv, HoldInv, ShapeInv, HistoryInv, RowsOf, HashOf, DoneOnDisk;
    RowIn(t.rows, r);
    assert RowsOf(t.rows, r.call) == RowsDue(t, r.call);
    ClosedOnDisk(cfg, t, r.call);
  }

  /** Success event and provenance row come together, for every attempt whose start was stored. */
  lemma SuccessIffRow(cfg: Config, t: State, c: nat, hash: Hash)
    requires Reachable(cfg, t) && c in t.calls
    ensures Succeeded(c, hash) in t.events <==>
      Started(c) in t.events && Row(c, t.calls[c].path, t.calls[c].base, hash) in t.rows
  {
    hide Reachable, Inv, HashOf;
    EventsOfCall(cfg, t, c);
  }

  /** An attempt marked failed left its own path alone, and has no row. */
  lemma FailedMeansUntouched(cfg: Config, t: State, c: nat)
    requires Reachable(cfg, t) && c in t.calls && Failed(c) in t.events
    ensures OwnPathUntouched(cfg, t, c) && Started(c) in t.events && forall r | r in t.rows :: r.call != c
  {
    hide Reachable, Inv, HashOf, OwnPathUntouched;
    EventsOfCall(cfg, t, c);
    ClosedOnDisk(cfg, t, c);
  }

  /** A change on disk without a provenance row is still reported as pending, unless its start could not be stored. */
  lemma UnrecordedIsPending(cfg: Config, t: State, c: nat)
    requires Reachable(cfg, t) && c in t.calls
    requires !OwnPathUntouched(cfg, t, c) && forall r | r in t.rows :: r.call != c
    ensures Pending(t, c) <==> t.calls[c].attempt
    ensures t.calls[c].attempt <==> Started(c) in t.events
  {
    hide Reachable, Inv, HashOf, OwnPathUntouched;
    EventsOfCall(cfg, t, c);
    ClosedOnDisk(cfg, t, c);
    assert t.calls[c].closing == Completed <==> Row(c, t.calls[c].path, t.calls[c].base, HashOf(t.calls[c])) in t.rows;
  }
}
