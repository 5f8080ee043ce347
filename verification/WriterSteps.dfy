/** Each step of a call keeps the writer's invariant. */
module WriterSteps {
  import opened Text
  import opened Frontmatter
  import opened Writer
  import opened WriterInvariant

  // ---------------------------------------------------------------- steps that leave the disk alone

  ghost predicate SameDisk(s: State, t: State) {
    && t.names == s.names && t.data == s.data && t.prepared == s.prepared
    && t.nextInode == s.nextInode && t.nextTemp == s.nextTemp
  }

  ghost predicate SameAudit(s: State, t: State, c: nat)
    requires c in s.calls && c in t.calls
  {
    && t.events == s.events && t.rows == s.rows
    && t.calls[c].attempt == s.calls[c].attempt && t.calls[c].closing == s.calls[c].closing == Open
  }

  /** The temporary file of the call stays what it was, or is given up. */
  ghost predicate KeepsTemp(k: Call, m: Call) {
    && (TempOf(m) == TempOf(k) || TempOf(m) == None)
    && (m.stage.Filling? ==> k.stage.Filling? && m.stage.inode == k.stage.inode)
  }

  lemma KeptTemps(s: State, t: State, c: nat)
    requires Known(s) && Known(t) && TempInv(s) && Advances(s, t, c) && SameDisk(s, t)
    requires KeepsTemp(s.calls[c], t.calls[c]) && TempOk(t, t.calls[c])
    ensures TempInv(t)
  {
    hide TempOk;
    forall d | d in t.live ensures TempOk(t, t.calls[d]) {
      if d != c {
        SameTempOk(s, t, s.calls[d]);
      }
    }
  }

  /** One call's temporary file changes hands; the others keep theirs. */
  lemma TempsMove(s: State, t: State, c: nat)
    requires Known(s) && TempInv(s) && c in s.live && c in t.calls && t.live == s.live
    requires t.calls == s.calls[c := t.calls[c]]
    requires Known(t) && TempOk(t, t.calls[c])
    requires forall d | d in s.live && d != c :: TempOk(t, s.calls[d])
    requires TempOf(t.calls[c]).Some? ==> forall d | d in s.live && d != c :: TempOf(s.calls[d]) != TempOf(t.calls[c])
    requires t.calls[c].stage.Filling? ==>
      forall d | d in s.live && d != c && s.calls[d].stage.Filling? :: s.calls[d].stage.inode != t.calls[c].stage.inode
    ensures TempInv(t)
  {
    hide TempOk, TempOf;
    forall d | d in t.live ensures TempOk(t, t.calls[d]) && (d != c ==> t.calls[d] == s.calls[d]) {}
  }

  lemma SameTempOk(s: State, t: State, k: Call)
    requires SameDisk(s, t)
    ensures TempOk(s, k) <==> TempOk(t, k)
  {}

  lemma QuietKeeps(cfg: Config, s: State, t: State, c: nat)
    requires Inv(cfg, s) && Advances(s, t, c) && SameDisk(s, t) && SameAudit(s, t, c)
    requires t.history == s.history && t.calls[c].entries == s.calls[c].entries
    requires Shape(cfg, c, t.calls[c]) && KeepsTemp(s.calls[c], t.calls[c]) && TempOk(t, t.calls[c])
    requires Holds(t.calls[c]) ==> ContentAt(s, Identity(cfg, s.calls[c])) == t.calls[c].seen
    ensures Inv(cfg, t)
  {
    hide LockInv, DiskInv, TempInv, HoldInv, ShapeInv, HistoryInv, AuditInv, Shape, TempOk;
    AdvanceAudit(s, t, c);
    BookedKeeps(cfg, s, t, c);
  }

  /** As above, for a step that also writes to the audit store. */
  lemma BookedKeeps(cfg: Config, s: State, t: State, c: nat)
    requires Inv(cfg, s) && Advances(s, t, c) && SameDisk(s, t) && AuditInv(t)
    requires t.history == s.history && t.calls[c].entries == s.calls[c].entries
    requires Shape(cfg, c, t.calls[c]) && KeepsTemp(s.calls[c], t.calls[c]) && TempOk(t, t.calls[c])
    requires Holds(t.calls[c]) ==> ContentAt(s, Identity(cfg, s.calls[c])) == t.calls[c].seen
    ensures Inv(cfg, t)
  {
    hide LockInv, DiskInv, TempInv, HoldInv, ShapeInv, HistoryInv, AuditInv, Shape, TempOk;
    SameContents(s, t);
    AdvanceLocks(cfg, s, t, c);
    SameDiskInv(s, t);
    KeptTemps(s, t, c);
    AdvanceHolds(cfg, s, t, c, Identity(cfg, s.calls[c]));
    AdvanceShape(cfg, s, t, c);
    AdvanceQuietHistory(s, t, c);
  }

  lemma SameContents(s: State, t: State)
    requires SameDisk(s, t)
    ensures forall n: string :: ContentAt(t, n) == ContentAt(s, n)
  {}

  lemma SameDiskInv(s: State, t: State)
    requires DiskInv(s) && SameDisk(s, t)
    ensures DiskInv(t)
  {}

  /** Only the stage and the text seen change. */
  predicate Progress(k: Call, m: Call) {
    && m.path == k.path && m.op == k.op && m.base == k.base && m.lock == k.lock
    && m.attempt == k.attempt && m.closing == k.closing && m.entries == k.entries
  }

  lemma ProgressAdvances(s: State, c: nat, m: Call)
    requires Known(s) && c in s.live && Owns(s.calls[c]) && Owns(m) && Progress(s.calls[c], m)
    ensures var t := At(s, c, m);
        Advances(s, t, c) && SameDisk(s, t) && t.history == s.history && t.events == s.events && t.rows == s.rows
  {}

  lemma ProgressKeeps(cfg: Config, s: State, c: nat, m: Call)
    requires Inv(cfg, s) && c in s.live && Owns(s.calls[c]) && Owns(m) && Progress(s.calls[c], m) && m.closing == Open
    requires Shape(cfg, c, m) && KeepsTemp(s.calls[c], m) && TempOk(s, m)
    requires Holds(m) ==> ContentAt(s, Identity(cfg, s.calls[c])) == m.seen
    ensures Inv(cfg, At(s, c, m))
  {
    hide LockInv, DiskInv, TempInv, HoldInv, ShapeInv, HistoryInv, AuditInv, Shape, TempOk, KeepsTemp, Advances,
        SameDisk, Holds, ContentAt, Owns;
    ProgressAdvances(s, c, m);
    SameTempOk(s, At(s, c, m), m);
    QuietKeeps(cfg, s, At(s, c, m), c);
  }

  // ---------------------------------------------------------------- checks and failing awaits

  predicate Checking(g: Stage) { g.Entered? || g.Vacant? || g.Examined? || g.Matched? }

  lemma CheckKeeps(cfg: Config, s: State, c: nat)
    requires Inv(cfg, s) && c in s.live && Checking(s.calls[c].stage)
    ensures Inv(cfg, Check(cfg, s, c))
  {
    hide LockInv, DiskInv, TempInv, HistoryInv, AuditInv, Shape, TempOk, ContentAt, Checked, KeepsTemp;
    var k := s.calls[c];
    var found := ContentAt(s, Identity(cfg, k));
    assert Shape(cfg, c, k);
    CheckedShape(cfg, c, k, found);
    CheckedProgress(cfg, s, k, found);
    CheckedHolds(cfg, c, k, found);
    ProgressKeeps(cfg, s, c, Checked(cfg, k, found));
    StampedKeeps(cfg, At(s, c, Checked(cfg, k, found)), Check(cfg, s, c));
  }

  /** What is only recorded plays no part in the invariant. */
  lemma StampedKeeps(cfg: Config, s: State, t: State)
    requires Inv(cfg, s) && t == s.(stamps := t.stamps)
    ensures Inv(cfg, t)
  {
    hide DiskInv, TempInv, ShapeInv, Shape, ContentAt;
    SameContents(s, t);
    SameBooks(s, t);
    StampedDisk(cfg, s, t);
  }

  lemma StampedDisk(cfg: Config, s: State, t: State)
    requires Known(s) && Known(t) && t.calls == s.calls && t.live == s.live && SameDisk(s, t)
    requires DiskInv(s) && TempInv(s) && ShapeInv(cfg, s)
    ensures DiskInv(t) && TempInv(t) && ShapeInv(cfg, t)
  {
    hide Shape, TempOk;
    forall c | c in t.live ensures TempOk(t, t.calls[c]) {
      SameTempOk(s, t, s.calls[c]);
    }
  }

  lemma CheckedProgress(cfg: Config, s: State, k: Call, found: Option<string>)
    requires Checking(k.stage)
    ensures var m := Checked(cfg, k, found); Progress(k, m) && Owns(k) && Owns(m) && KeepsTemp(k, m) && TempOk(s, m)
  {
    hide NextText, TrashTarget;
  }

  lemma CheckedShape(cfg: Config, c: nat, k: Call, found: Option<string>)
    requires Shape(cfg, c, k) && Checking(k.stage)
    ensures k.closing == Open && Shape(cfg, c, Checked(cfg, k, found))
  {
    hide NextText;
  }

  lemma CheckedHolds(cfg: Config, c: nat, k: Call, found: Option<string>)
    requires Shape(cfg, c, k) && Checking(k.stage)
    requires Holds(k) ==> found == k.seen
    ensures var m := Checked(cfg, k, found); Holds(m) ==> found == m.seen
  {
    hide NextText, TrashTarget;
  }

  predicate Failing(g: Stage) {
    !g.Arrived? && !g.Waiting? && !g.Owning? && !g.Cleaning? && !g.Finished? && !g.Recorded? && !g.Returned?
  }

  /** A failing await after the audit bracket was opened. */
  lemma FailKeeps(cfg: Config, s: State, c: nat, code: Code)
    requires Inv(cfg, s) && c in s.live && Failing(s.calls[c].stage)
    ensures Inv(cfg, FailCall(s, c, code))
  {
    hide LockInv, DiskInv, HoldInv, HistoryInv, AuditInv, Shape, TempOk, ContentAt, Broken, KeepsTemp, Holds;
    var k := s.calls[c];
    assert Shape(cfg, c, k) && TempOk(s, k);
    BrokenShape(cfg, s, c, k, code);
    ProgressKeeps(cfg, s, c, Broken(k, code));
  }

  lemma BrokenShape(cfg: Config, s: State, c: nat, k: Call, code: Code)
    requires Shape(cfg, c, k) && TempOk(s, k) && Failing(k.stage)
    ensures k.closing == Open && Shape(cfg, c, Broken(k, code))
    ensures var m := Broken(k, code);
        Progress(k, m) && Owns(k) && Owns(m) && KeepsTemp(k, m) && TempOk(s, m) && !Holds(m)
  {
    BrokenTemp(s, k, code);
    hide NextText, TempOk, KeepsTemp, Holds, Progress;
    if k.stage.Linked? {
      var m := Broken(k, code);
      assert TrashName(cfg, m, k.stage.target) && m.entries == [TrashEntry(cfg, c, m, k.stage.target)];
    }
  }

  lemma BrokenTemp(s: State, k: Call, code: Code)
    requires TempOk(s, k) && Failing(k.stage) && k.closing == Open
    ensures var m := Broken(k, code);
        Progress(k, m) && Owns(k) && Owns(m) && KeepsTemp(k, m) && TempOk(s, m) && !Holds(m)
  {}

  // ---------------------------------------------------------------- the temporary file

  lemma OpenTempKeeps(cfg: Config, s: State, c: nat)
    requires Inv(cfg, s) && c in s.live && s.calls[c].stage.Decided?
    ensures Inv(cfg, OpenTemp(s, c))
  {
    hide LockInv, DiskInv, TempInv, HoldInv, ShapeInv, HistoryInv, AuditInv, Shape;
    var t := OpenTemp(s, c);
    OpenTempDisk(s, c);
    OpenTempShape(cfg, s, c);
    AdvanceLocks(cfg, s, t, c);
    OpenTempTemps(s, c);
    OpenTempHolds(cfg, s, c);
    AdvanceHolds(cfg, s, t, c, Identity(cfg, s.calls[c]));
    AdvanceShape(cfg, s, t, c);
    AdvanceQuietHistory(s, t, c);
    AdvanceAudit(s, t, c);
  }

  lemma OpenTempShape(cfg: Config, s: State, c: nat)
    requires ShapeInv(cfg, s) && c in s.calls && s.calls[c].stage.Decided?
    ensures Shape(cfg, c, OpenTemp(s, c).calls[c]) && s.calls[c].closing == Open
  {
    assert Shape(cfg, c, s.calls[c]);
  }

  lemma OpenTempHolds(cfg: Config, s: State, c: nat)
    requires Known(s) && HoldInv(cfg, s) && c in s.live && s.calls[c].stage.Decided?
    ensures Holds(s.calls[c]) ==> ContentAt(s, Identity(cfg, s.calls[c])) == s.calls[c].seen
  {}

  lemma OpenTempDisk(s: State, c: nat)
    requires DiskInv(s) && c in s.calls && s.calls[c].stage.Decided?
    ensures DiskInv(OpenTemp(s, c))
    ensures forall n: string :: ContentAt(OpenTemp(s, c), n) == ContentAt(s, n)
  {}

  lemma OpenTempTemps(s: State, c: nat)
    requires Known(s) && DiskInv(s) && TempInv(s) && c in s.live && s.calls[c].stage.Decided?
    ensures Known(OpenTemp(s, c)) && TempInv(OpenTemp(s, c))
  {
    hide DiskInv, TempInv;
    var t := OpenTemp(s, c);
    OpenTempOwn(s, c);
    forall d | d in s.live && d != c
      ensures TempOk(t, s.calls[d]) && TempOf(s.calls[d]) != TempOf(t.calls[c])
      ensures s.calls[d].stage.Filling? ==> s.calls[d].stage.inode != s.nextInode
    {
      OtherTemp(s, d);
      OpenTempOther(s, c, s.calls[d]);
    }
    TempsMove(s, t, c);
  }

  lemma OtherTemp(s: State, d: nat)
    requires Known(s) && TempInv(s) && d in s.live
    ensures TempOk(s, s.calls[d])
  {}

  lemma OpenTempOwn(s: State, c: nat)
    requires DiskInv(s) && c in s.calls && s.calls[c].stage.Decided?
    ensures var t := OpenTemp(s, c); TempOk(t, t.calls[c]) && TempOf(t.calls[c]) == Some(s.nextTemp)
  {}

  lemma OpenTempOther(s: State, c: nat, k: Call)
    requires DiskInv(s) && TempOk(s, k) && c in s.calls && s.calls[c].stage.Decided?
    ensures TempOk(OpenTemp(s, c), k) && TempOf(k) != Some(s.nextTemp)
    ensures k.stage.Filling? ==> k.stage.inode != s.nextInode
  {}

  /** Filling writes to this call's inode only, which no note name shows. */
  lemma FillDisk(s: State, c: nat, count: nat)
    requires Known(s) && DiskInv(s) && TempInv(s) && c in s.live && s.calls[c].stage.Filling?
    ensures var t := Fill(s, c, count); Known(t) && DiskInv(t) && TempInv(t)
    ensures forall n: string :: ContentAt(Fill(s, c, count), n) == ContentAt(s, n)
  {
    hide TempOf;
    var t := Fill(s, c, count);
    OtherTemp(s, c);
    forall d | d in s.live ensures TempOk(t, t.calls[d]) {
      OtherTemp(s, d);
      FillOther(s, c, d, count);
    }
  }

  lemma FillOther(s: State, c: nat, d: nat, count: nat)
    requires Known(s) && TempInv(s) && c in s.live && d in s.live && s.calls[c].stage.Filling?
    requires TempOk(s, s.calls[c]) && TempOk(s, s.calls[d])
    ensures TempOk(Fill(s, c, count), s.calls[d])
  {}

  lemma FillKeeps(cfg: Config, s: State, c: nat, count: nat)
    requires Inv(cfg, s) && c in s.live && s.calls[c].stage.Filling?
    ensures Inv(cfg, Fill(s, c, count))
  {
    hide DiskInv, TempInv, ContentAt, Shape, Owns, Refers, Holds;
    FillDisk(s, c, count);
    FillOnlyData(s, c, count);
    SameBooks(s, Fill(s, c, count));
  }

  lemma FillOnlyData(s: State, c: nat, count: nat)
    requires c in s.calls && s.calls[c].stage.Filling?
    ensures var t := Fill(s, c, count); t == s.(data := t.data)
  {}

  /** Log and audit store do not depend on the disk. */
  lemma SameBooks(s: State, t: State)
    requires t.calls == s.calls && t.history == s.history && t.events == s.events && t.rows == s.rows
    requires t.initial == s.initial
    requires HistoryInv(s) && AuditInv(s) && forall n: string :: ContentAt(t, n) == ContentAt(s, n)
    ensures HistoryInv(t) && AuditInv(t)
  {}

  lemma SealDisk(s: State, c: nat)
    requires Known(s) && DiskInv(s) && TempInv(s) && c in s.live && s.calls[c].stage.Filling?
    ensures DiskInv(Seal(s, c)) && Known(Seal(s, c)) && TempInv(Seal(s, c))
    ensures forall n: string :: ContentAt(Seal(s, c), n) == ContentAt(s, n)
  {
    hide TempInv;
    var t := Seal(s, c);
    OtherTemp(s, c);
    forall d | d in s.live && d != c ensures TempOk(t, s.calls[d]) && TempOf(s.calls[d]) != TempOf(s.calls[c]) {
      OtherTemp(s, d);
      DistinctTemps(s, c, d);
      SealOther(s, c, s.calls[d]);
    }
    if t != s {
      TempsMove(s, t, c);
    }
  }

  lemma DistinctTemps(s: State, c: nat, d: nat)
    requires Known(s) && TempInv(s) && c in s.live && d in s.live && c != d && TempOf(s.calls[c]).Some?
    ensures TempOf(s.calls[d]) != TempOf(s.calls[c])
    ensures s.calls[c].stage.Filling? && s.calls[d].stage.Filling? ==> s.calls[d].stage.inode != s.calls[c].stage.inode
  {}

  lemma SealOther(s: State, c: nat, k: Call)
    requires c in s.calls && s.calls[c].stage.Filling? && TempOk(s, s.calls[c]) && TempOk(s, k)
    requires k.stage.Filling? ==> k.stage.inode != s.calls[c].stage.inode
    ensures TempOk(Seal(s, c), k)
  {}

  lemma SealKeeps(cfg: Config, s: State, c: nat)
    requires Inv(cfg, s) && c in s.live && s.calls[c].stage.Filling?
    ensures Inv(cfg, Seal(s, c))
  {
    hide LockInv, DiskInv, TempInv, ShapeInv, HistoryInv, AuditInv, Shape, ContentAt;
    var t := Seal(s, c);
    if t != s {
      SealDisk(s, c);
      SealShape(cfg, s, c);
      AdvanceLocks(cfg, s, t, c);
      AdvanceHolds(cfg, s, t, c, Identity(cfg, s.calls[c]));
      AdvanceShape(cfg, s, t, c);
      AdvanceQuietHistory(s, t, c);
      AdvanceAudit(s, t, c);
    }
  }

  lemma SealShape(cfg: Config, s: State, c: nat)
    requires ShapeInv(cfg, s) && c in s.calls && s.calls[c].stage.Filling?
    ensures Shape(cfg, c, Seal(s, c).calls[c]) && s.calls[c].closing == Open
  {
    assert Shape(cfg, c, s.calls[c]);
  }

  /** Removing the temporary name touches no note and no other call's file. */
  lemma CleanDisk(s: State, c: nat, removed: bool)
    requires Known(s) && DiskInv(s) && TempInv(s) && c in s.live && s.calls[c].stage.Cleaning?
    ensures var t := Clean(s, c, removed); DiskInv(t) && Known(t) && TempInv(t)
    ensures forall n: string :: ContentAt(Clean(s, c, removed), n) == ContentAt(s, n)
  {
    hide TempInv;
    var t := Clean(s, c, removed);
    forall d | d in s.live && d != c ensures TempOk(t, s.calls[d]) {
      OtherTemp(s, d);
      DistinctTemps(s, c, d);
      CleanOther(s, c, s.calls[d], removed);
    }
    TempsMove(s, t, c);
  }

  lemma CleanOther(s: State, c: nat, k: Call, removed: bool)
    requires c in s.calls && s.calls[c].stage.Cleaning? && TempOk(s, k) && TempOf(k) != TempOf(s.calls[c])
    ensures TempOk(Clean(s, c, removed), k)
  {}

  lemma CleanKeeps(cfg: Config, s: State, c: nat, removed: bool)
    requires Inv(cfg, s) && c in s.live && s.calls[c].stage.Cleaning?
    ensures Inv(cfg, Clean(s, c, removed))
  {
    hide LockInv, DiskInv, TempInv, HistoryInv, AuditInv, ContentAt, HoldInv, OutcomeShape;
    var t := Clean(s, c, removed);
    CleanDisk(s, c, removed);
    assert Shape(cfg, c, s.calls[c]) && Shape(cfg, c, t.calls[c]) by {
      assert s.calls[c].entries == t.calls[c].entries;
      CleanShape(cfg, s, c, removed);
    }
    AdvanceLocks(cfg, s, t, c);
    AdvanceHolds(cfg, s, t, c, Identity(cfg, s.calls[c]));
    AdvanceShape(cfg, s, t, c);
    AdvanceQuietHistory(s, t, c);
    AdvanceAudit(s, t, c);
  }

  lemma CleanShape(cfg: Config, s: State, c: nat, removed: bool)
    requires ShapeInv(cfg, s) && c in s.calls && s.calls[c].stage.Cleaning?
    ensures Shape(cfg, c, Clean(s, c, removed).calls[c])
  {
    hide OutcomeShape;
    assert Shape(cfg, c, s.calls[c]);
    SameOutcome(cfg, c, s.calls[c], Clean(s, c, removed).calls[c], s.calls[c].stage.outcome);
  }

  // ---------------------------------------------------------------- the audit bracket

  lemma AppendedEvents(events: seq<Event>, e: Event, c: nat)
    ensures EventsOf(events + [e], c) == EventsOf(events, c) + if e.call == c then [e] else []
  {
    assert (events + [e])[..|events|] == events;
  }

  lemma AppendedRows(rows: seq<Row>, r: Row, c: nat)
    ensures RowsOf(rows + [r], c) == RowsOf(rows, c) + if r.call == c then [r] else []
  {
    assert (rows + [r])[..|rows|] == rows;
  }

  lemma StartKeeps(cfg: Config, s: State, c: nat, stored: bool)
    requires Inv(cfg, s) && c in s.live && s.calls[c].stage.Owning?
    ensures Inv(cfg, Start(s, c, stored))
  {
    hide LockInv, DiskInv, TempInv, HoldInv, HistoryInv, AuditInv, ContentAt;
    var t := Start(s, c, stored);
    assert Shape(cfg, c, s.calls[c]);
    StartAudit(cfg, s, c, stored);
    BookedKeeps(cfg, s, t, c);
  }

  lemma StartAudit(cfg: Config, s: State, c: nat, stored: bool)
    requires AuditInv(s) && c in s.calls && s.calls[c].stage.Owning? && Shape(cfg, c, s.calls[c])
    ensures AuditInv(Start(s, c, stored))
  {
    hide EventsOf, RowsOf;
    var t := Start(s, c, stored);
    forall d: nat ensures EventsOf(t.events, d) == EventsDue(t, d) && RowsOf(t.rows, d) == RowsDue(t, d) {
      AppendedEvents(s.events, Started(c), d);
      assert EventsOf(s.events, d) == EventsDue(s, d);
      assert RowsDue(t, d) == RowsDue(s, d);
    }
  }

  lemma CompleteKeeps(cfg: Config, s: State, c: nat, stored: bool)
    requires Inv(cfg, s) && c in s.live && s.calls[c].stage.Finished?
    ensures Inv(cfg, Complete(s, c, stored))
  {
    hide LockInv, DiskInv, TempInv, HoldInv, HistoryInv, AuditInv, ContentAt, OutcomeShape, Shape, Closed,
        ClosingEvents, ClosingRows;
    assert Shape(cfg, c, s.calls[c]);
    ClosedShape(cfg, c, s.calls[c], stored);
    CompleteAudit(cfg, s, c, stored);
    CompleteAdvances(s, c, stored);
    BookedKeeps(cfg, s, Complete(s, c, stored), c);
  }

  lemma CompleteAdvances(s: State, c: nat, stored: bool)
    requires Known(s) && c in s.live && s.calls[c].stage.Finished?
    ensures var t := Complete(s, c, stored); Advances(s, t, c) && SameDisk(s, t) && t.history == s.history
    ensures var t := Complete(s, c, stored); t.calls[c].entries == s.calls[c].entries && t.calls[c].stage.Recorded?
  {
    hide ClosingEvents, ClosingRows;
  }

  lemma SameOutcome(cfg: Config, c: nat, k: Call, m: Call, outcome: Outcome)
    requires m.path == k.path && m.op == k.op && m.base == k.base && m.seen == k.seen && m.entries == k.entries
    requires OutcomeShape(cfg, c, k, outcome)
    ensures OutcomeShape(cfg, c, m, outcome)
  {
    hide NextText;
    if outcome.Failure? && k.entries != [] {
      var target :| k.op.Delete? && k.seen.Some? && TrashName(cfg, k, target)
          && k.entries == [TrashEntry(cfg, c, k, target)];
      assert m.entries == [TrashEntry(cfg, c, m, target)];
    }
  }

  lemma ClosedShape(cfg: Config, c: nat, k: Call, stored: bool)
    requires Shape(cfg, c, k) && k.stage.Finished?
    ensures Shape(cfg, c, Closed(k, stored))
  {
    hide OutcomeShape;
    SameOutcome(cfg, c, k, Closed(k, stored), k.stage.outcome);
  }

  lemma EventsJoin(events: seq<Event>, more: seq<Event>, c: nat, d: nat)
    requires |more| <= 1 && forall e | e in more :: e.call == c
    ensures EventsOf(events + more, d) == EventsOf(events, d) + if c == d then more else []
  {
    if more == [] {
      assert events + more == events;
    } else {
      assert more == [more[0]];
      AppendedEvents(events, more[0], d);
    }
  }

  lemma RowsJoin(rows: seq<Row>, more: seq<Row>, c: nat, d: nat)
    requires |more| <= 1 && forall r | r in more :: r.call == c
    ensures RowsOf(rows + more, d) == RowsOf(rows, d) + if c == d then more else []
  {
    if more == [] {
      assert rows + more == rows;
    } else {
      assert more == [more[0]];
      AppendedRows(rows, more[0], d);
    }
  }

  lemma CompleteAudit(cfg: Config, s: State, c: nat, stored: bool)
    requires AuditInv(s) && c in s.calls && s.calls[c].stage.Finished? && Shape(cfg, c, s.calls[c])
    ensures AuditInv(Complete(s, c, stored))
  {
    hide EventsOf, RowsOf, OutcomeShape;
    var t := Complete(s, c, stored);
    forall d: nat ensures EventsOf(t.events, d) == EventsDue(t, d) && RowsOf(t.rows, d) == RowsDue(t, d) {
      assert EventsOf(s.events, d) == EventsDue(s, d) && RowsOf(s.rows, d) == RowsDue(s, d);
      EventsJoin(s.events, ClosingEvents(c, s.calls[c], stored), c, d);
      RowsJoin(s.rows, ClosingRows(c, s.calls[c], stored), c, d);
    }
  }
}
