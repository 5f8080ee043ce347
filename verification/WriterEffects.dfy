/** The steps that change what a note name shows. */
module WriterEffects {
  import opened Text
  import opened Frontmatter
  import opened Writer
  import opened WriterInvariant
  import opened WriterSteps

  lemma EffectKeeps(cfg: Config, s: State, t: State, c: nat, e: Entry)
    requires Inv(cfg, s) && Advances(s, t, c) && SameAudit(s, t, c) && DiskInv(t) && TempInv(t)
    requires t.history == s.history + [e] && t.calls[c].entries == s.calls[c].entries + [e] && e.call == c
    requires e.before == ContentAt(s, e.name) && e.after == ContentAt(t, e.name)
    requires forall n: string | n != e.name :: ContentAt(t, n) == ContentAt(s, n)
    requires e.name == Identity(cfg, s.calls[c]) || ContentAt(s, e.name) == None
    requires Shape(cfg, c, t.calls[c])
    requires Holds(t.calls[c]) ==> ContentAt(t, Identity(cfg, t.calls[c])) == t.calls[c].seen
    ensures Inv(cfg, t)
  {
    hide LockInv, DiskInv, TempInv, HoldInv, ShapeInv, HistoryInv, AuditInv, Shape, ContentAt, Holds;
    AdvanceLocks(cfg, s, t, c);
    AdvanceHolds(cfg, s, t, c, e.name);
    AdvanceShape(cfg, s, t, c);
    AdvanceEffect(s, t, c, e);
    AdvanceAudit(s, t, c);
  }

  lemma ChangedAdvances(s: State, c: nat, names: map<Name, nat>, e: Entry, stage: Stage)
    requires Known(s) && c in s.live && Owns(s.calls[c]) && s.calls[c].closing == Open
    requires !stage.Arrived? && !stage.Waiting? && !stage.Returned?
    ensures var t := Changed(s, c, names, e, stage); Advances(s, t, c) && SameAudit(s, t, c)
    ensures var t := Changed(s, c, names, e, stage);
      t == s.(names := names, history := t.history, calls := t.calls) && t.history == s.history + [e]
    ensures Changed(s, c, names, e, stage).calls[c] == s.calls[c].(stage := stage, entries := s.calls[c].entries + [e])
  {}

  /** Other calls' temporary files stay while their names do. */
  lemma ChangedTemps(s: State, c: nat, names: map<Name, nat>, e: Entry, stage: Stage)
    requires Known(s) && TempInv(s) && c in s.live && Owns(s.calls[c])
    requires !stage.Filling? && !stage.Ready?
    requires stage.Cleaning? ==> TempOf(s.calls[c]) == Some(stage.temp) && stage.temp < s.nextTemp
    requires forall i: nat | TempName(i) in s.names && TempOf(s.calls[c]) != Some(i) ::
      TempName(i) in names && names[TempName(i)] == s.names[TempName(i)]
    ensures var t := Changed(s, c, names, e, stage); Known(t) && TempInv(t)
  {
    hide TempInv;
    var t := Changed(s, c, names, e, stage);
    forall d | d in s.live && d != c
      ensures TempOk(t, s.calls[d])
      ensures TempOf(t.calls[c]).Some? ==> TempOf(s.calls[d]) != TempOf(t.calls[c])
    {
      OtherTemp(s, d);
      if TempOf(s.calls[c]).Some? {
        DistinctTemps(s, c, d);
      }
      ChangedOther(s, t, s.calls[d], TempOf(s.calls[c]));
    }
    TempsMove(s, t, c);
  }

  lemma ChangedOther(s: State, t: State, k: Call, own: Option<nat>)
    requires TempOk(s, k) && t.data == s.data && t.prepared == s.prepared && t.nextTemp == s.nextTemp
    requires own.Some? ==> TempOf(k) != own
    requires forall i: nat | TempName(i) in s.names && own != Some(i) ::
      TempName(i) in t.names && t.names[TempName(i)] == s.names[TempName(i)]
    ensures TempOk(t, k)
  {}

  // ---------------------------------------------------------------- publishing

  /** The names after a create's link or another edit's rename. */
  function Published(s: State, id: string, temp: nat, inode: nat, create: bool): map<Name, nat> {
    if create then s.names[NoteName(id) := inode] else s.names[NoteName(id) := inode] - {TempName(temp)}
  }

  lemma PublishedDisk(s: State, t: State, id: string, temp: nat, inode: nat, create: bool)
    requires DiskInv(s) && inode in s.prepared
    requires t.names == Published(s, id, temp, inode, create) && t.data == s.data && t.prepared == s.prepared
    requires t.nextInode == s.nextInode && t.nextTemp == s.nextTemp
    ensures DiskInv(t) && ContentAt(t, id) == Some(s.prepared[inode])
    ensures forall n: string | n != id :: ContentAt(t, n) == ContentAt(s, n)
  {}

  lemma PublishKeeps(cfg: Config, s: State, c: nat)
    requires Inv(cfg, s) && c in s.live && s.calls[c].stage.Ready?
    ensures Inv(cfg, Publish(cfg, s, c))
  {
    hide LockInv, DiskInv, TempInv, HoldInv, HistoryInv, AuditInv, Shape, ContentAt, TempOk, KeepsTemp, Changed,
        Advances, SameAudit;
    var k := s.calls[c];
    var Ready(next, temp, inode) := k.stage;
    var id := Identity(cfg, k);
    assert Shape(cfg, c, k);
    ReadyFacts(cfg, s, c);
    if k.op.Create? && NoteName(id) in s.names {
      var m := k.(stage := Cleaning(temp, Failure(PathExists)));
      RefusedShape(cfg, s, c, k, m);
      ProgressKeeps(cfg, s, c, m);
    } else {
      var e := Entry(c, id, k.base, true, ContentAt(s, id), Some(next));
      var names := Published(s, id, temp, inode, k.op.Create?);
      var stage := Cleaning(temp, Success(Sha256(next), None));
      var t := Changed(s, c, names, e, stage);
      assert t == Publish(cfg, s, c);
      ChangedAdvances(s, c, names, e, stage);
      ChangedTemps(s, c, names, e, stage);
      PublishedDisk(s, t, id, temp, inode, k.op.Create?);
      SeenAtPublish(cfg, s, c);
      PublishedShape(cfg, c, k, t.calls[c]);
      EffectKeeps(cfg, s, t, c, e);
    }
  }

  lemma ReadyFacts(cfg: Config, s: State, c: nat)
    requires Known(s) && TempInv(s) && ShapeInv(cfg, s) && c in s.live && s.calls[c].stage.Ready?
    ensures var Ready(next, temp, inode) := s.calls[c].stage;
      inode in s.prepared && s.prepared[inode] == next && temp < s.nextTemp && s.calls[c].closing == Open
  {
    assert TempOk(s, s.calls[c]) && Shape(cfg, c, s.calls[c]);
  }

  lemma RefusedShape(cfg: Config, s: State, c: nat, k: Call, m: Call)
    requires Shape(cfg, c, k) && k.stage.Ready? && k.stage.temp < s.nextTemp
    requires m == k.(stage := Cleaning(k.stage.temp, Failure(PathExists)))
    ensures Shape(cfg, c, m) && KeepsTemp(k, m) && TempOk(s, m)
  {
    hide NextText;
  }

  lemma SeenAtPublish(cfg: Config, s: State, c: nat)
    requires Known(s) && HoldInv(cfg, s) && c in s.live && s.calls[c].stage.Ready? && Shape(cfg, c, s.calls[c])
    requires s.calls[c].op.Create? ==> NoteName(Identity(cfg, s.calls[c])) !in s.names
    ensures ContentAt(s, Identity(cfg, s.calls[c])) == s.calls[c].seen
  {
    hide NextText;
  }

  lemma PublishedShape(cfg: Config, c: nat, k: Call, m: Call)
    requires Shape(cfg, c, k) && k.stage.Ready?
    requires m == k.(stage := Cleaning(k.stage.temp, Success(Sha256(k.stage.next), None)),
                     entries := k.entries + [OwnEntry(cfg, c, k, Some(k.stage.next))])
    ensures Shape(cfg, c, m)
  {
    hide NextText;
  }

  // ---------------------------------------------------------------- soft delete

  lemma LinkedDisk(s: State, t: State, from: string, to: string)
    requires DiskInv(s) && NoteName(from) in s.names && NoteName(to) !in s.names
    requires t.names == s.names[NoteName(to) := s.names[NoteName(from)]] && t.data == s.data && t.prepared == s.prepared
    requires t.nextInode == s.nextInode && t.nextTemp == s.nextTemp
    ensures DiskInv(t) && ContentAt(t, to) == ContentAt(s, from) && ContentAt(s, to) == None
    ensures forall n: string | n != to :: ContentAt(t, n) == ContentAt(s, n)
  {}

  lemma LinkKeeps(cfg: Config, s: State, c: nat, suffix: string)
    requires Inv(cfg, s) && c in s.live && s.calls[c].stage.Trashing?
    ensures Inv(cfg, Link(cfg, s, c, suffix))
  {
    hide LockInv, DiskInv, TempInv, HoldInv, HistoryInv, AuditInv, Shape, ContentAt, TempOk, KeepsTemp, Changed,
        Advances, SameAudit, Holds;
    var k := s.calls[c];
    var target := k.stage.target;
    var id, to := Identity(cfg, k), cfg.identity(target);
    assert Shape(cfg, c, k);
    TrashingShape(cfg, s, c, k, suffix);
    HeldText(cfg, s, c);
    if NoteName(id) !in s.names {
      ProgressKeeps(cfg, s, c, k.(stage := Finished(Failure(WriteFailed))));
    } else if NoteName(to) in s.names {
      ProgressKeeps(cfg, s, c, k.(stage := Trashing(TrashTarget(cfg, suffix))));
    } else {
      var e := Entry(c, to, None, false, ContentAt(s, to), ContentAt(s, id));
      var names := s.names[NoteName(to) := s.names[NoteName(id)]];
      var t := Changed(s, c, names, e, Linked(target));
      assert t == Link(cfg, s, c, suffix);
      ChangedAdvances(s, c, names, e, Linked(target));
      ChangedTemps(s, c, names, e, Linked(target));
      LinkedDisk(s, t, id, to);
      LinkedShape(cfg, c, k, t.calls[c]);
      EffectKeeps(cfg, s, t, c, e);
    }
  }

  lemma HeldText(cfg: Config, s: State, c: nat)
    requires Known(s) && HoldInv(cfg, s) && c in s.live && Shape(cfg, c, s.calls[c])
    requires var g := s.calls[c].stage; g.Trashing? || g.Linked? || g.Removing?
    ensures Holds(s.calls[c]) && ContentAt(s, Identity(cfg, s.calls[c])) == s.calls[c].seen
  {}

  lemma TrashingShape(cfg: Config, s: State, c: nat, k: Call, suffix: string)
    requires Shape(cfg, c, k) && k.stage.Trashing?
    ensures k.closing == Open && Owns(k)
    ensures var m := k.(stage := Finished(Failure(WriteFailed)));
        Shape(cfg, c, m) && KeepsTemp(k, m) && TempOk(s, m) && !Holds(m)
    ensures var m := k.(stage := Trashing(TrashTarget(cfg, suffix)));
        Shape(cfg, c, m) && KeepsTemp(k, m) && TempOk(s, m)
  {}

  lemma LinkedShape(cfg: Config, c: nat, k: Call, m: Call)
    requires Shape(cfg, c, k) && k.stage.Trashing? && cfg.identity(k.stage.target) != Identity(cfg, k)
    requires m == k.(stage := Linked(k.stage.target), entries := k.entries + [TrashEntry(cfg, c, k, k.stage.target)])
    ensures Shape(cfg, c, m)
  {}

  // ---------------------------------------------------------------- removal

  lemma UnlinkedDisk(s: State, t: State, id: string)
    requires DiskInv(s) && t.names == s.names - {NoteName(id)} && t.data == s.data && t.prepared == s.prepared
    requires t.nextInode == s.nextInode && t.nextTemp == s.nextTemp
    ensures DiskInv(t) && ContentAt(t, id) == None
    ensures forall n: string | n != id :: ContentAt(t, n) == ContentAt(s, n)
  {}

  lemma UnlinkKeeps(cfg: Config, s: State, c: nat)
    requires Inv(cfg, s) && c in s.live && (s.calls[c].stage.Linked? || s.calls[c].stage.Removing?)
    ensures Inv(cfg, Unlink(cfg, s, c))
  {
    hide LockInv, DiskInv, TempInv, HoldInv, HistoryInv, AuditInv, Shape, ContentAt, TempOk, KeepsTemp, Changed,
        Advances, SameAudit, Holds;
    var k := s.calls[c];
    var id := Identity(cfg, k);
    assert Shape(cfg, c, k);
    UnlinkingShape(cfg, s, c, k);
    HeldText(cfg, s, c);
    if NoteName(id) !in s.names {
      ProgressKeeps(cfg, s, c, k.(stage := Finished(Failure(WriteFailed))));
    } else {
      var deleted := if k.stage.Linked? then Some(k.stage.target) else None;
      var e := Entry(c, id, k.base, true, ContentAt(s, id), None);
      var names := s.names - {NoteName(id)};
      var stage := Finished(Success(Sha256(SeenText(k)), deleted));
      var t := Changed(s, c, names, e, stage);
      assert t == Unlink(cfg, s, c);
      ChangedAdvances(s, c, names, e, stage);
      ChangedTemps(s, c, names, e, stage);
      UnlinkedDisk(s, t, id);
      UnlinkedShape(cfg, c, k, t.calls[c], deleted);
      EffectKeeps(cfg, s, t, c, e);
    }
  }

  lemma UnlinkingShape(cfg: Config, s: State, c: nat, k: Call)
    requires Shape(cfg, c, k) && (k.stage.Linked? || k.stage.Removing?)
    ensures k.closing == Open && Owns(k)
    ensures var m := k.(stage := Finished(Failure(WriteFailed)));
        Shape(cfg, c, m) && KeepsTemp(k, m) && TempOk(s, m) && !Holds(m)
  {
    if k.stage.Linked? {
      var m := k.(stage := Finished(Failure(WriteFailed)));
      assert m.entries == [TrashEntry(cfg, c, m, k.stage.target)];
    }
  }

  lemma UnlinkedShape(cfg: Config, c: nat, k: Call, m: Call, deleted: Option<string>)
    requires Shape(cfg, c, k) && (k.stage.Linked? || k.stage.Removing?)
    requires deleted == if k.stage.Linked? then Some(k.stage.target) else None
    requires m == k.(
        stage := Finished(Success(Sha256(SeenText(k)), deleted)),
        entries := k.entries + [OwnEntry(cfg, c, k, None)])
    ensures Shape(cfg, c, m) && !Holds(m)
  {}
}
