/** What every step of every interleaving of the writer keeps. */
module WriterInvariant {
  import opened Text
  import opened Frontmatter
  import opened Writer

  // ---------------------------------------------------------------- the invariant

  ghost predicate Known(s: State) {
    s.live <= s.calls.Keys && forall c | c in s.calls :: c < s.nextCall
  }

  /** One lock object per identity in use, and one owner per lock object. */
  ghost predicate LockInv(cfg: Config, s: State)
    requires Known(s)
  {
    && (forall id | id in s.locks :: s.locks[id] < s.nextLock)
    && (forall a, b | a in s.locks && b in s.locks && s.locks[a] == s.locks[b] :: a == b)
    && (forall c | c in s.live && Refers(s.calls[c]) ::
          Identity(cfg, s.calls[c]) in s.locks && s.locks[Identity(cfg, s.calls[c])] == s.calls[c].lock)
    && (forall c, d | c in s.live && d in s.live && Owns(s.calls[c]) && Owns(s.calls[d])
        && s.calls[c].lock == s.calls[d].lock :: c == d)
  }

  /** Every note name shows the bytes of a finished prepare, and finished bytes stay. */
  ghost predicate DiskInv(s: State) {
    && (forall n | n in s.names :: s.names[n] in s.data)
    && (forall n: string | NoteName(n) in s.names :: s.names[NoteName(n)] in s.prepared)
    && (forall i | i in s.prepared :: i in s.data && s.data[i] == s.prepared[i])
    && (forall i | i in s.data :: i < s.nextInode)
    && (forall t: nat | TempName(t) in s.names :: t < s.nextTemp)
  }

  function TempOf(k: Call): Option<nat> {
    match k.stage
    case Filling(_, temp, _) => Some(temp)
    case Ready(_, temp, _) => Some(temp)
    case Cleaning(temp, _) => Some(temp)
    case _ => None
  }

  ghost predicate TempOk(s: State, k: Call) {
    match k.stage
    case Filling(next, temp, inode) =>
      && TempName(temp) in s.names && s.names[TempName(temp)] == inode
      && inode in s.data && inode !in s.prepared && s.data[inode] <= next && temp < s.nextTemp
    case Ready(next, temp, inode) =>
      && TempName(temp) in s.names && s.names[TempName(temp)] == inode
      && inode in s.prepared && s.prepared[inode] == next && temp < s.nextTemp
    case Cleaning(temp, _) => temp < s.nextTemp
    case _ => true
  }

  /** Temporary files belong to one call each. */
  ghost predicate TempInv(s: State)
    requires Known(s)
  {
    && (forall c | c in s.live :: TempOk(s, s.calls[c]))
    && (forall c, d | c in s.live && d in s.live && c != d && TempOf(s.calls[c]).Some? ::
        TempOf(s.calls[c]) != TempOf(s.calls[d]))
    && (forall c, d | c in s.live && d in s.live && c != d && s.calls[c].stage.Filling? && s.calls[d].stage.Filling? ::
          s.calls[c].stage.inode != s.calls[d].stage.inode)
  }

  /** The call has read the text at its path and has not yet changed it. */
  predicate Holds(k: Call) {
    k.seen.Some? && !k.stage.Cleaning? && !k.stage.Finished? && !k.stage.Recorded? && !k.stage.Returned?
  }

  /** From the hash check to its own change, a call's path keeps showing the text that was hashed. */
  ghost predicate HoldInv(cfg: Config, s: State)
    requires Known(s)
  {
    forall c | c in s.live && Holds(s.calls[c]) :: ContentAt(s, Identity(cfg, s.calls[c])) == s.calls[c].seen
  }

  function TrashEntry(cfg: Config, c: nat, k: Call, target: string): Entry {
    Entry(c, cfg.identity(target), None, false, None, k.seen)
  }

  function OwnEntry(cfg: Config, c: nat, k: Call, after: Option<string>): Entry {
    Entry(c, Identity(cfg, k), k.base, true, k.seen, after)
  }

  predicate UnderTrash(cfg: Config, target: string) { cfg.trash + "/" <= target }

  /** A name under the trash directory that is not the note's own. */
  predicate TrashName(cfg: Config, k: Call, target: string) {
    UnderTrash(cfg, target) && cfg.identity(target) != Identity(cfg, k)
  }

  /** What a result promises about the changes its call made. */
  ghost predicate OutcomeShape(cfg: Config, c: nat, k: Call, outcome: Outcome) {
    match outcome
    case Failure(_) =>
      || k.entries == []
      || (exists target ::
          k.op.Delete? && k.seen.Some? && TrashName(cfg, k, target) && k.entries == [TrashEntry(cfg, c, k, target)])
    case Success(hash, deleted) =>
      match k.op
      case Delete =>
        && k.seen.Some? && hash == Sha256(k.seen.value) && deleted.Some? && TrashName(cfg, k, deleted.value)
        && k.entries == [TrashEntry(cfg, c, k, deleted.value), OwnEntry(cfg, c, k, None)]
      case HardDelete =>
        && k.seen.Some? && hash == Sha256(k.seen.value) && deleted == None
        && k.entries == [OwnEntry(cfg, c, k, None)]
      case _ =>
        && (k.op.Create? || k.seen.Some?) && deleted == None
        && NextText(cfg.nf, k.op, SeenText(k)) == Ok(hash.text)
        && k.entries == [OwnEntry(cfg, c, k, Some(hash.text))]
  }

  predicate Untouched(k: Call) { k.entries == [] && k.closing == Open }

  predicate Unread(k: Call) { Untouched(k) && k.seen == None }

  predicate Editing(cfg: Config, k: Call, next: string) {
    && Untouched(k) && !k.op.Delete? && !k.op.HardDelete? && (k.op.Create? || k.seen.Some?)
    && NextText(cfg.nf, k.op, SeenText(k)) == Ok(next)
  }

  ghost predicate ClosingShape(k: Call, outcome: Outcome) {
    && (k.closing == Completed ==> outcome.Success?)
    && (k.closing == Rejected ==> outcome.Failure? && k.attempt)
  }

  /** What a call's own record says at each stage. */
  ghost predicate Shape(cfg: Config, c: nat, k: Call) {
    && (k.seen.Some? ==> !k.op.Create? && k.base == Some(Sha256(k.seen.value)))
    && match k.stage
       case Arrived => Unread(k) && !k.attempt
       case Waiting => Unread(k) && !k.attempt
       case Owning => Unread(k) && !k.attempt
       case Entered => Unread(k)
       case Vacant => Unread(k) && k.op.Create?
       case Examined => Unread(k) && !k.op.Create?
       case Matched => Untouched(k) && k.seen.Some?
       case Decided(next) => Editing(cfg, k, next)
       case Filling(next, _, _) => Editing(cfg, k, next)
       case Ready(next, _, _) => Editing(cfg, k, next)
       case Trashing(target) => Untouched(k) && k.op.Delete? && k.seen.Some? && UnderTrash(cfg, target)
       case Linked(target) =>
         && k.closing == Open && k.op.Delete? && k.seen.Some? && TrashName(cfg, k, target)
         && k.entries == [TrashEntry(cfg, c, k, target)]
       case Removing => Untouched(k) && k.op.HardDelete? && k.seen.Some?
       case Cleaning(_, outcome) => k.closing == Open && OutcomeShape(cfg, c, k, outcome)
       case Finished(outcome) => k.closing == Open && OutcomeShape(cfg, c, k, outcome)
       case Recorded(outcome) => OutcomeShape(cfg, c, k, outcome) && ClosingShape(k, outcome)
       case Returned(outcome) => OutcomeShape(cfg, c, k, outcome) && ClosingShape(k, outcome)
  }

  ghost predicate ShapeInv(cfg: Config, s: State) {
    forall c | c in s.calls :: Shape(cfg, c, s.calls[c])
  }

  // ---------------------------------------------------------------- histories

  /** What a name shows after these changes. */
  function LastAfter(initial: map<string, string>, history: seq<Entry>, name: string): Option<string> {
    if history == [] then (if name in initial then Some(initial[name]) else None)
    else if history[|history| - 1].name == name then history[|history| - 1].after
    else LastAfter(initial, history[..|history| - 1], name)
  }

  function EntriesOf(history: seq<Entry>, c: nat): seq<Entry> {
    if history == [] then []
    else
      var e := history[|history| - 1];
      EntriesOf(history[..|history| - 1], c) + if e.call == c then [e] else []
  }

  function EventsOf(events: seq<Event>, c: nat): seq<Event> {
    if events == [] then []
    else
      var e := events[|events| - 1];
      EventsOf(events[..|events| - 1], c) + if e.call == c then [e] else []
  }

  function RowsOf(rows: seq<Row>, c: nat): seq<Row> {
    if rows == [] then []
    else
      var r := rows[|rows| - 1];
      RowsOf(rows[..|rows| - 1], c) + if r.call == c then [r] else []
  }

  ghost predicate Chained(s: State) {
    forall i | 0 <= i < |s.history| :: s.history[i].before == LastAfter(s.initial, s.history[..i], s.history[i].name)
  }

  ghost predicate Current(s: State) {
    forall n: string :: ContentAt(s, n) == LastAfter(s.initial, s.history, n)
  }

  function EntriesMade(s: State, c: nat): seq<Entry> {
    if c in s.calls then s.calls[c].entries else []
  }

  /** The change log is a chain that ends in what the disk shows, and lists exactly what each call did. */
  ghost predicate HistoryInv(s: State) {
    Chained(s) && Current(s) && forall c: nat :: EntriesOf(s.history, c) == EntriesMade(s, c)
  }

  function HashOf(k: Call): Hash {
    match k.stage
    case Recorded(Success(hash, _)) => hash
    case Returned(Success(hash, _)) => hash
    case _ => Sha256("")
  }

  function EventsDue(s: State, c: nat): seq<Event> {
    if c !in s.calls then []
    else
      var k := s.calls[c];
      (if k.attempt then [Started(c)] else [])
      + (if k.attempt && k.closing == Completed then [Succeeded(c, HashOf(k))]
         else if k.closing == Rejected then [Failed(c)] else [])
  }

  function RowsDue(s: State, c: nat): seq<Row> {
    if c in s.calls && s.calls[c].closing == Completed
    then [Row(c, s.calls[c].path, s.calls[c].base, HashOf(s.calls[c]))] else []
  }

  /** The audit store holds exactly what the calls recorded. */
  ghost predicate AuditInv(s: State) {
    forall c: nat :: EventsOf(s.events, c) == EventsDue(s, c) && RowsOf(s.rows, c) == RowsDue(s, c)
  }

  ghost predicate Inv(cfg: Config, s: State) {
    && Known(s) && LockInv(cfg, s) && DiskInv(s) && TempInv(s) && HoldInv(cfg, s) && ShapeInv(cfg, s)
    && HistoryInv(s) && AuditInv(s)
  }

  /** Any vault of complete notes, before the first call. */
  ghost predicate Init(s: State) {
    && s.live == {} && s.calls == map[] && s.locks == map[] && s.events == [] && s.rows == [] && s.history == []
    && s.stamps == Stamps(map[], map[], map[], 0)
    && DiskInv(s)
    && forall n: string :: ContentAt(s, n) == if n in s.initial then Some(s.initial[n]) else None
  }

  lemma InitInv(cfg: Config, s: State)
    requires Init(s)
    ensures Inv(cfg, s)
  {}

  // ---------------------------------------------------------------- frames

  /** Only call `c` moves on, keeping its lock. */
  ghost predicate Advances(s: State, t: State, c: nat) {
    && c in s.live && s.live <= s.calls.Keys && Owns(s.calls[c])
    && c in t.calls && t.calls == s.calls[c := t.calls[c]] && t.live == s.live && t.locks == s.locks
    && t.nextCall == s.nextCall && t.nextLock == s.nextLock && t.initial == s.initial
    && var k, m := s.calls[c], t.calls[c];
       Owns(m) && m.path == k.path && m.op == k.op && m.base == k.base && m.lock == k.lock
  }

  lemma AdvanceLocks(cfg: Config, s: State, t: State, c: nat)
    requires Known(s) && LockInv(cfg, s) && Advances(s, t, c)
    ensures Known(t) && LockInv(cfg, t)
  {
    forall d | d in t.live
      ensures d in s.calls && Owns(t.calls[d]) == Owns(s.calls[d]) && Refers(t.calls[d]) == Refers(s.calls[d])
      ensures t.calls[d].lock == s.calls[d].lock && t.calls[d].path == s.calls[d].path
    {}
  }

  lemma AdvanceShape(cfg: Config, s: State, t: State, c: nat)
    requires ShapeInv(cfg, s) && Advances(s, t, c) && Shape(cfg, c, t.calls[c])
    ensures ShapeInv(cfg, t)
  {
    hide Shape;
    assert forall d | d in t.calls :: d in s.calls && (d != c ==> t.calls[d] == s.calls[d]);
  }

  /** A step that leaves the audit store and this call's part in it alone. */
  lemma AdvanceAudit(s: State, t: State, c: nat)
    requires AuditInv(s) && Advances(s, t, c) && t.events == s.events && t.rows == s.rows
    requires t.calls[c].attempt == s.calls[c].attempt && t.calls[c].closing == s.calls[c].closing == Open
    ensures AuditInv(t)
  {
    forall d: nat ensures EventsOf(t.events, d) == EventsDue(t, d) && RowsOf(t.rows, d) == RowsDue(t, d) {
      assert EventsDue(t, d) == EventsDue(s, d) && RowsDue(t, d) == RowsDue(s, d);
    }
  }

  /** A step that changes nothing that a name shows. */
  lemma AdvanceQuietHistory(s: State, t: State, c: nat)
    requires HistoryInv(s) && Advances(s, t, c) && t.history == s.history && t.calls[c].entries == s.calls[c].entries
    requires forall n: string :: ContentAt(t, n) == ContentAt(s, n)
    ensures HistoryInv(t)
  {}

  lemma AppendedEntries(history: seq<Entry>, e: Entry, c: nat)
    ensures EntriesOf(history + [e], c) == EntriesOf(history, c) + if e.call == c then [e] else []
  {
    assert (history + [e])[..|history|] == history;
  }

  lemma AppendedAfter(initial: map<string, string>, history: seq<Entry>, e: Entry, n: string)
    ensures LastAfter(initial, history + [e], n) == if e.name == n then e.after else LastAfter(initial, history, n)
  {
    assert (history + [e])[..|history|] == history;
  }

  /** A step that changes what one name shows, and logs it. */
  lemma AdvanceEffect(s: State, t: State, c: nat, e: Entry)
    requires HistoryInv(s) && Advances(s, t, c)
    requires t.history == s.history + [e] && t.calls[c].entries == s.calls[c].entries + [e] && e.call == c
    requires e.before == ContentAt(s, e.name) && e.after == ContentAt(t, e.name)
    requires forall n: string | n != e.name :: ContentAt(t, n) == ContentAt(s, n)
    ensures HistoryInv(t)
  {
    hide ContentAt, LastAfter, EntriesOf;
    forall i | 0 <= i < |t.history|
      ensures t.history[i].before == LastAfter(t.initial, t.history[..i], t.history[i].name)
    {
      assert t.history[..i] == s.history[..i];
      assert s.history[..|s.history|] == s.history;
    }
    forall n: string ensures ContentAt(t, n) == LastAfter(t.initial, t.history, n) {
      AppendedAfter(s.initial, s.history, e, n);
    }
    forall d: nat ensures EntriesOf(t.history, d) == EntriesMade(t, d) {
      AppendedEntries(s.history, e, d);
      assert EntriesMade(t, d) == EntriesMade(s, d) + if d == c then [e] else [];
    }
  }

  /** Calls other than `c` keep their text when only `c`'s own name or an empty name changes. */
  lemma AdvanceHolds(cfg: Config, s: State, t: State, c: nat, name: string)
    requires Known(s) && Known(t) && LockInv(cfg, s) && HoldInv(cfg, s) && Advances(s, t, c)
    requires ShapeInv(cfg, s)
    requires name == Identity(cfg, s.calls[c]) || ContentAt(s, name) == None
    requires forall n: string | n != name :: ContentAt(t, n) == ContentAt(s, n)
    requires Holds(t.calls[c]) ==> ContentAt(t, Identity(cfg, t.calls[c])) == t.calls[c].seen
    ensures HoldInv(cfg, t)
  {
    hide ContentAt;
    forall d | d in t.live && Holds(t.calls[d])
      ensures ContentAt(t, Identity(cfg, t.calls[d])) == t.calls[d].seen
    {
      if d != c {
        assert t.calls[d] == s.calls[d];
        HoldersOwn(cfg, s, d);
        if Identity(cfg, s.calls[d]) == name {
          SameOwner(cfg, s, c, d);
        }
      }
    }
  }

  lemma HoldersOwn(cfg: Config, s: State, d: nat)
    requires ShapeInv(cfg, s) && d in s.calls && Holds(s.calls[d])
    ensures Owns(s.calls[d])
  {
    assert Shape(cfg, d, s.calls[d]);
  }

  /** Two owners of one identity are the same call. */
  lemma SameOwner(cfg: Config, s: State, c: nat, d: nat)
    requires Known(s) && LockInv(cfg, s) && c in s.live && d in s.live
    requires Owns(s.calls[c]) && Owns(s.calls[d]) && Identity(cfg, s.calls[c]) == Identity(cfg, s.calls[d])
    ensures c == d
  {
    assert s.calls[c].lock == s.locks[Identity(cfg, s.calls[c])] == s.calls[d].lock;
  }
}
