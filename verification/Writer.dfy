/**
 * The audited vault writer as a step machine.
 *
 * Every await of a mutation is one step. Between two steps of one call any other call may step, and the
 * whole process may crash. Files are names that map to inodes, and inodes that map to their bytes.
 */
module Writer {
  import opened Text
  import opened Frontmatter
  import Markers

  /** SHA-256 taken as injective. */
  datatype Hash = Sha256(text: string)

  datatype Mutation =
    | Create(content: string, fields: Fields)
    | Replace(content: string, fields: Fields)
    | UpdateFields(updates: Fields)
    | ReplaceSection(marker: string, section: string)
    | Delete
    | HardDelete

  /** The error codes of the writer; `Refused` carries the code of a note text that could not be made. */
  datatype Code = InvalidPath | PathBlocked | PathExists | PathMissing | RetryableConflict | WriteFailed
    | Refused(code: string)

  datatype Outcome = Success(hash: Hash, deleted: Option<string>) | Failure(code: Code)

  /** Where a call of `mutate` stands. */
  datatype Stage =
    | Arrived
    | Waiting                                             // holds a reference to its lock
    | Owning                                              // owns the lock
    | Entered                                             // start event attempted
    | Vacant                                              // create: nothing at the path
    | Examined                                            // the file exists and is old enough
    | Matched                                             // its hash is the caller's base
    | Decided(next: string)                               // the new text is known
    | Filling(next: string, temp: nat, inode: nat)        // the temporary file is being written
    | Ready(next: string, temp: nat, inode: nat)          // written and synced
    | Cleaning(temp: nat, outcome: Outcome)               // the temporary name is to be removed
    | Trashing(target: string)
    | Linked(target: string)
    | Removing
    | Finished(outcome: Outcome)                          // the audit completion is to be recorded
    | Recorded(outcome: Outcome)
    | Returned(outcome: Outcome)

  /** What the audit store holds about the end of a call. */
  datatype Closing = Open | Completed | Rejected

  /** One change of what a name shows; `own` marks the change a caller asked for, as opposed to a trash link. */
  datatype Entry = Entry(call: nat, name: string, base: Option<Hash>, own: bool, before: Option<string>,
      after: Option<string>)

  datatype Call = Call(
    path: string, op: Mutation, base: Option<Hash>, stage: Stage, lock: nat,
    seen: Option<string>, attempt: bool, closing: Closing, entries: seq<Entry>)

  datatype Name = NoteName(path: string) | TempName(id: nat)

  datatype Event = Started(call: nat) | Succeeded(call: nat, hash: Hash) | Failed(call: nat)

  datatype Row = Row(call: nat, path: string, base: Option<Hash>, hash: Hash)

  datatype Config = Config(identity: string -> string, trash: string, nf: NumberFormat)

  /**
   * What is only recorded: how long the change log was when a call hashed its note, and the moments at which calls
   * took their lock and at which they returned or were lost in a crash.
   */
  datatype Stamps = Stamps(readAt: map<nat, nat>, entered: map<nat, nat>, left: map<nat, nat>, now: nat)

  datatype State = State(
    names: map<Name, nat>, data: map<nat, string>, prepared: map<nat, string>,
    locks: map<string, nat>, live: set<nat>, calls: map<nat, Call>,
    nextCall: nat, nextLock: nat, nextInode: nat, nextTemp: nat,
    events: seq<Event>, rows: seq<Row>,
    initial: map<string, string>, history: seq<Entry>, stamps: Stamps)

  datatype Choice = Proceed | Fail(code: Code) | Chunk(count: nat) | Suffix(text: string)

  datatype Action = Arrive(path: string, op: Mutation, base: Option<Hash>) | Act(call: nat, choice: Choice) | Crash

  // ---------------------------------------------------------------- views

  function ContentAt(s: State, name: string): Option<string> {
    if NoteName(name) in s.names && s.names[NoteName(name)] in s.data
    then Some(s.data[s.names[NoteName(name)]]) else None
  }

  /** Holds a strong reference to its lock. */
  predicate Refers(k: Call) { !k.stage.Arrived? && !k.stage.Returned? }

  predicate Owns(k: Call) { Refers(k) && !k.stage.Waiting? }

  function Identity(cfg: Config, k: Call): string { cfg.identity(k.path) }

  function TrashTarget(cfg: Config, suffix: string): string { cfg.trash + "/" + suffix }

  /** The text an editing mutation publishes over the text it has seen. */
  function NextText(nf: NumberFormat, op: Mutation, current: string): Result<string> {
    match op
    case Create(content, fields) =>
      if Writable(fields) then Ok(Rendered(nf, content, fields)) else Err("invalid_frontmatter")
    case Replace(content, fields) =>
      if Writable(fields) then Ok(Rendered(nf, content, fields)) else Err("invalid_frontmatter")
    case UpdateFields(updates) => Updated(nf, current, updates)
    case ReplaceSection(marker, section) =>
      (match Markers.ReplaceMarker(current, marker, section)
       case Some(text) => Ok(text)
       case None => Err("markers_missing"))
    case _ => Err("write_failed")
  }

  function SeenText(k: Call): string { if k.seen.Some? then k.seen.value else "" }

  // ---------------------------------------------------------------- steps

  function Hashed(stamps: Stamps, c: nat, length: nat): Stamps { stamps.(readAt := stamps.readAt[c := length]) }

  function Took(stamps: Stamps, c: nat): Stamps {
    stamps.(entered := stamps.entered[c := stamps.now], now := stamps.now + 1)
  }

  function Gone(stamps: Stamps, calls: set<nat>): Stamps {
    stamps.(left := stamps.left + map c | c in calls :: stamps.now, now := stamps.now + 1)
  }

  function At(s: State, c: nat, k: Call): State {
    s.(calls := s.calls[c := k])
  }

  function Leave(s: State, c: nat, k: Call): State {
    s.(calls := s.calls[c := k], live := s.live - {c}, stamps := Gone(s.stamps, {c}))
  }

  /** The lock objects some call still holds a strong reference to. */
  function Referenced(s: State): set<nat>
    requires s.live <= s.calls.Keys
  {
    set d | d in s.live && Refers(s.calls[d]) :: s.calls[d].lock
  }

  /** The lock map after the sweep of dead entries. */
  function Kept(s: State): map<string, nat>
    requires s.live <= s.calls.Keys
  {
    map id | id in s.locks && s.locks[id] in Referenced(s) :: s.locks[id]
  }

  /** The lock map lookup: drop dead entries, then upgrade or insert. */
  function LookUp(cfg: Config, s: State, c: nat): State
    requires c in s.live && s.live <= s.calls.Keys
  {
    var id := Identity(cfg, s.calls[c]);
    var lock := if id in Kept(s) then Kept(s)[id] else s.nextLock;
    At(s.(locks := Kept(s)[id := lock], nextLock := if id in Kept(s) then s.nextLock else s.nextLock + 1),
       c, s.calls[c].(stage := Waiting, lock := lock))
  }

  function Acquire(s: State, c: nat): State
    requires c in s.live && s.live <= s.calls.Keys
  {
    var k := s.calls[c];
    if exists d | d in s.live :: Owns(s.calls[d]) && s.calls[d].lock == k.lock then s
    else At(s.(stamps := Took(s.stamps, c)), c, k.(stage := Owning))
  }

  /** The first half of `apply`, given what the path shows: existence, base hash, and the new text. */
  function Checked(cfg: Config, k: Call, found: Option<string>): Call {
    match k.stage
    case Entered =>
      k.(stage :=
        if k.op.Create? then (if found.Some? then Finished(Failure(PathExists)) else Vacant)
        else if found.None? then Finished(Failure(PathMissing)) else Examined)
    case Examined =>
      if found.None? then k.(stage := Finished(Failure(WriteFailed)))
      else if k.base != Some(Sha256(found.value)) then k.(stage := Finished(Failure(RetryableConflict)))
      else k.(stage := Matched, seen := found)
    case _ =>
      k.(stage :=
        match k.op
        case Delete => Trashing(TrashTarget(cfg, k.path))
        case HardDelete => Removing
        case _ =>
          match NextText(cfg.nf, k.op, SeenText(k))
          case Ok(next) => Decided(next)
          case Err(code) => Finished(Failure(Refused(code))))
  }

  function Check(cfg: Config, s: State, c: nat): State
    requires c in s.calls
  {
    var m := Checked(cfg, s.calls[c], ContentAt(s, Identity(cfg, s.calls[c])));
    At(s.(stamps := if m.stage.Matched? then Hashed(s.stamps, c, |s.history|) else s.stamps), c, m)
  }

  /** The temporary file is created under a fresh name and filled piece by piece. */
  function OpenTemp(s: State, c: nat): State
    requires c in s.calls && s.calls[c].stage.Decided?
  {
    var k := s.calls[c];
    At(s.(names := s.names[TempName(s.nextTemp) := s.nextInode], data := s.data[s.nextInode := ""],
          nextTemp := s.nextTemp + 1, nextInode := s.nextInode + 1),
       c, k.(stage := Filling(k.stage.next, s.nextTemp, s.nextInode)))
  }

  function Fill(s: State, c: nat, count: nat): State
    requires c in s.calls && s.calls[c].stage.Filling?
  {
    var Filling(next, _, inode) := s.calls[c].stage;
    if inode in s.data && |s.data[inode]| <= count <= |next| then s.(data := s.data[inode := next[..count]]) else s
  }

  function Seal(s: State, c: nat): State
    requires c in s.calls && s.calls[c].stage.Filling?
  {
    var k := s.calls[c];
    var Filling(next, temp, inode) := k.stage;
    if inode in s.data && s.data[inode] == next
    then At(s.(prepared := s.prepared[inode := next]), c, k.(stage := Ready(next, temp, inode)))
    else s
  }

  function Changed(s: State, c: nat, names: map<Name, nat>, e: Entry, stage: Stage): State
    requires c in s.calls
  {
    var k := s.calls[c];
    At(s.(names := names, history := s.history + [e]), c, k.(stage := stage, entries := k.entries + [e]))
  }

  /** Hard link for a create, rename for everything else. */
  function Publish(cfg: Config, s: State, c: nat): State
    requires c in s.calls && s.calls[c].stage.Ready?
  {
    var k := s.calls[c];
    var Ready(next, temp, inode) := k.stage;
    var id := Identity(cfg, k);
    var done := Cleaning(temp, Success(Sha256(next), None));
    var e := Entry(c, id, k.base, true, ContentAt(s, id), Some(next));
    if !k.op.Create? then Changed(s, c, s.names[NoteName(id) := inode] - {TempName(temp)}, e, done)
    else if NoteName(id) in s.names then At(s, c, k.(stage := Cleaning(temp, Failure(PathExists))))
    else Changed(s, c, s.names[NoteName(id) := inode], e, done)
  }

  function Clean(s: State, c: nat, removed: bool): State
    requires c in s.calls && s.calls[c].stage.Cleaning?
  {
    var k := s.calls[c];
    var Cleaning(temp, outcome) := k.stage;
    At(if removed then s.(names := s.names - {TempName(temp)}) else s, c, k.(stage := Finished(outcome)))
  }

  /** The link into the trash, which fails on an existing name and is then retried under another one. */
  function Link(cfg: Config, s: State, c: nat, suffix: string): State
    requires c in s.calls && s.calls[c].stage.Trashing?
  {
    var k := s.calls[c];
    var target := k.stage.target;
    var from, to := NoteName(Identity(cfg, k)), cfg.identity(target);
    if from !in s.names then At(s, c, k.(stage := Finished(Failure(WriteFailed))))
    else if NoteName(to) in s.names then At(s, c, k.(stage := Trashing(TrashTarget(cfg, suffix))))
    else
      var e := Entry(c, to, None, false, ContentAt(s, to), ContentAt(s, Identity(cfg, k)));
      Changed(s, c, s.names[NoteName(to) := s.names[from]], e, Linked(target))
  }

  /** Removing the caller's own name, at the end of a soft delete or as a hard delete. */
  function Unlink(cfg: Config, s: State, c: nat): State
    requires c in s.calls && (s.calls[c].stage.Linked? || s.calls[c].stage.Removing?)
  {
    var k := s.calls[c];
    var id := Identity(cfg, k);
    var deleted := if k.stage.Linked? then Some(k.stage.target) else None;
    var e := Entry(c, id, k.base, true, ContentAt(s, id), None);
    if NoteName(id) !in s.names then At(s, c, k.(stage := Finished(Failure(WriteFailed))))
    else Changed(s, c, s.names - {NoteName(id)}, e, Finished(Success(Sha256(SeenText(k)), deleted)))
  }

  /** The start event; the mutation goes on without an attempt when it cannot be stored. */
  function Start(s: State, c: nat, stored: bool): State
    requires c in s.calls
  {
    var k := s.calls[c].(stage := Entered, attempt := stored);
    At(if stored then s.(events := s.events + [Started(c)]) else s, c, k)
  }

  /** The completion, when it can be stored: a success event and the provenance row, or a failure event. */
  function Closed(k: Call, stored: bool): Call
    requires k.stage.Finished?
  {
    k.(stage := Recorded(k.stage.outcome),
       closing := if stored && k.stage.outcome.Success? then Completed
                  else if stored && k.attempt then Rejected
                  else k.closing)
  }

  function ClosingEvents(c: nat, k: Call, stored: bool): seq<Event>
    requires k.stage.Finished?
  {
    if !stored || !k.attempt then []
    else if k.stage.outcome.Success? then [Succeeded(c, k.stage.outcome.hash)] else [Failed(c)]
  }

  function ClosingRows(c: nat, k: Call, stored: bool): seq<Row>
    requires k.stage.Finished?
  {
    if stored && k.stage.outcome.Success? then [Row(c, k.path, k.base, k.stage.outcome.hash)] else []
  }

  /** Both inserts of a success are one transaction. */
  function Complete(s: State, c: nat, stored: bool): State
    requires c in s.calls && s.calls[c].stage.Finished?
  {
    var k := s.calls[c];
    At(s.(events := s.events + ClosingEvents(c, k, stored), rows := s.rows + ClosingRows(c, k, stored)), c,
        Closed(k, stored))
  }

  /** A failing await inside `apply`: a temporary file still has to be removed. */
  function Broken(k: Call, code: Code): Call {
    match k.stage
    case Filling(_, temp, _) => k.(stage := Cleaning(temp, Failure(code)))
    case Ready(_, temp, _) => k.(stage := Cleaning(temp, Failure(code)))
    case _ => k.(stage := Finished(Failure(code)))
  }

  /** A failing await: before the audit bracket, inside it, or in one of its own inserts. */
  function FailCall(s: State, c: nat, code: Code): State
    requires c in s.calls
  {
    var k := s.calls[c];
    match k.stage
    case Arrived => Leave(s, c, k.(stage := Returned(Failure(code))))
    case Waiting => Leave(s, c, k.(stage := Returned(Failure(code))))
    case Owning => if code == InvalidPath then Leave(s, c, k.(stage := Returned(Failure(code)))) else Start(s, c, false)
    case Cleaning(_, _) => Clean(s, c, false)
    case Finished(_) => Complete(s, c, false)
    case Recorded(outcome) => Leave(s, c, k.(stage := Returned(outcome)))
    case Returned(_) => s
    case _ => At(s, c, Broken(k, code))
  }

  function AdvanceCall(cfg: Config, s: State, c: nat, choice: Choice): State
    requires c in s.live && s.live <= s.calls.Keys
  {
    var k := s.calls[c];
    match k.stage
    case Arrived => LookUp(cfg, s, c)
    case Waiting => Acquire(s, c)
    case Owning => Start(s, c, true)
    case Decided(_) => OpenTemp(s, c)
    case Filling(_, _, _) => if choice.Chunk? then Fill(s, c, choice.count) else Seal(s, c)
    case Ready(_, _, _) => Publish(cfg, s, c)
    case Cleaning(_, _) => Clean(s, c, true)
    case Trashing(_) => Link(cfg, s, c, if choice.Suffix? then choice.text else "")
    case Linked(_) => Unlink(cfg, s, c)
    case Removing => Unlink(cfg, s, c)
    case Finished(_) => Complete(s, c, true)
    case Recorded(outcome) => Leave(s, c, k.(stage := Returned(outcome)))
    case Returned(_) => s
    case _ => Check(cfg, s, c)
  }

  function StepCall(cfg: Config, s: State, c: nat, choice: Choice): State
    requires c in s.live && s.live <= s.calls.Keys
  {
    if choice.Fail? then FailCall(s, c, choice.code) else AdvanceCall(cfg, s, c, choice)
  }

  function Step(cfg: Config, s: State, action: Action): State
    requires s.live <= s.calls.Keys
  {
    match action
    case Arrive(path, op, base) =>
      s.(calls := s.calls[s.nextCall := Call(path, op, base, Arrived, 0, None, false, Open, [])],
         live := s.live + {s.nextCall}, nextCall := s.nextCall + 1)
    case Act(c, choice) => if c in s.live then StepCall(cfg, s, c, choice) else s
    case Crash => s.(live := {}, locks := map[], stamps := Gone(s.stamps, s.live))
  }
}
