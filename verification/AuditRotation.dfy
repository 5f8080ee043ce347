/** The audit store over restarts: recording, rotation into archives, and crashes in between. */
module AuditRotation {
  import opened Text
  import opened Writer

  /** One audit database: provenance rows and lifecycle events, both append-only. */
  datatype Store = Store(rows: seq<Row>, events: seq<Event>)

  /** The files of the archive directory by name; an empty file is a reservation that was left behind. */
  type Archives = map<string, Option<Store>>

  /**
   * The live file, the archive directory and the order its names were created in, the attempts the running
   * process started and has not ended, and the next attempt id.
   */
  datatype Disk = Disk(
    live: Option<Store>, archives: Archives, order: seq<string>, session: Option<set<nat>>, next: nat)

  datatype Fault = Sound | CannotReserve | StopsAfterReserve | RenameFails(cleaned: bool)

  // ---------------------------------------------------------------- pending attempts

  predicate Ends(e: Event, c: nat) { !e.Started? && e.call == c }

  predicate HasEnd(events: seq<Event>, c: nat) { exists i | 0 <= i < |events| :: Ends(events[i], c) }

  predicate Pending(events: seq<Event>, c: nat) { Started(c) in events && !HasEnd(events, c) }

  predicate AnyPending(events: seq<Event>) {
    exists i | 0 <= i < |events| :: events[i].Started? && !HasEnd(events, events[i].call)
  }

  // ---------------------------------------------------------------- the archive directory

  /** Exclusive creation of an empty file, which fails on an existing name. */
  function CreateNew(archives: Archives, name: string): Option<Archives> {
    if name in archives then None else Some(archives[name := None])
  }

  /** Renaming a store onto a name, which replaces whatever has that name. */
  function RenameOnto(archives: Archives, name: string, store: Option<Store>): Archives {
    archives[name := store]
  }

  /** The first of these names that can be created, and the directory with it. */
  function Reserve(archives: Archives, names: seq<string>): Option<(string, Archives)> {
    if names == [] then None
    else
      match CreateNew(archives, names[0])
      case Some(reserved) => Some((names[0], reserved))
      case None => Reserve(archives, names[1..])
  }

  /** The names tried in turn: the first one, and then unique ones. */
  function Candidates(first: string, unique: nat -> string, n: nat): seq<string> {
    [first] + seq(n, i requires 0 <= i < n => unique(i))
  }

  // ---------------------------------------------------------------- what each operation does to the files

  predicate CanRotateStore(live: Option<Store>, maxRows: nat) {
    maxRows > 0 && live.Some? && |live.value.rows| > maxRows && !AnyPending(live.value.events)
  }

  predicate CanRotate(d: Disk, maxRows: nat) { CanRotateStore(d.live, maxRows) }

  function Rotated(d: Disk, maxRows: nat, names: seq<string>, fault: Fault): Disk {
    var stopped := d.(session := None);
    if !CanRotate(d, maxRows) then stopped
    else
      match Reserve(d.archives, names)
      case None => stopped
      case Some((name, reserved)) =>
        var placed := stopped.(archives := reserved, order := d.order + [name]);
        match fault
        case CannotReserve => stopped
        case StopsAfterReserve => placed
        case RenameFails(cleaned) => if cleaned then stopped.(archives := reserved - {name}) else placed
        case Sound => placed.(archives := RenameOnto(reserved, name, d.live), live := None)
  }

  function Opened(d: Disk): Disk {
    d.(live := Some(if d.live.Some? then d.live.value else Store([], [])), session := Some({}))
  }

  function Begun(d: Disk, stored: bool): Disk {
    if d.session.None? || d.live.None? then d
    else if !stored then d.(next := d.next + 1)
    else d.(live := Some(d.live.value.(events := d.live.value.events + [Started(d.next)])),
            session := Some(d.session.value + {d.next}), next := d.next + 1)
  }

  /** The success event of a known attempt, if there is one, and the provenance row, or neither. */
  function Finishing(d: Disk, attempt: Option<nat>, row: Row, stored: bool): Disk {
    if d.session.None? || d.live.None? || (attempt.Some? && attempt.value !in d.session.value) then d
    else
      var left := if attempt.Some? then d.session.value - {attempt.value} else d.session.value;
      if !stored then d.(session := Some(left))
      else
        var more := if attempt.Some? then [Succeeded(attempt.value, row.hash)] else [];
        d.(live := Some(Store(d.live.value.rows + [row], d.live.value.events + more)), session := Some(left))
  }

  function Marked(d: Disk, attempt: nat, stored: bool): Disk {
    if d.session.None? || d.live.None? || attempt !in d.session.value then d
    else
      var left := d.session.value - {attempt};
      if !stored then d.(session := Some(left))
      else d.(live := Some(d.live.value.(events := d.live.value.events + [Failed(attempt)])), session := Some(left))
  }

  /** More rows than the limit, and for every start event an event that ends its attempt. */
  ghost predicate OverfullAndEnded(live: Option<Store>, maxRows: nat) {
    && live.Some? && |live.value.rows| >= maxRows + 1
    && forall c | Started(c) in live.value.events ::
         Failed(c) in live.value.events || exists hash :: Succeeded(c, hash) in live.value.events
  }

  class AuditFiles {
    var live: Option<Store>
    var archives: Archives
    ghost var order: seq<string>
    var session: Option<set<nat>>
    var next: nat

    ghost function Contents(): Disk
      reads this
    {
      Disk(live, archives, order, session, next)
    }

    constructor ()
      ensures Contents() == Disk(None, map[], [], None, 0)
    {
      live, archives, order, session, next := None, map[], [], None, 0;
    }

    method Open()
      modifies this
      ensures Contents() == Opened(old(Contents()))
      ensures live == (if old(live).Some? then old(live) else Some(Store([], []))) && session == Some({})
    {
      if live.None? {
        live := Some(Store([], []));
      }
      session := Some({});
    }

    method RecordStarted(stored: bool)
      modifies this
      ensures Contents() == Begun(old(Contents()), stored)
      ensures if stored && old(session).Some? && old(live).Some?
              then live == Some(Store(old(live).value.rows, old(live).value.events + [Started(old(next))]))
                && session == Some(old(session).value + {old(next)})
              else live == old(live) && session == old(session)
    {
      if session.None? || live.None? {
        return;
      }
      if stored {
        live := Some(live.value.(events := live.value.events + [Started(next)]));
        session := Some(session.value + {next});
      }
      next := next + 1;
    }

    method RecordCompleted(attempt: Option<nat>, row: Row, stored: bool)
      modifies this
      ensures Contents() == Finishing(old(Contents()), attempt, row, stored)
      ensures if stored && old(live).Some? && old(session).Some?
                 && (attempt.Some? ==> attempt.value in old(session).value)
              then live == Some(Store(old(live).value.rows + [row],
                old(live).value.events + if attempt.Some? then [Succeeded(attempt.value, row.hash)] else []))
              else live == old(live)
    {
      if session.None? || live.None? || (attempt.Some? && attempt.value !in session.value) {
        return;
      }
      var store := live.value;
      assert store.events + [] == store.events;
      if attempt.Some? {
        session := Some(session.value - {attempt.value});
        store := store.(events := store.events + [Succeeded(attempt.value, row.hash)]);
      }
      store := store.(rows := store.rows + [row]);
      if stored {
        live := Some(store);
      }
    }

    method RecordFailed(attempt: nat, stored: bool)
      modifies this
      ensures Contents() == Marked(old(Contents()), attempt, stored)
      ensures if stored && old(live).Some? && old(session).Some? && attempt in old(session).value
              then live == Some(Store(old(live).value.rows, old(live).value.events + [Failed(attempt)]))
              else live == old(live)
    {
      if session.None? || live.None? || attempt !in session.value {
        return;
      }
      session := Some(session.value - {attempt});
      if stored {
        live := Some(live.value.(events := live.value.events + [Failed(attempt)]));
      }
    }

    /** Tries the first name and then unique ones until one can be created; the directory is finite, so one can. */
    method ReserveName(first: string, unique: nat -> string) returns (destination: string, ghost n: nat)
      requires forall i: nat, j: nat | unique(i) == unique(j) :: i == j
      modifies this`archives, this`order
      ensures Reserve(old(archives), Candidates(first, unique, n)) == Some((destination, archives))
      ensures order == old(order) + [destination]
    {
      hide Candidates, Reserve, Tried, AllIn;
      destination, n := first, 0;
      var k: nat := 0;
      TriedStep(archives, first, unique, 0);
      while destination in archives
        invariant archives == old(archives) && order == old(order) && n == k
        invariant destination == if k == 0 then first else unique(k - 1)
        invariant AllIn(archives, first, unique, k)
        decreases if k == 0 then 1 else 0, archives.Keys - Tried(unique, if k == 0 then 0 else k - 1)
      {
        TriedStep(archives, first, unique, k);
        destination := unique(k);
        k := k + 1;
        n := k;
      }
      AllInReserves(archives, first, unique, k);
      archives := archives[destination := None];
      order := order + [destination];
    }

    /** Reserve a free name, then move the live store over the reservation. */
    method Rotate(maxRows: nat, first: string, unique: nat -> string, fault: Fault)
      returns (archived: Option<string>, ghost n: nat)
      requires forall i: nat, j: nat | unique(i) == unique(j) :: i == j
      modifies this
      ensures Contents() == Rotated(old(Contents()), maxRows, Candidates(first, unique, n), fault)
      ensures archived.Some? <==> fault.Sound? && maxRows > 0 && OverfullAndEnded(old(live), maxRows)
      ensures archived.Some? ==> archived.value !in old(archives)
      ensures archived.Some? ==> archives == old(archives)[archived.value := old(live)] && live == None
      ensures archived.None? ==> live == old(live) && forall name | name in old(archives) ::
        name in archives && archives[name] == old(archives)[name]
    {
      hide Reserve, Candidates, AnyPending, OverfullAndEnded;
      EndedExactly(live, maxRows);
      var may := CanRotateStore(live, maxRows);
      session := None;
      archived, n := None, 0;
      if !may {
        return;
      }
      if fault.CannotReserve? {
        return;
      }
      var destination;
      destination, n := ReserveName(first, unique);
      ReserveFree(old(archives), Candidates(first, unique, n));
      match fault
      case RenameFails(cleaned) =>
        if cleaned {
          archives := archives - {destination};
          order := old(order);
        }
      case Sound =>
        archives := archives[destination := live];
        live := None;
        archived := Some(destination);
      case _ =>
    }
  }

  ghost function Tried(unique: nat -> string, n: nat): set<string> {
    set i | 0 <= i < n :: unique(i)
  }

  /** All candidates before the last one exist. */
  ghost predicate AllIn(archives: Archives, first: string, unique: nat -> string, n: nat) {
    && (n > 0 ==> first in archives && Tried(unique, n - 1) <= archives.Keys)
  }

  /** A unique name that exists is one more of the directory's names. */
  lemma TriedStep(archives: Archives, first: string, unique: nat -> string, n: nat)
    requires forall i: nat, j: nat | unique(i) == unique(j) :: i == j
    ensures AllIn(archives, first, unique, 0)
    ensures AllIn(archives, first, unique, n) && (if n == 0 then first else unique(n - 1)) in archives ==>
      && AllIn(archives, first, unique, n + 1)
      && (n > 0 ==> archives.Keys - Tried(unique, n) < archives.Keys - Tried(unique, n - 1))
  {
    if n > 0 {
      assert Tried(unique, n) == Tried(unique, n - 1) + {unique(n - 1)};
      assert unique(n - 1) !in Tried(unique, n - 1);
    }
  }

  lemma AllInReserves(archives: Archives, first: string, unique: nat -> string, n: nat)
    requires AllIn(archives, first, unique, n)
    ensures var last := if n == 0 then first else unique(n - 1);
      last !in archives ==> Reserve(archives, Candidates(first, unique, n)) == Some((last, archives[last := None]))
  {
    hide Reserve;
    var names := Candidates(first, unique, n);
    assert forall i | 1 <= i < n :: names[i] == unique(i - 1) && names[i] in Tried(unique, n - 1);
    if names[n] !in archives {
      ReserveLast(archives, names);
    }
  }

  /** The last name is reserved when all before it exist. */
  lemma {:induction false} ReserveLast(archives: Archives, names: seq<string>)
    requires names != [] && names[|names| - 1] !in archives
    requires forall i | 0 <= i < |names| - 1 :: names[i] in archives
    ensures Reserve(archives, names) == Some((names[|names| - 1], archives[names[|names| - 1] := None]))
  {
    if |names| <= 1 {
    } else {
      ReserveLast(archives, names[1..]);
    }
  }

  /** What is reserved is a name that did not exist, empty, and nothing else changes. */
  lemma {:induction false} ReserveFree(archives: Archives, names: seq<string>)
    ensures match Reserve(archives, names)
            case None => true
            case Some((name, reserved)) => name in names && name !in archives && reserved == archives[name := None]
  {
    if names != [] && names[0] in archives {
      ReserveFree(archives, names[1..]);
    }
  }

  lemma EndedExactly(live: Option<Store>, maxRows: nat)
    ensures maxRows > 0 && OverfullAndEnded(live, maxRows) <==> CanRotateStore(live, maxRows)
  {
    if live.Some? {
      var events := live.value.events;
      if !AnyPending(events) {
        forall c | Started(c) in events ensures Failed(c) in events || exists hash :: Succeeded(c, hash) in events {
          var i :| 0 <= i < |events| && events[i] == Started(c);
          var k :| 0 <= k < |events| && Ends(events[k], c);
          assert events[k] == Failed(c) || events[k] == Succeeded(c, events[k].hash);
        }
      }
      if OverfullAndEnded(live, maxRows) {
        forall i | 0 <= i < |events| && events[i].Started? ensures HasEnd(events, events[i].call) {
          var c := events[i].call;
          assert Started(c) in events;
          var e :| e in events && !e.Started? && e.call == c;
          var k :| 0 <= k < |events| && events[k] == e;
          assert Ends(events[k], c);
        }
      }
    }
  }

  /** Of the names tried, the first that the directory does not have. */
  ghost predicate FirstFree(archives: Archives, names: seq<string>, i: nat) {
    i < |names| && names[i] !in archives && forall j | 0 <= j < i :: names[j] in archives
  }

  lemma {:induction false} ReserveFirstFree(archives: Archives, names: seq<string>, i: nat)
    requires FirstFree(archives, names, i)
    ensures Reserve(archives, names) == Some((names[i], archives[names[i] := None]))
  {
    if i == 0 {
    } else {
      ReserveFirstFree(archives, names[1..], i - 1);
    }
  }

  /**
   * The live store is moved away exactly when there are more rows than the limit, the limit is not zero, every
   * attempt has ended and nothing fails; it then is the archive of the first free name, and nothing else changes.
   */
  lemma RotatesExactly(d: Disk, maxRows: nat, names: seq<string>, fault: Fault, i: nat)
    requires FirstFree(d.archives, names, i)
    ensures var t := Rotated(d, maxRows, names, fault);
      if fault.Sound? && maxRows > 0 && OverfullAndEnded(d.live, maxRows)
      then t.live == None && t.archives == d.archives[names[i] := d.live]
      else t.live == d.live && (t.archives == d.archives || t.archives == d.archives[names[i] := None])
  {
    hide Reserve, AnyPending, OverfullAndEnded;
    EndedExactly(d.live, maxRows);
    ReserveFirstFree(d.archives, names, i);
    assert d.archives[names[i] := None] - {names[i]} == d.archives;
    assert d.archives[names[i] := None][names[i] := d.live] == d.archives[names[i] := d.live];
  }

  // ---------------------------------------------------------------- runs

  datatype Op =
    | Open
    | Begin(stored: bool)
    | Finish(attempt: Option<nat>, row: Row, stored: bool)
    | Mark(failed: nat, stored: bool)
    | Rotate(maxRows: nat, names: seq<string>, fault: Fault)
    | Crash

  function Step(d: Disk, op: Op): Disk {
    match op
    case Open => Opened(d)
    case Begin(stored) => Begun(d, stored)
    case Finish(attempt, row, stored) => Finishing(d, attempt, row, stored)
    case Mark(attempt, stored) => Marked(d, attempt, stored)
    case Rotate(maxRows, names, fault) => Rotated(d, maxRows, names, fault)
    case Crash => d.(session := None)
  }

  function Run(d: Disk, ops: seq<Op>): Disk
    decreases |ops|
  {
    if ops == [] then d else Step(Run(d, ops[..|ops| - 1]), ops[|ops| - 1])
  }

  /** The rows and events a step inserts, in order. */
  function Inserted(d: Disk, op: Op): Store {
    if d.session.None? || d.live.None? then Store([], [])
    else
      match op
      case Begin(stored) => Store([], if stored then [Started(d.next)] else [])
      case Finish(attempt, row, stored) =>
        if !stored || (attempt.Some? && attempt.value !in d.session.value) then Store([], [])
        else Store([row], if attempt.Some? then [Succeeded(attempt.value, row.hash)] else [])
      case Mark(attempt, stored) => Store([], if stored && attempt in d.session.value then [Failed(attempt)] else [])
      case _ => Store([], [])
  }

  function Joined(a: Store, b: Store): Store { Store(a.rows + b.rows, a.events + b.events) }

  function AllInserted(d: Disk, ops: seq<Op>): Store
    decreases |ops|
  {
    if ops == [] then Store([], [])
    else
      var before := ops[..|ops| - 1];
      Joined(AllInserted(d, before), Inserted(Run(d, before), ops[|ops| - 1]))
  }

  function Content(content: Option<Store>): Store { if content.Some? then content.value else Store([], []) }

  function ContentOf(archives: Archives, name: string): Store {
    if name in archives then Content(archives[name]) else Store([], [])
  }

  /** What the archives of these names hold, one after the other. */
  function Archived(archives: Archives, order: seq<string>): Store {
    if order == [] then Store([], [])
    else Joined(Archived(archives, order[..|order| - 1]), ContentOf(archives, order[|order| - 1]))
  }

  /** The order lists every file of the archive directory once. */
  ghost predicate Listed(d: Disk) {
    && (forall name :: name in d.archives <==> name in d.order)
    && (forall i, j | 0 <= i < j < |d.order| :: d.order[i] != d.order[j])
  }

  /** Everything in the archives, oldest first, and then the live store. */
  function History(d: Disk): Store { Joined(Archived(d.archives, d.order), Content(d.live)) }

  lemma {:induction false} ArchivedSame(a: Archives, b: Archives, order: seq<string>)
    requires forall name | name in order :: ContentOf(a, name) == ContentOf(b, name)
    ensures Archived(a, order) == Archived(b, order)
  {
    if order == [] {
    } else {
      ArchivedSame(a, b, order[..|order| - 1]);
    }
  }

  /** A new name adds its content behind all others. */
  lemma ArchivedAppend(archives: Archives, order: seq<string>, name: string, content: Option<Store>)
    requires name !in order
    ensures Archived(archives[name := content], order + [name]) == Joined(Archived(archives, order), Content(content))
  {
    assert (order + [name])[..|order|] == order;
    ArchivedSame(archives, archives[name := content], order);
  }

  lemma JoinAssociates(a: Store, b: Store, c: Store)
    ensures Joined(a, Joined(b, c)) == Joined(Joined(a, b), c)
  {}

  lemma JoinNothing(a: Store)
    ensures Joined(a, Store([], [])) == a == Joined(Store([], []), a)
  {}

  /** A rotation leaves the directory as it was, or with one more name: an empty file, or the whole live store. */
  lemma RotatedShape(d: Disk, maxRows: nat, names: seq<string>, fault: Fault) returns (name: string)
    ensures var t := Rotated(d, maxRows, names, fault);
      && t.next == d.next && t.session == None
      && (|| (t.archives == d.archives && t.order == d.order && t.live == d.live)
          || (name !in d.archives && t.order == d.order + [name] && t.archives == d.archives[name := None]
              && t.live == d.live)
          || (CanRotate(d, maxRows) && name !in d.archives && t.order == d.order + [name]
              && t.archives == d.archives[name := d.live] && t.live == None))
  {
    hide AnyPending, Reserve;
    ReserveFree(d.archives, names);
    match Reserve(d.archives, names)
    case None => name := "";
    case Some((chosen, reserved)) =>
      name := chosen;
      assert reserved - {chosen} == d.archives;
      assert RenameOnto(reserved, chosen, d.live) == d.archives[chosen := d.live];
  }

  lemma StepListed(d: Disk, op: Op)
    requires Listed(d)
    ensures Listed(Step(d, op))
  {
    hide Rotated;
    if op.Rotate? {
      var name := RotatedShape(d, op.maxRows, op.names, op.fault);
    }
  }

  /** A step adds to the whole history exactly what it inserts, wherever rotation moves the rest. */
  lemma StepInserts(d: Disk, op: Op)
    requires Listed(d)
    ensures History(Step(d, op)) == Joined(History(d), Inserted(d, op))
  {
    hide Archived, Rotated, Listed;
    if op.Rotate? {
      RotateKeepsHistory(d, op);
    } else {
      var t := Step(d, op);
      assert t.archives == d.archives && t.order == d.order;
      JoinNothing(Content(d.live));
      assert Content(t.live) == Joined(Content(d.live), Inserted(d, op));
      JoinAssociates(Archived(d.archives, d.order), Content(d.live), Inserted(d, op));
    }
  }

  lemma RotateKeepsHistory(d: Disk, op: Op)
    requires Listed(d) && op.Rotate?
    ensures History(Step(d, op)) == Joined(History(d), Inserted(d, op)) == History(d)
  {
    hide Archived, Rotated, AnyPending;
    var name := RotatedShape(d, op.maxRows, op.names, op.fault);
    var archived := Archived(d.archives, d.order);
    JoinNothing(History(d));
    JoinNothing(archived);
    JoinNothing(Joined(archived, Content(d.live)));
    if name !in d.order {
      ArchivedAppend(d.archives, d.order, name, None);
      ArchivedAppend(d.archives, d.order, name, d.live);
    }
  }

  lemma {:induction false} RunListed(d: Disk, ops: seq<Op>)
    requires Listed(d)
    ensures Listed(Run(d, ops))
    decreases |ops|
  {
    hide Listed, Step;
    if ops == [] {
    } else {
      RunListed(d, ops[..|ops| - 1]);
      StepListed(Run(d, ops[..|ops| - 1]), ops[|ops| - 1]);
    }
  }

  /** Over any run, archives and live store together hold every inserted record exactly once, in order of insertion. */
  lemma {:induction false} NothingLost(d: Disk, ops: seq<Op>)
    requires Listed(d)
    ensures History(Run(d, ops)) == Joined(History(d), AllInserted(d, ops))
    decreases |ops|
  {
    hide History, Inserted, Step, Listed;
    if ops == [] {
      JoinNothing(History(d));
    } else {
      var before := ops[..|ops| - 1];
      NothingLost(d, before);
      RunListed(d, before);
      StepInserts(Run(d, before), ops[|ops| - 1]);
      JoinAssociates(History(d), AllInserted(d, before), Inserted(Run(d, before), ops[|ops| - 1]));
    }
  }

  // ---------------------------------------------------------------- archives

  /** Every file of the archive directory keeps its name and its content. */
  ghost predicate ArchivesKept(d: Disk, t: Disk) {
    forall name | name in d.archives :: name in t.archives && t.archives[name] == d.archives[name]
  }

  lemma StepKeepsArchives(d: Disk, op: Op)
    ensures ArchivesKept(d, Step(d, op))
  {
    hide Rotated;
    if op.Rotate? {
      var name := RotatedShape(d, op.maxRows, op.names, op.fault);
    }
  }

  /** No archive is ever overwritten, renamed or removed, although a rename would replace an existing file. */
  lemma {:induction false} ArchivesStay(d: Disk, ops: seq<Op>)
    ensures ArchivesKept(d, Run(d, ops))
    decreases |ops|
  {
    hide Step;
    if ops == [] {
    } else {
      ArchivesStay(d, ops[..|ops| - 1]);
      StepKeepsArchives(Run(d, ops[..|ops| - 1]), ops[|ops| - 1]);
    }
  }

  /** No archive has an attempt without an end. */
  ghost predicate NoPendingArchived(d: Disk) {
    forall name | name in d.archives && d.archives[name].Some? :: !AnyPending(d.archives[name].value.events)
  }

  lemma StepArchives(d: Disk, op: Op)
    requires NoPendingArchived(d)
    ensures NoPendingArchived(Step(d, op))
  {
    hide AnyPending, Rotated;
    if op.Rotate? {
      var name := RotatedShape(d, op.maxRows, op.names, op.fault);
    }
  }

  /** Over any run, no attempt goes into an archive before it has its end. */
  lemma {:induction false} NoneArchivedPending(d: Disk, ops: seq<Op>)
    requires NoPendingArchived(d)
    ensures NoPendingArchived(Run(d, ops))
    decreases |ops|
  {
    hide NoPendingArchived, Step;
    if ops == [] {
    } else {
      NoneArchivedPending(d, ops[..|ops| - 1]);
      StepArchives(Run(d, ops[..|ops| - 1]), ops[|ops| - 1]);
    }
  }

  // ---------------------------------------------------------------- pending attempts over the whole history

  /** Attempt ids are used once, ended only after they were started, and the running session's are not ended. */
  ghost predicate Numbered(d: Disk) {
    && (forall e | e in History(d).events :: e.call < d.next)
    && SessionStarted(d)
    && EventsApart(d)
  }

  ghost predicate SessionStarted(d: Disk) {
    d.session.Some? ==>
      forall c | c in d.session.value :: c < d.next && d.live.Some? && Started(c) in d.live.value.events
  }

  ghost predicate EventsApart(d: Disk) {
    forall e | e in Content(d.live).events :: forall f | f in Archived(d.archives, d.order).events :: e.call != f.call
  }

  lemma StepNumbered(d: Disk, op: Op)
    requires Numbered(d) && Listed(d)
    ensures Numbered(Step(d, op))
  {
    hide Numbered, Step, Listed;
    if op.Rotate? {
      RotateNumbered(d, op);
    } else {
      RecordBelow(d, op);
      RecordSession(d, op);
      RecordApart(d, op);
      NumberedIs(Step(d, op));
    }
  }

  lemma NumberedIs(t: Disk)
    requires (forall e | e in History(t).events :: e.call < t.next) && SessionStarted(t) && EventsApart(t)
    ensures Numbered(t)
  {}

  lemma RotateNumbered(d: Disk, op: Op)
    requires Numbered(d) && Listed(d) && op.Rotate?
    ensures Numbered(Step(d, op))
  {
    hide Archived, Rotated, AnyPending;
    RotateKeepsHistory(d, op);
    var name := RotatedShape(d, op.maxRows, op.names, op.fault);
    JoinNothing(Archived(d.archives, d.order));
    if name !in d.order {
      ArchivedAppend(d.archives, d.order, name, None);
    }
  }

  lemma RecordBelow(d: Disk, op: Op)
    requires Numbered(d) && Listed(d) && !op.Rotate?
    ensures forall e | e in History(Step(d, op)).events :: e.call < Step(d, op).next
  {
    hide History, Archived, Listed;
    StepInserts(d, op);
  }

  lemma RecordSession(d: Disk, op: Op)
    requires Numbered(d) && !op.Rotate?
    ensures SessionStarted(Step(d, op))
  {
    hide History, Archived;
  }

  lemma RecordApart(d: Disk, op: Op)
    requires Numbered(d) && !op.Rotate?
    ensures EventsApart(Step(d, op))
  {
    hide Archived, Rotated;
    var t := Step(d, op);
    assert t.archives == d.archives && t.order == d.order;
    JoinNothing(Content(d.live));
    assert Content(t.live) == Joined(Content(d.live), Inserted(d, op));
    assert forall f | f in Archived(d.archives, d.order).events :: f in History(d).events;
    assert forall e | e in Inserted(d, op).events :: op.Begin? || Started(e.call) in Content(d.live).events;
  }

  lemma {:induction false} ArchivedEnds(archives: Archives, order: seq<string>, c: nat)
    requires forall name | name in archives && archives[name].Some? :: !AnyPending(archives[name].value.events)
    requires Started(c) in Archived(archives, order).events
    ensures HasEnd(Archived(archives, order).events, c)
    decreases |order|
  {
    var last := |order| - 1;
    var before, store := Archived(archives, order[..last]).events, ContentOf(archives, order[last]).events;
    assert Archived(archives, order).events == before + store;
    HasEndJoin(before, store, c);
    if Started(c) in before {
      ArchivedEnds(archives, order[..last], c);
    } else {
      var k :| 0 <= k < |store| && store[k] == Started(c);
    }
  }

  lemma HasEndJoin(a: seq<Event>, b: seq<Event>, c: nat)
    ensures HasEnd(a + b, c) <==> HasEnd(a, c) || HasEnd(b, c)
  {
    if HasEnd(a + b, c) {
      var i :| 0 <= i < |a + b| && Ends((a + b)[i], c);
      if i < |a| {
        assert Ends(a[i], c);
      } else {
        assert Ends(b[i - |a|], c);
      }
    }
    if HasEnd(a, c) {
      var i :| 0 <= i < |a| && Ends(a[i], c);
      assert Ends((a + b)[i], c);
    }
    if HasEnd(b, c) {
      var i :| 0 <= i < |b| && Ends(b[i], c);
      assert Ends((a + b)[|a| + i], c);
    }
  }

  lemma EndsAreMembers(events: seq<Event>, c: nat)
    ensures HasEnd(events, c) ==> exists e :: e in events && e.call == c
  {}

  /** What the live store reports as pending is exactly what is pending in the whole history. */
  lemma PendingIsLive(d: Disk, c: nat)
    requires Numbered(d) && NoPendingArchived(d)
    ensures Pending(History(d).events, c) <==> Pending(Content(d.live).events, c)
  {
    hide Archived, AnyPending, HasEnd, Content;
    var archived, live := Archived(d.archives, d.order).events, Content(d.live).events;
    assert History(d).events == archived + live;
    HasEndJoin(archived, live, c);
    EndsAreMembers(archived, c);
    if Started(c) in archived {
      ArchivedEnds(d.archives, d.order, c);
      assert Started(c) !in live;
    }
  }

  lemma {:induction false} RunNumbered(d: Disk, ops: seq<Op>)
    requires Listed(d) && Numbered(d)
    ensures Numbered(Run(d, ops))
    decreases |ops|
  {
    hide Listed, Numbered, Step;
    if ops == [] {
    } else {
      RunNumbered(d, ops[..|ops| - 1]);
      RunListed(d, ops[..|ops| - 1]);
      StepNumbered(Run(d, ops[..|ops| - 1]), ops[|ops| - 1]);
    }
  }

  const NOTHING := Disk(None, map[], [], None, 0)

  lemma NothingYet()
    ensures Listed(NOTHING) && Numbered(NOTHING) && NoPendingArchived(NOTHING)
  {}

  /** From an empty directory, whatever happens: no archive hides an unfinished attempt. */
  lemma PendingStaysVisible(ops: seq<Op>, c: nat)
    ensures var d := Run(NOTHING, ops); Pending(History(d).events, c) <==> Pending(Content(d.live).events, c)
  {
    hide Listed, Numbered, NoPendingArchived, Run, History;
    NothingYet();
    RunNumbered(NOTHING, ops);
    NoneArchivedPending(NOTHING, ops);
    PendingIsLive(Run(NOTHING, ops), c);
  }
}
