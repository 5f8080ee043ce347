/** The tables of the index: transactional rebuild, link queries in both directions, and grouped conflicts. */
module VaultIndex {
  import opened Text

  datatype Note = Note(path: string, links: seq<string>)

  datatype Link = Link(source: string, target: string)

  datatype Conflict = Conflict(canonical: string, conflict: string)

  datatype Group = Group(canonical: string, conflicts: seq<string>)

  datatype Tables = Tables(notes: seq<Note>, links: seq<Link>, conflicts: seq<Conflict>)

  function LinksOf(source: string, targets: seq<string>): seq<Link> {
    seq(|targets|, i requires 0 <= i < |targets| => Link(source, targets[i]))
  }

  function AllLinks(notes: seq<Note>): seq<Link> {
    if notes == [] then []
    else AllLinks(notes[..|notes| - 1]) + LinksOf(notes[|notes| - 1].path, notes[|notes| - 1].links)
  }

  /** Sources of links to a target that are not blocked, each once. */
  ghost predicate IsBacklinks(links: seq<Link>, blocked: string -> bool, target: string, sources: seq<string>) {
    && (forall i, j | 0 <= i < j < |sources| :: sources[i] != sources[j])
    && (forall s :: s in sources <==> Link(s, target) in links && !blocked(s))
  }

  function Targets(links: seq<Link>, source: string): seq<string> {
    if links == [] then []
    else
      var last := links[|links| - 1];
      Targets(links[..|links| - 1], source) + if last.source == source then [last.target] else []
  }

  /** The number of rows that a rebuild inserts. */
  function Inserts(notes: seq<Note>, conflicts: seq<Conflict>): nat { 2 * |notes| + |AllLinks(notes)| + |conflicts| }

  class Index {
    var tables: Tables
    var journal: Option<Tables>   // the tables as they were when the open transaction began
    const blocked: string -> bool

    constructor (blocked: string -> bool)
      ensures this.blocked == blocked && tables == Tables([], [], []) && journal == None
    {
      this.blocked := blocked;
      tables, journal := Tables([], [], []), None;
    }

    /** What is left of a transaction that did not commit is undone from the journal. */
    method Rollback()
      modifies this`tables, this`journal
      ensures tables == (if old(journal).Some? then old(journal).value else old(tables)) && journal == None
    {
      if journal.Some? {
        tables := journal.value;
      }
      journal := None;
    }

    /**
     * Clears and refills all tables in place inside a transaction. Any insert may fail; the transaction is then
     * rolled back. A note takes an insert into each of its two tables and one for each of its links.
     */
    method Rebuild(notes: seq<Note>, conflicts: seq<Conflict>, inserts: nat) returns (ok: bool)
      requires journal == None
      modifies this`tables, this`journal
      ensures ok <==> inserts >= Inserts(notes, conflicts)
      ensures tables == if ok then Tables(notes, AllLinks(notes), conflicts) else old(tables)
      ensures journal == None
    {
      journal := Some(tables);
      tables := Tables([], [], []);
      var left: nat := inserts;
      for i := 0 to |notes|
        invariant journal == Some(old(tables)) && tables == Tables(notes[..i], AllLinks(notes[..i]), [])
        invariant left + 2 * i + |AllLinks(notes[..i])| == inserts
      {
        LinksStep(notes, i);
        LinksGrow(notes, i + 1);
        var note := notes[i];
        if left < 2 {
          Rollback();
          return false;
        }
        left := left - 2;
        tables := tables.(notes := tables.notes + [note]);
        var before := tables.links;
        assert notes[..i + 1] == notes[..i] + [note];
        assert before + LinksOf(note.path, note.links[..0]) == before;
        for j := 0 to |note.links|
          invariant journal == Some(old(tables))
          invariant tables == Tables(notes[..i + 1], before + LinksOf(note.path, note.links[..j]), [])
          invariant left + 2 * (i + 1) + |before| + j == inserts
        {
          if left == 0 {
            Rollback();
            return false;
          }
          left := left - 1;
          tables := tables.(links := tables.links + [Link(note.path, note.links[j])]);
          LinksAppend(note.path, note.links, j);
          AppendAssociates(before, LinksOf(note.path, note.links[..j]), [Link(note.path, note.links[j])]);
        }
        assert note.links[..|note.links|] == note.links;
      }
      assert notes[..|notes|] == notes;
      for i := 0 to |conflicts|
        invariant journal == Some(old(tables)) && tables == Tables(notes, AllLinks(notes), conflicts[..i])
        invariant left + 2 * |notes| + |AllLinks(notes)| + i == inserts
      {
        if left == 0 {
          Rollback();
          return false;
        }
        left := left - 1;
        tables := tables.(conflicts := tables.conflicts + [conflicts[i]]);
        assert conflicts[..i + 1] == conflicts[..i] + [conflicts[i]];
      }
      assert conflicts[..|conflicts|] == conflicts;
      journal := None;
      return true;
    }

    method Backlinks(target: string) returns (sources: seq<string>)
      ensures IsBacklinks(tables.links, blocked, target, sources)
    {
      sources := [];
      for i := 0 to |tables.links|
        invariant IsBacklinks(tables.links[..i], blocked, target, sources)
      {
        var link := tables.links[i];
        assert tables.links[..i + 1] == tables.links[..i] + [link];
        if link.target == target && link.source !in sources && !blocked(link.source) {
          sources := sources + [link.source];
        }
      }
      assert tables.links[..|tables.links|] == tables.links;
    }

    method OutgoingLinks(source: string) returns (targets: seq<string>)
      ensures targets == if blocked(source) then [] else Targets(tables.links, source)
    {
      targets := [];
      if blocked(source) {
        return;
      }
      for i := 0 to |tables.links|
        invariant targets == Targets(tables.links[..i], source)
      {
        assert tables.links[..i + 1][..i] == tables.links[..i];
        if tables.links[i].source == source {
          targets := targets + [tables.links[i].target];
        }
      }
      assert tables.links[..|tables.links|] == tables.links;
    }

    /** The conflict rows, ordered by canonical path, grouped by extending the last group in place. */
    method ListConflicts() returns (groups: seq<Group>)
      requires Contiguous(tables.conflicts)
      ensures Rows(groups) == Visible(tables.conflicts, blocked)
      ensures forall i, j | 0 <= i < j < |groups| :: groups[i].canonical != groups[j].canonical
      ensures forall i | 0 <= i < |groups| :: groups[i].conflicts != []
    {
      hide Rows, Visible, Contiguous, Starts;
      NoRows(blocked);
      groups := [];
      ghost var starts: seq<nat> := [];
      for i := 0 to |tables.conflicts|
        invariant Rows(groups) == Visible(tables.conflicts[..i], blocked)
        invariant Starts(groups, tables.conflicts[..i], starts)
      {
        var row := tables.conflicts[i];
        VisibleStep(tables.conflicts, i, blocked);
        if blocked(row.canonical) || blocked(row.conflict) {
          StartsStay(groups, tables.conflicts, i, starts);
        } else if groups != [] && groups[|groups| - 1].canonical == row.canonical {
          var last := |groups| - 1;
          RowsExtend(groups, row);
          StartsExtend(groups, tables.conflicts, i, starts);
          groups := groups[last := groups[last].(conflicts := groups[last].conflicts + [row.conflict])];
        } else {
          NewCanonical(tables.conflicts, i, groups, starts);
          RowsAppend(groups, row);
          groups := groups + [Group(row.canonical, [row.conflict])];
          starts := starts + [i];
        }
      }
      assert tables.conflicts[..|tables.conflicts|] == tables.conflicts;
      StartsMean(groups, tables.conflicts, starts);
    }
  }

  lemma LinksStep(notes: seq<Note>, i: nat)
    requires i < |notes|
    ensures AllLinks(notes[..i + 1]) == AllLinks(notes[..i]) + LinksOf(notes[i].path, notes[i].links)
  {
    assert notes[..i + 1][..i] == notes[..i];
  }

  /** More notes have more links. */
  lemma {:induction false} LinksGrow(notes: seq<Note>, i: nat)
    requires i <= |notes|
    ensures |AllLinks(notes[..i])| <= |AllLinks(notes)|
    decreases |notes| - i
  {
    if i == |notes| {
      assert notes[..i] == notes;
    } else {
      LinksStep(notes, i);
      LinksGrow(notes, i + 1);
    }
  }

  lemma LinksAppend(path: string, targets: seq<string>, j: nat)
    requires j < |targets|
    ensures LinksOf(path, targets[..j + 1]) == LinksOf(path, targets[..j]) + [Link(path, targets[j])]
  {}

  // ---------------------------------------------------------------- links in both directions

  lemma {:induction false} TargetIn(links: seq<Link>, source: string, target: string)
    ensures target in Targets(links, source) <==> Link(source, target) in links
  {
    if links == [] {
    } else {
      var last := |links| - 1;
      TargetIn(links[..last], source, target);
      assert links == links[..last] + [links[last]];
    }
  }

  /** Backlinks and outgoing links are converse relations between unblocked sources and all targets. */
  lemma Converse(links: seq<Link>, blocked: string -> bool, source: string, target: string, sources: seq<string>)
    requires IsBacklinks(links, blocked, target, sources) && !blocked(source)
    ensures source in sources <==> target in Targets(links, source)
  {
    TargetIn(links, source, target);
  }

  lemma {:induction false} LinkIn(notes: seq<Note>, source: string, target: string)
    ensures Link(source, target) in AllLinks(notes)
        <==> exists i :: 0 <= i < |notes| && notes[i].path == source && target in notes[i].links
  {
    if notes == [] {
    } else {
      var last := |notes| - 1;
      var before := notes[..last];
      LinkIn(before, source, target);
      assert forall i | 0 <= i < last :: before[i] == notes[i];
      LinksHave(notes[last].path, notes[last].links, source, target);
    }
  }

  lemma LinksHave(path: string, targets: seq<string>, source: string, target: string)
    ensures Link(source, target) in LinksOf(path, targets) <==> path == source && target in targets
  {
    var links := LinksOf(path, targets);
    assert forall i | 0 <= i < |targets| :: links[i] == Link(path, targets[i]);
    if path == source && target in targets {
      var i :| 0 <= i < |targets| && targets[i] == target;
      assert links[i] == Link(source, target);
    }
  }

  /** After a rebuild, both directions show the links of the published notes. */
  lemma PublishedLinks(notes: seq<Note>, blocked: string -> bool, source: string, target: string, sources: seq<string>)
    requires IsBacklinks(AllLinks(notes), blocked, target, sources) && !blocked(source)
    ensures source in sources <==> exists i :: 0 <= i < |notes| && notes[i].path == source && target in notes[i].links
    ensures target in Targets(AllLinks(notes), source) <==> source in sources
  {
    LinkIn(notes, source, target);
    Converse(AllLinks(notes), blocked, source, target, sources);
  }

  // ---------------------------------------------------------------- conflict groups

  /** Rows of one canonical path are next to each other. */
  ghost predicate Contiguous(rows: seq<Conflict>) {
    forall i, j, k | 0 <= i < j < k < |rows| && rows[i].canonical == rows[k].canonical ::
        rows[j].canonical == rows[i].canonical
  }

  function Visible(rows: seq<Conflict>, blocked: string -> bool): seq<Conflict> {
    if rows == [] then []
    else
      var last := rows[|rows| - 1];
      Visible(rows[..|rows| - 1], blocked) + if blocked(last.canonical) || blocked(last.conflict) then [] else [last]
  }

  function GroupRows(g: Group): seq<Conflict> {
    seq(|g.conflicts|, i requires 0 <= i < |g.conflicts| => Conflict(g.canonical, g.conflicts[i]))
  }

  /** The rows that some groups stand for, in order. */
  function Rows(groups: seq<Group>): seq<Conflict> {
    if groups == [] then [] else Rows(groups[..|groups| - 1]) + GroupRows(groups[|groups| - 1])
  }

  lemma RowsAppend(groups: seq<Group>, row: Conflict)
    ensures Rows(groups + [Group(row.canonical, [row.conflict])]) == Rows(groups) + [row]
  {}

  lemma RowsExtend(groups: seq<Group>, row: Conflict)
    requires groups != [] && groups[|groups| - 1].canonical == row.canonical
    ensures var last := |groups| - 1;
      Rows(groups[last := groups[last].(conflicts := groups[last].conflicts + [row.conflict])]) == Rows(groups) + [row]
  {}

  lemma NoRows(blocked: string -> bool)
    ensures Rows([]) == Visible([], blocked) && Starts([], [], [])
  {}

  lemma VisibleStep(rows: seq<Conflict>, i: nat, blocked: string -> bool)
    requires i < |rows|
    ensures Visible(rows[..i + 1], blocked)
         == Visible(rows[..i], blocked)
            + if blocked(rows[i].canonical) || blocked(rows[i].conflict) then [] else [rows[i]]
  {
    assert rows[..i + 1][..i] == rows[..i];
  }

  /** Where in the rows each group began; the groups are of distinct canonical paths, and not empty. */
  ghost predicate Starts(groups: seq<Group>, rows: seq<Conflict>, starts: seq<nat>) {
    && |starts| == |groups|
    && (forall a | 0 <= a < |groups| ::
        starts[a] < |rows| && rows[starts[a]].canonical == groups[a].canonical && groups[a].conflicts != [])
    && (forall a, b | 0 <= a < b < |groups| :: starts[a] < starts[b] && groups[a].canonical != groups[b].canonical)
  }

  lemma StartsMean(groups: seq<Group>, rows: seq<Conflict>, starts: seq<nat>)
    requires Starts(groups, rows, starts)
    ensures forall a, b | 0 <= a < b < |groups| :: groups[a].canonical != groups[b].canonical
    ensures forall a | 0 <= a < |groups| :: groups[a].conflicts != []
  {}

  lemma StartsStay(groups: seq<Group>, rows: seq<Conflict>, i: nat, starts: seq<nat>)
    requires i < |rows| && Starts(groups, rows[..i], starts)
    ensures Starts(groups, rows[..i + 1], starts)
  {
    assert forall m | 0 <= m < i :: rows[..i + 1][m] == rows[..i][m];
  }

  lemma StartsExtend(groups: seq<Group>, rows: seq<Conflict>, i: nat, starts: seq<nat>)
    requires i < |rows| && Starts(groups, rows[..i], starts) && groups != []
    ensures var last := |groups| - 1;
      Starts(groups[last := groups[last].(conflicts := groups[last].conflicts + [rows[i].conflict])], rows[..i + 1],
          starts)
  {
    assert forall m | 0 <= m < i :: rows[..i + 1][m] == rows[..i][m];
  }

  /** A canonical path that is not the last group's has no group yet. */
  lemma NewCanonical(rows: seq<Conflict>, i: nat, groups: seq<Group>, starts: seq<nat>)
    requires Contiguous(rows) && i < |rows| && Starts(groups, rows[..i], starts)
    requires groups != [] ==> groups[|groups| - 1].canonical != rows[i].canonical
    ensures forall conflict :: Starts(groups + [Group(rows[i].canonical, [conflict])], rows[..i + 1], starts + [i])
  {}

  // ---------------------------------------------------------------- what the queries show, row by row

  /** Outgoing links list each target as often as the source links to it. */
  lemma {:induction false} TargetCount(links: seq<Link>, source: string, target: string)
    ensures multiset(Targets(links, source))[target] == multiset(links)[Link(source, target)]
  {
    if links == [] {
    } else {
      var last := |links| - 1;
      TargetCount(links[..last], source, target);
      assert links == links[..last] + [links[last]];
    }
  }

  lemma {:induction false} VisibleIn(rows: seq<Conflict>, blocked: string -> bool, row: Conflict)
    ensures row in Visible(rows, blocked) <==> row in rows && !blocked(row.canonical) && !blocked(row.conflict)
  {
    if rows == [] {
    } else {
      var last := |rows| - 1;
      VisibleIn(rows[..last], blocked, row);
      assert rows == rows[..last] + [rows[last]];
    }
  }

  lemma {:induction false} RowIn(groups: seq<Group>, row: Conflict)
    ensures row in Rows(groups)
       <==> exists i :: 0 <= i < |groups| && groups[i].canonical == row.canonical && row.conflict in groups[i].conflicts
  {
    if groups == [] {
    } else {
      var last := |groups| - 1;
      RowIn(groups[..last], row);
      GroupHas(groups[last], row);
      assert forall i | 0 <= i < last :: groups[..last][i] == groups[i];
    }
  }

  lemma GroupHas(g: Group, row: Conflict)
    ensures row in GroupRows(g) <==> g.canonical == row.canonical && row.conflict in g.conflicts
  {
    if g.canonical == row.canonical && row.conflict in g.conflicts {
      var i :| 0 <= i < |g.conflicts| && g.conflicts[i] == row.conflict;
      assert GroupRows(g)[i] == row;
    }
  }

  /** A listed group shows a conflict exactly when it is a row of which neither path is blocked. */
  lemma GroupsShow(
      rows: seq<Conflict>, blocked: string -> bool, groups: seq<Group>, canonical: string, conflict: string)
    requires Rows(groups) == Visible(rows, blocked)
    ensures (exists i :: 0 <= i < |groups| && groups[i].canonical == canonical && conflict in groups[i].conflicts)
       <==> Conflict(canonical, conflict) in rows && !blocked(canonical) && !blocked(conflict)
  {
    RowIn(groups, Conflict(canonical, conflict));
    VisibleIn(rows, blocked, Conflict(canonical, conflict));
  }
}
