/** The text that each mutation makes of a note, told by the note's own fields, body and sections. */
module WriterTexts {
  import opened Text
  import opened Frontmatter
  import opened FrontmatterLaws
  import opened UpdateLaws
  import opened Writer
  import opened WriterInvariant
  import opened WriterRuns
  import opened WriterSafety
  import Markers

  /** Field maps come in key order. */
  ghost predicate Ordered(op: Mutation) {
    match op
    case Create(_, fields) => Sorted(fields)
    case Replace(_, fields) => Sorted(fields)
    case UpdateFields(updates) => Sorted(updates)
    case _ => true
  }

  // ---------------------------------------------------------------- what each mutation makes

  /** The caller's content behind the caller's fields, and nothing of any text that was there before. */
  ghost predicate WritesNote(nf: NumberFormat, content: string, fields: Fields, next: string) {
    && Writable(fields)
    && (if fields == [] then next == content else next == "---\n" + FieldText(nf, fields) + "---\n" + content)
    && (fields != [] && NoLateDashKey(fields) && !HasCrlf(content)
        ==> ParseMarkdown(nf, next) == Note(CanonicalFields(fields), content))
  }

  /** The note's own body behind its own fields, where the updates win. */
  ghost predicate MergesFields(nf: NumberFormat, current: string, updates: Fields, next: string) {
    var note := ParseMarkdown(nf, current);
    exists merged: Fields ::
      && Sorted(merged) && Writable(merged)
      && (forall key :: Lookup(merged, key)
            == if Lookup(updates, key).Some? then Lookup(updates, key) else Lookup(note.fields, key))
      && (if merged == [] then next == note.body else next == "---\n" + FieldText(nf, merged) + "---\n" + note.body)
      && (merged != [] && NoLateDashKey(merged) && !HasCrlf(note.body)
          ==> ParseMarkdown(nf, next) == Note(CanonicalFields(merged), note.body))
  }

  function OpeningMarker(name: string): string { "<!-- mcp:section " + name + " start -->" }

  function ClosingMarker(name: string): string { "<!-- mcp:section " + name + " end -->" }

  ghost predicate FirstAt(text: string, pattern: string, i: nat) {
    OccursAt(text, pattern, i) && forall j | 0 <= j < i :: !OccursAt(text, pattern, j)
  }

  /** The text between the section's first markers is replaced, and every character up to and from them is kept. */
  ghost predicate ReplacesSection(current: string, name: string, section: string, next: string) {
    exists start: nat, end: nat ::
      && FirstAt(current, OpeningMarker(name), start) && FirstAt(current, ClosingMarker(name), end) && start < end
      && next == current[..start + |OpeningMarker(name)|] + "\n" + section + "\n" + current[end..]
  }

  /** The text that is made of the current one. */
  ghost predicate Makes(nf: NumberFormat, op: Mutation, current: string, next: string) {
    match op
    case Create(content, fields) => WritesNote(nf, content, fields, next)
    case Replace(content, fields) => WritesNote(nf, content, fields, next)
    case UpdateFields(updates) => MergesFields(nf, current, updates, next)
    case ReplaceSection(marker, section) => ReplacesSection(current, marker, section, next)
    case _ => false
  }

  // ---------------------------------------------------------------- and it is made

  lemma WritesExactly(nf: NumberFormat, content: string, fields: Fields, next: string)
    requires Lawful(nf) && Sorted(fields)
    ensures WritesNote(nf, content, fields, next) <==> Writable(fields) && next == Rendered(nf, content, fields)
  {
    hide FieldText, ParseMarkdown, NoLateDashKey, HasCrlf, Lawful, Sorted, Writable, CanonicalFields;
    if Writable(fields) && fields != [] {
      RoundTripExactly(nf, content, fields);
    }
  }

  lemma MergesExactly(nf: NumberFormat, current: string, updates: Fields, next: string)
    requires Lawful(nf) && Sorted(updates)
    ensures MergesFields(nf, current, updates, next) <==> Updated(nf, current, updates) == Ok(next)
  {
    hide FieldText, ParseMarkdown, NoLateDashKey, HasCrlf, Lawful, Sorted, Writable, CanonicalFields, Lookup, Extend;
    var note := ParseMarkdown(nf, current);
    var merged := Extend(note.fields, updates);
    ParsedNote(nf, current);
    ExtendSorted(note.fields, updates);
    forall key ensures Lookup(merged, key)
        == if Lookup(updates, key).Some? then Lookup(updates, key) else Lookup(note.fields, key) {
      ExtendLookup(note.fields, updates, key);
    }
    if Writable(merged) && merged != [] {
      RoundTripExactly(nf, note.body, merged);
    }
    if other: Fields :|
      && Sorted(other) && Writable(other)
      && (forall key :: Lookup(other, key)
            == if Lookup(updates, key).Some? then Lookup(updates, key) else Lookup(note.fields, key))
      && (if other == [] then next == note.body else next == "---\n" + FieldText(nf, other) + "---\n" + note.body)
      && (other != [] && NoLateDashKey(other) && !HasCrlf(note.body)
          ==> ParseMarkdown(nf, next) == Note(CanonicalFields(other), note.body)) {
      SameLookups(merged, other);
    }
  }

  lemma FirstIsFound(text: string, pattern: string, i: nat)
    ensures FirstAt(text, pattern, i) <==> Find(text, pattern) == Some(i)
  {
    hide OccursAt, FindFrom;
  }

  lemma ReplacesExactly(current: string, name: string, section: string, next: string)
    ensures ReplacesSection(current, name, section, next)
       <==> Markers.ReplaceMarker(current, name, section) == Some(next)
  {
    hide FirstAt;
    forall i: nat ensures FirstAt(current, OpeningMarker(name), i) <==> Find(current, OpeningMarker(name)) == Some(i) {
      FirstIsFound(current, OpeningMarker(name), i);
    }
    forall i: nat ensures FirstAt(current, ClosingMarker(name), i) <==> Find(current, ClosingMarker(name)) == Some(i) {
      FirstIsFound(current, ClosingMarker(name), i);
    }
  }

  /** The writer makes exactly that text. */
  lemma MakesExactly(nf: NumberFormat, op: Mutation, current: string, next: string)
    requires Lawful(nf) && Ordered(op)
    ensures Makes(nf, op, current, next) <==> NextText(nf, op, current) == Ok(next)
  {
    hide WritesNote, MergesFields, ReplacesSection, Updated, Rendered, Markers.ReplaceMarker, Lawful, Writable, Sorted;
    match op
    case Create(content, fields) => WritesExactly(nf, content, fields, next);
    case Replace(content, fields) => WritesExactly(nf, content, fields, next);
    case UpdateFields(updates) => MergesExactly(nf, current, updates, next);
    case ReplaceSection(marker, section) => ReplacesExactly(current, marker, section, next);
    case _ =>
  }

  // ---------------------------------------------------------------- when none is made

  lemma {:induction false} UpdateInMerge(fields: Fields, updates: Fields, f: Field)
    requires Sorted(fields) && Sorted(updates) && f in updates
    ensures f in Extend(fields, updates)
  {
    SortedLookup(updates, f);
    ExtendLookup(fields, updates, f.key);
    LookupMember(Extend(fields, updates), f.key);
  }

  lemma {:induction false} SortedLookup(fields: Fields, f: Field)
    requires Sorted(fields) && f in fields
    ensures Lookup(fields, f.key) == Some(f.value)
  {
    if f == fields[0] {
    } else {
      var i :| 1 <= i < |fields| && fields[i] == f;
      BelowIrreflexive(f.key);
      SortedTail(fields);
      assert fields[1..][i - 1] == f;
      SortedLookup(fields[1..], f);
    }
  }

  /** The first opening marker comes before the first closing one. */
  ghost predicate HasSection(current: string, name: string) {
    exists start: nat, end: nat ::
      FirstAt(current, OpeningMarker(name), start) && FirstAt(current, ClosingMarker(name), end) && start < end
  }

  /** Why no text can be made: a field that cannot be written, or a section that is not there. */
  ghost predicate Unmakeable(op: Mutation, current: string, code: string) {
    match op
    case Create(_, fields) => !Writable(fields) && code == "invalid_frontmatter"
    case Replace(_, fields) => !Writable(fields) && code == "invalid_frontmatter"
    case UpdateFields(updates) => !Writable(updates) && code == "invalid_frontmatter"
    case ReplaceSection(marker, _) => !HasSection(current, marker) && code == "markers_missing"
    case _ => false
  }

  lemma UpdateRefused(nf: NumberFormat, current: string, updates: Fields)
    requires Sorted(updates)
    ensures Updated(nf, current, updates).Err? <==> !Writable(updates)
    ensures Updated(nf, current, updates).Err? ==> Updated(nf, current, updates).code == "invalid_frontmatter"
  {
    hide Extend, Sorted, ParseMarkdown, Rendered, ValidKey;
    var fields := ParseMarkdown(nf, current).fields;
    ParsedNote(nf, current);
    if Writable(updates) {
      ExtendParsed(fields, updates);
    } else {
      var f :| f in updates && !(ValidKey(f.key) && f.value.Printable());
      UpdateInMerge(fields, updates, f);
    }
  }

  lemma SectionRefused(current: string, name: string, section: string)
    ensures Markers.ReplaceMarker(current, name, section).None? <==> !HasSection(current, name)
  {
    hide FirstAt;
    if start: nat, end: nat :|
      FirstAt(current, OpeningMarker(name), start) && FirstAt(current, ClosingMarker(name), end) && start < end {
      FirstIsFound(current, OpeningMarker(name), start);
      FirstIsFound(current, ClosingMarker(name), end);
    }
    if Markers.ReplaceMarker(current, name, section).Some? {
      FirstIsFound(current, OpeningMarker(name), Find(current, OpeningMarker(name)).value);
      FirstIsFound(current, ClosingMarker(name), Find(current, ClosingMarker(name)).value);
    }
  }

  /** An edit makes a text or is refused, with the code that tells why. */
  lemma RefusedExactly(nf: NumberFormat, op: Mutation, current: string, code: string)
    requires Ordered(op) && !op.Delete? && !op.HardDelete?
    ensures NextText(nf, op, current) == Err(code) <==> Unmakeable(op, current, code)
  {
    hide Updated, Rendered, Markers.ReplaceMarker, Writable, Sorted, HasSection;
    match op
    case UpdateFields(updates) => UpdateRefused(nf, current, updates);
    case ReplaceSection(marker, section) => SectionRefused(current, marker, section);
    case _ =>
  }

  // ---------------------------------------------------------------- logged changes and results

  /** A call's own logged change: a create of a free name, an edit or a delete of the text that was there. */
  ghost predicate ChangeMade(nf: NumberFormat, op: Mutation, before: Option<string>, after: Option<string>) {
    match op
    case Create(_, _) => before == None && after.Some? && Makes(nf, op, "", after.value)
    case Delete => before.Some? && after == None
    case HardDelete => before.Some? && after == None
    case _ => before.Some? && after.Some? && Makes(nf, op, before.value, after.value)
  }

  lemma SoundMade(cfg: Config, c: nat, k: Call, e: Entry)
    requires Sound(cfg, c, k, e) && e.own && Lawful(cfg.nf) && Ordered(k.op)
    ensures ChangeMade(cfg.nf, k.op, e.before, e.after)
  {
    hide Makes, NextText, Lawful, Ordered;
    if e.after.Some? {
      MakesExactly(cfg.nf, k.op, if e.before.Some? then e.before.value else "", e.after.value);
    }
  }

  /** Every change a call ever made to its own note is the one its mutation asks for. */
  lemma EveryChangeIsMade(cfg: Config, t: State, i: nat)
    requires Reachable(cfg, t) && i < |t.history| && t.history[i].own && Lawful(cfg.nf)
    requires t.history[i].call in t.calls ==> Ordered(t.calls[t.history[i].call].op)
    ensures var e := t.history[i];
      e.call in t.calls && e.name == Identity(cfg, t.calls[e.call])
      && ChangeMade(cfg.nf, t.calls[e.call].op, e.before, e.after)
  {
    hide Reachable, Inv, Sound, ChangeMade, Ordered, LastAfter, Lawful;
    NoLostUpdate(cfg, t, i);
    var e := t.history[i];
    SoundMade(cfg, e.call, t.calls[e.call], e);
    SoundOwn(cfg, e.call, t.calls[e.call], e);
  }

  /** The call's one own change, with the hash its result carries. */
  ghost predicate SucceededBy(cfg: Config, t: State, c: nat, hash: Hash, i: nat)
    requires c in t.calls
  {
    var k := t.calls[c];
    && i < |t.history| && t.history[i].call == c && t.history[i].name == Identity(cfg, k)
    && ChangeMade(cfg.nf, k.op, t.history[i].before, t.history[i].after)
    && Some(hash.text) == (if k.op.Delete? || k.op.HardDelete? then t.history[i].before else t.history[i].after)
  }

  lemma SuccessOwnEntry(cfg: Config, c: nat, k: Call, hash: Hash, deleted: Option<string>)
    requires OutcomeShape(cfg, c, k, Success(hash, deleted))
    ensures var e := OwnEntry(cfg, c, k, if k.op.Delete? || k.op.HardDelete? then None else Some(hash.text));
      e in k.entries && (if k.op.Delete? || k.op.HardDelete? then e.before == Some(hash.text) else true)
  {
    hide NextText;
  }

  /** A call returns success only with such a change on disk, and with the hash of the text it made or removed. */
  lemma SuccessIsMade(cfg: Config, t: State, c: nat, hash: Hash, deleted: Option<string>) returns (i: nat)
    requires Reachable(cfg, t) && c in t.calls && Lawful(cfg.nf) && Ordered(t.calls[c].op)
    requires t.calls[c].stage == Returned(Success(hash, deleted))
    ensures SucceededBy(cfg, t, c, hash, i)
  {
    hide Reachable, LockInv, DiskInv, TempInv, HoldInv, AuditInv, ChangeMade, Ordered, Lawful, EntriesOf, OutcomeShape;
    hide LastAfter;
    var k := t.calls[c];
    assert Shape(cfg, c, k);
    SuccessOwnEntry(cfg, c, k, hash, deleted);
    assert EntriesOf(t.history, c) == EntriesMade(t, c);
    var e := OwnEntry(cfg, c, k, if k.op.Delete? || k.op.HardDelete? then None else Some(hash.text));
    i := OfLogged(t.history, c, e);
    EveryChangeIsMade(cfg, t, i);
  }

  // ---------------------------------------------------------------- what a replaced section shows

  /** With a plain name and no end marker in the new text, the section shows it, and replacing it again undoes. */
  lemma SectionShows(current: string, name: string, section: string, next: string)
    requires ReplacesSection(current, name, section, next) && Markers.PlainName(name)
    requires !Contains(section, ClosingMarker(name))
    ensures Markers.MarkerRange(current, name).Some? && Markers.MarkerRange(next, name).Some?
    ensures var (from, to) := Markers.MarkerRange(current, name).value;
      var (again, close) := Markers.MarkerRange(next, name).value;
      && next[..again] == current[..from] && next[close..] == current[to..]
      && next[again..close] == "\n" + section + "\n"
  {
    hide ReplacesSection, Contains, OccursAt;
    ReplacesExactly(current, name, section, next);
    Markers.SameAcceptance(current, name, section);
    Markers.ReplaceKeeps(current, name, section);
  }
}
