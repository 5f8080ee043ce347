/** Marker sections: the writer's section replacement and the daily note's appends and repairs. */
module Markers {
  import opened Text

  function StartMarker(name: string): string { "<!-- mcp:section " + name + " start -->" }

  function EndMarker(name: string): string { "<!-- mcp:section " + name + " end -->" }

  /** A name that cannot hold the beginning of another marker. */
  predicate PlainName(name: string) {
    '<' !in name && '\n' !in name
  }

  /** `replace_marker`. */
  function ReplaceMarker(current: string, name: string, content: string): Option<string> {
    match (Find(current, StartMarker(name)), Find(current, EndMarker(name)))
    case (Some(start), Some(end)) =>
      if start < end then
        var head := start + |StartMarker(name)|;
        Some(current[..head] + "\n" + content + "\n" + current[end..])
      else None
    case _ => None
  }

  /** `marker_range`: the section body between the markers. */
  function MarkerRange(content: string, name: string): (r: Option<(nat, nat)>)
    ensures r.Some? ==> r.value.0 <= r.value.1 <= |content|
  {
    match (Find(content, StartMarker(name)), Find(content, EndMarker(name)))
    case (Some(start), Some(end)) =>
      var from := start + |StartMarker(name)|;
      if end >= from then Some((from, end)) else None
    case _ => None
  }

  /** The trimmed text of the section. */
  function Section(note: string, name: string): string
    requires MarkerRange(note, name).Some?
  {
    var (from, to) := MarkerRange(note, name).value;
    Trim(note[from..to])
  }

  /** `daily_note_append` on the text of the note: the new text, or none when the markers are missing. */
  function Append(note: string, name: string, entry: string): Option<string> {
    match MarkerRange(note, name)
    case None => None
    case Some((from, to)) =>
      var existing := Trim(note[from..to]);
      ReplaceMarker(note, name, if existing == "" then entry else TrimEnd(existing) + "\n" + entry)
  }

  // ---------------------------------------------------------------- markers do not overlap

  lemma MarkerShape(name: string, marker: string)
    requires PlainName(name) && (marker == StartMarker(name) || marker == EndMarker(name))
    ensures |marker| > 20 && marker[0] == '<' && forall i | 1 <= i < |marker| :: marker[i] != '<'
    ensures '\n' !in marker && marker[|marker| - 1] == '>'
  {
    MarkerPieces("!-- mcp:section ", name, if marker == StartMarker(name) then " start -->" else " end -->");
  }

  lemma MarkerPieces(head: string, name: string, tail: string)
    requires '<' !in head && '<' !in name && '<' !in tail && '\n' !in head && '\n' !in name && '\n' !in tail
    requires |head| + |tail| > 20 && tail != "" && tail[|tail| - 1] == '>'
    ensures var marker := "<" + head + name + tail;
            && |marker| > 20 && marker[0] == '<' && (forall i | 1 <= i < |marker| :: marker[i] != '<')
            && '\n' !in marker && marker[|marker| - 1] == '>'
  {}

  /** Two occurrences of markers are the same place or apart. */
  lemma MarkersApart(text: string, a: string, b: string, i: int, j: int)
    requires a != "" && b != "" && a[0] == '<' && b[0] == '<'
    requires forall k | 1 <= k < |a| :: a[k] != '<'
    requires OccursAt(text, a, i) && OccursAt(text, b, j) && i < j
    ensures i + |a| <= j
  {
    assert text[j] == text[j..j + |b|][0] == '<';
    assert forall k | i <= k < i + |a| :: text[k] == text[i..i + |a|][k - i] == a[k - i];
  }

  lemma MarkersDiffer(name: string, text: string, i: int)
    requires OccursAt(text, StartMarker(name), i)
    ensures !OccursAt(text, EndMarker(name), i)
  {
    var n := 18 + |name|;
    assert StartMarker(name)[n] == 's' && EndMarker(name)[n] == 'e';
    assert text[i + n] == text[i..i + |StartMarker(name)|][n];
    assert i + |EndMarker(name)| <= |text| ==> text[i + n] == text[i..i + |EndMarker(name)|][n];
  }

  /** For plain names the writer and the daily tool accept the same notes. */
  lemma SameAcceptance(note: string, name: string, content: string)
    requires PlainName(name)
    ensures ReplaceMarker(note, name, content).Some? <==> MarkerRange(note, name).Some?
  {
    MarkerShape(name, StartMarker(name));
    MarkerShape(name, EndMarker(name));
    var start, end := Find(note, StartMarker(name)), Find(note, EndMarker(name));
    if start.Some? && end.Some? && start.value < end.value {
      MarkersApart(note, StartMarker(name), EndMarker(name), start.value, end.value);
    }
  }

  // ---------------------------------------------------------------- replacing keeps everything else

  lemma OccursInPart(text: string, part: string, from: int, pattern: string, i: int)
    requires 0 <= from && from + |part| <= |text| && text[from..from + |part|] == part
    ensures OccursAt(part, pattern, i) ==> OccursAt(text, pattern, from + i)
    ensures OccursAt(text, pattern, from + i) && 0 <= i && i + |pattern| <= |part| ==> OccursAt(part, pattern, i)
  {
    if 0 <= i && i + |pattern| <= |part| {
      SliceOfSlice(text, from, from + |part|, i, i + |pattern|);
    }
  }

  lemma FindIs(text: string, pattern: string, at: nat)
    requires OccursAt(text, pattern, at) && forall j | 0 <= j < at :: !OccursAt(text, pattern, j)
    ensures Find(text, pattern) == Some(at)
  {}

  /** A marker that lies in a text framed by newlines lies inside the frame. */
  lemma InsideFrame(framed: string, content: string, marker: string, k: int)
    requires framed == "\n" + content + "\n"
    requires marker != "" && '\n' !in marker && OccursAt(framed, marker, k)
    ensures Contains(content, marker)
  {
    assert framed[1..1 + |content|] == content && framed[0] == '\n' && framed[|content| + 1] == '\n';
    assert forall t | k <= t < k + |marker| :: framed[t] == framed[k..k + |marker|][t - k] && framed[t] in marker;
    OccursInPart(framed, content, 1, marker, k - 1);
    assert OccursAt(content, marker, k - 1);
  }

  /** An end marker inside the replaced section would be part of the new content. */
  lemma EndInside(result: string, from: nat, content: string, name: string, j: int)
    requires PlainName(name)
    requires from + |content| + 2 <= |result| && result[from..from + |content| + 2] == "\n" + content + "\n"
    requires OccursAt(result, EndMarker(name), from + |content| + 2)
    requires from <= j < from + |content| + 2 && OccursAt(result, EndMarker(name), j)
    ensures Contains(content, EndMarker(name))
  {
    hide EndMarker;
    var marker := EndMarker(name);
    MarkerShape(name, marker);
    var framed := "\n" + content + "\n";
    MarkersApart(result, marker, marker, j, from + |framed|);
    OccursInPart(result, framed, from, marker, j - from);
    InsideFrame(framed, content, marker, j - from);
  }

  /** The note with everything between two positions replaced by a framed text. */
  function Replaced(note: string, from: nat, to: nat, content: string): (r: string)
    requires from <= to <= |note|
    ensures |r| == from + |content| + 2 + |note| - to
    ensures r[..from] == note[..from]
    ensures r[from..from + |content| + 2] == "\n" + content + "\n"
    ensures r[from + |content| + 2..] == note[to..]
  {
    note[..from] + ("\n" + content + "\n") + note[to..]
  }

  lemma MarkersAround(note: string, name: string, content: string)
    requires MarkerRange(note, name).Some?
    ensures var (from, to) := MarkerRange(note, name).value;
            var result := Replaced(note, from, to, content);
            && from >= |StartMarker(name)|
            && OccursAt(result, StartMarker(name), from - |StartMarker(name)|)
            && OccursAt(result, EndMarker(name), from + |content| + 2)
  {}

  lemma StartFoundAgain(note: string, name: string, content: string)
    requires PlainName(name) && MarkerRange(note, name).Some?
    ensures var (from, to) := MarkerRange(note, name).value;
            Find(Replaced(note, from, to, content), StartMarker(name)) == Some(from - |StartMarker(name)|)
  {
    hide StartMarker, EndMarker, Replaced, OccursAt, PlainName;
    var (from, to) := MarkerRange(note, name).value;
    var result := Replaced(note, from, to, content);
    MarkersAround(note, name, content);
    var at := from - |StartMarker(name)|;
    forall j | 0 <= j < at ensures !OccursAt(result, StartMarker(name), j) {
      if OccursAt(result, StartMarker(name), j) {
        BeforeSection(note, result, from, name, StartMarker(name), j);
      }
    }
    FindIs(result, StartMarker(name), at);
  }

  lemma EndFoundAgain(note: string, name: string, content: string)
    requires PlainName(name) && !Contains(content, EndMarker(name)) && MarkerRange(note, name).Some?
    ensures var (from, to) := MarkerRange(note, name).value;
            Find(Replaced(note, from, to, content), EndMarker(name)) == Some(from + |content| + 2)
  {
    hide StartMarker, EndMarker, Replaced, OccursAt, PlainName, Contains;
    var (from, to) := MarkerRange(note, name).value;
    var result := Replaced(note, from, to, content);
    MarkersAround(note, name, content);
    var close := from + |content| + 2;
    forall j | 0 <= j < close ensures !OccursAt(result, EndMarker(name), j) {
      if OccursAt(result, EndMarker(name), j) {
        EarlierEnd(note, name, content, j);
      }
    }
    FindIs(result, EndMarker(name), close);
  }

  lemma EarlierEnd(note: string, name: string, content: string, j: nat)
    requires PlainName(name) && MarkerRange(note, name).Some?
    requires var (from, to) := MarkerRange(note, name).value;
             j < from + |content| + 2 && OccursAt(Replaced(note, from, to, content), EndMarker(name), j)
    ensures Contains(content, EndMarker(name))
        || (j < MarkerRange(note, name).value.0 && OccursAt(note, EndMarker(name), j))
  {
    hide StartMarker, EndMarker, Replaced, OccursAt, PlainName, Contains;
    var (from, to) := MarkerRange(note, name).value;
    var result := Replaced(note, from, to, content);
    var at := from - |StartMarker(name)|;
    MarkersAround(note, name, content);
    MarkerShape(name, StartMarker(name));
    MarkerShape(name, EndMarker(name));
    MarkersDiffer(name, result, at);
    if j < at {
      BeforeSection(note, result, from, name, EndMarker(name), j);
    } else {
      MarkersApart(result, StartMarker(name), EndMarker(name), at, j);
      EndInside(result, from, content, name, j);
    }
  }

  /** Every character outside the section is kept, and the same section is found again. */
  lemma ReplaceKeeps(note: string, name: string, content: string)
    requires PlainName(name) && !Contains(content, EndMarker(name))
    requires MarkerRange(note, name).Some?
    ensures var (from, to) := MarkerRange(note, name).value;
            var result := Replaced(note, from, to, content);
            ReplaceMarker(note, name, content) == Some(result)
            && MarkerRange(result, name) == Some((from, from + |content| + 2))
  {
    hide StartMarker, EndMarker, Contains, PlainName, OccursAt;
    var (from, to) := MarkerRange(note, name).value;
    StartHasText(name);
    assert note[..from] + "\n" + content + "\n" == note[..from] + ("\n" + content + "\n");
    StartFoundAgain(note, name, content);
    EndFoundAgain(note, name, content);
  }

  /** A marker found before the section was already found there in the old note. */
  lemma BeforeSection(note: string, result: string, from: nat, name: string, marker: string, j: int)
    requires PlainName(name) && (marker == StartMarker(name) || marker == EndMarker(name))
    requires from <= |note| && from <= |result| && note[..from] == result[..from]
    requires from >= |StartMarker(name)| && OccursAt(result, StartMarker(name), from - |StartMarker(name)|)
    requires 0 <= j < from - |StartMarker(name)|
    requires OccursAt(result, marker, j)
    ensures OccursAt(note, marker, j)
  {
    hide StartMarker, EndMarker;
    MarkerShape(name, marker);
    MarkerShape(name, StartMarker(name));
    MarkersApart(result, marker, StartMarker(name), j, from - |StartMarker(name)|);
    assert note[..from][j..j + |marker|] == note[j..j + |marker|];
    assert result[..from][j..j + |marker|] == result[j..j + |marker|];
  }

  // ---------------------------------------------------------------- appending

  lemma TrimIsPart(s: string)
    ensures exists i :: OccursAt(s, Trim(s), i)
  {
    TrimStartShape(s);
    var start := TrimStart(s);
    var i := |s| - |start|;
    assert s[i..][..|Trim(s)|] == s[i..i + |Trim(s)|];
    assert OccursAt(s, Trim(s), i);
  }

  lemma OccursInSection(note: string, from: nat, to: nat, pattern: string)
    requires from <= to <= |note| && Contains(Trim(note[from..to]), pattern)
    ensures exists j :: from <= j && j + |pattern| <= to && OccursAt(note, pattern, j)
  {
    hide Trim;
    var body := note[from..to];
    var k :| OccursAt(Trim(body), pattern, k);
    TrimIsPart(body);
    var i :| OccursAt(body, Trim(body), i);
    PartOfPart(note, from, body, i, Trim(body), k, pattern);
  }

  lemma PartOfPart(text: string, from: nat, part: string, i: int, inner: string, k: int, pattern: string)
    requires from + |part| <= |text| && text[from..from + |part|] == part
    requires OccursAt(part, inner, i) && OccursAt(inner, pattern, k)
    ensures from + i + k + |pattern| <= from + |part| && OccursAt(text, pattern, from + i + k)
  {
    OccursInPart(part, inner, i, pattern, k);
    OccursInPart(text, part, from, pattern, i + k);
  }

  /** The section text holds no end marker, since the section ends at the first one. */
  lemma SectionHasNoEnd(note: string, name: string)
    requires MarkerRange(note, name).Some?
    ensures !Contains(Section(note, name), EndMarker(name))
  {
    hide StartMarker, EndMarker;
    var (from, to) := MarkerRange(note, name).value;
    EndHasText(name);
    if Contains(Section(note, name), EndMarker(name)) {
      OccursInSection(note, from, to, EndMarker(name));
    }
  }

  lemma EndHasText(name: string)
    ensures EndMarker(name) != ""
  {}

  lemma StartHasText(name: string)
    ensures StartMarker(name) != ""
  {}

  lemma InOneLine(a: string, b: string, marker: string)
    requires marker != "" && '\n' !in marker && Contains(a + "\n" + b, marker)
    ensures Contains(a, marker) || Contains(b, marker)
  {
    var joined := a + "\n" + b;
    var i :| OccursAt(joined, marker, i);
    NoNewlineAt(joined, marker, i, |a|);
    assert joined[|a| + 1..] == b && joined[0..|a|] == a;
    if i > |a| {
      OccursInPart(joined, b, |a| + 1, marker, i - |a| - 1);
      assert OccursAt(b, marker, i - |a| - 1);
    } else {
      OccursInPart(joined, a, 0, marker, i);
      assert OccursAt(a, marker, i);
    }
  }

  lemma NoNewlineAt(text: string, marker: string, i: int, k: nat)
    requires '\n' !in marker && OccursAt(text, marker, i) && k < |text| && text[k] == '\n'
    ensures k < i || i + |marker| <= k
  {
    assert forall t | i <= t < i + |marker| :: text[t] == text[i..i + |marker|][t - i] && text[t] in marker;
  }

  lemma JoinedHasNoEnd(a: string, b: string, name: string)
    requires PlainName(name) && !Contains(a, EndMarker(name)) && !Contains(b, EndMarker(name))
    ensures !Contains(a + "\n" + b, EndMarker(name))
  {
    hide EndMarker;
    MarkerShape(name, EndMarker(name));
    if Contains(a + "\n" + b, EndMarker(name)) {
      InOneLine(a, b, EndMarker(name));
    }
  }

  /** An entry that the section can hold: trimmed, not blank, and without the end marker. */
  ghost predicate Entry(entry: string, name: string) {
    entry != "" && Trimmed(entry) && !Contains(entry, EndMarker(name))
  }

  /** One append adds one line of text to the section and touches nothing else. */
  lemma AppendAddsEntry(note: string, name: string, entry: string)
    requires PlainName(name) && MarkerRange(note, name).Some? && Entry(entry, name)
    ensures var (from, to) := MarkerRange(note, name).value;
            var text := Section(note, name);
            var content := if text == "" then entry else text + "\n" + entry;
            var result := Replaced(note, from, to, content);
            && Append(note, name, entry) == Some(result)
            && MarkerRange(result, name) == Some((from, from + |content| + 2))
            && Section(result, name) == content
  {
    hide StartMarker, EndMarker, MarkerRange, ReplaceMarker, Replaced, Contains, PlainName, Trimmed, Trim;
    var (from, to) := MarkerRange(note, name).value;
    var text := Section(note, name);
    var content := if text == "" then entry else text + "\n" + entry;
    SectionHasNoEnd(note, name);
    JoinedHasNoEnd(text, entry, name);
    TrimIsTrimmed(note[from..to]);
    GrownText(text, entry);
    ReplaceKeeps(note, name, content);
  }

  /** The grown text is trimmed as it stands, and trimming its frame gives it back. */
  lemma GrownText(text: string, entry: string)
    requires Trimmed(text) && Trimmed(entry) && entry != ""
    ensures TrimEnd(text) == text
    ensures var content := if text == "" then entry else text + "\n" + entry;
            Trim("\n" + content + "\n") == content
  {
    var content := if text == "" then entry else text + "\n" + entry;
    assert Trimmed(content);
    TrimPadded('\n', content, '\n');
    assert "\n" + content + "\n" == ['\n'] + content + ['\n'];
  }

  /** A run of appends. */
  function AppendAll(note: string, name: string, entries: seq<string>): Option<string>
    decreases |entries|
  {
    if entries == [] then Some(note)
    else
      match Append(note, name, entries[0])
      case None => None
      case Some(next) => AppendAll(next, name, entries[1..])
  }

  /** After any run of appends the section reads as the old text and all entries, one under the other. */
  lemma {:induction false} AppendsAccumulate(note: string, name: string, entries: seq<string>)
    requires PlainName(name) && MarkerRange(note, name).Some?
    requires forall i | 0 <= i < |entries| :: Entry(entries[i], name)
    ensures var text := Section(note, name);
            var final := AppendAll(note, name, entries);
            && final.Some? && MarkerRange(final.value, name).Some?
            && Section(final.value, name) == Join(if text == "" then entries else [text] + entries, "\n")
            && MarkerRange(final.value, name).value.0 == MarkerRange(note, name).value.0
            && final.value[..MarkerRange(note, name).value.0] == note[..MarkerRange(note, name).value.0]
            && final.value[MarkerRange(final.value, name).value.1..] == note[MarkerRange(note, name).value.1..]
    decreases |entries|
  {
    hide StartMarker, EndMarker, MarkerRange, Append, Section, Replaced, PlainName, Contains, Join;
    var text := Section(note, name);
    if entries == [] {
      JoinOfOne(text);
    } else {
      AppendAddsEntry(note, name, entries[0]);
      var next := Append(note, name, entries[0]).value;
      AppendsAccumulate(next, name, entries[1..]);
      JoinMerges(text, entries[0], entries[1..]);
      assert [entries[0]] + entries[1..] == entries;
    }
  }

  lemma JoinOfOne(text: string)
    ensures Join([], "\n") == "" && Join([text], "\n") == text && [text] + [] == [text]
  {}

  lemma JoinMerges(a: string, b: string, rest: seq<string>)
    ensures Join([a + "\n" + b] + rest, "\n") == Join([a] + ([b] + rest), "\n")
  {}

  // ---------------------------------------------------------------- repairing

  predicate HasBoth(text: string, name: string) {
    Find(text, StartMarker(name)).Some? && Find(text, EndMarker(name)).Some?
  }

  /** The template's section with its markers. */
  function TemplateBlock(template: string, name: string): Option<string> {
    match MarkerRange(template, name)
    case None => None
    case Some((from, to)) => Some(template[from - |StartMarker(name)|..to + |EndMarker(name)|])
  }

  /** The template's block for a section that lacks a marker. */
  function Wanted(note: string, template: string, name: string): seq<string> {
    if HasBoth(note, name) then []
    else
      match TemplateBlock(template, name)
      case None => []
      case Some(block) => [block]
  }

  function Missing(note: string, template: string, names: seq<string>): seq<string> {
    if names == [] then [] else Wanted(note, template, names[0]) + Missing(note, template, names[1..])
  }

  /** `daily_note_repair_markers` on the text of the note. */
  function Repaired(note: string, template: string, names: seq<string>): string {
    var missing := Missing(note, template, names);
    if missing == [] then note else TrimEnd(note) + "\n\n" + Join(missing, "\n\n") + "\n"
  }

  lemma MissingStep(note: string, template: string, names: seq<string>, i: nat)
    requires i < |names|
    ensures Missing(note, template, names[i..])
         == Wanted(note, template, names[i]) + Missing(note, template, names[i + 1..])
  {}

  method RepairMarkers(note: string, template: string, names: seq<string>) returns (repaired: string)
    ensures repaired == Repaired(note, template, names)
  {
    hide HasBoth, TemplateBlock, Join, Missing;
    var missing: seq<string> := [];
    for i := 0 to |names|
      invariant missing + Missing(note, template, names[i..]) == Missing(note, template, names)
    {
      MissingStep(note, template, names, i);
      AppendAssociates(missing, Wanted(note, template, names[i]), Missing(note, template, names[i + 1..]));
      if !HasBoth(note, names[i]) {
        match TemplateBlock(template, names[i]) {
          case None =>
          case Some(block) => missing := missing + [block];
        }
      }
    }
    NothingLeft(note, template, names[|names|..]);
    assert missing == Missing(note, template, names);
    repaired := if missing == [] then note else TrimEnd(note) + "\n\n" + Join(missing, "\n\n") + "\n";
  }

  lemma NothingLeft(note: string, template: string, names: seq<string>)
    ensures names == [] ==> Missing(note, template, names) == []
  {}

  lemma BlockHasBoth(template: string, name: string)
    requires TemplateBlock(template, name).Some?
    ensures HasBoth(TemplateBlock(template, name).value, name)
  {
    hide StartMarker, EndMarker;
    var (from, to) := MarkerRange(template, name).value;
    var at := from - |StartMarker(name)|;
    var block := TemplateBlock(template, name).value;
    OccursInPart(template, block, at, StartMarker(name), 0);
    OccursInPart(template, block, at, EndMarker(name), to - at);
    assert OccursAt(block, StartMarker(name), 0) && OccursAt(block, EndMarker(name), to - at);
  }

  lemma PartHasBoth(text: string, part: string, from: int, name: string)
    requires 0 <= from && from + |part| <= |text| && text[from..from + |part|] == part
    requires HasBoth(part, name)
    ensures HasBoth(text, name)
  {
    hide StartMarker, EndMarker;
    OccursInPart(text, part, from, StartMarker(name), Find(part, StartMarker(name)).value);
    OccursInPart(text, part, from, EndMarker(name), Find(part, EndMarker(name)).value);
  }

  lemma {:induction false} JoinHolds(parts: seq<string>, separator: string, k: nat) returns (at: nat)
    requires k < |parts|
    ensures OccursAt(Join(parts, separator), parts[k], at)
  {
    if |parts| == 1 {
      at := 0;
    } else if k == 0 {
      at := 0;
      assert Join(parts, separator)[..|parts[0]|] == parts[0];
    } else {
      var inner := JoinHolds(parts[1..], separator, k - 1);
      at := |parts[0]| + |separator| + inner;
      var rest := Join(parts[1..], separator);
      assert Join(parts, separator)[|parts[0]| + |separator|..] == rest;
      OccursInPart(Join(parts, separator), rest, |parts[0]| + |separator|, parts[k], inner);
    }
  }

  lemma {:induction false} MissingHolds(note: string, template: string, names: seq<string>, k: nat)
    requires k < |names| && !HasBoth(note, names[k]) && TemplateBlock(template, names[k]).Some?
    ensures TemplateBlock(template, names[k]).value in Missing(note, template, names)
  {
    hide HasBoth, TemplateBlock;
    assert names == [names[0]] + names[1..];
    if k == 0 {
    } else {
      MissingHolds(note, template, names[1..], k - 1);
    }
  }

  lemma TrimEndKeepsMarkers(note: string, name: string)
    requires HasBoth(note, name)
    ensures HasBoth(TrimEnd(note), name)
  {
    var start, end := StartMarker(name), EndMarker(name);
    assert start[|start| - 1] == '>' && end[|end| - 1] == '>';
    TrimEndKeeps(note, start, Find(note, start).value);
    TrimEndKeeps(note, end, Find(note, end).value);
  }

  /** After a repair every section that the template can supply has both markers. */
  lemma RepairSupplies(note: string, template: string, names: seq<string>, k: nat)
    requires k < |names|
    ensures var repaired := Repaired(note, template, names);
            HasBoth(repaired, names[k]) || TemplateBlock(template, names[k]).None?
  {
    hide HasBoth, TemplateBlock;
    var name, missing := names[k], Missing(note, template, names);
    var repaired := Repaired(note, template, names);
    var kept, added := TrimEnd(note), Join(missing, "\n\n");
    if HasBoth(note, name) {
      if missing != [] {
        TrimEndKeepsMarkers(note, name);
        assert repaired[..|kept|] == kept;
        PartHasBoth(repaired, kept, 0, name);
      }
    } else if TemplateBlock(template, name).Some? {
      MissingHolds(note, template, names, k);
      var block := TemplateBlock(template, name).value;
      var m :| 0 <= m < |missing| && missing[m] == block;
      var at := JoinHolds(missing, "\n\n", m);
      BlockHasBoth(template, name);
      PartHasBoth(added, block, at, name);
      assert repaired[|kept| + 2..|kept| + 2 + |added|] == added;
      PartHasBoth(repaired, added, |kept| + 2, name);
    }
  }

  lemma {:induction false} NothingMissing(note: string, template: string, names: seq<string>)
    requires forall k | 0 <= k < |names| :: HasBoth(note, names[k]) || TemplateBlock(template, names[k]).None?
    ensures Missing(note, template, names) == []
  {
    hide HasBoth, TemplateBlock;
    if names == [] {
    } else {
      assert names[0] == names[0..][0];
      NothingMissing(note, template, names[1..]);
    }
  }

  /** Repairing twice is repairing once, and the trimmed note stays in front. */
  lemma RepairIdempotent(note: string, template: string, names: seq<string>)
    ensures var repaired := Repaired(note, template, names);
            Repaired(repaired, template, names) == repaired && TrimEnd(note) <= repaired
  {
    hide HasBoth, TemplateBlock, Missing;
    var repaired := Repaired(note, template, names);
    forall k | 0 <= k < |names| ensures HasBoth(repaired, names[k]) || TemplateBlock(template, names[k]).None? {
      RepairSupplies(note, template, names, k);
    }
    NothingMissing(repaired, template, names);
  }

  // ---------------------------------------------------------------- when a repaired section can be used

  /** A marker lies in one line, so the first one of two lines is in the first, or else in the second. */
  lemma FindInLines(a: string, b: string, marker: string)
    requires marker != "" && '\n' !in marker
    ensures Find(a + "\n" + b, marker) == match Find(a, marker)
                                          case Some(i) => Some(i)
                                          case None => match Find(b, marker)
                                                       case Some(i) => Some(|a| + 1 + i)
                                                       case None => None
  {
    hide OccursAt;
    var joined := a + "\n" + b;
    forall j: int ensures OccursAt(joined, marker, j) <==> OccursAt(a, marker, j) || OccursAt(b, marker, j - |a| - 1) {
      OccursInLines(a, b, marker, j);
    }
    match Find(a, marker)
    case Some(i) =>
      OccursInLines(a, b, marker, i);
      forall j | 0 <= j < i ensures !OccursAt(joined, marker, j) {
        OccursInLines(a, b, marker, j);
      }
      FindIs(joined, marker, i);
    case None =>
      match Find(b, marker)
      case Some(i) => FindIs(joined, marker, |a| + 1 + i);
      case None =>
  }

  lemma OccursInLines(a: string, b: string, marker: string, j: int)
    requires marker != "" && '\n' !in marker
    ensures OccursAt(a + "\n" + b, marker, j) <==> OccursAt(a, marker, j) || OccursAt(b, marker, j - |a| - 1)
    ensures OccursAt(a, marker, j) ==> 0 <= j && j + |marker| <= |a|
    ensures OccursAt(b, marker, j - |a| - 1) ==> j > |a|
  {
    var joined := a + "\n" + b;
    assert joined[0..|a|] == a && joined[|a| + 1..|a| + 1 + |b|] == b && joined[|a|] == '\n';
    OccursInPart(joined, a, 0, marker, j);
    OccursInPart(joined, b, |a| + 1, marker, j - |a| - 1);
    if OccursAt(joined, marker, j) {
      NoNewlineAt(joined, marker, j, |a|);
    }
  }

  lemma MarkersInLine(name: string)
    requires PlainName(name)
    ensures StartMarker(name) != "" && '\n' !in StartMarker(name) && EndMarker(name) != "" && '\n' !in EndMarker(name)
  {
    hide StartMarker, EndMarker;
    MarkerShape(name, StartMarker(name));
    MarkerShape(name, EndMarker(name));
  }

  /** Whether a section is found in one line on top of another, told by the markers in each. */
  predicate FoundAcross(a: string, b: string, name: string) {
    match (Find(a, StartMarker(name)), Find(a, EndMarker(name)))
    case (Some(_), Some(_)) => MarkerRange(a, name).Some?
    case (Some(_), None) => Find(b, EndMarker(name)).Some?
    case (None, Some(_)) => false
    case (None, None) => MarkerRange(b, name).Some?
  }

  lemma RangeInLines(a: string, b: string, name: string)
    requires PlainName(name)
    ensures MarkerRange(a + "\n" + b, name).Some? <==> FoundAcross(a, b, name)
  {
    hide StartMarker, EndMarker, OccursAt;
    MarkersInLine(name);
    FindInLines(a, b, StartMarker(name));
    FindInLines(a, b, EndMarker(name));
    FindFits(a, StartMarker(name));
    FindFits(a, EndMarker(name));
  }

  lemma JoinOfNone(separator: string)
    ensures Join([], separator) == ""
  {}

  lemma FindFits(text: string, marker: string)
    ensures Find(text, marker).Some? ==> Find(text, marker).value + |marker| <= |text|
  {}

  lemma NothingInEmpty(marker: string)
    requires marker != ""
    ensures Find("", marker) == None
  {}

  /** Trailing white space holds no part of a marker. */
  lemma FindInTrimmed(note: string, marker: string)
    requires marker != "" && marker[|marker| - 1] == '>'
    ensures Find(TrimEnd(note), marker) == Find(note, marker)
  {
    var kept := TrimEnd(note);
    TrimEndIsPart(note);
    match Find(note, marker)
    case Some(i) =>
      TrimEndKeeps(note, marker, i);
      forall j | 0 <= j < i ensures !OccursAt(kept, marker, j) {
        OccursInPart(note, kept, 0, marker, j);
      }
      FindIs(kept, marker, i);
    case None =>
      forall j: int ensures !OccursAt(kept, marker, j) {
        OccursInPart(note, kept, 0, marker, j);
      }
  }

  lemma {:induction false} TrimEndIsPart(note: string)
    ensures |TrimEnd(note)| <= |note| && note[0..|TrimEnd(note)|] == TrimEnd(note)
  {
    if note == "" {
    } else if IsWhitespace(note[|note| - 1]) {
      TrimEndIsPart(note[..|note| - 1]);
    }
  }

  /** The added blocks, one under the other. */
  function Added(note: string, template: string, names: seq<string>): string {
    Join(Missing(note, template, names), "\n\n")
  }

  /**
   * After a repair a section can be appended to exactly when its markers were both there in the right order, or
   * only its start was and an end is added, or neither was and the added text has the section. A note with only
   * an end marker stays without a usable section, although a whole one is added below it.
   */
  lemma RepairedExactly(note: string, template: string, names: seq<string>, name: string)
    requires PlainName(name)
    ensures MarkerRange(Repaired(note, template, names), name).Some?
        <==> FoundAcross(note, Added(note, template, names), name)
  {
    hide StartMarker, EndMarker, Missing, Join, MarkerRange;
    MarkersInLine(name);
    var added := Added(note, template, names);
    if Missing(note, template, names) == [] {
      JoinOfNone("\n\n");
      NothingAdded(note, name);
    } else {
      assert Repaired(note, template, names) == TrimEnd(note) + "\n\n" + added + "\n";
      RangeInRepaired(note, added, name);
    }
  }

  lemma NothingAdded(note: string, name: string)
    requires PlainName(name)
    ensures MarkerRange(note, name).Some? <==> FoundAcross(note, "", name)
  {
    hide StartMarker, EndMarker;
    MarkersInLine(name);
    NothingInEmpty(StartMarker(name));
    NothingInEmpty(EndMarker(name));
  }

  lemma RangeInRepaired(note: string, added: string, name: string)
    requires PlainName(name)
    ensures MarkerRange(TrimEnd(note) + "\n\n" + added + "\n", name).Some? <==> FoundAcross(note, added, name)
  {
    hide StartMarker, EndMarker;
    var kept, below := TrimEnd(note), "" + "\n" + (added + "\n" + "");
    MarkersInLine(name);
    MarkerShape(name, StartMarker(name));
    MarkerShape(name, EndMarker(name));
    FindInTrimmed(note, StartMarker(name));
    FindInTrimmed(note, EndMarker(name));
    FramedBelow(kept, added);
    LinesBelow(added, name);
    RangeInLines(kept, below, name);
    SameRange(kept, note, name);
  }

  lemma FramedBelow(kept: string, added: string)
    ensures kept + "\n\n" + added + "\n" == kept + "\n" + ("" + "\n" + (added + "\n" + ""))
  {}

  lemma SameRange(a: string, b: string, name: string)
    requires Find(a, StartMarker(name)) == Find(b, StartMarker(name))
    requires Find(a, EndMarker(name)) == Find(b, EndMarker(name))
    ensures MarkerRange(a, name) == MarkerRange(b, name)
  {
    hide StartMarker, EndMarker;
  }

  /** Empty lines around a text change nothing. */
  lemma LinesBelow(added: string, name: string)
    requires PlainName(name)
    ensures var framed := "" + "\n" + (added + "\n" + "");
      && MarkerRange(framed, name).Some? == MarkerRange(added, name).Some?
      && Find(framed, StartMarker(name)).Some? == Find(added, StartMarker(name)).Some?
      && Find(framed, EndMarker(name)).Some? == Find(added, EndMarker(name)).Some?
  {
    hide StartMarker, EndMarker;
    MarkersInLine(name);
    NothingInEmpty(StartMarker(name));
    NothingInEmpty(EndMarker(name));
    FindInLines(added, "", StartMarker(name));
    FindInLines(added, "", EndMarker(name));
    FindInLines("", added + "\n" + "", StartMarker(name));
    FindInLines("", added + "\n" + "", EndMarker(name));
  }

  predicate Unmarked(text: string, name: string) {
    Find(text, StartMarker(name)) == None && Find(text, EndMarker(name)) == None
  }

  /** One more block on top: what it has comes first, and what it has no marker of stays as it is. */
  lemma BlockOnTop(block: string, rest: string, name: string)
    requires PlainName(name)
    ensures var joined := block + "\n\n" + rest;
      && (MarkerRange(block, name).Some? ==> MarkerRange(joined, name).Some? && HasBoth(joined, name))
      && (Unmarked(block, name) ==>
            && MarkerRange(joined, name).Some? == MarkerRange(rest, name).Some?
            && HasBoth(joined, name) == HasBoth(rest, name) && Unmarked(joined, name) == Unmarked(rest, name))
  {
    hide StartMarker, EndMarker;
    MarkersInLine(name);
    NothingInEmpty(StartMarker(name));
    NothingInEmpty(EndMarker(name));
    var below := "" + "\n" + rest;
    assert block + "\n\n" + rest == block + "\n" + below;
    FindInLines("", rest, StartMarker(name));
    FindInLines("", rest, EndMarker(name));
    FindInLines(block, below, StartMarker(name));
    FindInLines(block, below, EndMarker(name));
  }

  lemma JoinStep(blocks: seq<string>, separator: string)
    requires blocks != []
    ensures Join(blocks, separator)
         == if |blocks| == 1 then blocks[0] else blocks[0] + separator + Join(blocks[1..], separator)
  {}

  /**
   * Blocks of which only one has the section's markers: together they have the section exactly if that one is there.
   */
  lemma {:induction false} JoinedBlocks(blocks: seq<string>, block: string, name: string)
    requires PlainName(name) && MarkerRange(block, name).Some?
    requires forall b | b in blocks :: b == block || Unmarked(b, name)
    ensures block in blocks ==> HasBoth(Join(blocks, "\n\n"), name) && MarkerRange(Join(blocks, "\n\n"), name).Some?
    ensures block !in blocks ==> Unmarked(Join(blocks, "\n\n"), name)
  {
    hide MarkerRange, HasBoth, Unmarked, Join;
    RangeHasBoth(block, name);
    if blocks == [] {
      JoinOfNone("\n\n");
      EmptyUnmarked(name);
    } else {
      JoinStep(blocks, "\n\n");
      assert blocks == [blocks[0]] + blocks[1..];
      if |blocks| > 1 {
        JoinedBlocks(blocks[1..], block, name);
        BlockOnTop(blocks[0], Join(blocks[1..], "\n\n"), name);
      }
    }
  }

  lemma EmptyUnmarked(name: string)
    requires PlainName(name)
    ensures Unmarked("", name)
  {
    hide StartMarker, EndMarker;
    MarkersInLine(name);
    NothingInEmpty(StartMarker(name));
    NothingInEmpty(EndMarker(name));
  }

  lemma RangeHasBoth(text: string, name: string)
    requires MarkerRange(text, name).Some?
    ensures HasBoth(text, name) && !Unmarked(text, name)
  {
    hide StartMarker, EndMarker;
  }

  /** No other section's block of the template has markers of this one. */
  ghost predicate Separate(template: string, names: seq<string>, name: string) {
    forall n | n in names && n != name && TemplateBlock(template, n).Some? ::
        Unmarked(TemplateBlock(template, n).value, name)
  }

  lemma {:induction false} MissingIs(note: string, template: string, names: seq<string>)
    ensures forall b | b in Missing(note, template, names) ::
      exists n :: n in names && !HasBoth(note, n) && TemplateBlock(template, n) == Some(b)
  {
    hide HasBoth, TemplateBlock;
    if names == [] {
    } else {
      MissingIs(note, template, names[1..]);
      assert names[0] in names && forall n | n in names[1..] :: n in names;
    }
  }

  lemma BlockRange(template: string, name: string)
    requires TemplateBlock(template, name).Some?
    ensures MarkerRange(TemplateBlock(template, name).value, name).Some?
  {
    hide StartMarker, EndMarker, MarkerRange;
    var start, end := StartMarker(name), EndMarker(name);
    RangeIs(template, name);
    var (from, to) := MarkerRange(template, name).value;
    BlockFinds(template, start, end, from - |start|, to);
    RangeIs(template[from - |start|..to + |end|], name);
  }

  lemma RangeIs(text: string, name: string)
    ensures MarkerRange(text, name).Some? <==>
      && Find(text, StartMarker(name)).Some? && Find(text, EndMarker(name)).Some?
      && Find(text, StartMarker(name)).value + |StartMarker(name)| <= Find(text, EndMarker(name)).value
    ensures MarkerRange(text, name).Some? ==>
      && MarkerRange(text, name).value.0 == Find(text, StartMarker(name)).value + |StartMarker(name)|
      && MarkerRange(text, name).value.1 == Find(text, EndMarker(name)).value
  {
    hide StartMarker, EndMarker;
  }

  lemma BlockFinds(template: string, start: string, end: string, at: nat, to: nat)
    requires Find(template, start) == Some(at) && Find(template, end) == Some(to) && at + |start| <= to
    ensures to + |end| <= |template|
    ensures var block := template[at..to + |end|]; Find(block, start) == Some(0) && Find(block, end) == Some(to - at)
  {
    hide OccursAt;
    FindFits(template, end);
    var block := template[at..to + |end|];
    OccursInPart(template, block, at, start, 0);
    OccursInPart(template, block, at, end, to - at);
    forall j | 0 <= j < to - at ensures !OccursAt(block, end, j) {
      OccursInPart(template, block, at, end, j);
    }
    FindIs(block, start, 0);
    FindIs(block, end, to - at);
  }

  /**
   * With a template whose sections do not hold each other's markers, a repair makes a configured section usable
   * exactly when its two markers were in order, or it had no end marker and the template has the section.
   */
  lemma RepairMakesUsable(note: string, template: string, names: seq<string>, name: string)
    requires PlainName(name) && name in names && Separate(template, names, name)
    ensures MarkerRange(Repaired(note, template, names), name).Some? <==>
      if HasBoth(note, name) then MarkerRange(note, name).Some?
      else Find(note, EndMarker(name)) == None && TemplateBlock(template, name).Some?
  {
    hide StartMarker, EndMarker, Missing, Join, Repaired, TemplateBlock, MarkerRange;
    var missing := Missing(note, template, names);
    RepairedExactly(note, template, names, name);
    MissingIs(note, template, names);
    if !HasBoth(note, name) {
      if TemplateBlock(template, name).Some? {
        var block := TemplateBlock(template, name).value;
        BlockRange(template, name);
        var k: nat :| k < |names| && names[k] == name;
        MissingHolds(note, template, names, k);
        JoinedBlocks(missing, block, name);
        RangeHasBoth(block, name);
      } else {
        UnmarkedBlocks(missing, name);
        UnmarkedHasNone(Added(note, template, names), name);
      }
    }
  }

  lemma {:induction false} UnmarkedBlocks(blocks: seq<string>, name: string)
    requires PlainName(name) && forall b | b in blocks :: Unmarked(b, name)
    ensures Unmarked(Join(blocks, "\n\n"), name)
  {
    hide Unmarked, Join, MarkerRange, HasBoth;
    if blocks == [] {
      JoinOfNone("\n\n");
      EmptyUnmarked(name);
    } else {
      JoinStep(blocks, "\n\n");
      assert blocks == [blocks[0]] + blocks[1..];
      if |blocks| > 1 {
        UnmarkedBlocks(blocks[1..], name);
        BlockOnTop(blocks[0], Join(blocks[1..], "\n\n"), name);
      }
    }
  }

  lemma UnmarkedHasNone(text: string, name: string)
    requires Unmarked(text, name)
    ensures MarkerRange(text, name) == None
  {
    hide StartMarker, EndMarker;
  }

  // ---------------------------------------------------------------- exactly what a repair adds

  /** Neither marker may be missing from a note that keeps its section. */
  ghost predicate Lacks(note: string, name: string) {
    || (forall i :: !OccursAt(note, "<!-- mcp:section " + name + " start -->", i))
    || (forall i :: !OccursAt(note, "<!-- mcp:section " + name + " end -->", i))
  }

  /** The template's section as it stands, between its two markers. */
  function Copied(template: string, name: string): string
    requires MarkerRange(template, name).Some?
  {
    var (from, to) := MarkerRange(template, name).value;
    ("<!-- mcp:section " + name + " start -->") + template[from..to] + ("<!-- mcp:section " + name + " end -->")
  }

  lemma BlockIsCopied(template: string, name: string)
    ensures TemplateBlock(template, name)
         == if MarkerRange(template, name).Some? then Some(Copied(template, name)) else None
  {
    if MarkerRange(template, name).Some? {
      var start, end := StartMarker(name), EndMarker(name);
      MarkerTexts(name);
      RangeIs(template, name);
      hide StartMarker, EndMarker;
      var (from, to) := MarkerRange(template, name).value;
      hide MarkerRange;
      OccursThere(template, start);
      OccursThere(template, end);
      assert template[from - |start|..to + |end|]
          == template[from - |start|..from] + template[from..to] + template[to..to + |end|];
    }
  }

  lemma MarkerTexts(name: string)
    ensures StartMarker(name) == "<!-- mcp:section " + name + " start -->"
    ensures EndMarker(name) == "<!-- mcp:section " + name + " end -->"
  {}

  lemma OccursThere(text: string, pattern: string)
    ensures var at := Find(text, pattern);
      at.Some? ==> at.value + |pattern| <= |text| && text[at.value..at.value + |pattern|] == pattern
  {}

  lemma LacksExactly(note: string, name: string)
    ensures Lacks(note, name) <==> !HasBoth(note, name)
  {
    hide OccursAt, FindFrom;
  }

  /** The places of the sections that a repair adds, in order. */
  ghost predicate Adds(note: string, template: string, names: seq<string>, places: seq<nat>) {
    && (forall j, k | 0 <= j < k < |places| :: places[j] < places[k])
    && (forall j | 0 <= j < |places| :: places[j] < |names|)
    && (forall i: nat | i < |names| ::
          i in places <==> Lacks(note, names[i]) && MarkerRange(template, names[i]).Some?)
  }

  function Copies(template: string, names: seq<string>, places: seq<nat>): (blocks: seq<string>)
    requires forall j | 0 <= j < |places| :: places[j] < |names| && MarkerRange(template, names[places[j]]).Some?
    ensures |blocks| == |places|
  {
    if places == [] then [] else [Copied(template, names[places[0]])] + Copies(template, names, places[1..])
  }

  lemma {:induction false} MissingExactly(note: string, template: string, names: seq<string>) returns (places: seq<nat>)
    ensures Adds(note, template, names, places)
    ensures forall j | 0 <= j < |places| :: places[j] < |names| && MarkerRange(template, names[places[j]]).Some?
    ensures Missing(note, template, names) == Copies(template, names, places)
  {
    hide Lacks, MarkerRange, Copied, TemplateBlock, HasBoth, Wanted;
    if names == [] {
      places := [];
    } else {
      hide Adds;
      var later := MissingExactly(note, template, names[1..]);
      var moved := seq(|later|, j requires 0 <= j < |later| => later[j] + 1);
      CopiesMoved(template, names, later, moved);
      var first := Lacks(note, names[0]) && MarkerRange(template, names[0]).Some?;
      places := (if first then [0] else []) + moved;
      AddsMore(note, template, names, later, moved, first);
      FirstWanted(note, template, names[0]);
      CopiesFirst(template, names, moved, first);
    }
  }

  lemma FirstWanted(note: string, template: string, name: string)
    ensures Wanted(note, template, name)
         == if Lacks(note, name) && MarkerRange(template, name).Some? then [Copied(template, name)] else []
  {
    hide Lacks, MarkerRange, Copied, TemplateBlock, HasBoth;
    LacksExactly(note, name);
    BlockIsCopied(template, name);
  }

  lemma CopiesFirst(template: string, names: seq<string>, moved: seq<nat>, first: bool)
    requires names != [] && (first ==> MarkerRange(template, names[0]).Some?)
    requires forall j | 0 <= j < |moved| :: moved[j] < |names| && MarkerRange(template, names[moved[j]]).Some?
    ensures var places := (if first then [0] else []) + moved;
      && (forall j | 0 <= j < |places| :: places[j] < |names| && MarkerRange(template, names[places[j]]).Some?)
      && Copies(template, names, places)
          == (if first then [Copied(template, names[0])] else []) + Copies(template, names, moved)
  {
    hide MarkerRange, Copied;
    var places := (if first then [0] else []) + moved;
    if first {
      assert places[1..] == moved;
    } else {
      assert places == moved;
    }
  }

  lemma {:induction false} CopiesMoved(template: string, names: seq<string>, later: seq<nat>, moved: seq<nat>)
    requires names != [] && |moved| == |later| && forall j | 0 <= j < |later| :: moved[j] == later[j] + 1
    requires forall j | 0 <= j < |later| ::
        later[j] < |names[1..]| && MarkerRange(template, names[1..][later[j]]).Some?
    ensures forall j | 0 <= j < |moved| :: moved[j] < |names| && MarkerRange(template, names[moved[j]]).Some?
    ensures Copies(template, names, moved) == Copies(template, names[1..], later)
    decreases |later|
  {
    hide MarkerRange, Copied;
    if later == [] {
    } else {
      CopiesMoved(template, names, later[1..], moved[1..]);
      assert moved[0] == later[0] + 1 && names[moved[0]] == names[1..][later[0]];
      forall j | 0 <= j < |moved| ensures moved[j] < |names| && MarkerRange(template, names[moved[j]]).Some? {
        assert names[moved[j]] == names[1..][later[j]];
      }
    }
  }

  lemma AddsMore(
      note: string, template: string, names: seq<string>, later: seq<nat>, moved: seq<nat>, first: bool)
    requires names != [] && Adds(note, template, names[1..], later)
    requires |moved| == |later| && forall j | 0 <= j < |later| :: moved[j] == later[j] + 1
    requires first <==> Lacks(note, names[0]) && MarkerRange(template, names[0]).Some?
    ensures Adds(note, template, names, (if first then [0] else []) + moved)
  {
    hide MarkerRange, Lacks;
    var places := (if first then [0] else []) + moved;
    forall i: nat | i < |names|
      ensures i in places <==> Lacks(note, names[i]) && MarkerRange(template, names[i]).Some?
    {
      assert i in moved <==> i > 0 && i - 1 in later;
      if i > 0 {
        assert names[1..][i - 1] == names[i];
      }
    }
  }

  /**
   * A repair leaves a note alone to which nothing is to be added, and otherwise puts copies of the template's
   * sections under it, of exactly those sections that lack a marker and in order.
   */
  lemma RepairExactly(note: string, template: string, names: seq<string>) returns (places: seq<nat>)
    ensures Adds(note, template, names, places)
    ensures forall j | 0 <= j < |places| :: places[j] < |names| && MarkerRange(template, names[places[j]]).Some?
    ensures Repaired(note, template, names)
         == if places == [] then note
            else TrimEnd(note) + "\n\n" + Join(Copies(template, names, places), "\n\n") + "\n"
  {
    hide Adds, MarkerRange, Missing, Join;
    places := MissingExactly(note, template, names);
  }
}
