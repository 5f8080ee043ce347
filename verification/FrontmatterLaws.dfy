/** Reading back what the frontmatter printer wrote, and the merge built on both. */
module FrontmatterLaws {
  import opened Text
  import opened Json
  import opened Frontmatter

  // ---------------------------------------------------------------- one value, one line

  lemma StringReads(nf: NumberFormat, s: string)
    requires Lawful(nf)
    ensures var text := EncodeString(s);
            Trimmed(text) && OneLine(text) && ReadScalar(nf, text) == Str(s)
  {
    var text := EncodeString(s);
    EscapedOneLine(s);
    StringRoundTrip(s);
    assert text[0] == '"' && text[|text| - 1] == '"';
    NotANumber(nf, text);
  }

  lemma NotANumber(nf: NumberFormat, text: string)
    requires Lawful(nf) && text != "" && text[0] !in NUMBER_CHARACTERS
    ensures CanonicalNumber(nf, text) == None
  {}

  lemma NumberReads(nf: NumberFormat, f: Float)
    requires Lawful(nf) && f.Finite()
    ensures var text := nf.print_(f);
            text != "" && Trimmed(text) && OneLine(text) && ReadScalar(nf, text) == Number(f.Canonical())
  {
    var text := nf.print_(f);
    assert text[0] in NUMBER_CHARACTERS && text[|text| - 1] in NUMBER_CHARACTERS;
    assert CanonicalNumber(nf, text) == Some(f.Canonical());
  }

  lemma ListReads(nf: NumberFormat, items: seq<string>)
    ensures var text := EncodeList(items);
            Trimmed(text) && OneLine(text) && ReadScalar(nf, text) == List(items)
  {
    var text := EncodeList(items);
    ListRoundTrip(items);
    ListOneLine(items);
    assert text[0] == '[' && text[|text| - 1] == ']';
  }

  lemma BoolReads(nf: NumberFormat, b: bool)
    ensures var text := EncodeValue(nf, Bool(b));
            Trimmed(text) && OneLine(text) && ReadScalar(nf, text) == Bool(b)
  {}

  /** A printed value is one trimmed line that reads back as the value. */
  lemma ValueReads(nf: NumberFormat, value: Value)
    requires Lawful(nf) && value.Printable()
    ensures var text := EncodeValue(nf, value);
            text != "" && Trimmed(text) && OneLine(text) && ReadScalar(nf, text) == value.Canonical()
  {
    match value
    case Str(s) => StringReads(nf, s);
    case Number(f) => NumberReads(nf, f);
    case Bool(b) => BoolReads(nf, b);
    case List(items) => ListReads(nf, items);
  }

  lemma {:induction false} KeyLengthIs(key: string, rest: string)
    requires forall c | c in key :: IsKeyCharacter(c)
    requires rest != "" && !IsKeyCharacter(rest[0])
    ensures KeyLength(key + rest) == |key|
  {
    if key == "" {
      assert key + rest == rest;
    } else {
      assert (key + rest)[1..] == key[1..] + rest;
      assert forall c | c in key[1..] :: c in key;
      KeyLengthIs(key[1..], rest);
    }
  }

  lemma KeyLineIs(key: string, value: string)
    requires ValidKey(key) && Trimmed(value)
    ensures KeyLine(key + ": " + value) == Some((key, value))
  {
    var line := key + ": " + value;
    assert line == key + (": " + value);
    KeyLengthIs(key, ": " + value);
    assert line[|key| + 1..] == " " + value && line[|key|] == ':';
    TrimAfterBlank(value);
  }

  lemma DashesInKey(key: string, value: string)
    ensures "---" <= key + ": " + value <==> "---" <= key
  {
    var line := key + ": " + value;
    assert line[|key|] == ':';
    assert |key| >= 3 ==> key[..3] == line[..3];
  }

  /** A printed field is one line, read back as its key and its printed value. */
  lemma FieldLineReads(nf: NumberFormat, field: Field)
    requires Lawful(nf) && ValidKey(field.key) && field.value.Printable()
    ensures KeyLine(FieldLine(nf, field)) == Some((field.key, EncodeValue(nf, field.value)))
    ensures OneLine(FieldLine(nf, field)) && |FieldLine(nf, field)| >= 3
    ensures "---" <= FieldLine(nf, field) <==> "---" <= field.key
  {
    hide EncodeValue, ReadScalar, KeyLine;
    var value := EncodeValue(nf, field.value);
    ValueReads(nf, field.value);
    KeyLineIs(field.key, value);
    DashesInKey(field.key, value);
    assert OneLine(field.key);
  }

  // ---------------------------------------------------------------- the field block

  function FieldLines(nf: NumberFormat, fields: Fields): (lines: seq<string>)
    ensures |lines| == |fields|
  {
    if fields == [] then [] else [FieldLine(nf, fields[0])] + FieldLines(nf, fields[1..])
  }

  lemma {:induction false} FieldLinesPrefix(nf: NumberFormat, fields: Fields, n: nat)
    requires n <= |fields|
    ensures FieldLines(nf, fields)[..n] == FieldLines(nf, fields[..n])
  {
    hide FieldLine;
    if n == 0 {
    } else {
      FieldLinesPrefix(nf, fields[1..], n - 1);
      assert fields[..n][1..] == fields[1..][..n - 1];
    }
  }

  lemma {:induction false} FieldTextIsJoin(nf: NumberFormat, fields: Fields)
    requires fields != []
    ensures FieldText(nf, fields) == Join(FieldLines(nf, fields), "\n") + "\n"
  {
    var lines := FieldLines(nf, fields);
    assert lines[1..] == FieldLines(nf, fields[1..]);
    if |fields| > 1 {
      FieldTextIsJoin(nf, fields[1..]);
      AppendAssociates(lines[0] + "\n", Join(lines[1..], "\n"), "\n");
    } else {
      assert FieldText(nf, fields[1..]) == "";
    }
  }

  function CanonicalFields(fields: Fields): (r: Fields)
    ensures |r| == |fields|
    ensures forall i | 0 <= i < |fields| :: r[i] == Field(fields[i].key, fields[i].value.Canonical())
  {
    seq(|fields|, i requires 0 <= i < |fields| => Field(fields[i].key, fields[i].value.Canonical()))
  }

  lemma CanonicalFieldsStep(fields: Fields)
    requires fields != []
    ensures CanonicalFields(fields)
         == [Field(fields[0].key, fields[0].value.Canonical())] + CanonicalFields(fields[1..])
  {}

  lemma FieldLineRead(nf: NumberFormat, field: Field, rest: seq<string>, known: Fields)
    requires Lawful(nf) && ValidKey(field.key) && field.value.Printable()
    requires forall f | f in known :: Below(f.key, field.key)
    ensures ReadFields(nf, [FieldLine(nf, field)] + rest, known)
         == ReadFields(nf, rest, known + [Field(field.key, field.value.Canonical())])
  {
    hide FieldLine, KeyLine, EncodeValue, ReadScalar, LeadingItems;
    FieldLineReads(nf, field);
    ValueReads(nf, field.value);
    InsertAtEnd(known, field.key, field.value.Canonical());
    assert ([FieldLine(nf, field)] + rest)[1..] == rest;
  }

  /** Printed fields are read back one by one, each insertion at the end. */
  lemma {:induction false} FieldsRead(nf: NumberFormat, fields: Fields, known: Fields)
    requires Lawful(nf) && Writable(fields) && Sorted(known + fields)
    ensures ReadFields(nf, FieldLines(nf, fields), known) == known + CanonicalFields(fields)
    decreases |fields|
  {
    hide FieldLine, ReadFields, Lawful, ValidKey;
    if fields == [] {
      NothingToRead(nf, known);
    } else {
      var field := fields[0];
      var first := Field(field.key, field.value.Canonical());
      assert field in fields && (known + fields)[|known|] == field;
      assert forall i | 0 <= i < |known| :: (known + fields)[i] == known[i];
      FieldLineRead(nf, field, FieldLines(nf, fields[1..]), known);
      SortedAfterStep(known, fields);
      FieldsRead(nf, fields[1..], known + [first]);
      AppendAssociates(known, [first], CanonicalFields(fields[1..]));
      CanonicalFieldsStep(fields);
    }
  }

  lemma NothingToRead(nf: NumberFormat, known: Fields)
    ensures ReadFields(nf, [], known) == known
  {}

  lemma SortedAfterStep(known: Fields, fields: Fields)
    requires fields != [] && Sorted(known + fields)
    ensures Sorted(known + [Field(fields[0].key, fields[0].value.Canonical())] + fields[1..])
  {
    var before := known + fields;
    var after := known + [Field(fields[0].key, fields[0].value.Canonical())] + fields[1..];
    assert forall i | 0 <= i < |before| :: before[i].key == after[i].key;
  }

  // ---------------------------------------------------------------- the closing delimiter

  /** No line but the first may open with the delimiter's three dashes. */
  ghost predicate NoLateDashes(lines: seq<string>) {
    forall i | 1 <= i < |lines| :: !("---" <= lines[i])
  }

  ghost predicate Unbroken(lines: seq<string>) { forall i | 0 <= i < |lines| :: '\n' !in lines[i] }

  /** Then the first delimiter after the lines is the one that follows them. */
  lemma {:induction false} DelimiterAfterLines(lines: seq<string>, tail: string, j: nat)
    requires |lines| > 0 && NoLateDashes(lines) && Unbroken(lines)
    requires j < |Join(lines, "\n")|
    ensures !OccursAt(Join(lines, "\n") + "\n---" + tail, "\n---", j)
  {
    var first := lines[0];
    var text := Join(lines, "\n") + "\n---" + tail;
    assert text[..|first|] == first;
    if j < |first| {
      assert text[j] in first;
    } else {
      var rest := Join(lines[1..], "\n") + "\n---" + tail;
      AfterFirstLine(lines, tail);
      if j == |first| {
        NoDashesNext(lines[1..], tail);
        assert text[j + 1..j + 4] == rest[..3];
        assert text[j..j + 4][1..] == text[j + 1..j + 4];
      } else {
        var k := j - |first| - 1;
        assert text[j..j + 4] == rest[k..k + 4];
        DelimiterAfterLines(lines[1..], tail, k);
      }
    }
  }

  /** A line that does not start with three dashes is not read so with what follows it. */
  lemma NoDashesNext(lines: seq<string>, tail: string)
    requires lines != [] && !("---" <= lines[0])
    ensures var rest := Join(lines, "\n") + "\n---" + tail; |rest| >= 3 && rest[..3] != "---"
  {
    var rest := Join(lines, "\n") + "\n---" + tail;
    assert lines[0] + "\n" <= rest;
    if |lines[0]| >= 3 {
      assert rest[..3] == lines[0][..3];
    } else {
      assert rest[|lines[0]|] == '\n' && rest[..3][|lines[0]|] == '\n';
    }
  }

  lemma AfterFirstLine(lines: seq<string>, tail: string)
    requires |lines| > 1
    ensures Join(lines, "\n") + "\n---" + tail == lines[0] + "\n" + (Join(lines[1..], "\n") + "\n---" + tail)
  {}

  lemma SplitAtBreaks(lines: seq<string>, tail: string)
    requires |lines| > 0 && NoLateDashes(lines) && Unbroken(lines)
    ensures SplitFrontmatter("---\n" + Join(lines, "\n") + "\n---" + tail)
         == Block(Some(Join(lines, "\n")), if "\n" <= tail then tail[1..] else tail)
  {
    hide Join, NoLateDashes, Unbroken;
    var block := Join(lines, "\n");
    var rest := block + "\n---" + tail;
    var source := "---\n" + block + "\n---" + tail;
    assert source == "---\n" + rest && source[4..] == rest;
    assert OccursAt(rest, "\n---", |block|);
    forall j: nat | j < |block| ensures !OccursAt(rest, "\n---", j) {
      DelimiterAfterLines(lines, tail, j);
    }
    assert Find(rest, "\n---") == Some(|block|);
    assert rest[|block| + 4..] == tail && rest[..|block|] == block;
  }

  lemma SplitAtLines(lines: seq<string>, tail: string)
    requires |lines| > 0 && NoLateDashes(lines)
    requires forall i | 0 <= i < |lines| :: OneLine(lines[i]) && |lines[i]| >= 3
    ensures SplitFrontmatter("---\n" + Join(lines, "\n") + "\n---" + tail)
         == Block(Some(Join(lines, "\n")), if "\n" <= tail then tail[1..] else tail)
  {
    assert Unbroken(lines);
    hide SplitFrontmatter, Join, OneLine;
    SplitAtBreaks(lines, tail);
  }

  // ---------------------------------------------------------------- newline normalization

  lemma {:induction false} NormalizedPrefix(prefix: string, rest: string)
    requires '\r' !in prefix
    ensures Normalized(prefix + rest) == prefix + Normalized(rest)
  {
    if prefix == "" {
      assert prefix + rest == rest;
    } else {
      assert prefix[0] in prefix;
      assert (prefix + rest)[1..] == prefix[1..] + rest;
      NormalizedPrefix(prefix[1..], rest);
    }
  }

  ghost predicate HasCrlf(s: string) {
    exists i :: OccursAt(s, "\r\n", i)
  }

  lemma CrlfShifts(s: string)
    requires s != "" && !OccursAt(s, "\r\n", 0)
    ensures HasCrlf(s) <==> HasCrlf(s[1..])
  {
    forall i: int | 0 < i ensures OccursAt(s, "\r\n", i) <==> OccursAt(s[1..], "\r\n", i - 1) {
      if i + 2 <= |s| {
        assert s[i..i + 2] == s[1..][i - 1..i + 1];
      }
    }
    if HasCrlf(s) {
      var i :| OccursAt(s, "\r\n", i);
      assert OccursAt(s[1..], "\r\n", i - 1);
    }
    if HasCrlf(s[1..]) {
      var i :| OccursAt(s[1..], "\r\n", i);
      assert OccursAt(s, "\r\n", i + 1);
    }
  }

  /** Normalization leaves exactly the texts without a CR LF pair alone. */
  lemma {:induction false} NormalizedFixed(s: string)
    ensures |Normalized(s)| <= |s|
    ensures Normalized(s) == s <==> !HasCrlf(s)
  {
    if s == "" {
    } else if |s| >= 2 && s[0] == '\r' && s[1] == '\n' {
      NormalizedFixed(s[2..]);
      assert OccursAt(s, "\r\n", 0);
    } else {
      NormalizedFixed(s[1..]);
      assert s == [s[0]] + s[1..];
      assert |s| >= 2 ==> s[0..2] == [s[0], s[1]];
      CrlfShifts(s);
    }
  }

  lemma {:induction false} FieldLineAt(nf: NumberFormat, fields: Fields, i: nat)
    requires i < |fields|
    ensures FieldLines(nf, fields)[i] == FieldLine(nf, fields[i])
  {
    hide FieldLine;
    if i == 0 {
    } else {
      FieldLineAt(nf, fields[1..], i - 1);
    }
  }

  lemma FieldTextOneLiners(nf: NumberFormat, fields: Fields)
    requires Lawful(nf) && Writable(fields)
    ensures '\r' !in FieldText(nf, fields)
    ensures forall i | 0 <= i < |fields| :: OneLine(FieldLines(nf, fields)[i]) && |FieldLines(nf, fields)[i]| >= 3
    ensures forall i | 0 <= i < |fields| :: "---" <= FieldLines(nf, fields)[i] <==> "---" <= fields[i].key
  {
    hide FieldLine, FieldLines, FieldText, Lawful, ValidKey, OneLine;
    NoReturnInText(nf, fields);
    forall i | 0 <= i < |fields|
      ensures OneLine(FieldLines(nf, fields)[i]) && |FieldLines(nf, fields)[i]| >= 3
      ensures "---" <= FieldLines(nf, fields)[i] <==> "---" <= fields[i].key
    {
      assert fields[i] in fields;
      FieldLineAt(nf, fields, i);
      FieldLineReads(nf, fields[i]);
    }
  }

  lemma {:induction false} NoReturnInText(nf: NumberFormat, fields: Fields)
    requires Lawful(nf) && Writable(fields)
    ensures '\r' !in FieldText(nf, fields)
  {
    hide FieldLine, Lawful, ValidKey, OneLine;
    if fields == [] {
    } else {
      assert fields[0] in fields;
      FieldLineReads(nf, fields[0]);
      NoReturnInLine(FieldLine(nf, fields[0]));
      NoReturnInText(nf, fields[1..]);
    }
  }

  lemma NoReturnInLine(line: string)
    requires OneLine(line)
    ensures '\r' !in line
  {}

  // ---------------------------------------------------------------- the round trip

  /** No key but the least starts with the three dashes of a delimiter. */
  ghost predicate NoLateDashKey(fields: Fields) {
    forall i | 1 <= i < |fields| :: !("---" <= fields[i].key)
  }

  lemma NormalizedRendered(nf: NumberFormat, body: string, fields: Fields)
    requires Lawful(nf) && Writable(fields) && fields != []
    ensures Normalized(Rendered(nf, body, fields))
         == "---\n" + Join(FieldLines(nf, fields), "\n") + "\n---" + ("\n" + Normalized(body))
  {
    hide FieldText, FieldLines, Join, Normalized, Lawful;
    FieldTextOneLiners(nf, fields);
    FieldTextIsJoin(nf, fields);
    NormalizedPrefix("---\n" + FieldText(nf, fields) + "---\n", body);
  }

  lemma SplitFieldLines(nf: NumberFormat, fields: Fields)
    requires Lawful(nf) && Writable(fields) && fields != []
    ensures Split(Join(FieldLines(nf, fields), "\n"), '\n') == FieldLines(nf, fields)
  {
    hide FieldLines, Join, Split, Lawful, Writable;
    FieldTextOneLiners(nf, fields);
    SplitJoin(FieldLines(nf, fields), '\n');
  }

  lemma ReadLines(nf: NumberFormat, fields: Fields)
    requires Lawful(nf) && Writable(fields) && Sorted(fields) && fields != []
    ensures ReadFields(nf, Split(Join(FieldLines(nf, fields), "\n"), '\n'), []) == CanonicalFields(fields)
  {
    hide FieldLines, Join, Split, ReadFields, Lawful;
    SplitFieldLines(nf, fields);
    assert [] + fields == fields && [] + CanonicalFields(fields) == CanonicalFields(fields);
    FieldsRead(nf, fields, []);
  }

  /** With no late dash key, the printed note reads back with its newlines normalized. */
  lemma RenderedReads(nf: NumberFormat, body: string, fields: Fields)
    requires Lawful(nf) && Writable(fields) && Sorted(fields) && fields != []
    requires NoLateDashKey(fields)
    ensures ParseMarkdown(nf, Rendered(nf, body, fields)) == Note(CanonicalFields(fields), Normalized(body))
  {
    hide FieldLines, Join, Split, ReadFields, Normalized, Rendered, SplitFrontmatter, Lawful;
    NormalizedRendered(nf, body, fields);
    FieldTextOneLiners(nf, fields);
    SplitAtLines(FieldLines(nf, fields), "\n" + Normalized(body));
    ReadLines(nf, fields);
  }

  lemma BlockEndsAtDashes(lines: seq<string>, k: nat, end: string)
    requires 1 <= k < |lines| && "---" <= lines[k] && NoLateDashes(lines[..k])
    requires forall i | 0 <= i < k :: OneLine(lines[i]) && |lines[i]| >= 3
    ensures SplitFrontmatter("---\n" + Join(lines, "\n") + "\n---" + end).lines == Some(Join(lines[..k], "\n"))
  {
    hide SplitFrontmatter, Join, OneLine;
    JoinConcat(lines, k, "\n");
    var after := Join(lines[k..], "\n");
    DashesStart(lines[k..]);
    CutAtDashes(Join(lines[..k], "\n"), after, end);
    SplitAtLines(lines[..k], after[3..] + "\n---" + end);
  }

  lemma LateDashLine(nf: NumberFormat, fields: Fields, k: nat)
    requires Lawful(nf) && Writable(fields)
    requires 1 <= k < |fields| && "---" <= fields[k].key && NoLateDashKey(fields[..k])
    ensures var lines := FieldLines(nf, fields);
            "---" <= lines[k] && NoLateDashes(lines[..k])
            && forall i | 0 <= i < k :: OneLine(lines[i]) && |lines[i]| >= 3
  {
    hide FieldLines, Lawful, OneLine, Writable;
    FieldTextOneLiners(nf, fields);
    assert forall i | 0 <= i < k :: fields[..k][i] == fields[i];
  }

  /** With one, the block ends in front of the first such key, and the fields from there on are lost. */
  lemma LateDashKeyLoses(nf: NumberFormat, body: string, fields: Fields, k: nat)
    requires Lawful(nf) && Writable(fields) && Sorted(fields)
    requires 1 <= k < |fields| && "---" <= fields[k].key && NoLateDashKey(fields[..k])
    ensures ParseMarkdown(nf, Rendered(nf, body, fields)).fields == CanonicalFields(fields[..k])
  {
    hide FieldLines, Join, Split, ReadFields, Normalized, Rendered, SplitFrontmatter, Lawful, NoLateDashKey,
        NoLateDashes;
    NormalizedRendered(nf, body, fields);
    LateDashLine(nf, fields, k);
    BlockEndsAtDashes(FieldLines(nf, fields), k, "\n" + Normalized(body));
    FieldLinesPrefix(nf, fields, k);
    assert forall f | f in fields[..k] :: f in fields;
    ReadLines(nf, fields[..k]);
  }

  lemma CutAtDashes(before: string, after: string, end: string)
    requires "---" <= after
    ensures "---\n" + (before + "\n" + after) + "\n---" + end
         == "---\n" + before + "\n---" + (after[3..] + "\n---" + end)
  {}

  lemma DashesStart(lines: seq<string>)
    requires lines != [] && "---" <= lines[0]
    ensures Join(lines, "\n") == "---" + Join(lines, "\n")[3..]
  {}

  ghost function FirstLateDashKey(fields: Fields, from: nat): (k: nat)
    requires 1 <= from < |fields| && NoLateDashKey(fields[..from])
    requires exists i :: from <= i < |fields| && "---" <= fields[i].key
    ensures from <= k < |fields| && "---" <= fields[k].key && NoLateDashKey(fields[..k])
    decreases |fields| - from
  {
    if "---" <= fields[from].key then from else FirstLateDashKey(fields, from + 1)
  }

  /** Printing and parsing are inverse exactly when no late key starts with dashes and the body holds no CR LF. */
  lemma RoundTripExactly(nf: NumberFormat, body: string, fields: Fields)
    requires Lawful(nf) && Writable(fields) && Sorted(fields) && fields != []
    ensures ParseMarkdown(nf, Rendered(nf, body, fields)) == Note(CanonicalFields(fields), body)
       <==> NoLateDashKey(fields) && !HasCrlf(body)
  {
    hide Rendered, ParseMarkdown, Normalized;
    NormalizedFixed(body);
    if NoLateDashKey(fields) {
      RenderedReads(nf, body, fields);
    } else {
      var k := FirstLateDashKey(fields, 1);
      LateDashKeyLoses(nf, body, fields, k);
      assert |CanonicalFields(fields[..k])| < |CanonicalFields(fields)|;
    }
  }
}
