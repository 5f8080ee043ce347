/** Common spellings of fields: read from notes that somebody wrote by hand, and written for plain values. */
module HandWritten {
  import opened Text
  import opened Json
  import opened JsonLaws
  import opened Frontmatter
  import opened FrontmatterLaws
  import opened ValueLaws
  import opened ReadingLaws

  // ---------------------------------------------------------------- common spellings, on a whole note

  /** A note whose block is one key with what is written for it. */
  function Small(p: Piece, body: string): string { "---\n" + Join(PieceLines(p), "\n") + "\n---\n" + body }

  ghost predicate Visible(s: string) { forall c | c in s :: ' ' <= c }

  lemma {:induction false} VisibleJoin(lines: seq<string>)
    requires forall i | 0 <= i < |lines| :: Visible(lines[i])
    ensures '\r' !in Join(lines, "\n") && Unbroken(lines)
  {
    if |lines| <= 1 {
    } else {
      VisibleJoin(lines[1..]);
      assert lines == [lines[0]] + lines[1..];
    }
  }

  lemma SingleField(fields: Fields, p: Piece)
    requires Sorted(fields) && !p.Other? && forall key :: LastValue([p], key, Lookup(fields, key))
    ensures fields == [Field(p.key, PieceValue(p))]
  {
    hide Sorted, PieceValue;
    var one := [Field(p.key, PieceValue(p))];
    SortedOne(one[0]);
    forall key ensures Lookup(fields, key) == Lookup(one, key) {
      LastOfOne(p, key, Lookup(fields, key));
      assert one[1..] == [];
    }
    SameLookups(fields, one);
  }

  lemma LastOfOne(p: Piece, key: string, found: Option<Value>)
    requires !p.Other? && LastValue([p], key, found)
    ensures found == if key == p.key then Some(PieceValue(p)) else None
  {
    hide PieceValue;
    assert [p][0] == p;
  }

  lemma SortedOne(f: Field)
    ensures Sorted([f])
  {}

  lemma SmallReads(nf: NumberFormat, p: Piece, body: string)
    requires Lawful(nf) && PieceFits(nf, p) && !p.Other?
    requires NoLateDashes(PieceLines(p)) && forall i | 0 <= i < |PieceLines(p)| :: Visible(PieceLines(p)[i])
    ensures ParseMarkdown(nf, Small(p, body)) == Note([Field(p.key, PieceValue(p))], Normalized(body))
  {
    hide Lawful, PieceFits, PieceLines, Join, PieceValue, ParseMarkdown, Normalized, LastValue, Lookup, Sorted;
    hide NoLateDashes, Visible, Unbroken;
    var lines := PieceLines(p);
    VisibleJoin(lines);
    var head := "---\n" + Join(lines, "\n") + "\n---";
    NormalizedPrefix(head + "\n", body);
    assert Small(p, body) == (head + "\n") + body;
    AppendAssociates(head, "\n", Normalized(body));
    NoPieces(nf);
    FitCons(nf, p, []);
    assert [p] + [] == [p] && [p][1..] == [] && BlockLines([p]) == lines + [] == lines;
    assert ("\n" + Normalized(body))[1..] == Normalized(body);
    NoteReads(nf, Small(p, body), [p], "\n" + Normalized(body));
    SingleField(ParseMarkdown(nf, Small(p, body)).fields, p);
  }

  /** Text without quotes, commas, control characters, or blanks at its ends. */
  ghost predicate PlainText(s: string) {
    s != "" && Trimmed(s) && Visible(s) && '"' !in s && '\'' !in s && ',' !in s
  }

  lemma PlainMeans(s: string)
    requires PlainText(s)
    ensures StringMeans(s, s)
  {
    assert s[0] in s && s[|s| - 1] in s;
    assert UnquotedBy(s, "", s, "") && Unquoted(s, s);
    hide CharsSpelled;
    assert forall x :: !StringSpelled(s, x);
  }

  /** Items between commas, each behind a blank but the first. */
  function Spaced(items: seq<string>): (pieces: seq<string>)
    requires items != []
    ensures |pieces| == |items| && pieces[0] == items[0]
    ensures forall i | 1 <= i < |items| :: pieces[i] == " " + items[i]
  {
    seq(|items|, i requires 0 <= i < |items| => if i == 0 then items[0] else " " + items[i])
  }

  lemma {:induction false} SpacedJoin(items: seq<string>)
    requires items != []
    ensures Join(Spaced(items), ",") == Join(items, ", ")
  {
    var pieces := Spaced(items);
    if |items| == 1 {
    } else {
      SpacedJoin(items[1..]);
      SpaceFirst(pieces[1..], Spaced(items[1..]));
      assert items[0] + "," + (" " + Join(items[1..], ", ")) == items[0] + ", " + Join(items[1..], ", ");
    }
  }

  lemma SpaceFirst(a: seq<string>, b: seq<string>)
    requires b != [] && |a| == |b| && a[0] == " " + b[0] && a[1..] == b[1..]
    ensures Join(a, ",") == " " + Join(b, ",")
  {
    if |b| > 1 {
      AppendAssociates(" ", b[0] + ",", Join(b[1..], ","));
      AppendAssociates(" ", b[0], ",");
    }
  }

  lemma PlainPiece(lead: string, s: string)
    requires Blank(lead) && PlainText(s)
    ensures PieceMeans(lead + s, s) && !Blank(lead + s)
  {
    PlainMeans(s);
    NothingTrimmed();
    assert lead + s == lead + (s + "");
    assert (lead + s)[|lead|] == s[0] && s[0] in lead + s;
  }

  lemma {:induction false} PlainPieces(pieces: seq<string>, items: seq<string>)
    requires |pieces| == |items| && forall i | 0 <= i < |items| :: PlainText(items[i])
    requires forall i | 0 <= i < |items| :: pieces[i] == items[i] || pieces[i] == " " + items[i]
    ensures PiecesMean(pieces, items)
  {
    hide PieceMeans, PlainText, Blank;
    if pieces == [] {
    } else {
      NothingTrimmed();
      BlankWith("", ' ');
      assert "" + items[0] == items[0] && [' '] + "" == " ";
      PlainPiece(if pieces[0] == items[0] then "" else " ", items[0]);
      PlainPieces(pieces[1..], items[1..]);
    }
  }

  /** A list with an item holds a quote. */
  lemma ItemsHoldQuote(t: string, items: seq<string>)
    requires ItemsSpelled(t, items) && items != []
    ensures '"' in t
  {
    hide JsonBlank, StringSpelled, TailSpelled;
    var gap, text, more :| JsonBlank(gap) && StringSpelled(text, items[0]) && TailSpelled(more, items[1..])
      && t == gap + (text + more);
    SpelledNonempty(text, items[0]);
    assert text[0] in text;
  }

  lemma NoQuoteNoList(raw: string, items: seq<string>)
    requires ListSpelled(raw, items) && '"' !in raw
    ensures items == []
  {
    hide JsonBlank, ItemsSpelled;
    var lead, t, trail :|
      raw == lead + ("[" + (t + trail)) && JsonBlank(lead) && JsonBlank(trail) && ItemsSpelled(t, items);
    assert '"' !in t;
    if items != [] {
      ItemsHoldQuote(t, items);
    }
  }

  lemma EmptyListBlank(raw: string)
    requires ListSpelled(raw, []) && Bracketed(raw)
    ensures forall c | c in raw[1..|raw| - 1] :: IsWhitespace(c)
  {
    hide StringSpelled;
    var lead, t, trail :|
      raw == lead + ("[" + (t + trail)) && JsonBlank(lead) && JsonBlank(trail) && ItemsSpelled(t, []);
    var blank :| JsonBlank(blank) && t == blank + "]";
    Ends(lead, "[" + (t + trail));
    assert lead == "";
    Ends("[" + t, trail);
    AppendAssociates("[", t, trail);
    assert trail == "" && raw == "[" + blank + "]";
    assert raw[1..|raw| - 1] == blank;
  }

  /** A list of plain items between brackets. */
  function FlowText(items: seq<string>): string { "[" + Join(items, ", ") + "]" }

  lemma {:induction false} PlainJoin(items: seq<string>)
    requires items != [] && forall i | 0 <= i < |items| :: PlainText(items[i])
    ensures var s := Join(items, ", "); '"' !in s && Visible(s) && s != "" && !IsWhitespace(s[0])
  {
    assert items[0] != "" && !IsWhitespace(items[0][0]);
    if |items| == 1 {
    } else {
      PlainJoin(items[1..]);
      assert items == [items[0]] + items[1..];
    }
  }

  lemma FlowMeans(nf: NumberFormat, items: seq<string>)
    requires items != [] && forall i | 0 <= i < |items| :: PlainText(items[i])
    ensures var raw := FlowText(items); raw != "" && Trimmed(raw) && Visible(raw) && ValueMeans(nf, raw, List(items))
  {
    hide ListSpelled, PiecesMean, Join;
    var inner := Join(items, ", ");
    var raw := FlowText(items);
    PlainJoin(items);
    assert raw[0] == '[' && raw[|raw| - 1] == ']' && raw[1..|raw| - 1] == inner;
    forall x ensures !ListSpelled(raw, x) {
      assert inner[0] in inner;
      if ListSpelled(raw, x) {
        NoQuoteNoList(raw, x);
        EmptyListBlank(raw);
      }
    }
    var pieces := Spaced(items);
    SpacedJoin(items);
    PlainPieces(pieces, items);
    assert CommaItems(inner, items);
  }

  /** `key: [a, b]` with plain items reads as exactly those items. */
  lemma PlainListReads(nf: NumberFormat, key: string, items: seq<string>, body: string)
    requires Lawful(nf) && ValidKey(key) && items != [] && forall i | 0 <= i < |items| :: PlainText(items[i])
    ensures ParseMarkdown(nf, "---\n" + (key + ": [" + Join(items, ", ") + "]") + "\n---\n" + body)
         == Note([Field(key, List(items))], Normalized(body))
  {
    hide Lawful, ParseMarkdown, Normalized, Join, ValueMeans, Trimmed;
    FlowMeans(nf, items);
    PairSmall(nf, key, FlowText(items), List(items), body);
    assert key + ": [" + Join(items, ", ") + "]" == key + ": " + FlowText(items);
  }

  /** A key with one trimmed, visible text behind it. */
  lemma PairSmall(nf: NumberFormat, key: string, raw: string, value: Value, body: string)
    requires Lawful(nf) && ValidKey(key) && raw != "" && Trimmed(raw) && Visible(raw) && ValueMeans(nf, raw, value)
    ensures ParseMarkdown(nf, "---\n" + (key + ": " + raw) + "\n---\n" + body)
         == Note([Field(key, value)], Normalized(body))
  {
    hide Lawful, ParseMarkdown, Normalized, ValueMeans, Trimmed;
    var p := Pair(key, " ", raw, "", value);
    NothingTrimmed();
    BlankWith("", ' ');
    assert [' '] + "" == " ";
    assert raw + "" == raw && key + (":" + (" " + raw)) == key + ": " + raw;
    assert Visible(key);
    SmallReads(nf, p, body);
  }

  /** An unquoted plain text is itself, unless it is `true`, `false`, or how a number prints. */
  lemma PlainTextReads(nf: NumberFormat, key: string, s: string, body: string)
    requires Lawful(nf) && ValidKey(key) && PlainText(s) && s != "true" && s != "false" && !Bracketed(s)
    requires forall f: Float | f.Finite() :: nf.print_(f) != s
    ensures ParseMarkdown(nf, "---\n" + (key + ": " + s) + "\n---\n" + body)
         == Note([Field(key, Str(s))], Normalized(body))
  {
    hide Lawful, ParseMarkdown, Normalized;
    PlainMeans(s);
    PairSmall(nf, key, s, Str(s), body);
  }

  /** A single-quoted text loses its quotes, whatever it spells between them. */
  lemma QuotedTextReads(nf: NumberFormat, key: string, s: string, body: string)
    requires Lawful(nf) && ValidKey(key) && Visible(s)
    ensures ParseMarkdown(nf, "---\n" + (key + ": '" + s + "'") + "\n---\n" + body)
         == Note([Field(key, Str(s))], Normalized(body))
  {
    hide Lawful, ParseMarkdown, Normalized, CharsSpelled;
    var raw := "'" + s + "'";
    assert raw[0] == '\'' && raw[|raw| - 1] == '\'' && raw == "'" + (s + "'");
    assert UnquotedBy(raw, "'", s, "'") && Unquoted(raw, s);
    assert StringMeans(raw, s);
    QuoteNoNumber(nf, raw);
    PairSmall(nf, key, raw, Str(s), body);
    assert key + ": '" + s + "'" == key + ": " + raw;
  }

  lemma QuoteNoNumber(nf: NumberFormat, raw: string)
    requires Lawful(nf) && raw != "" && raw[0] == '\''
    ensures forall x :: !NumberMeans(nf, raw, x)
  {
    forall f: Float | f.Finite() ensures nf.print_(f) != raw {
      assert '\'' !in NUMBER_CHARACTERS;
      assert raw[0] in raw;
    }
  }

  /** A key alone on its line reads as the empty string, and with item lines below it as exactly those items. */
  lemma ItemLinesRead(nf: NumberFormat, key: string, items: seq<string>, body: string)
    requires Lawful(nf) && ValidKey(key) && forall i | 0 <= i < |items| :: PlainText(items[i])
    ensures ParseMarkdown(nf, "---\n" + Join([key + ":"] + Dashed(items), "\n") + "\n---\n" + body)
         == Note([Field(key, if items == [] then Str("") else List(items))], Normalized(body))
  {
    hide Lawful, ParseMarkdown, Normalized, Join, StringMeans, PlainText, Trimmed, Blank;
    var below := seq(|items|, i requires 0 <= i < |items| => Item("  ", ' ', "", items[i], "", items[i]));
    forall i | 0 <= i < |items| ensures ItemFits(below[i]) && Visible(ItemLine(below[i])) {
      PlainItem(items[i]);
    }
    var p := Below(key, "", below);
    NothingTrimmed();
    DashedLines(items, below);
    assert key + (":" + "") == key + ":";
    SmallLines(nf, p, items);
    SmallReads(nf, p, body);
    assert Strings(below) == items;
  }

  /** `  - item`, line by line. */
  function Dashed(items: seq<string>): seq<string> {
    seq(|items|, i requires 0 <= i < |items| => "  - " + items[i])
  }

  lemma PlainItem(s: string)
    requires PlainText(s)
    ensures ItemFits(Item("  ", ' ', "", s, "", s)) && ItemLine(Item("  ", ' ', "", s, "", s)) == "  - " + s
    ensures Visible("  - " + s)
  {
    hide StringMeans;
    PlainMeans(s);
    assert "" + (s + "") == s && "  " + ("-" + ([' '] + s)) == "  - " + s;
  }

  lemma {:induction false} DashedLines(items: seq<string>, below: seq<Item>)
    requires |below| == |items| && forall i | 0 <= i < |items| :: ItemLine(below[i]) == "  - " + items[i]
    ensures ItemLines(below) == Dashed(items)
  {
    hide ItemLine;
    if items == [] {
    } else {
      DashedLines(items[1..], below[1..]);
      assert Dashed(items) == [Dashed(items)[0]] + Dashed(items[1..]);
    }
  }

  lemma SmallLines(nf: NumberFormat, p: Piece, items: seq<string>)
    requires p.Below? && ValidKey(p.key) && p.blank == "" && ItemLines(p.items) == Dashed(items)
    requires forall i | 0 <= i < |items| :: Visible("  - " + items[i])
    ensures PieceLines(p) == [p.key + ":"] + Dashed(items)
    ensures NoLateDashes(PieceLines(p)) && forall i | 0 <= i < |PieceLines(p)| :: Visible(PieceLines(p)[i])
  {
    assert p.key + (":" + "") == p.key + ":";
    assert Visible(p.key + ":");
    var lines := [p.key + ":"] + Dashed(items);
    forall i | 1 <= i < |lines| ensures !("---" <= lines[i]) && Visible(lines[i]) {
      assert lines[i] == "  - " + items[i - 1] && lines[i][0] == ' ';
    }
  }

  // ---------------------------------------------------------------- what is written for plain values

  /** A text that needs no escape. */
  ghost predicate Unescaped(s: string) { forall c | c in s :: ' ' <= c && c != '"' && c != '\\' }

  lemma UnescapedFirst(s: string)
    requires Unescaped(s) && s != ""
    ensures EscapeChar(s[0]) == [s[0]] && Unescaped(s[1..])
  {
    assert s[0] in s && forall c | c in s[1..] :: c in s;
  }

  lemma {:induction false} UnescapedWritten(s: string)
    requires Unescaped(s)
    ensures EscapeChars(s) == s && EncodeString(s) == "\"" + s + "\""
  {
    hide Unescaped, EscapeChar;
    if s == "" {
    } else {
      UnescapedFirst(s);
      UnescapedWritten(s[1..]);
      assert [s[0]] + s[1..] == s;
    }
  }

  /** Texts between quotes. */
  function Quoted(items: seq<string>): (r: seq<string>)
    ensures |r| == |items| && forall i | 0 <= i < |items| :: r[i] == "\"" + items[i] + "\""
  {
    seq(|items|, i requires 0 <= i < |items| => "\"" + items[i] + "\"")
  }

  lemma {:induction false} ItemsWritten(items: seq<string>)
    requires forall i | 0 <= i < |items| :: Unescaped(items[i])
    ensures EncodeAll(items) == Quoted(items)
  {
    hide Unescaped;
    if items == [] {
    } else {
      UnescapedWritten(items[0]);
      ItemsWritten(items[1..]);
      assert Quoted(items) == [Quoted(items)[0]] + Quoted(items[1..]);
    }
  }

  /** The text of a value that needs no escapes. */
  function Written(nf: NumberFormat, value: Value): string {
    match value
    case Str(s) => "\"" + s + "\""
    case Number(f) => nf.print_(f)
    case Bool(b) => if b then "true" else "false"
    case List(items) => "[" + Join(Quoted(items), ", ") + "]"
  }

  lemma ValueWritten(nf: NumberFormat, value: Value)
    requires value.Str? ==> Unescaped(value.s)
    requires value.List? ==> forall i | 0 <= i < |value.items| :: Unescaped(value.items[i])
    ensures EncodeValue(nf, value) == Written(nf, value)
  {
    hide Unescaped, Join, EncodeString, EncodeAll, Quoted;
    match value
    case Str(s) => UnescapedWritten(s);
    case List(items) => ItemsWritten(items);
    case _ =>
  }

  /** One field over a body is written as the delimiters around `key: value`. */
  lemma FieldWritten(nf: NumberFormat, key: string, value: Value, body: string)
    requires value.Str? ==> Unescaped(value.s)
    requires value.List? ==> forall i | 0 <= i < |value.items| :: Unescaped(value.items[i])
    ensures Rendered(nf, body, [Field(key, value)])
         == "---\n" + (key + ": " + Written(nf, value)) + "\n---\n" + body
  {
    hide Unescaped, EncodeValue, Written;
    ValueWritten(nf, value);
    var line := FieldLine(nf, Field(key, value));
    assert line == key + ": " + Written(nf, value);
    hide FieldLine;
    assert [Field(key, value)][1..] == [] && FieldText(nf, []) == "";
    assert FieldText(nf, [Field(key, value)]) == line + "\n" + "" == line + "\n";
    assert "---\n" + (line + "\n") + "---\n" + body == "---\n" + line + "\n---\n" + body;
  }

  /** Fields are written in order, one line each. */
  lemma {:induction false} FieldsWritten(nf: NumberFormat, fields: Fields, more: Fields)
    ensures FieldText(nf, fields + more) == FieldText(nf, fields) + FieldText(nf, more)
  {
    hide FieldLine;
    if fields == [] {
      assert fields + more == more;
    } else {
      assert (fields + more)[1..] == fields[1..] + more && (fields + more)[0] == fields[0];
      FieldsWritten(nf, fields[1..], more);
      AppendAssociates(FieldLine(nf, fields[0]) + "\n", FieldText(nf, fields[1..]), FieldText(nf, more));
    }
  }

  // ---------------------------------------------------------------- numbers and keys

  /** Every finite number reads back as itself, and a negative zero as zero. */
  lemma NumberReadsBack(nf: NumberFormat, key: string, f: Float, body: string)
    requires Lawful(nf) && ValidKey(key) && f.Finite()
    ensures ParseMarkdown(nf, Rendered(nf, body, [Field(key, Number(f))]))
         == Note([Field(key, Number(if f == Float(true, 0, 0) then Float(false, 0, 0) else f))], Normalized(body))
  {
    hide Lawful, ValidKey, ParseMarkdown, Rendered, Normalized;
    var fields := [Field(key, Number(f))];
    SortedOne(fields[0]);
    RenderedReads(nf, body, fields);
    assert CanonicalFields(fields) == [Field(key, Number(f.Canonical()))];
  }

  /** Exactly these fields can be written: keys of letters, digits, `_` and `-`, and no number that is not finite. */
  lemma WritableExactly(fields: Fields)
    ensures Writable(fields) <==> forall f | f in fields ::
      && f.key != ""
      && (forall c | c in f.key :: ('A' <= c <= 'Z') || ('a' <= c <= 'z') || ('0' <= c <= '9') || c == '_' || c == '-')
      && (f.value.Number? ==> f.value.f.exponent != 2047)
  {
    forall key ensures ValidKey(key) <==> key != "" && forall c | c in key ::
        ('A' <= c <= 'Z') || ('a' <= c <= 'z') || ('0' <= c <= '9') || c == '_' || c == '-'
    {}
  }

  function Zeros(n: nat): (s: string)
    ensures |s| == n && forall c | c in s :: c == '0'
  {
    seq(n, i requires 0 <= i < n => '0')
  }

  /** A number format of unary numerals. */
  function Unary(f: Float): string {
    (if f.Canonical().negative then "-" else "+") + Zeros(f.exponent) + "." + Zeros(f.fraction)
  }

  lemma UnaryApart(f: Float, g: Float)
    requires Unary(f) == Unary(g)
    ensures f.Canonical() == g.Canonical()
  {
    var s := Unary(f);
    assert s[1 + f.exponent] == '.' && s[1 + g.exponent] == '.';
    assert forall i | 1 <= i < 1 + f.exponent :: s[i] == Zeros(f.exponent)[i - 1] && s[i] in Zeros(f.exponent);
    assert forall i | 1 <= i < 1 + g.exponent :: s[i] == Zeros(g.exponent)[i - 1] && s[i] in Zeros(g.exponent);
    assert |s| == 2 + f.exponent + f.fraction == 2 + g.exponent + g.fraction;
    assert s[0] == (if f.Canonical().negative then '-' else '+') == (if g.Canonical().negative then '-' else '+');
  }

  /** The law that is assumed of number formats can be met. */
  lemma SomeFormatIsLawful() returns (nf: NumberFormat)
    ensures Lawful(nf)
  {
    hide Unary;
    var parse := (s: string) =>
      if f: Float :| f.Finite() && f == f.Canonical() && Unary(f) == s then Some(f) else None;
    nf := NumberFormat(f => Unary(f), parse);
    UnaryZero();
    forall f: Float | f.Finite()
      ensures nf.print_(f) != "" && (forall c | c in nf.print_(f) :: c in NUMBER_CHARACTERS)
      ensures nf.parse(nf.print_(f)) == Some(f.Canonical())
    {
      UnaryText(f);
      var g := f.Canonical();
      assert g.Finite() && g == g.Canonical() && Unary(g) == Unary(f);
      forall h: Float | h == h.Canonical() && Unary(h) == Unary(f) ensures h == g {
        UnaryApart(h, f);
      }
    }
  }

  lemma UnaryZero()
    ensures Unary(Float(true, 0, 0)) == Unary(Float(false, 0, 0))
  {}

  lemma UnaryText(f: Float)
    ensures Unary(f) != "" && (forall c | c in Unary(f) :: c in NUMBER_CHARACTERS) && Unary(f.Canonical()) == Unary(f)
  {}
}
