/** Frontmatter: the printer of the writer against the parser of the reader. */
module Frontmatter {
  import opened Text
  import opened Json

  datatype Result<+T> = Ok(value: T) | Err(code: string)

  /** An IEEE 754 binary64 value by its sign, biased exponent and fraction. */
  datatype Float = Float(negative: bool, exponent: nat, fraction: nat) {
    predicate Finite() { exponent != 2047 }

    /** -0 has the spelling of 0, so it is read back as 0. */
    function Canonical(): Float {
      if this == Float(true, 0, 0) then Float(false, 0, 0) else this
    }
  }

  /** The number printer and the standard library's number parser. */
  datatype NumberFormat = NumberFormat(print_: Float -> string, parse: string -> Option<Float>)

  const NUMBER_CHARACTERS: set<char> := {'0', '1', '2', '3', '4', '5', '6', '7', '8', '9', '+', '-', '.', 'e'}

  /** The one assumption on number formatting: finite numbers print as numerals that parse back. */
  ghost predicate Lawful(nf: NumberFormat) {
    && nf.print_(Float(true, 0, 0)) == nf.print_(Float(false, 0, 0))
    && forall f: Float | f.Finite() ::
         && nf.print_(f) != ""
         && (forall c | c in nf.print_(f) :: c in NUMBER_CHARACTERS)
         && nf.parse(nf.print_(f)) == Some(f.Canonical())
  }

  datatype Value = Str(s: string) | Number(f: Float) | Bool(b: bool) | List(items: seq<string>) {
    predicate Printable() { Number? ==> f.Finite() }

    function Canonical(): Value {
      if Number? then Number(f.Canonical()) else this
    }
  }

  // ---------------------------------------------------------------- ordered field maps

  datatype Field = Field(key: string, value: Value)

  /** A `BTreeMap` of fields: its entries in key order. */
  type Fields = seq<Field>

  /** The byte order of UTF-8 text, which is the order of code points. */
  predicate Below(a: string, b: string) {
    if b == "" then false
    else if a == "" then true
    else a[0] < b[0] || (a[0] == b[0] && Below(a[1..], b[1..]))
  }

  ghost predicate Sorted(fields: Fields) {
    forall i, j | 0 <= i < j < |fields| :: Below(fields[i].key, fields[j].key)
  }

  /** `BTreeMap::insert`. */
  function Insert(fields: Fields, key: string, value: Value): Fields {
    if fields == [] then [Field(key, value)]
    else if key == fields[0].key then [Field(key, value)] + fields[1..]
    else if Below(key, fields[0].key) then [Field(key, value)] + fields
    else [fields[0]] + Insert(fields[1..], key, value)
  }

  /** `BTreeMap::extend`. */
  function Extend(fields: Fields, updates: Fields): Fields
    decreases |updates|
  {
    if updates == [] then fields
    else Extend(Insert(fields, updates[0].key, updates[0].value), updates[1..])
  }

  function Lookup(fields: Fields, key: string): Option<Value> {
    if fields == [] then None
    else if fields[0].key == key then Some(fields[0].value)
    else Lookup(fields[1..], key)
  }

  lemma {:induction false} BelowIrreflexive(a: string)
    ensures !Below(a, a)
  {
    if a == "" {
    } else {
      BelowIrreflexive(a[1..]);
    }
  }

  lemma {:induction false} BelowTransitive(a: string, b: string, c: string)
    requires Below(a, b) && Below(b, c)
    ensures Below(a, c)
  {
    if a != "" && a[0] == b[0] && b[0] == c[0] {
      BelowTransitive(a[1..], b[1..], c[1..]);
    }
  }

  lemma {:induction false} BelowTotal(a: string, b: string)
    ensures a == b || Below(a, b) || Below(b, a)
  {
    if a != "" && b != "" && a[0] == b[0] {
      BelowTotal(a[1..], b[1..]);
      assert a == [a[0]] + a[1..] && b == [b[0]] + b[1..];
    }
  }

  lemma {:induction false} InsertKeys(fields: Fields, key: string, value: Value)
    ensures forall f | f in Insert(fields, key, value) :: f == Field(key, value) || f in fields
    ensures Field(key, value) in Insert(fields, key, value)
  {
    if fields == [] {
    } else {
      InsertKeys(fields[1..], key, value);
    }
  }

  lemma {:induction false} InsertSorted(fields: Fields, key: string, value: Value)
    requires Sorted(fields)
    ensures Sorted(Insert(fields, key, value))
  {
    var r := Insert(fields, key, value);
    if fields == [] || key == fields[0].key {
    } else if Below(key, fields[0].key) {
      forall j | 0 <= j < |fields| ensures Below(key, fields[j].key) {
        if j > 0 {
          BelowTransitive(key, fields[0].key, fields[j].key);
        }
      }
    } else {
      BelowTotal(key, fields[0].key);
      InsertSorted(fields[1..], key, value);
      InsertKeys(fields[1..], key, value);
      var rest := Insert(fields[1..], key, value);
      forall j | 0 <= j < |rest| ensures Below(fields[0].key, rest[j].key) {
        assert rest[j] in rest;
      }
    }
  }

  /** Insertion overrides one key and keeps every other. */
  lemma {:induction false} InsertLookup(fields: Fields, key: string, value: Value, k: string)
    requires Sorted(fields)
    ensures Lookup(Insert(fields, key, value), k) == if k == key then Some(value) else Lookup(fields, k)
  {
    if fields == [] {
    } else if key == fields[0].key || Below(key, fields[0].key) {
    } else {
      InsertLookup(fields[1..], key, value, k);
    }
  }

  /** A key above all others goes to the end. */
  lemma {:induction false} InsertAtEnd(fields: Fields, key: string, value: Value)
    requires forall f | f in fields :: Below(f.key, key)
    ensures Insert(fields, key, value) == fields + [Field(key, value)]
  {
    if fields == [] {
    } else {
      assert fields[0] in fields;
      BelowIrreflexive(key);
      if Below(key, fields[0].key) {
        BelowTransitive(key, fields[0].key, key);
      }
      InsertAtEnd(fields[1..], key, value);
    }
  }

  lemma {:induction false} ExtendSorted(fields: Fields, updates: Fields)
    requires Sorted(fields)
    ensures Sorted(Extend(fields, updates))
    decreases |updates|
  {
    if updates == [] {
    } else {
      InsertSorted(fields, updates[0].key, updates[0].value);
      ExtendSorted(Insert(fields, updates[0].key, updates[0].value), updates[1..]);
    }
  }

  lemma {:induction false} SortedTail(fields: Fields)
    requires Sorted(fields) && fields != []
    ensures Sorted(fields[1..]) && Lookup(fields[1..], fields[0].key) == None
  {
    forall f | f in fields[1..] ensures f.key != fields[0].key {
      BelowIrreflexive(f.key);
    }
    AbsentKey(fields[1..], fields[0].key);
  }

  lemma {:induction false} AbsentKey(fields: Fields, key: string)
    requires forall f | f in fields :: f.key != key
    ensures Lookup(fields, key) == None
  {
    if fields == [] {
    } else {
      assert fields[0] in fields;
      AbsentKey(fields[1..], key);
    }
  }

  /** The old fields, overridden by the updates. */
  lemma {:induction false} ExtendLookup(fields: Fields, updates: Fields, k: string)
    requires Sorted(fields) && Sorted(updates)
    ensures Lookup(Extend(fields, updates), k)
         == if Lookup(updates, k).Some? then Lookup(updates, k) else Lookup(fields, k)
    decreases |updates|
  {
    if updates == [] {
    } else {
      var next := Insert(fields, updates[0].key, updates[0].value);
      InsertSorted(fields, updates[0].key, updates[0].value);
      InsertLookup(fields, updates[0].key, updates[0].value, k);
      SortedTail(updates);
      ExtendLookup(next, updates[1..], k);
    }
  }

  lemma {:induction false} LookupMember(fields: Fields, k: string)
    ensures Lookup(fields, k).Some? ==> Field(k, Lookup(fields, k).value) in fields
  {
    if fields != [] && fields[0].key != k {
      LookupMember(fields[1..], k);
    }
  }

  lemma NoLookups(fields: Fields)
    ensures fields == [] <==> forall k :: Lookup(fields, k) == None
  {
    if fields != [] {
      assert Lookup(fields, fields[0].key).Some?;
    }
  }

  /** Ordered maps with the same lookups are the same. */
  lemma {:induction false} SameLookups(a: Fields, b: Fields)
    requires Sorted(a) && Sorted(b)
    requires forall k :: Lookup(a, k) == Lookup(b, k)
    ensures a == b
  {
    if a == [] {
      NoLookups(b);
    } else if b == [] {
      NoLookups(a);
    } else {
      LeastKeysAgree(a, b);
      SortedTail(a);
      SortedTail(b);
      assert Lookup(a, a[0].key) == Lookup(b, a[0].key);
      forall k ensures Lookup(a[1..], k) == Lookup(b[1..], k) {
        assert Lookup(a, k) == Lookup(b, k);
      }
      SameLookups(a[1..], b[1..]);
      assert a == [a[0]] + a[1..] && b == [b[0]] + b[1..];
    }
  }

  lemma LeastKeysAgree(a: Fields, b: Fields)
    requires Sorted(a) && Sorted(b) && a != [] && b != []
    requires forall k :: Lookup(a, k) == Lookup(b, k)
    ensures a[0].key == b[0].key
  {
    assert Lookup(b, a[0].key).Some? && Lookup(a, b[0].key).Some? by {
      assert Lookup(a, a[0].key).Some? && Lookup(b, b[0].key).Some?;
    }
    LookupMember(a, b[0].key);
    LookupMember(b, a[0].key);
    var i :| 0 <= i < |a| && a[i].key == b[0].key;
    var j :| 0 <= j < |b| && b[j].key == a[0].key;
    if i > 0 && j > 0 {
      BelowTransitive(a[0].key, b[0].key, a[0].key);
      BelowIrreflexive(a[0].key);
    }
  }

  // ---------------------------------------------------------------- printing

  predicate IsKeyCharacter(c: char) {
    'A' <= c <= 'Z' || 'a' <= c <= 'z' || '0' <= c <= '9' || c == '_' || c == '-'
  }

  predicate ValidKey(key: string) {
    key != "" && forall c | c in key :: IsKeyCharacter(c)
  }

  function EncodeValue(nf: NumberFormat, value: Value): string {
    match value
    case Str(s) => EncodeString(s)
    case Number(f) => nf.print_(f)
    case Bool(b) => if b then "true" else "false"
    case List(items) => EncodeList(items)
  }

  function FieldLine(nf: NumberFormat, field: Field): string {
    field.key + ": " + EncodeValue(nf, field.value)
  }

  /** The lines between the delimiters. */
  function FieldText(nf: NumberFormat, fields: Fields): string {
    if fields == [] then "" else FieldLine(nf, fields[0]) + "\n" + FieldText(nf, fields[1..])
  }

  predicate Writable(fields: Fields) {
    forall f | f in fields :: ValidKey(f.key) && f.value.Printable()
  }

  /** The text that a successful call writes. */
  function Rendered(nf: NumberFormat, content: string, fields: Fields): string {
    if fields == [] then content else "---\n" + FieldText(nf, fields) + "---\n" + content
  }

  lemma FieldTextStep(nf: NumberFormat, fields: Fields, i: nat, output: string, line: string)
    requires i < |fields| && line == FieldLine(nf, fields[i]) + "\n"
    ensures output + FieldText(nf, fields[i..]) == output + line + FieldText(nf, fields[i + 1..])
  {}

  /** `with_frontmatter`, with no frontmatter argument read as the empty map. */
  method WithFrontmatter(nf: NumberFormat, content: string, fields: Fields) returns (r: Result<string>)
    ensures r.Ok? <==> Writable(fields)
    ensures r.Ok? ==> r.value == Rendered(nf, content, fields)
    ensures r.Err? ==> r.code == "invalid_frontmatter"
  {
    hide FieldLine;
    if fields == [] {
      return Ok(content);
    }
    var output := "---\n";
    for i := 0 to |fields|
      invariant Writable(fields[..i])
      invariant output + FieldText(nf, fields[i..]) == "---\n" + FieldText(nf, fields)
    {
      var field := fields[i];
      if !ValidKey(field.key) || !field.value.Printable() {
        assert field in fields;
        return Err("invalid_frontmatter");
      }
      assert fields[..i + 1] == fields[..i] + [field];
      var line := FieldLine(nf, field) + "\n";
      FieldTextStep(nf, fields, i, output, line);
      output := output + line;
    }
    assert fields[..|fields|] == fields && fields[|fields|..] == [];
    r := Ok(output + "---\n" + content);
  }

  // ---------------------------------------------------------------- parsing

  /** `replace("\r\n", "\n")`. */
  function Normalized(s: string): string {
    if s == "" then ""
    else if |s| >= 2 && s[0] == '\r' && s[1] == '\n' then "\n" + Normalized(s[2..])
    else [s[0]] + Normalized(s[1..])
  }

  datatype Block = Block(lines: Option<string>, body: string)

  /** `split_frontmatter`. */
  function SplitFrontmatter(source: string): Block {
    if !("---\n" <= source) then Block(None, source)
    else
      var rest := source[4..];
      match Find(rest, "\n---")
      case None => Block(None, source)
      case Some(end) =>
        var after := rest[end + 4..];
        Block(Some(rest[..end]), if "\n" <= after then after[1..] else after)
  }

  function KeyLength(line: string): (n: nat)
    ensures n <= |line|
    ensures forall i | 0 <= i < n :: IsKeyCharacter(line[i])
    ensures n < |line| ==> !IsKeyCharacter(line[n])
  {
    if line != "" && IsKeyCharacter(line[0]) then 1 + KeyLength(line[1..]) else 0
  }

  /** The `KEY_LINE` pattern: the key, and the trimmed rest of the line. */
  function KeyLine(line: string): (r: Option<(string, string)>)
    ensures r.Some? ==> ValidKey(r.value.0)
  {
    var n := KeyLength(line);
    if n > 0 && n < |line| && line[n] == ':' then Some((line[..n], Trim(line[n + 1..]))) else None
  }

  /** The `ARRAY_ITEM` pattern: the trimmed text after the dash, which a space must follow. */
  function ArrayItem(line: string): Option<string> {
    var start := TrimStart(line);
    if |start| >= 3 && start[0] == '-' && IsWhitespace(start[1]) then Some(Trim(start[1..])) else None
  }

  function StripQuotes(s: string): string {
    var start := if s != "" && s[0] in {'"', '\''} then s[1..] else s;
    if start != "" && start[|start| - 1] in {'"', '\''} then start[..|start| - 1] else start
  }

  function ReadString(s: string): string {
    match DecodeString(s)
    case Some(text) => text
    case None => StripQuotes(s)
  }

  /** `parse_canonical_number`. */
  function CanonicalNumber(nf: NumberFormat, raw: string): Option<Float> {
    match nf.parse(raw)
    case Some(f) => if f.Finite() && nf.print_(f) == raw then Some(f) else None
    case None => None
  }

  function ReadItems(parts: seq<string>): seq<string> {
    if parts == [] then []
    else
      var item := Trim(parts[0]);
      (if item == "" then [] else [ReadString(item)]) + ReadItems(parts[1..])
  }

  /** `parse_scalar`. */
  function ReadScalar(nf: NumberFormat, raw: string): Value {
    if |raw| >= 2 && raw[0] == '[' && raw[|raw| - 1] == ']' then
      match DecodeList(raw)
      case Some(items) => List(items)
      case None => List(ReadItems(Split(raw[1..|raw| - 1], ',')))
    else if raw == "true" then Bool(true)
    else if raw == "false" then Bool(false)
    else
      match CanonicalNumber(nf, raw)
      case Some(f) => Number(f)
      case None => Str(ReadString(raw))
  }

  /** The run of array items at the start of these lines. */
  function LeadingItems(lines: seq<string>): (items: seq<string>)
    ensures |items| <= |lines|
  {
    if lines == [] then []
    else
      match ArrayItem(lines[0])
      case Some(item) => [ReadString(item)] + LeadingItems(lines[1..])
      case None => []
  }

  /** What the field loop makes of these lines, on top of the fields it has. */
  function ReadFields(nf: NumberFormat, lines: seq<string>, fields: Fields): Fields
    decreases |lines|
  {
    if lines == [] then fields
    else
      match KeyLine(lines[0])
      case None => ReadFields(nf, lines[1..], fields)
      case Some((key, raw)) =>
        if raw != "" then ReadFields(nf, lines[1..], Insert(fields, key, ReadScalar(nf, raw)))
        else
          var items := LeadingItems(lines[1..]);
          var value := if items == [] then Str("") else List(items);
          ReadFields(nf, lines[1 + |items|..], Insert(fields, key, value))
  }

  lemma LeadingItemsStep(lines: seq<string>, cursor: nat)
    requires cursor <= |lines|
    ensures LeadingItems(lines[cursor..])
         == if cursor < |lines| && ArrayItem(lines[cursor]).Some?
            then [ReadString(ArrayItem(lines[cursor]).value)] + LeadingItems(lines[cursor + 1..]) else []
  {}

  /** The inner loop of `parse_frontmatter`. */
  method TakeItems(lines: seq<string>, start: nat) returns (items: seq<string>, cursor: nat)
    requires start <= |lines|
    ensures items == LeadingItems(lines[start..]) && cursor == start + |items|
  {
    hide ArrayItem, ReadString;
    items, cursor := [], start;
    while cursor < |lines| && ArrayItem(lines[cursor]).Some?
      invariant start <= cursor <= |lines| && cursor == start + |items|
      invariant LeadingItems(lines[start..]) == items + LeadingItems(lines[cursor..])
    {
      LeadingItemsStep(lines, cursor);
      var item := ReadString(ArrayItem(lines[cursor]).value);
      AppendAssociates(items, [item], LeadingItems(lines[cursor + 1..]));
      items, cursor := items + [item], cursor + 1;
    }
    LeadingItemsStep(lines, cursor);
  }

  /** `parse_frontmatter`. */
  method ParseFrontmatter(nf: NumberFormat, block: string) returns (fields: Fields)
    ensures fields == ReadFields(nf, Split(block, '\n'), [])
  {
    hide KeyLine, ReadScalar, Insert, LeadingItems, Split;
    fields := [];
    var lines := Split(block, '\n');
    var cursor := 0;
    assert lines[0..] == lines;
    while cursor < |lines|
      invariant cursor <= |lines|
      invariant ReadFields(nf, lines[cursor..], fields) == ReadFields(nf, lines, [])
    {
      ghost var rest := lines[cursor..];
      var line := lines[cursor];
      cursor := cursor + 1;
      assert rest[0] == line && rest[1..] == lines[cursor..];
      match KeyLine(line) {
        case None =>
        case Some((key, raw)) =>
          if raw == "" {
            var items, next := TakeItems(lines, cursor);
            assert rest[1 + |items|..] == lines[next..];
            cursor := next;
            fields := Insert(fields, key, if items == [] then Str("") else List(items));
          } else {
            fields := Insert(fields, key, ReadScalar(nf, raw));
          }
      }
    }
    assert lines[cursor..] == [];
  }

  datatype Note = Note(fields: Fields, body: string)

  /** `parse_markdown`: the fields and the body. */
  function ParseMarkdown(nf: NumberFormat, source: string): Note {
    var block := SplitFrontmatter(Normalized(source));
    Note(match block.lines
         case Some(lines) => ReadFields(nf, Split(lines, '\n'), [])
         case None => [],
         block.body)
  }

  method ReadMarkdown(nf: NumberFormat, source: string) returns (note: Note)
    ensures note == ParseMarkdown(nf, source)
  {
    var block := SplitFrontmatter(Normalized(source));
    var fields := [];
    if block.lines.Some? {
      fields := ParseFrontmatter(nf, block.lines.value);
    }
    note := Note(fields, block.body);
  }

  // ---------------------------------------------------------------- merging

  /** What `update_frontmatter` writes over the current text. */
  function Updated(nf: NumberFormat, current: string, updates: Fields): Result<string> {
    var note := ParseMarkdown(nf, current);
    var merged := Extend(note.fields, updates);
    if Writable(merged) then Ok(Rendered(nf, note.body, merged)) else Err("invalid_frontmatter")
  }

  /** The frontmatter branch of `apply`. */
  method UpdateFrontmatter(nf: NumberFormat, current: string, updates: Fields) returns (r: Result<string>)
    ensures r == Updated(nf, current, updates)
  {
    var note := ReadMarkdown(nf, current);
    r := WithFrontmatter(nf, note.body, Extend(note.fields, updates));
  }
}
