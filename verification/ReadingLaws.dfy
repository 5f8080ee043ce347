/** What any note is read as: its block line by line, and the text behind it. */
module ReadingLaws {
  import opened Text
  import opened Json
  import opened JsonLaws
  import opened Frontmatter
  import opened FrontmatterLaws
  import opened ValueLaws

  // ---------------------------------------------------------------- lines

  /** A line with a key: what follows its colon is trimmed. */
  ghost predicate IsKeyLine(line: string) {
    exists key, rest :: ValidKey(key) && line == key + (":" + rest)
  }

  /** A line with an item: a dash, and a blank and something more behind it. */
  ghost predicate IsItemLine(line: string) {
    exists lead, gap, rest :: Blank(lead) && IsWhitespace(gap) && rest != "" && line == lead + ("-" + ([gap] + rest))
  }

  lemma KeyLineReads(key: string, rest: string)
    requires ValidKey(key)
    ensures KeyLine(key + (":" + rest)) == Some((key, Trim(rest)))
  {
    hide Trim;
    var line := key + (":" + rest);
    KeyLengthIs(key, ":" + rest);
    assert line[|key|] == ':' && line[|key| + 1..] == rest && line[..|key|] == key;
  }

  lemma KeyLineExactly(line: string)
    ensures KeyLine(line).Some? <==> IsKeyLine(line)
  {
    hide Trim;
    if KeyLine(line).Some? {
      var n := KeyLength(line);
      assert line == line[..n] + (":" + line[n + 1..]);
    }
    if key, rest :| ValidKey(key) && line == key + (":" + rest) {
      KeyLineReads(key, rest);
    }
  }

  lemma ItemLineReads(lead: string, gap: char, rest: string)
    requires Blank(lead) && IsWhitespace(gap) && rest != ""
    ensures ArrayItem(lead + ("-" + ([gap] + rest))) == Some(Trim([gap] + rest))
  {
    hide Trim;
    var start := "-" + ([gap] + rest);
    StartAfterBlank(lead, start);
    assert TrimStart(start) == start && start[1] == gap && start[1..] == [gap] + rest;
  }

  lemma ItemLineExactly(line: string)
    ensures ArrayItem(line).Some? <==> IsItemLine(line)
  {
    hide Trim, TrimStart, Blank;
    if ArrayItem(line).Some? {
      var lead := BlankBefore(line);
      var start := TrimStart(line);
      assert start == "-" + ([start[1]] + start[2..]);
    }
    if lead, gap, rest :| Blank(lead) && IsWhitespace(gap) && rest != "" && line == lead + ("-" + ([gap] + rest)) {
      ItemLineReads(lead, gap, rest);
    }
  }

  /** A line with a key is no item, even when its key starts with a dash. */
  lemma KeyIsNoItem(key: string, rest: string)
    requires ValidKey(key)
    ensures ArrayItem(key + (":" + rest)) == None
  {
    var line := key + (":" + rest);
    assert line[0] in key && TrimStart(line) == line;
    assert |key| > 1 ==> line[1] in key;
    assert |key| == 1 ==> line[1] == ':';
  }

  // ---------------------------------------------------------------- pieces of a block

  /** One line of a list below its key: the item between blanks, and the string it means. */
  datatype Item = Item(lead: string, gap: char, before: string, text: string, trail: string, s: string)

  /** A key with a value on its line, a key with a list of lines below it or nothing, or a line that is neither. */
  datatype Piece =
    | Pair(key: string, lead: string, raw: string, trail: string, value: Value)
    | Below(key: string, blank: string, items: seq<Item>)
    | Other(line: string)

  function ItemLine(item: Item): string {
    item.lead + ("-" + ([item.gap] + (item.before + (item.text + item.trail))))
  }

  function ItemLines(items: seq<Item>): (lines: seq<string>)
    ensures |lines| == |items|
  {
    if items == [] then [] else [ItemLine(items[0])] + ItemLines(items[1..])
  }

  function Strings(items: seq<Item>): (r: seq<string>)
    ensures |r| == |items| && forall i | 0 <= i < |items| :: r[i] == items[i].s
  {
    if items == [] then [] else [items[0].s] + Strings(items[1..])
  }

  function PieceLines(p: Piece): (lines: seq<string>)
    ensures lines != []
  {
    match p
    case Pair(key, lead, raw, trail, _) => [key + (":" + (lead + (raw + trail)))]
    case Below(key, blank, items) => [key + (":" + blank)] + ItemLines(items)
    case Other(line) => [line]
  }

  ghost predicate ItemFits(item: Item) {
    && Blank(item.lead) && IsWhitespace(item.gap) && Blank(item.before) && Blank(item.trail)
    && Trimmed(item.text) && item.before + (item.text + item.trail) != "" && StringMeans(item.text, item.s)
  }

  ghost predicate PieceFits(nf: NumberFormat, p: Piece) {
    match p
    case Pair(key, lead, raw, trail, value) =>
      ValidKey(key) && Blank(lead) && Blank(trail) && raw != "" && Trimmed(raw) && ValueMeans(nf, raw, value)
    case Below(key, blank, items) => ValidKey(key) && Blank(blank) && forall i | 0 <= i < |items| :: ItemFits(items[i])
    case Other(line) => !IsKeyLine(line)
  }

  /** The value a piece gives its key: for a key alone on its line the items below it, or the empty string. */
  function PieceValue(p: Piece): Value
    requires !p.Other?
  {
    match p
    case Pair(_, _, _, _, value) => value
    case Below(_, _, items) => if items == [] then Str("") else List(Strings(items))
  }

  lemma ItemReads(item: Item)
    requires ItemFits(item)
    ensures ArrayItem(ItemLine(item)).Some? && ReadString(ArrayItem(ItemLine(item)).value) == item.s
  {
    hide StringMeans, ReadString, Trim, Trimmed, ArrayItem, Blank;
    var behind := item.before + (item.text + item.trail);
    ItemLineReads(item.lead, item.gap, behind);
    BlankWith(item.before, item.gap);
    AppendAssociates([item.gap], item.before, item.text + item.trail);
    TrimBlanks([item.gap] + item.before, item.text, item.trail);
    ReadStringExactly(item.text, item.s);
  }

  /** Item lines are read as their strings, up to the first line that is no item. */
  lemma {:induction false} ItemsRead(items: seq<Item>, rest: seq<string>)
    requires forall i | 0 <= i < |items| :: ItemFits(items[i])
    requires rest != [] ==> ArrayItem(rest[0]) == None
    ensures LeadingItems(ItemLines(items) + rest) == Strings(items)
  {
    hide ArrayItem, ItemFits, ReadString, ItemLine;
    if items == [] {
      assert ItemLines(items) + rest == rest;
    } else {
      ItemReads(items[0]);
      ItemsRead(items[1..], rest);
      ItemsStep(items, rest);
    }
  }

  lemma ItemsStep(items: seq<Item>, rest: seq<string>)
    requires items != [] && ArrayItem(ItemLine(items[0])).Some?
    ensures LeadingItems(ItemLines(items) + rest)
         == [ReadString(ArrayItem(ItemLine(items[0])).value)] + LeadingItems(ItemLines(items[1..]) + rest)
  {
    hide ArrayItem, ReadString, ItemLine, LeadingItems;
    AppendAssociates([ItemLine(items[0])], ItemLines(items[1..]), rest);
    LeadingStep(ItemLine(items[0]), ItemLines(items[1..]) + rest);
  }

  lemma LeadingStep(line: string, lines: seq<string>)
    requires ArrayItem(line).Some?
    ensures LeadingItems([line] + lines) == [ReadString(ArrayItem(line).value)] + LeadingItems(lines)
  {
    hide ArrayItem, ReadString;
    assert ([line] + lines)[1..] == lines;
  }

  lemma PairReads(nf: NumberFormat, line: string, key: string, raw: string, rest: seq<string>, fields: Fields)
    requires KeyLine(line) == Some((key, raw)) && raw != ""
    ensures ReadFields(nf, [line] + rest, fields) == ReadFields(nf, rest, Insert(fields, key, ReadScalar(nf, raw)))
  {
    hide ReadScalar, KeyLine, LeadingItems, Insert;
    assert ([line] + rest)[1..] == rest;
  }

  lemma BelowReads(nf: NumberFormat, line: string, key: string, lines: seq<string>, n: nat, fields: Fields)
    requires KeyLine(line) == Some((key, "")) && n == |LeadingItems(lines)|
    ensures ReadFields(nf, [line] + lines, fields) == ReadFields(nf, lines[n..],
              Insert(fields, key, if LeadingItems(lines) == [] then Str("") else List(LeadingItems(lines))))
  {
    hide ReadScalar, KeyLine, LeadingItems, Insert;
    assert ([line] + lines)[1..] == lines && ([line] + lines)[1 + n..] == lines[n..];
  }

  lemma OtherReads(nf: NumberFormat, line: string, rest: seq<string>, fields: Fields)
    requires KeyLine(line) == None
    ensures ReadFields(nf, [line] + rest, fields) == ReadFields(nf, rest, fields)
  {
    hide ReadScalar, KeyLine, LeadingItems, Insert;
    assert ([line] + rest)[1..] == rest;
  }

  /** One piece is read as its key and value, or as nothing. */
  lemma PieceReads(nf: NumberFormat, p: Piece, rest: seq<string>, fields: Fields)
    requires Lawful(nf) && PieceFits(nf, p) && (p.Below? && rest != [] ==> ArrayItem(rest[0]) == None)
    ensures ReadFields(nf, PieceLines(p) + rest, fields)
         == ReadFields(nf, rest, if p.Other? then fields else Insert(fields, p.key, PieceValue(p)))
  {
    hide Lawful, ValueMeans, ReadScalar, ArrayItem, ItemFits, KeyLine, LeadingItems, Insert, Blank, Trimmed, Trim;
    hide ItemLines, ItemLine, IsKeyLine, ReadFields;
    match p
    case Pair(key, lead, raw, trail, value) =>
      KeyLineReads(key, lead + (raw + trail));
      TrimBlanks(lead, raw, trail);
      ReadScalarExactly(nf, raw, value);
      PairReads(nf, key + (":" + (lead + (raw + trail))), key, raw, rest, fields);
    case Below(key, blank, items) =>
      KeyLineReads(key, blank);
      NothingTrimmed();
      TrimBlanks(blank, "", "");
      assert blank + ("" + "") == blank;
      ItemsRead(items, rest);
      BelowReads(nf, key + (":" + blank), key, ItemLines(items) + rest, |items|, fields);
      assert (ItemLines(items) + rest)[|items|..] == rest;
      AppendAssociates([key + (":" + blank)], ItemLines(items), rest);
    case Other(line) =>
      KeyLineExactly(line);
      OtherReads(nf, line, rest, fields);
  }

  // ---------------------------------------------------------------- whole notes

  function BlockLines(pieces: seq<Piece>): seq<string> {
    if pieces == [] then [] else PieceLines(pieces[0]) + BlockLines(pieces[1..])
  }

  /** A line behind a list that is not of the list does not look like an item. */
  ghost predicate Apart(pieces: seq<Piece>) {
    forall i | 0 <= i < |pieces| - 1 :: pieces[i].Below? && pieces[i + 1].Other? ==> !IsItemLine(pieces[i + 1].line)
  }

  ghost predicate Fit(nf: NumberFormat, pieces: seq<Piece>) {
    Apart(pieces) && forall i | 0 <= i < |pieces| :: PieceFits(nf, pieces[i])
  }

  /** The value of the last piece that has the key. */
  ghost predicate LastValue(pieces: seq<Piece>, key: string, found: Option<Value>) {
    match found
    case None => forall i | 0 <= i < |pieces| && !pieces[i].Other? :: pieces[i].key != key
    case Some(value) =>
      exists i | 0 <= i < |pieces| ::
        && !pieces[i].Other? && pieces[i].key == key && PieceValue(pieces[i]) == value
        && forall j | i < j < |pieces| && !pieces[j].Other? :: pieces[j].key != key
  }

  /** The fields with what the pieces give them. */
  function Gathered(fields: Fields, pieces: seq<Piece>): Fields
    decreases |pieces|
  {
    if pieces == [] then fields
    else
      var p := pieces[0];
      Gathered(if p.Other? then fields else Insert(fields, p.key, PieceValue(p)), pieces[1..])
  }

  lemma FitTail(nf: NumberFormat, pieces: seq<Piece>)
    requires Fit(nf, pieces) && pieces != []
    ensures Fit(nf, pieces[1..]) && PieceFits(nf, pieces[0])
    ensures pieces[0].Below? && |pieces| > 1 ==> ArrayItem(PieceLines(pieces[1])[0]) == None
  {
    hide ArrayItem, IsItemLine, PieceFits;
    if pieces[0].Below? && |pieces| > 1 {
      assert PieceFits(nf, pieces[1]);
      assert pieces[0 + 1] == pieces[1];
      FirstLineIsNoItem(nf, pieces[1]);
    }
    forall i | 0 <= i < |pieces[1..]| - 1
      ensures pieces[1..][i].Below? && pieces[1..][i + 1].Other? ==> !IsItemLine(pieces[1..][i + 1].line)
    {
      assert pieces[1..][i] == pieces[i + 1] && pieces[1..][i + 1] == pieces[i + 1 + 1];
    }
  }

  lemma FirstLineIsNoItem(nf: NumberFormat, p: Piece)
    requires PieceFits(nf, p) && (p.Other? ==> !IsItemLine(p.line))
    ensures ArrayItem(PieceLines(p)[0]) == None
  {
    hide ArrayItem, IsItemLine, ValueMeans, ItemFits;
    match p
    case Pair(key, lead, raw, trail, _) => KeyIsNoItem(key, lead + (raw + trail));
    case Below(key, blank, _) => KeyIsNoItem(key, blank);
    case Other(line) => ItemLineExactly(line);
  }

  lemma {:induction false} PiecesRead(nf: NumberFormat, pieces: seq<Piece>, fields: Fields)
    requires Lawful(nf) && Fit(nf, pieces)
    ensures ReadFields(nf, BlockLines(pieces), fields) == Gathered(fields, pieces)
    decreases |pieces|
  {
    hide Lawful, Fit, PieceFits, ReadFields, PieceLines, Insert, ArrayItem, PieceValue;
    if pieces == [] {
      NothingToRead(nf, fields);
    } else {
      var p := pieces[0];
      FitTail(nf, pieces);
      BlockStarts(pieces[1..]);
      PieceReads(nf, p, BlockLines(pieces[1..]), fields);
      PiecesRead(nf, pieces[1..], if p.Other? then fields else Insert(fields, p.key, PieceValue(p)));
    }
  }

  lemma BlockStarts(pieces: seq<Piece>)
    ensures pieces != [] ==> BlockLines(pieces) != [] && BlockLines(pieces)[0] == PieceLines(pieces[0])[0]
  {
    hide PieceLines;
  }

  /** Gathering gives each key its last value, over what the fields had. */
  lemma {:induction false} GatheredLookup(fields: Fields, pieces: seq<Piece>, key: string)
    requires Sorted(fields)
    ensures Sorted(Gathered(fields, pieces))
    ensures LastValue(pieces, key, None) ==> Lookup(Gathered(fields, pieces), key) == Lookup(fields, key)
    ensures !LastValue(pieces, key, None) ==> LastValue(pieces, key, Lookup(Gathered(fields, pieces), key))
    decreases |pieces|
  {
    hide Sorted, Insert, Lookup, PieceValue;
    if pieces == [] {
    } else {
      var p := pieces[0];
      var next := if p.Other? then fields else Insert(fields, p.key, PieceValue(p));
      if !p.Other? {
        InsertSorted(fields, p.key, PieceValue(p));
        InsertLookup(fields, p.key, PieceValue(p), key);
      }
      GatheredLookup(next, pieces[1..], key);
      LastValueStep(pieces, key, Lookup(Gathered(fields, pieces), key));
    }
  }

  lemma LastValueStep(pieces: seq<Piece>, key: string, found: Option<Value>)
    requires pieces != []
    ensures LastValue(pieces, key, None)
       <==> LastValue(pieces[1..], key, None) && (pieces[0].Other? || pieces[0].key != key)
    ensures found.Some? && LastValue(pieces[1..], key, found) ==> LastValue(pieces, key, found)
    ensures LastValue(pieces[1..], key, None) && !pieces[0].Other? && pieces[0].key == key
      ==> LastValue(pieces, key, Some(PieceValue(pieces[0])))
  {
    hide PieceValue;
    var rest := pieces[1..];
    assert forall i | 1 <= i < |pieces| :: pieces[i] == rest[i - 1];
    assert forall i | 0 <= i < |rest| :: rest[i] == pieces[i + 1];
    if found.Some? && LastValue(rest, key, found) {
      var i :| 0 <= i < |rest| && !rest[i].Other? && rest[i].key == key && PieceValue(rest[i]) == found.value
        && forall j | i < j < |rest| && !rest[j].Other? :: rest[j].key != key;
      assert !pieces[i + 1].Other? && pieces[i + 1].key == key && PieceValue(pieces[i + 1]) == found.value;
    }
  }

  /**
   * A note that opens with a block of such pieces, in any arrangement, reads as the last value of each key and the
   * text behind the block. Only newlines are normalized first.
   */
  lemma NoteReads(nf: NumberFormat, source: string, pieces: seq<Piece>, tail: string)
    requires Lawful(nf) && Fit(nf, pieces) && pieces != []
    requires Unbroken(BlockLines(pieces)) && NoLateDashes(BlockLines(pieces))
    requires Normalized(source) == "---\n" + Join(BlockLines(pieces), "\n") + "\n---" + tail
    ensures var note := ParseMarkdown(nf, source);
      && note.body == (if "\n" <= tail then tail[1..] else tail) && Sorted(note.fields)
      && forall key :: LastValue(pieces, key, Lookup(note.fields, key))
  {
    hide Lawful, Fit, BlockLines, Join, Split, SplitFrontmatter, ReadFields, Normalized, LastValue, Lookup, Sorted;
    hide NoLateDashes;
    var lines := BlockLines(pieces);
    BlockStarts(pieces);
    SplitAtBreaks(lines, tail);
    SplitJoin(lines, '\n');
    PiecesRead(nf, pieces, []);
    forall key ensures Sorted(Gathered([], pieces)) && LastValue(pieces, key, Lookup(Gathered([], pieces), key)) {
      NothingSorted(key);
      GatheredLookup([], pieces, key);
    }
    assert Sorted(Gathered([], pieces)) by {
      NothingSorted("");
      GatheredLookup([], pieces, "");
    }
  }

  lemma NothingSorted(key: string)
    ensures Sorted([]) && Lookup([], key) == None
  {}

  // ---------------------------------------------------------------- every note is of this kind

  lemma SomeItem(line: string) returns (item: Item)
    requires ArrayItem(line).Some?
    ensures ItemFits(item) && ItemLine(item) == line
  {
    hide StringMeans, ReadString, Trim, Trimmed, Blank, TrimStart;
    var lead := BlankBefore(line);
    var start := TrimStart(line);
    var behind := start[2..];
    var before, trail := TrimParts(behind);
    var text := Trim(behind);
    ReadStringExactly(text, ReadString(text));
    item := Item(lead, start[1], before, text, trail, ReadString(text));
    assert start == "-" + ([start[1]] + behind);
  }

  lemma {:induction false} SomeItems(lines: seq<string>) returns (items: seq<Item>)
    ensures |items| <= |lines| && ItemLines(items) == lines[..|items|]
    ensures forall i | 0 <= i < |items| :: ItemFits(items[i])
    ensures |items| < |lines| ==> ArrayItem(lines[|items|]) == None
  {
    hide ArrayItem, ItemFits, ItemLine;
    if lines == [] || ArrayItem(lines[0]).None? {
      items := [];
    } else {
      var first := SomeItem(lines[0]);
      var more := SomeItems(lines[1..]);
      items := [first] + more;
      assert lines[..|items|] == [lines[0]] + lines[1..][..|more|];
      assert items[1..] == more;
    }
  }

  /** The first piece of a block of lines. */
  lemma SomePiece(nf: NumberFormat, lines: seq<string>) returns (p: Piece)
    requires Lawful(nf) && lines != []
    ensures PieceFits(nf, p) && |PieceLines(p)| <= |lines| && PieceLines(p) == lines[..|PieceLines(p)|]
    ensures p.Below? && |PieceLines(p)| < |lines| ==> ArrayItem(lines[|PieceLines(p)|]) == None
  {
    hide Lawful, ValueMeans, ReadScalar, ArrayItem, ItemFits, Blank, Trimmed, Trim, ItemLine, KeyLine;
    KeyLineExactly(lines[0]);
    if KeyLine(lines[0]).None? {
      p := Other(lines[0]);
      assert lines[..1] == [lines[0]];
    } else {
      var key, rest :| ValidKey(key) && lines[0] == key + (":" + rest);
      var lead, trail := TrimParts(rest);
      var raw := Trim(rest);
      if raw != "" {
        ReadScalarExactly(nf, raw, ReadScalar(nf, raw));
        p := Pair(key, lead, raw, trail, ReadScalar(nf, raw));
        assert lines[..1] == [lines[0]];
      } else {
        BlankJoin(lead, trail);
        assert rest == lead + trail;
        var items := SomeItems(lines[1..]);
        p := Below(key, rest, items);
        assert lines[..1 + |items|] == [lines[0]] + lines[1..][..|items|];
        assert |items| < |lines[1..]| ==> lines[1..][|items|] == lines[1 + |items|];
      }
    }
  }

  lemma BlankJoin(a: string, b: string)
    requires Blank(a) && Blank(b)
    ensures Blank(a + b)
  {}

  /** Any lines at all are such pieces. */
  lemma {:induction false} SomePieces(nf: NumberFormat, lines: seq<string>) returns (pieces: seq<Piece>)
    requires Lawful(nf)
    ensures Fit(nf, pieces) && BlockLines(pieces) == lines
    decreases |lines|
  {
    hide Lawful, PieceFits, PieceLines, ArrayItem, IsItemLine;
    if lines == [] {
      pieces := [];
    } else {
      var p := SomePiece(nf, lines);
      var n := |PieceLines(p)|;
      var more := SomePieces(nf, lines[n..]);
      pieces := [p] + more;
      BlockStarts(more);
      assert pieces[1..] == more && lines == lines[..n] + lines[n..];
      FitCons(nf, p, more);
    }
  }

  lemma FitCons(nf: NumberFormat, p: Piece, more: seq<Piece>)
    requires PieceFits(nf, p) && Fit(nf, more)
    requires p.Below? && more != [] ==> ArrayItem(PieceLines(more[0])[0]) == None
    ensures Fit(nf, [p] + more)
  {
    hide PieceFits, ArrayItem, IsItemLine;
    var pieces := [p] + more;
    forall i | 0 <= i < |pieces| - 1
      ensures pieces[i].Below? && pieces[i + 1].Other? ==> !IsItemLine(pieces[i + 1].line)
    {
      if i == 0 {
        assert pieces[i + 1] == more[0];
        if more[0].Other? {
          ItemLineExactly(more[0].line);
        }
      } else {
        assert pieces[i] == more[i - 1] && pieces[i + 1] == more[i - 1 + 1];
      }
    }
  }

  /** A normalized text opens a block: the delimiter line, the block, and the first delimiter after it. */
  ghost predicate Opens(text: string, block: string, tail: string) {
    && text == "---\n" + block + "\n---" + tail
    && forall j | 0 <= j < |block| :: !OccursAt(block + "\n---" + tail, "\n---", j)
  }

  lemma OpenedBlock(text: string, block: string, tail: string)
    requires Opens(text, block, tail)
    ensures SplitFrontmatter(text) == Block(Some(block), if "\n" <= tail then tail[1..] else tail)
  {
    var rest := block + "\n---" + tail;
    assert text == "---\n" + rest && text[4..] == rest && OccursAt(rest, "\n---", |block|);
    assert Find(rest, "\n---") == Some(|block|);
    assert rest[|block| + 4..] == tail && rest[..|block|] == block;
  }

  lemma BlockOpened(text: string) returns (block: string, tail: string)
    requires SplitFrontmatter(text).lines.Some?
    ensures Opens(text, block, tail)
  {
    hide OccursAt, FindFrom;
    var rest := text[4..];
    var end := Find(rest, "\n---").value;
    OccursSplits(rest, "\n---", end);
    block, tail := rest[..end], rest[end + 4..];
    assert text == "---\n" + rest;
  }

  lemma OccursSplits(text: string, pattern: string, i: nat)
    requires OccursAt(text, pattern, i)
    ensures i + |pattern| <= |text| && text == text[..i] + pattern + text[i + |pattern|..]
  {}

  lemma NothingOpened(text: string)
    ensures SplitFrontmatter(text).lines.None? ==> SplitFrontmatter(text).body == text
  {}

  /** The body is what follows the block that these lines are, or everything when there is no block. */
  ghost predicate BodyBehind(text: string, lines: seq<string>, body: string) {
    if exists block, tail :: Opens(text, block, tail)
    then exists tail :: Opens(text, Join(lines, "\n"), tail) && body == if "\n" <= tail then tail[1..] else tail
    else lines == [] && body == text
  }

  /**
   * Every note: without a block it is all body; with one, its lines are pieces in a row, and the note reads as the
   * last value of each key and the text behind the block.
   */
  lemma EveryNoteReads(nf: NumberFormat, source: string) returns (pieces: seq<Piece>)
    requires Lawful(nf)
    ensures var note := ParseMarkdown(nf, source);
      && Fit(nf, pieces) && BodyBehind(Normalized(source), BlockLines(pieces), note.body)
      && Sorted(note.fields) && forall key :: LastValue(pieces, key, Lookup(note.fields, key))
  {
    hide Lawful, Fit, BlockLines, Join, Split, SplitFrontmatter, ReadFields, Normalized, LastValue, Lookup, Sorted;
    hide Opens, BodyBehind;
    var text := Normalized(source);
    if block, tail :| Opens(text, block, tail) {
      OpenedBlock(text, block, tail);
      pieces := SomePieces(nf, Split(block, '\n'));
      JoinSplit(block, '\n');
      PiecesRead(nf, pieces, []);
      BehindIs(text, block, tail, BlockLines(pieces));
    } else {
      pieces := [];
      NothingOpened(text);
      if SplitFrontmatter(text).lines.Some? {
        var block, tail := BlockOpened(text);
      }
      NoPieces(nf);
      BehindNothing(text);
    }
    assert ParseMarkdown(nf, source).fields == Gathered([], pieces);
    forall key ensures Sorted(Gathered([], pieces)) && LastValue(pieces, key, Lookup(Gathered([], pieces), key)) {
      NothingSorted(key);
      GatheredLookup([], pieces, key);
    }
    assert Sorted(Gathered([], pieces)) by {
      NothingSorted("");
      GatheredLookup([], pieces, "");
    }
  }

  lemma BehindIs(text: string, block: string, tail: string, lines: seq<string>)
    requires Opens(text, block, tail) && block == Join(lines, "\n")
    ensures BodyBehind(text, lines, if "\n" <= tail then tail[1..] else tail)
  {
    hide Opens, Join;
  }

  lemma BehindNothing(text: string)
    requires forall block, tail :: !Opens(text, block, tail)
    ensures BodyBehind(text, [], text)
  {
    hide Opens, Join;
  }

  lemma NoPieces(nf: NumberFormat)
    ensures Fit(nf, []) && Gathered([], []) == [] && BlockLines([]) == []
  {}
}
