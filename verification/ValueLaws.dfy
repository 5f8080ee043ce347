/** What any text behind a key or a dash is read as: a list, a truth value, a number or a string. */
module ValueLaws {
  import opened Text
  import opened Json
  import opened JsonLaws
  import opened Frontmatter
  import opened FrontmatterLaws

  // ---------------------------------------------------------------- blanks

  ghost predicate Blank(s: string) { forall c | c in s :: IsWhitespace(c) }

  lemma {:induction false} StartAfterBlank(blank: string, rest: string)
    requires Blank(blank)
    ensures TrimStart(blank + rest) == TrimStart(rest)
  {
    if blank == "" {
      assert blank + rest == rest;
    } else {
      assert blank[0] in blank && (blank + rest)[1..] == blank[1..] + rest;
      assert forall c | c in blank[1..] :: c in blank;
      StartAfterBlank(blank[1..], rest);
    }
  }

  lemma {:induction false} EndBeforeBlank(text: string, blank: string)
    requires Blank(blank)
    ensures TrimEnd(text + blank) == TrimEnd(text)
  {
    if blank == "" {
      assert text + blank == text;
    } else {
      var n := |blank| - 1;
      assert blank[n] in blank && (text + blank)[..|text| + n] == text + blank[..n];
      assert forall c | c in blank[..n] :: c in blank;
      EndBeforeBlank(text, blank[..n]);
    }
  }

  /** Trimming takes the blanks around a text away, and nothing of the text. */
  lemma TrimBlanks(lead: string, text: string, trail: string)
    requires Blank(lead) && Blank(trail) && Trimmed(text)
    ensures Trim(lead + (text + trail)) == text
  {
    StartAfterBlank(lead, text + trail);
    EndBeforeBlank(text, trail);
    if text == "" {
      StartAfterBlank(trail, "");
      assert trail + "" == trail == text + trail;
    }
  }

  lemma BlankWith(blank: string, c: char)
    requires Blank(blank) && IsWhitespace(c)
    ensures Blank([c] + blank) && Blank(blank + [c])
  {}

  lemma {:induction false} BlankBefore(s: string) returns (lead: string)
    ensures Blank(lead) && s == lead + TrimStart(s)
  {
    hide Blank;
    if s != "" && IsWhitespace(s[0]) {
      var more := BlankBefore(s[1..]);
      lead := [s[0]] + more;
      BlankWith(more, s[0]);
      assert s == [s[0]] + s[1..];
    } else {
      lead := "";
      NothingTrimmed();
    }
  }

  lemma {:induction false} BlankAfter(s: string) returns (trail: string)
    ensures Blank(trail) && s == TrimEnd(s) + trail
  {
    hide Blank;
    if s != "" && IsWhitespace(s[|s| - 1]) {
      var n := |s| - 1;
      var more := BlankAfter(s[..n]);
      trail := more + [s[n]];
      BlankWith(more, s[n]);
      AppendAssociates(TrimEnd(s), more, [s[n]]);
      assert s == s[..n] + [s[n]];
    } else {
      trail := "";
      NothingTrimmed();
    }
  }

  lemma NothingTrimmed()
    ensures Trimmed("") && Blank("")
  {}

  lemma TrimParts(s: string) returns (lead: string, trail: string)
    ensures Blank(lead) && Blank(trail) && Trimmed(Trim(s)) && s == lead + (Trim(s) + trail)
  {
    lead := BlankBefore(s);
    trail := BlankAfter(TrimStart(s));
    TrimIsTrimmed(s);
  }

  // ---------------------------------------------------------------- strings

  ghost predicate IsQuote(c: char) { c == '"' || c == '\'' }

  ghost predicate UnquotedBy(text: string, open: string, s: string, close: string) {
    && text == open + (s + close) && |open| <= 1 && |close| <= 1
    && (if open == "" then text == "" || !IsQuote(text[0]) else IsQuote(open[0]))
    && (if close == "" then s == "" || !IsQuote(s[|s| - 1]) else IsQuote(close[0]))
  }

  /** One quote of either kind is taken from each end that has one. */
  ghost predicate Unquoted(text: string, s: string) {
    exists open, close :: UnquotedBy(text, open, s, close)
  }

  /** A JSON string, or else the text without its quotes. */
  ghost predicate StringMeans(text: string, s: string) {
    StringSpelled(text, s) || ((forall x :: !StringSpelled(text, x)) && Unquoted(text, s))
  }

  lemma StripExactly(text: string, s: string)
    ensures StripQuotes(text) == s <==> Unquoted(text, s)
  {
    hide StripQuotes, UnquotedBy;
    if StripQuotes(text) == s {
      var open, close := Stripped(text);
    }
    if open, close :| UnquotedBy(text, open, s, close) {
      StripsBy(text, open, s, close);
    }
  }

  lemma Stripped(text: string) returns (open: string, close: string)
    ensures UnquotedBy(text, open, StripQuotes(text), close)
  {
    var start := if text != "" && text[0] in {'"', '\''} then text[1..] else text;
    open := text[..|text| - |start|];
    close := start[|StripQuotes(text)|..];
  }

  lemma StripsBy(text: string, open: string, s: string, close: string)
    requires UnquotedBy(text, open, s, close)
    ensures StripQuotes(text) == s
  {
    StripsFront(text, open, s + close);
    StripsBack(s + close, s, close);
  }

  lemma StripsFront(text: string, open: string, rest: string)
    requires text == open + rest && |open| <= 1
    requires if open == "" then text == "" || !IsQuote(text[0]) else IsQuote(open[0])
    ensures (if text != "" && text[0] in {'"', '\''} then text[1..] else text) == rest
  {
    if open == "" {
      assert text == rest;
    } else {
      assert text[0] == open[0] && text[1..] == rest;
    }
  }

  lemma StripsBack(rest: string, s: string, close: string)
    requires rest == s + close && |close| <= 1
    requires if close == "" then s == "" || !IsQuote(s[|s| - 1]) else IsQuote(close[0])
    ensures (if rest != "" && rest[|rest| - 1] in {'"', '\''} then rest[..|rest| - 1] else rest) == s
  {
    if close == "" {
      assert rest == s;
    } else {
      assert rest[|rest| - 1] == close[0] && rest[..|rest| - 1] == s;
    }
  }

  lemma TrimmedJson(text: string, s: string)
    requires Trimmed(text)
    ensures DecodeString(text) == Some(s) <==> StringSpelled(text, s)
  {
    hide StringSpelled, DecodeString;
    DecodeStringExactly(text, s);
    if lead, inner, trail :|
      text == lead + (inner + trail) && JsonBlank(lead) && JsonBlank(trail) && StringSpelled(inner, s) {
      SpelledNonempty(inner, s);
      TrimmedInner(text, lead, inner, trail);
    }
    if StringSpelled(text, s) {
      assert text == "" + (text + "") && JsonBlank("");
    }
  }

  lemma Ends(a: string, b: string)
    ensures a != "" ==> (a + b)[0] in a
    ensures b != "" ==> (a + b)[|a + b| - 1] in b
  {}

  lemma TrimmedInner(text: string, lead: string, inner: string, trail: string)
    requires Trimmed(text) && text == lead + (inner + trail) && JsonBlank(lead) && JsonBlank(trail)
    ensures text == inner
  {
    Ends(lead, inner + trail);
    Ends(lead + inner, trail);
    AppendAssociates(lead, inner, trail);
    assert lead == "" && trail == "";
  }

  lemma SpelledNonempty(text: string, s: string)
    requires StringSpelled(text, s)
    ensures text != "" && text[0] == '"'
  {}

  /** How a trimmed text is read as a string. */
  lemma ReadStringExactly(text: string, s: string)
    requires Trimmed(text)
    ensures ReadString(text) == s <==> StringMeans(text, s)
  {
    hide StringSpelled, DecodeString, StripQuotes, Unquoted;
    forall x ensures DecodeString(text) == Some(x) <==> StringSpelled(text, x) {
      TrimmedJson(text, x);
    }
    StripExactly(text, s);
  }

  // ---------------------------------------------------------------- values

  /** The texts between commas: blank ones are nothing, the others strings with blanks around them. */
  ghost predicate PiecesMean(pieces: seq<string>, items: seq<string>)
    decreases |pieces|
  {
    if pieces == [] then items == []
    else if Blank(pieces[0]) then PiecesMean(pieces[1..], items)
    else items != [] && PieceMeans(pieces[0], items[0]) && PiecesMean(pieces[1..], items[1..])
  }

  ghost predicate PieceMeans(piece: string, s: string) {
    exists lead, text, trail ::
      && piece == lead + (text + trail) && Blank(lead) && Blank(trail)
      && text != "" && Trimmed(text) && StringMeans(text, s)
  }

  ghost predicate NoCommas(pieces: seq<string>) { forall i | 0 <= i < |pieces| :: ',' !in pieces[i] }

  ghost predicate CommaItems(inner: string, items: seq<string>) {
    exists pieces :: pieces != [] && Join(pieces, ",") == inner && NoCommas(pieces) && PiecesMean(pieces, items)
  }

  lemma PieceExactly(piece: string, s: string)
    ensures Blank(piece) <==> Trim(piece) == ""
    ensures PieceMeans(piece, s) <==> Trim(piece) != "" && ReadString(Trim(piece)) == s
  {
    hide StringMeans, ReadString, Trimmed, Trim;
    var lead, trail := TrimParts(piece);
    ReadStringExactly(Trim(piece), s);
    if Trim(piece) == "" {
      assert piece == lead + trail;
    }
    if Blank(piece) {
      NothingTrimmed();
      TrimBlanks(piece, "", "");
      assert piece + ("" + "") == piece;
    }
    if l, text, r :|
      && piece == l + (text + r) && Blank(l) && Blank(r) && text != "" && Trimmed(text) && StringMeans(text, s) {
      TrimBlanks(l, text, r);
    }
  }

  lemma {:induction false} PiecesExactly(pieces: seq<string>, items: seq<string>)
    ensures ReadItems(pieces) == items <==> PiecesMean(pieces, items)
    decreases |pieces|
  {
    hide ReadString, PieceMeans, Trim, Blank;
    if pieces == [] {
    } else {
      var item := Trim(pieces[0]);
      if item == "" {
        PieceExactly(pieces[0], "");
        PiecesExactly(pieces[1..], items);
        assert [] + ReadItems(pieces[1..]) == ReadItems(pieces[1..]);
      } else {
        PieceExactly(pieces[0], ReadString(item));
        if items != [] {
          PieceExactly(pieces[0], items[0]);
          PiecesExactly(pieces[1..], items[1..]);
          assert items == [items[0]] + items[1..];
        }
      }
    }
  }

  lemma CommaExactly(inner: string, items: seq<string>)
    ensures ReadItems(Split(inner, ',')) == items <==> CommaItems(inner, items)
  {
    hide ReadItems, PiecesMean, Split, Join;
    var pieces := Split(inner, ',');
    PiecesExactly(pieces, items);
    JoinSplit(inner, ',');
    assert NoCommas(pieces);
    if others :| others != [] && Join(others, ",") == inner && NoCommas(others) && PiecesMean(others, items) {
      SplitJoin(others, ',');
    }
  }

  ghost predicate Bracketed(raw: string) { |raw| >= 2 && raw[0] == '[' && raw[|raw| - 1] == ']' }

  /** A finite number prints as this text, and denotes what it reads back as. */
  ghost predicate NumberMeans(nf: NumberFormat, raw: string, value: Value) {
    exists f: Float :: f.Finite() && nf.print_(f) == raw && value == Number(f.Canonical())
  }

  /** What the trimmed text behind a key means. */
  ghost predicate ValueMeans(nf: NumberFormat, raw: string, value: Value) {
    if Bracketed(raw) then
      && value.List?
      && (|| ListSpelled(raw, value.items)
          || ((forall x :: !ListSpelled(raw, x)) && CommaItems(raw[1..|raw| - 1], value.items)))
    else if raw == "true" || raw == "false" then value == Bool(raw == "true")
    else NumberMeans(nf, raw, value)
         || ((forall x :: !NumberMeans(nf, raw, x)) && value.Str? && StringMeans(raw, value.s))
  }

  lemma NumberExactly(nf: NumberFormat, raw: string, value: Value)
    requires Lawful(nf)
    ensures NumberMeans(nf, raw, value)
       <==> CanonicalNumber(nf, raw).Some? && value == Number(CanonicalNumber(nf, raw).value)
  {
    if NumberMeans(nf, raw, value) {
      var f: Float :| f.Finite() && nf.print_(f) == raw && value == Number(f.Canonical());
      assert f.Canonical().Finite() && nf.print_(f.Canonical()) == raw;
    }
    if CanonicalNumber(nf, raw).Some? {
      var f := CanonicalNumber(nf, raw).value;
      assert f.Canonical() == f;
    }
  }

  /** How any trimmed text is read, list, truth value, number or string. */
  lemma ReadScalarExactly(nf: NumberFormat, raw: string, value: Value)
    requires Lawful(nf) && Trimmed(raw) && raw != ""
    ensures ReadScalar(nf, raw) == value <==> ValueMeans(nf, raw, value)
  {
    hide Lawful, ListSpelled, CommaItems, StringMeans, NumberMeans, DecodeList, ReadString, ReadItems, Split;
    hide CanonicalNumber;
    forall x ensures DecodeList(raw) == Some(x) <==> ListSpelled(raw, x) {
      DecodeListExactly(raw, x);
    }
    if DecodeList(raw).Some? {
      assert ListSpelled(raw, DecodeList(raw).value);
    }
    if Bracketed(raw) && value.List? {
      CommaExactly(raw[1..|raw| - 1], value.items);
    }
    forall x ensures NumberMeans(nf, raw, x)
        <==> CanonicalNumber(nf, raw).Some? && x == Number(CanonicalNumber(nf, raw).value) {
      NumberExactly(nf, raw, x);
    }
    if CanonicalNumber(nf, raw).Some? {
      assert NumberMeans(nf, raw, Number(CanonicalNumber(nf, raw).value));
    }
    if value.Str? {
      ReadStringExactly(raw, value.s);
    }
  }
}
