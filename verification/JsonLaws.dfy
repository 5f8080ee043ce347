/** The strings and lists of strings that are read, told by their grammar: sections 5 and 7 of RFC 8259. */
module JsonLaws {
  import opened Text
  import opened Json

  // ---------------------------------------------------------------- one character

  /** A hexadecimal digit of either case. */
  ghost predicate HexSpelled(c: char, n: nat) {
    n < 16 && (c == "0123456789abcdef"[n] || c == "0123456789ABCDEF"[n])
  }

  /** Four hexadecimal digits. */
  ghost predicate UnitSpelled(h: string, unit: nat) {
    |h| == 4 && exists a: nat, b: nat, c: nat, d: nat ::
      && HexSpelled(h[0], a) && HexSpelled(h[1], b) && HexSpelled(h[2], c) && HexSpelled(h[3], d)
      && unit == a * 4096 + b * 256 + c * 16 + d
  }

  ghost predicate ShortEscape(e: char, c: char) {
    || (e == c && (c == '"' || c == '\\' || c == '/'))
    || (e, c) in {('b', '\U{8}'), ('f', '\U{C}'), ('n', '\n'), ('r', '\r'), ('t', '\t')}
  }

  /** The character of a surrogate pair. */
  ghost predicate PairSpelled(p: string, c: char) {
    |p| == 12 && p[..2] == "\\u" && p[6..8] == "\\u" && exists high: nat, low: nat ::
      && UnitSpelled(p[2..6], high) && UnitSpelled(p[8..12], low)
      && 0xD800 <= high < 0xDC00 && 0xDC00 <= low < 0xE000
      && c as int == 0x10000 + (high - 0xD800) * 0x400 + (low - 0xDC00)
  }

  /** The spellings of a character between quotes: itself, or an escape. */
  ghost predicate CharSpelled(p: string, c: char) {
    || (p == [c] && c >= ' ' && c != '"' && c != '\\')
    || (|p| == 2 && p[0] == '\\' && ShortEscape(p[1], c))
    || (|p| == 6 && p[..2] == "\\u" && UnitSpelled(p[2..6], c as int))
    || PairSpelled(p, c)
  }

  ghost predicate CharsSpelled(text: string, s: string)
    decreases |s|
  {
    if s == "" then text == ""
    else exists n: nat :: 1 <= n <= |text| && CharSpelled(text[..n], s[0]) && CharsSpelled(text[n..], s[1..])
  }

  lemma HexExactly(c: char, n: nat)
    ensures HexValue(c) == Some(n) <==> HexSpelled(c, n)
  {}

  lemma UnitExactly(s: string, unit: nat)
    ensures DecodeHex4(s) == Some(unit) <==> |s| >= 4 && UnitSpelled(s[..4], unit)
  {
    hide HexSpelled, HexValue;
    if |s| >= 4 && UnitSpelled(s[..4], unit) {
      var h := s[..4];
      var a: nat, b: nat, c: nat, d: nat :|
        && HexSpelled(h[0], a) && HexSpelled(h[1], b) && HexSpelled(h[2], c) && HexSpelled(h[3], d)
        && unit == a * 4096 + b * 256 + c * 16 + d;
      HexExactly(s[0], a);
      HexExactly(s[1], b);
      HexExactly(s[2], c);
      HexExactly(s[3], d);
    }
    if DecodeHex4(s) == Some(unit) {
      DecodedUnit(s, HexValue(s[0]).value, HexValue(s[1]).value, HexValue(s[2]).value, HexValue(s[3]).value);
    }
  }

  lemma DecodedUnit(s: string, a: nat, b: nat, c: nat, d: nat)
    requires |s| >= 4 && HexValue(s[0]) == Some(a) && HexValue(s[1]) == Some(b)
    requires HexValue(s[2]) == Some(c) && HexValue(s[3]) == Some(d)
    ensures UnitSpelled(s[..4], a * 4096 + b * 256 + c * 16 + d)
  {
    hide HexSpelled, HexValue;
    HexExactly(s[0], a);
    HexExactly(s[1], b);
    HexExactly(s[2], c);
    HexExactly(s[3], d);
    var h := s[..4];
    assert HexSpelled(h[0], a) && HexSpelled(h[1], b) && HexSpelled(h[2], c) && HexSpelled(h[3], d);
  }

  /** What is read of a text that starts with neither a control character nor a quote. */
  function FirstChar(t: string): Option<(char, string)>
    requires t != ""
  {
    if t[0] == '\\' then DecodeEscape(t[1..]) else Some((t[0], t[1..]))
  }

  lemma UnicodeExactly(t: string, c: char, rest: string)
    requires "\\u" <= t
    ensures DecodeUnicode(t[2..]) == Some((c, rest))
       <==> (|| (|t| >= 6 && UnitSpelled(t[2..6], c as int) && rest == t[6..])
             || (|t| >= 12 && PairSpelled(t[..12], c) && rest == t[12..]))
  {
    hide DecodeHex4, UnitSpelled;
    var s := t[2..];
    forall unit: nat ensures DecodeHex4(s) == Some(unit) <==> |s| >= 4 && UnitSpelled(s[..4], unit) {
      UnitExactly(s, unit);
    }
    assert |t| >= 6 ==> s[..4] == t[2..6] && s[4..] == t[6..];
    if |t| >= 12 {
      forall unit: nat ensures DecodeHex4(s[6..]) == Some(unit) <==> UnitSpelled(t[8..12], unit) {
        UnitExactly(s[6..], unit);
        assert s[6..][..4] == t[8..12];
      }
      assert s[10..] == t[12..] && t[..12][2..6] == t[2..6] && t[..12][8..12] == t[8..12] && t[..12][6..8] == t[6..8];
      assert "\\u" <= s[4..] <==> t[6..8] == "\\u";
    } else if |t| >= 8 {
      forall unit: nat ensures DecodeHex4(s[6..]) != Some(unit) {
        UnitExactly(s[6..], unit);
      }
    }
  }

  lemma ShortExactly(t: string, c: char, rest: string)
    requires |t| >= 2 && t[0] == '\\' && t[1] != 'u'
    ensures DecodeEscape(t[1..]) == Some((c, rest)) <==> ShortEscape(t[1], c) && rest == t[2..]
  {
    assert t[1..][1..] == t[2..];
  }

  /** A character is read exactly from its spellings. */
  lemma FirstCharExactly(t: string, c: char, rest: string)
    requires t != "" && t[0] >= ' ' && t[0] != '"'
    ensures FirstChar(t) == Some((c, rest)) <==> exists n: nat :: n <= |t| && CharSpelled(t[..n], c) && rest == t[n..]
  {
    hide DecodeEscape, UnitSpelled, PairSpelled, ShortEscape, CharSpelled;
    if FirstChar(t) == Some((c, rest)) {
      var n := FirstCharSpelled(t, c, rest);
    }
    if n: nat :| n <= |t| && CharSpelled(t[..n], c) && rest == t[n..] {
      SpelledIsFirst(t, c, n);
    }
  }

  lemma FirstCharSpelled(t: string, c: char, rest: string) returns (n: nat)
    requires t != "" && t[0] >= ' ' && t[0] != '"' && FirstChar(t) == Some((c, rest))
    ensures n <= |t| && CharSpelled(t[..n], c) && rest == t[n..]
  {
    hide UnitSpelled, PairSpelled, ShortEscape, DecodeUnicode;
    if t[0] != '\\' {
      n := 1;
      assert t[..1] == [c];
    } else if |t| >= 2 && t[1] == 'u' {
      UnicodeExactly(t, c, rest);
      assert t[1..][1..] == t[2..];
      n := if |t| >= 6 && UnitSpelled(t[2..6], c as int) && rest == t[6..] then 6 else 12;
      assert t[..n][..2] == "\\u";
      assert n == 6 ==> t[..n][2..6] == t[2..6];
    } else {
      n := 2;
      ShortExactly(t, c, rest);
    }
  }

  lemma SpelledIsFirst(t: string, c: char, n: nat)
    requires n <= |t| && CharSpelled(t[..n], c)
    ensures n > 0 && t[0] >= ' ' && t[0] != '"' && FirstChar(t) == Some((c, t[n..]))
  {
    hide UnitSpelled, ShortEscape, DecodeUnicode;
    var p := t[..n];
    assert n > 0 && t[0] == p[0];
    if p == [c] && c >= ' ' && c != '"' && c != '\\' {
    } else if n == 2 && p[0] == '\\' && ShortEscape(p[1], c) {
      NoShortU(p[1], c);
      ShortExactly(t, c, t[2..]);
    } else {
      assert p[..2] == t[..2] == "\\u" && t[1..][1..] == t[2..];
      assert n == 6 ==> p[2..6] == t[2..6];
      UnicodeExactly(t, c, t[n..]);
    }
  }

  lemma NoShortU(e: char, c: char)
    requires ShortEscape(e, c)
    ensures e != 'u'
  {}

  // ---------------------------------------------------------------- strings

  lemma DecodeCharsStep(t: string)
    requires t != "" && t[0] >= ' ' && t[0] != '"'
    ensures DecodeChars(t) == match FirstChar(t)
            case None => None
            case Some((c, rest)) =>
              match DecodeChars(rest)
              case None => None
              case Some((s, after)) => Some(([c] + s, after))
  {
    hide DecodeEscape;
  }

  /** Spelled characters up to the closing quote are read as themselves. */
  lemma {:induction false} SpelledDecodes(text: string, s: string, after: string)
    requires CharsSpelled(text, s)
    ensures DecodeChars(text + "\"" + after) == Some((s, after))
    decreases |s|
  {
    hide CharSpelled, FirstChar;
    var t := text + "\"" + after;
    if s == "" {
      assert t == "\"" + after && t[1..] == after;
    } else {
      hide DecodeChars, CharsSpelled;
      var n := FirstSpelled(text, s);
      assert t[..n] == text[..n] && t[n..] == text[n..] + "\"" + after;
      SpelledDecodes(text[n..], s[1..], after);
      SpelledStep(t, n, s[0], s[1..], after);
      assert [s[0]] + s[1..] == s;
    }
  }

  lemma FirstSpelled(text: string, s: string) returns (n: nat)
    requires CharsSpelled(text, s) && s != ""
    ensures 1 <= n <= |text| && CharSpelled(text[..n], s[0]) && CharsSpelled(text[n..], s[1..])
  {
    hide CharSpelled;
    n :| 1 <= n <= |text| && CharSpelled(text[..n], s[0]) && CharsSpelled(text[n..], s[1..]);
  }

  lemma SpelledStep(t: string, n: nat, c: char, s: string, after: string)
    requires n <= |t| && CharSpelled(t[..n], c) && DecodeChars(t[n..]) == Some((s, after))
    ensures DecodeChars(t) == Some(([c] + s, after))
  {
    hide CharSpelled, FirstChar, DecodeChars;
    SpelledIsFirst(t, c, n);
    DecodeCharsStep(t);
  }

  /** And what is read was spelled so. */
  lemma {:induction false} DecodedIsSpelled(t: string, s: string, after: string) returns (text: string)
    requires DecodeChars(t) == Some((s, after))
    ensures CharsSpelled(text, s) && t == text + "\"" + after
    decreases |t|
  {
    hide CharSpelled, CharsSpelled;
    if t[0] == '"' {
      text := "";
      NoChars();
      assert t == "\"" + t[1..];
    } else {
      var n := DecodedStep(t, s, after);
      var more := DecodedIsSpelled(t[n..], s[1..], after);
      text := t[..n] + more;
      CharsCons(t[..n], s[0], more, s[1..]);
      assert s == [s[0]] + s[1..];
      assert t == t[..n] + t[n..];
    }
  }

  lemma DecodedStep(t: string, s: string, after: string) returns (n: nat)
    requires DecodeChars(t) == Some((s, after)) && t[0] != '"'
    ensures 1 <= n <= |t| && s != "" && CharSpelled(t[..n], s[0]) && DecodeChars(t[n..]) == Some((s[1..], after))
  {
    hide CharSpelled, FirstChar;
    DecodeCharsStep(t);
    var (c, rest) := FirstChar(t).value;
    FirstCharExactly(t, c, rest);
    n :| n <= |t| && CharSpelled(t[..n], c) && rest == t[n..];
    SpelledIsFirst(t, c, n);
    assert ([c] + DecodeChars(rest).value.0)[1..] == DecodeChars(rest).value.0;
  }

  lemma NoChars()
    ensures CharsSpelled("", "")
  {}

  lemma CharsCons(p: string, c: char, more: string, s: string)
    requires p != "" && CharSpelled(p, c) && CharsSpelled(more, s)
    ensures CharsSpelled(p + more, [c] + s)
  {
    hide CharSpelled;
    var text, n := p + more, |p|;
    assert text[..n] == p && text[n..] == more && ([c] + s)[1..] == s;
  }

  /** A string between quotes. */
  ghost predicate StringSpelled(text: string, s: string) {
    |text| >= 2 && text[0] == '"' && text[|text| - 1] == '"' && CharsSpelled(text[1..|text| - 1], s)
  }

  ghost predicate JsonBlank(s: string) { forall c | c in s :: c in {' ', '\n', '\t', '\r'} }

  lemma {:induction false} SkipsBlank(blank: string, rest: string)
    requires JsonBlank(blank) && (rest != "" ==> !IsJsonSpace(rest[0]))
    ensures SkipSpace(blank + rest) == rest
  {
    if blank == "" {
      assert blank + rest == rest;
    } else {
      assert blank[0] in blank && (blank + rest)[1..] == blank[1..] + rest;
      assert forall c | c in blank[1..] :: c in blank;
      SkipsBlank(blank[1..], rest);
    }
  }

  lemma {:induction false} SkippedBlank(s: string) returns (blank: string)
    ensures JsonBlank(blank) && s == blank + SkipSpace(s)
    ensures SkipSpace(s) != "" ==> !IsJsonSpace(SkipSpace(s)[0])
  {
    if s != "" && IsJsonSpace(s[0]) {
      hide JsonBlank;
      var more := SkippedBlank(s[1..]);
      blank := [s[0]] + more;
      BlankCons(s[0], more);
      assert s == [s[0]] + s[1..];
    } else {
      blank := "";
    }
  }

  lemma BlankCons(c: char, blank: string)
    requires IsJsonSpace(c) && JsonBlank(blank)
    ensures JsonBlank([c] + blank)
  {}

  lemma SpelledStringDecodes(text: string, s: string, rest: string)
    requires StringSpelled(text, s)
    ensures text != "" && text[0] == '"' && DecodeChars((text + rest)[1..]) == Some((s, rest))
  {
    hide CharsSpelled;
    var inner := text[1..|text| - 1];
    assert (text + rest)[1..] == inner + "\"" + rest;
    SpelledDecodes(inner, s, rest);
  }

  /** A text is read as a string exactly when it is one spelling of it, with blanks around it. */
  lemma DecodeStringExactly(source: string, s: string)
    ensures DecodeString(source) == Some(s)
       <==> exists lead, text, trail ::
              source == lead + (text + trail) && JsonBlank(lead) && JsonBlank(trail) && StringSpelled(text, s)
  {
    hide StringSpelled, JsonBlank, DecodeChars, SkipSpace;
    if DecodeString(source) == Some(s) {
      var lead, text, trail := DecodedString(source, s);
    }
    if lead, text, trail :|
      source == lead + (text + trail) && JsonBlank(lead) && JsonBlank(trail) && StringSpelled(text, s) {
      SpelledStringDecodes(text, s, trail);
      SkipsBlank(lead, text + trail);
      SkipsBlank(trail, "");
      assert trail + "" == trail;
    }
  }

  lemma DecodedString(source: string, s: string) returns (lead: string, text: string, trail: string)
    requires DecodeString(source) == Some(s)
    ensures source == lead + (text + trail) && JsonBlank(lead) && JsonBlank(trail) && StringSpelled(text, s)
  {
    hide DecodeChars, SkipSpace, CharsSpelled;
    lead := SkippedBlank(source);
    var start := SkipSpace(source);
    var (_, after) := DecodeChars(start[1..]).value;
    var inner := DecodedIsSpelled(start[1..], s, after);
    trail := SkippedBlank(after);
    assert trail + "" == trail;
    text := "\"" + inner + "\"";
    assert |text| == |inner| + 2 && text[0] == '"' && text[|text| - 1] == '"' && text[1..|text| - 1] == inner;
    assert StringSpelled(text, s);
    assert start == text + trail;
  }

  // ---------------------------------------------------------------- lists of strings

  /** What may follow an item: the closing bracket, or a comma, a string and what may follow that; blanks anywhere. */
  ghost predicate TailSpelled(t: string, items: seq<string>)
    decreases |items|
  {
    exists lead :: JsonBlank(lead) &&
      if items == [] then t == lead + "]"
      else exists gap, text, more ::
        && JsonBlank(gap) && StringSpelled(text, items[0]) && TailSpelled(more, items[1..])
        && t == lead + ("," + (gap + (text + more)))
  }

  ghost predicate ItemsSpelled(t: string, items: seq<string>) {
    if items == [] then TailSpelled(t, [])
    else exists gap, text, more ::
      && JsonBlank(gap) && StringSpelled(text, items[0]) && TailSpelled(more, items[1..]) && t == gap + (text + more)
  }

  lemma TailStep(lead: string, gap: string, text: string, s: string, more: string)
    requires JsonBlank(lead) && JsonBlank(gap) && StringSpelled(text, s)
    ensures DecodeItems(lead + ("," + (gap + (text + more))), false) == Prepend(s, DecodeItems(more, false))
    ensures DecodeItems(gap + (text + more), true) == Prepend(s, DecodeItems(more, false))
  {
    SpelledStringDecodes(text, s, more);
    hide DecodeChars, StringSpelled, SkipSpace, JsonBlank;
    var item := text + more;
    SkipsBlank(gap, item);
    SkipsBlank(lead, "," + (gap + item));
    assert ("," + (gap + item))[1..] == gap + item;
  }

  lemma TailEnd(lead: string, after: string)
    requires JsonBlank(lead)
    ensures DecodeItems(lead + ("]" + after), false) == DecodeItems(lead + ("]" + after), true) == Some(([], after))
  {
    hide SkipSpace, JsonBlank, DecodeChars;
    SkipsBlank(lead, "]" + after);
    assert ("]" + after)[1..] == after;
  }

  lemma TailParts(t: string, items: seq<string>) returns (lead: string, gap: string, text: string, more: string)
    requires TailSpelled(t, items) && items != []
    ensures JsonBlank(lead) && JsonBlank(gap) && StringSpelled(text, items[0]) && TailSpelled(more, items[1..])
    ensures t == lead + ("," + (gap + (text + more)))
  {
    hide JsonBlank, StringSpelled;
    lead :| JsonBlank(lead) && exists gap, text, more ::
        && JsonBlank(gap) && StringSpelled(text, items[0]) && TailSpelled(more, items[1..])
        && t == lead + ("," + (gap + (text + more)));
    gap, text, more :|
        && JsonBlank(gap) && StringSpelled(text, items[0]) && TailSpelled(more, items[1..])
        && t == lead + ("," + (gap + (text + more)));
  }

  lemma {:induction false} SpelledTailDecodes(t: string, items: seq<string>, after: string)
    requires TailSpelled(t, items)
    ensures DecodeItems(t + after, false) == Some((items, after))
    decreases |items|
  {
    hide JsonBlank, StringSpelled, DecodeItems;
    if items == [] {
      var lead :| JsonBlank(lead) && t == lead + "]";
      TailEnd(lead, after);
      AppendAssociates(lead, "]", after);
    } else {
      var lead, gap, text, more := TailParts(t, items);
      hide TailSpelled;
      TailStep(lead, gap, text, items[0], more + after);
      TailJoins(lead, gap, text, more, after);
      SpelledTailDecodes(more, items[1..], after);
      assert [items[0]] + items[1..] == items;
    }
  }

  lemma TailJoins(lead: string, gap: string, text: string, more: string, after: string)
    ensures lead + ("," + (gap + (text + more))) + after == lead + ("," + (gap + (text + (more + after))))
    ensures gap + (text + more) + after == gap + (text + (more + after))
  {
    AppendAssociates(text, more, after);
    AppendAssociates(gap, text + more, after);
    AppendAssociates(",", gap + (text + more), after);
    AppendAssociates(lead, "," + (gap + (text + more)), after);
  }

  /** The step from one item to the next, undone. */
  lemma DecodedItem(t: string, first: bool, s: string, items: seq<string>, after: string)
      returns (lead: string, gap: string, text: string, more: string)
    requires DecodeItems(t, first) == Some(([s] + items, after))
    ensures JsonBlank(lead) && JsonBlank(gap) && StringSpelled(text, s)
    ensures DecodeItems(more, false) == Some((items, after)) && |more| < |t|
    ensures if first then lead == "" && t == gap + (text + more) else t == lead + ("," + (gap + (text + more)))
  {
    hide DecodeChars, SkipSpace, StringSpelled, JsonBlank;
    var blank := SkippedBlank(t);
    var next := SkipSpace(t);
    assert ([s] + items)[0] == s && ([s] + items)[1..] == items;
    lead, gap := "", blank;
    var item := next;
    if !first {
      lead := blank;
      gap := SkippedBlank(next[1..]);
      item := SkipSpace(next[1..]);
      assert next == "," + next[1..];
    } else {
      NothingBlank();
    }
    more := DecodeChars(item[1..]).value.1;
    assert DecodeChars(item[1..]).value.0 == s;
    var rest := DecodeItems(more, false).value;
    assert [s] + rest.0 == [s] + items && ([s] + rest.0)[1..] == rest.0;
    text := DecodedText(item, s, more);
  }

  lemma NothingBlank()
    ensures JsonBlank("")
  {}

  lemma DecodedText(item: string, s: string, more: string) returns (text: string)
    requires item != "" && item[0] == '"' && DecodeChars(item[1..]) == Some((s, more))
    ensures StringSpelled(text, s) && item == text + more
  {
    hide DecodeChars, CharsSpelled;
    var inner := DecodedIsSpelled(item[1..], s, more);
    text := "\"" + inner + "\"";
    assert |text| == |inner| + 2 && text[0] == '"' && text[|text| - 1] == '"' && text[1..|text| - 1] == inner;
    assert StringSpelled(text, s);
  }

  lemma DecodedEnd(t: string, first: bool, after: string) returns (lead: string)
    requires DecodeItems(t, first) == Some(([], after))
    ensures JsonBlank(lead) && t == lead + ("]" + after)
  {
    hide DecodeChars, SkipSpace, JsonBlank;
    lead := SkippedBlank(t);
    var next := SkipSpace(t);
    assert next[0] == ']' && next == "]" + next[1..];
  }

  lemma {:induction false} DecodedTail(t: string, items: seq<string>, after: string) returns (u: string)
    requires DecodeItems(t, false) == Some((items, after))
    ensures TailSpelled(u, items) && t == u + after
    decreases |items|
  {
    hide DecodeItems, StringSpelled, JsonBlank;
    if items == [] {
      var lead := DecodedEnd(t, false, after);
      u := lead + "]";
      AppendAssociates(lead, "]", after);
    } else {
      assert [items[0]] + items[1..] == items;
      var lead, gap, text, more := DecodedItem(t, false, items[0], items[1..], after);
      var rest := DecodedTail(more, items[1..], after);
      u := lead + ("," + (gap + (text + rest)));
      TailJoins(lead, gap, text, rest, after);
    }
  }

  /** A list: brackets around items, with blanks around all. */
  ghost predicate ListSpelled(source: string, items: seq<string>) {
    exists lead, t, trail ::
      source == lead + ("[" + (t + trail)) && JsonBlank(lead) && JsonBlank(trail) && ItemsSpelled(t, items)
  }

  /** A text is read as a list of strings exactly when it is one spelling of it. */
  lemma DecodeListExactly(source: string, items: seq<string>)
    ensures DecodeList(source) == Some(items) <==> ListSpelled(source, items)
  {
    hide JsonBlank, DecodeItems, SkipSpace, ItemsSpelled;
    if DecodeList(source) == Some(items) {
      var lead := SkippedBlank(source);
      var start := SkipSpace(source);
      var after := DecodeItems(start[1..], true).value.1;
      var trail := SkippedBlank(after);
      assert trail + "" == trail;
      var t := DecodedItems(start[1..], items, after);
      assert start == "[" + start[1..];
    }
    if lead, t, trail :|
      source == lead + ("[" + (t + trail)) && JsonBlank(lead) && JsonBlank(trail) && ItemsSpelled(t, items) {
      SpelledItemsDecode(t, items, trail);
      SkipsBlank(lead, "[" + (t + trail));
      SkipsBlank(trail, "");
      assert trail + "" == trail && ("[" + (t + trail))[1..] == t + trail;
    }
  }

  lemma SpelledItemsDecode(t: string, items: seq<string>, after: string)
    requires ItemsSpelled(t, items)
    ensures DecodeItems(t + after, true) == Some((items, after))
  {
    hide JsonBlank, StringSpelled, DecodeItems;
    if items == [] {
      var lead :| JsonBlank(lead) && t == lead + "]";
      TailEnd(lead, after);
      AppendAssociates(lead, "]", after);
    } else {
      var gap, text, more :| JsonBlank(gap) && StringSpelled(text, items[0]) && TailSpelled(more, items[1..])
        && t == gap + (text + more);
      hide TailSpelled;
      NothingBlank();
      TailStep("", gap, text, items[0], more + after);
      TailJoins("", gap, text, more, after);
      SpelledTailDecodes(more, items[1..], after);
      assert [items[0]] + items[1..] == items;
    }
  }

  lemma DecodedItems(t: string, items: seq<string>, after: string) returns (u: string)
    requires DecodeItems(t, true) == Some((items, after))
    ensures ItemsSpelled(u, items) && t == u + after
  {
    hide DecodeItems, StringSpelled, JsonBlank;
    if items == [] {
      var lead := DecodedEnd(t, true, after);
      u := lead + "]";
      AppendAssociates(lead, "]", after);
    } else {
      assert [items[0]] + items[1..] == items;
      var lead, gap, text, more := DecodedItem(t, true, items[0], items[1..], after);
      var rest := DecodedTail(more, items[1..], after);
      u := gap + (text + rest);
      TailJoins(lead, gap, text, rest, after);
    }
  }
}
