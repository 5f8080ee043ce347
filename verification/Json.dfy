/** JSON text for strings and lists of strings: section 7 of RFC 8259, as serde_json writes and reads it. */
module Json {
  import opened Text

  function HexDigit(n: nat): (c: char)
    requires n < 16
    ensures HexValue(c) == Some(n)
  {
    if n < 10 then (48 + n) as char else (87 + n) as char
  }

  function HexValue(c: char): (n: Option<nat>)
    ensures n.Some? ==> n.value < 16
  {
    if '0' <= c <= '9' then Some(c as int - 48)
    else if 'a' <= c <= 'f' then Some(c as int - 87)
    else if 'A' <= c <= 'F' then Some(c as int - 55)
    else None
  }

  function EscapeChar(c: char): string {
    if c == '"' then "\\\""
    else if c == '\\' then "\\\\"
    else if c == '\U{8}' then "\\b"
    else if c == '\U{C}' then "\\f"
    else if c == '\n' then "\\n"
    else if c == '\r' then "\\r"
    else if c == '\t' then "\\t"
    else if c < ' ' then "\\u00" + [HexDigit(c as int / 16), HexDigit(c as int % 16)]
    else [c]
  }

  function EscapeChars(s: string): string {
    if s == "" then "" else EscapeChar(s[0]) + EscapeChars(s[1..])
  }

  function EncodeString(s: string): string {
    "\"" + EscapeChars(s) + "\""
  }

  function EncodeAll(items: seq<string>): (r: seq<string>)
    ensures |r| == |items|
  {
    if items == [] then [] else [EncodeString(items[0])] + EncodeAll(items[1..])
  }

  /** The writer's own list layout: items separated by a comma and a space. */
  function EncodeList(items: seq<string>): string {
    "[" + Join(EncodeAll(items), ", ") + "]"
  }

  // ---------------------------------------------------------------- reading

  predicate IsJsonSpace(c: char) {
    c in {' ', '\n', '\t', '\r'}
  }

  function SkipSpace(s: string): (r: string)
    ensures |r| <= |s|
  {
    if s != "" && IsJsonSpace(s[0]) then SkipSpace(s[1..]) else s
  }

  function DecodeHex4(s: string): (r: Option<nat>)
    ensures r.Some? ==> |s| >= 4 && r.value < 0x10000
  {
    if |s| < 4 then None
    else
      match (HexValue(s[0]), HexValue(s[1]), HexValue(s[2]), HexValue(s[3]))
      case (Some(a), Some(b), Some(c), Some(d)) => Some(((a * 16 + b) * 16 + c) * 16 + d)
      case _ => None
  }

  /** The digits after `\u`; a leading surrogate must be followed by an escaped trailing one. */
  function DecodeUnicode(s: string): (r: Option<(char, string)>)
    ensures r.Some? ==> |r.value.1| < |s|
  {
    match DecodeHex4(s)
    case None => None
    case Some(n) =>
      if n < 0xD800 || 0xE000 <= n then Some((n as char, s[4..]))
      else if 0xDC00 <= n then None
      else if !("\\u" <= s[4..]) then None
      else
        match DecodeHex4(s[6..])
        case None => None
        case Some(m) =>
          if 0xDC00 <= m < 0xE000 then Some(((0x10000 + (n - 0xD800) * 0x400 + (m - 0xDC00)) as char, s[10..]))
          else None
  }

  function DecodeEscape(s: string): (r: Option<(char, string)>)
    ensures r.Some? ==> |r.value.1| < |s|
  {
    if s == "" then None
    else if s[0] in {'"', '\\', '/'} then Some((s[0], s[1..]))
    else if s[0] == 'b' then Some(('\U{8}', s[1..]))
    else if s[0] == 'f' then Some(('\U{C}', s[1..]))
    else if s[0] == 'n' then Some(('\n', s[1..]))
    else if s[0] == 'r' then Some(('\r', s[1..]))
    else if s[0] == 't' then Some(('\t', s[1..]))
    else if s[0] == 'u' then DecodeUnicode(s[1..])
    else None
  }

  /** The characters up to the closing quote, and what follows it. */
  function DecodeChars(s: string): (r: Option<(string, string)>)
    ensures r.Some? ==> |r.value.1| < |s|
    decreases |s|
  {
    if s == "" || s[0] < ' ' then None
    else if s[0] == '"' then Some(("", s[1..]))
    else
      var step := if s[0] == '\\' then DecodeEscape(s[1..]) else Some((s[0], s[1..]));
      match step
      case None => None
      case Some((c, rest)) =>
        match DecodeChars(rest)
        case None => None
        case Some((text, after)) => Some(([c] + text, after))
  }

  /** `serde_json::from_str::<String>`. */
  function DecodeString(s: string): Option<string> {
    var start := SkipSpace(s);
    if start == "" || start[0] != '"' then None
    else
      match DecodeChars(start[1..])
      case None => None
      case Some((text, after)) => if SkipSpace(after) == "" then Some(text) else None
  }

  function Prepend(text: string, rest: Option<(seq<string>, string)>): Option<(seq<string>, string)> {
    match rest
    case None => None
    case Some((texts, after)) => Some(([text] + texts, after))
  }

  /** The items of a list up to the closing bracket, and what follows it. */
  function DecodeItems(s: string, first: bool): (r: Option<(seq<string>, string)>)
    decreases |s|
  {
    var next := SkipSpace(s);
    if next == "" then None
    else if next[0] == ']' then Some(([], next[1..]))
    else if !first && next[0] != ',' then None
    else
      var item := if first then next else SkipSpace(next[1..]);
      if item == "" || item[0] != '"' then None
      else
        match DecodeChars(item[1..])
        case None => None
        case Some((text, rest)) => Prepend(text, DecodeItems(rest, false))
  }

  /** `serde_json::from_str::<Vec<String>>`. */
  function DecodeList(s: string): Option<seq<string>> {
    var start := SkipSpace(s);
    if start == "" || start[0] != '[' then None
    else
      match DecodeItems(start[1..], true)
      case None => None
      case Some((items, after)) => if SkipSpace(after) == "" then Some(items) else None
  }

  // ---------------------------------------------------------------- round trips

  lemma EscapedCharDecodes(c: char, rest: string)
    ensures DecodeChars(EscapeChar(c) + rest)
         == match DecodeChars(rest)
            case None => None
            case Some((text, after)) => Some(([c] + text, after))
  {
    var s := EscapeChar(c) + rest;
    if EscapeChar(c) == [c] {
      assert s[1..] == rest;
    } else if |EscapeChar(c)| == 2 {
      assert s[1..][1..] == rest;
    } else {
      var n := c as int;
      var hex := s[2..];
      assert hex == ['0', '0', HexDigit(n / 16), HexDigit(n % 16)] + rest;
      assert hex[4..] == rest && HexValue('0') == Some(0);
      assert DecodeHex4(hex) == Some(n);
      assert s[1..][1..] == hex;
    }
  }

  lemma {:induction false} EscapedCharsDecode(s: string, rest: string)
    ensures DecodeChars(EscapeChars(s) + "\"" + rest) == Some((s, rest))
  {
    if s == "" {
      assert ("\"" + rest)[1..] == rest;
      assert EscapeChars(s) + "\"" + rest == "\"" + rest;
    } else {
      var tail := EscapeChars(s[1..]) + "\"" + rest;
      assert EscapeChars(s) + "\"" + rest == EscapeChar(s[0]) + tail;
      EscapedCharDecodes(s[0], tail);
      EscapedCharsDecode(s[1..], rest);
      assert [s[0]] + s[1..] == s;
    }
  }

  /** Every string survives being written and read. */
  lemma StringRoundTrip(s: string)
    ensures DecodeString(EncodeString(s)) == Some(s)
  {
    EscapedCharsDecode(s, "");
    var encoded := EncodeString(s);
    assert encoded[1..] == EscapeChars(s) + "\"" + "";
  }

  /** What follows the first item of an encoded list. */
  function EncodeTail(items: seq<string>): string {
    if items == [] then "]" else ", " + (EncodeString(items[0]) + EncodeTail(items[1..]))
  }

  lemma {:induction false} JoinIsTail(items: seq<string>)
    requires items != []
    ensures Join(EncodeAll(items), ", ") + "]" == EncodeString(items[0]) + EncodeTail(items[1..])
  {
    var encoded, rest := EncodeAll(items), EncodeAll(items[1..]);
    assert encoded[0] == EncodeString(items[0]) && encoded[1..] == rest;
    if |items| <= 1 {
    } else {
      JoinIsTail(items[1..]);
      JoinThenClose(encoded[0], Join(rest, ", "));
      assert Join(encoded, ", ") == encoded[0] + ", " + Join(rest, ", ");
    }
  }

  lemma JoinThenClose(first: string, rest: string)
    ensures first + ", " + rest + "]" == first + (", " + (rest + "]"))
  {}

  lemma ItemDecodes(item: string, tail: string)
    ensures var s := EncodeString(item) + tail;
            s[0] == '"' && DecodeChars(s[1..]) == Some((item, tail))
  {
    EscapedCharsDecode(item, tail);
    assert (EncodeString(item) + tail)[1..] == EscapeChars(item) + "\"" + tail;
  }

  lemma FirstItemDecodes(item: string, tail: string)
    ensures DecodeItems(EncodeString(item) + tail, true) == Prepend(item, DecodeItems(tail, false))
  {
    ItemDecodes(item, tail);
  }

  lemma NextItemDecodes(item: string, tail: string)
    ensures DecodeItems(", " + (EncodeString(item) + tail), false) == Prepend(item, DecodeItems(tail, false))
  {
    ItemDecodes(item, tail);
    var s := ", " + (EncodeString(item) + tail);
    assert s[0] == ',' && s[1] == ' ';
    assert s[1..][1..] == EncodeString(item) + tail;
    assert SkipSpace(s[1..]) == SkipSpace(s[1..][1..]) == EncodeString(item) + tail;
  }

  lemma {:induction false} TailDecodes(items: seq<string>)
    ensures DecodeItems(EncodeTail(items), false) == Some((items, ""))
  {
    if items == [] {
      assert "]"[1..] == "";
    } else {
      NextItemDecodes(items[0], EncodeTail(items[1..]));
      TailDecodes(items[1..]);
      assert [items[0]] + items[1..] == items;
    }
  }

  lemma ItemsDecode(items: seq<string>)
    ensures DecodeItems(Join(EncodeAll(items), ", ") + "]", true) == Some((items, ""))
  {
    if items != [] {
      JoinIsTail(items);
      FirstItemDecodes(items[0], EncodeTail(items[1..]));
      TailDecodes(items[1..]);
      assert [items[0]] + items[1..] == items;
    } else {
      assert Join(EncodeAll(items), ", ") + "]" == "]" && "]"[1..] == "";
    }
  }

  /** Every list of strings survives being written and read, commas and brackets included. */
  lemma ListRoundTrip(items: seq<string>)
    ensures DecodeList(EncodeList(items)) == Some(items)
  {
    ItemsDecode(items);
    assert EncodeList(items)[1..] == Join(EncodeAll(items), ", ") + "]";
  }

  // ---------------------------------------------------------------- encoded text stays on one line

  /** No control character at all. */
  predicate OneLine(s: string) {
    forall c | c in s :: ' ' <= c
  }

  lemma {:induction false} EscapedOneLine(s: string)
    ensures OneLine(EscapeChars(s))
  {
    if s == "" {
    } else {
      EscapedOneLine(s[1..]);
      assert OneLine(EscapeChar(s[0])) by {
        if EscapeChar(s[0]) != [s[0]] && |EscapeChar(s[0])| != 2 {
          assert HexDigit(s[0] as int / 16) >= '0' && HexDigit(s[0] as int % 16) >= '0';
        }
      }
    }
  }

  lemma {:induction false} ListOneLine(items: seq<string>)
    ensures OneLine(Join(EncodeAll(items), ", "))
  {
    if items == [] {
    } else {
      EscapedOneLine(items[0]);
      ListOneLine(items[1..]);
      assert EncodeAll(items)[1..] == EncodeAll(items[1..]);
    }
  }
}
