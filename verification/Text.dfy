/** Options, and the string operations of the Rust standard library that the modelled code uses. */
module Text {

  datatype Option<+T> = None | Some(value: T)

  lemma AppendAssociates<T>(a: seq<T>, b: seq<T>, c: seq<T>)
    ensures a + (b + c) == (a + b) + c
  {}

  ghost predicate OccursAt(text: string, pattern: string, i: int) {
    0 <= i && i + |pattern| <= |text| && text[i..i + |pattern|] == pattern
  }

  /** `str::find`: the leftmost occurrence. */
  function Find(text: string, pattern: string): (r: Option<nat>)
    ensures r.Some? ==> OccursAt(text, pattern, r.value) && forall j | j < r.value :: !OccursAt(text, pattern, j)
    ensures r.None? ==> forall j :: !OccursAt(text, pattern, j)
  {
    FindFrom(text, pattern, 0)
  }

  function FindFrom(text: string, pattern: string, start: nat): (r: Option<nat>)
    requires start <= |text|
    ensures r.Some? ==> start <= r.value && OccursAt(text, pattern, r.value)
    ensures r.Some? ==> forall j | start <= j < r.value :: !OccursAt(text, pattern, j)
    ensures r.None? ==> forall j | start <= j :: !OccursAt(text, pattern, j)
    decreases |text| - start
  {
    if |text| - start < |pattern| then None
    else if text[start..start + |pattern|] == pattern then Some(start)
    else if start == |text| then None
    else FindFrom(text, pattern, start + 1)
  }

  lemma SliceOfSlice(text: string, from: nat, to: nat, i: nat, j: nat)
    requires from <= to <= |text| && i <= j <= to - from
    ensures text[from..to][i..j] == text[from + i..from + j]
  {
    var a, b := text[from..to][i..j], text[from + i..from + j];
    forall k | 0 <= k < |b| ensures a[k] == b[k] {
      assert text[from..to][i + k] == text[from + i + k];
    }
  }

  ghost predicate Contains(text: string, pattern: string) {
    exists i :: OccursAt(text, pattern, i)
  }

  predicate HasSuffix(text: string, suffix: string) {
    |suffix| <= |text| && text[|text| - |suffix|..] == suffix
  }

  /** The Unicode White_Space property: `char::is_whitespace` and `\s`. */
  predicate IsWhitespace(c: char) {
    || '\U{9}' <= c <= '\U{D}'
    || c in {' ', '\U{85}', '\U{A0}', '\U{1680}', '\U{2028}', '\U{2029}', '\U{202F}', '\U{205F}', '\U{3000}'}
    || '\U{2000}' <= c <= '\U{200A}'
  }

  function TrimStart(s: string): string {
    if s != "" && IsWhitespace(s[0]) then TrimStart(s[1..]) else s
  }

  function TrimEnd(s: string): (r: string)
    ensures r <= s
    ensures r == "" || !IsWhitespace(r[|r| - 1])
  {
    if s != "" && IsWhitespace(s[|s| - 1]) then TrimEnd(s[..|s| - 1]) else s
  }

  function Trim(s: string): string {
    TrimEnd(TrimStart(s))
  }

  /** No whitespace at either end, which is what `Trim` leaves unchanged. */
  predicate Trimmed(s: string) {
    s == "" || (!IsWhitespace(s[0]) && !IsWhitespace(s[|s| - 1]))
  }

  lemma {:induction false} TrimStartShape(s: string)
    ensures |TrimStart(s)| <= |s| && TrimStart(s) == s[|s| - |TrimStart(s)|..]
    ensures TrimStart(s) == "" || !IsWhitespace(TrimStart(s)[0])
  {
    if s != "" && IsWhitespace(s[0]) {
      TrimStartShape(s[1..]);
    }
  }

  lemma TrimIsTrimmed(s: string)
    ensures Trimmed(Trim(s))
  {
    TrimStartShape(s);
  }

  lemma TrimPadded(left: char, s: string, right: char)
    requires IsWhitespace(left) && IsWhitespace(right) && Trimmed(s)
    ensures Trim([left] + s + [right]) == s
  {
    var padded := [left] + s + [right];
    assert padded[1..] == s + [right];
    if s == "" {
      assert padded[1..] == [right] && [right][1..] == "";
      assert TrimStart([right]) == TrimStart("");
    } else {
      var tail := s + [right];
      assert TrimStart(padded) == TrimStart(tail) == tail;
      assert tail[..|tail| - 1] == s;
      assert TrimEnd(tail) == TrimEnd(s) == s;
    }
  }

  /** Whitespace in front of a trimmed text goes away. */
  lemma TrimAfterBlank(s: string)
    requires Trimmed(s)
    ensures Trim(" " + s) == s && Trim(s) == s
  {
    assert (" " + s)[1..] == s && (" " + s)[0] == ' ';
    assert TrimStart(" " + s) == TrimStart(s) == s;
  }

  /** An occurrence that ends in a visible character survives trimming at the end. */
  lemma {:induction false} TrimEndKeeps(text: string, pattern: string, i: int)
    requires OccursAt(text, pattern, i)
    requires pattern != "" && !IsWhitespace(pattern[|pattern| - 1])
    ensures OccursAt(TrimEnd(text), pattern, i)
    decreases |text|
  {
    if IsWhitespace(text[|text| - 1]) {
      var shorter := text[..|text| - 1];
      assert text[i + |pattern| - 1] == text[i..i + |pattern|][|pattern| - 1];
      assert shorter[i..i + |pattern|] == text[i..i + |pattern|];
      TrimEndKeeps(shorter, pattern, i);
    }
  }

  /** `str::split` on one character: always at least one piece. */
  function Split(s: string, c: char): (parts: seq<string>)
    ensures |parts| >= 1
    ensures forall i | 0 <= i < |parts| :: c !in parts[i]
  {
    if s == "" then [""]
    else
      var rest := Split(s[1..], c);
      if s[0] == c then [""] + rest else [[s[0]] + rest[0]] + rest[1..]
  }

  function Join(parts: seq<string>, separator: string): string {
    if |parts| == 0 then ""
    else if |parts| == 1 then parts[0]
    else parts[0] + separator + Join(parts[1..], separator)
  }

  lemma {:induction false} SplitOne(s: string, c: char)
    requires c !in s
    ensures Split(s, c) == [s]
  {
    if s == "" {
    } else {
      SplitOne(s[1..], c);
      assert [s[0]] + s[1..] == s;
    }
  }

  lemma {:induction false} SplitPrefix(s: string, c: char, rest: string)
    requires c !in s
    ensures Split(s + [c] + rest, c) == [s] + Split(rest, c)
  {
    var whole := s + [c] + rest;
    if s == "" {
      assert whole[1..] == rest;
    } else {
      SplitPrefix(s[1..], c, rest);
      assert whole[1..] == s[1..] + [c] + rest;
      assert [s[0]] + s[1..] == s;
    }
  }

  /** Splitting undoes joining when no piece holds the separator. */
  lemma {:induction false} SplitJoin(parts: seq<string>, c: char)
    requires |parts| > 0
    requires forall i | 0 <= i < |parts| :: c !in parts[i]
    ensures Split(Join(parts, [c]), c) == parts
  {
    if |parts| == 1 {
      SplitOne(parts[0], c);
    } else {
      SplitJoin(parts[1..], c);
      SplitPrefix(parts[0], c, Join(parts[1..], [c]));
    }
  }

  lemma {:induction false} JoinConcat(parts: seq<string>, k: nat, separator: string)
    requires 0 < k < |parts|
    ensures Join(parts, separator) == Join(parts[..k], separator) + separator + Join(parts[k..], separator)
  {
    if k <= 1 {
    } else {
      JoinConcat(parts[1..], k - 1, separator);
      assert parts[1..][..k - 1] == parts[..k][1..] && parts[1..][k - 1..] == parts[k..];
      AppendAssociates(parts[0] + separator, Join(parts[..k][1..], separator) + separator, Join(parts[k..], separator));
    }
  }

  /** Joining undoes splitting. */
  lemma {:induction false} JoinSplit(s: string, c: char)
    ensures Join(Split(s, c), [c]) == s
  {
    if s == "" {
    } else {
      JoinSplit(s[1..], c);
      var rest := Split(s[1..], c);
      if s[0] == c {
        assert ([""] + rest)[1..] == rest;
      } else {
        assert ([[s[0]] + rest[0]] + rest[1..])[1..] == rest[1..];
      }
    }
  }
}
