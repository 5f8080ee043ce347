/** The two glob engines of the vault policy, and the language both are meant to accept. */
module Policy {
  import opened Text

  const SYNC_CONFLICT := ".sync-conflict-"
  const SYNC_CONFLICT_PATTERN := "**/*.sync-conflict-*"

  // ---------------------------------------------------------------- the wildcard matcher

  /** What a pattern means: `*` stands for any run of characters, everything else for itself. */
  ghost predicate Glob(pattern: string, text: string) {
    if pattern == "" then text == ""
    else if pattern[0] == '*' then exists gap: nat :: gap <= |text| && Glob(pattern[1..], text[gap..])
    else text != "" && text[0] == pattern[0] && Glob(pattern[1..], text[1..])
  }

  /** These gaps place every segment in turn, the last one at the very end. */
  ghost predicate Placed(segments: seq<string>, gaps: seq<nat>, text: string) {
    && |gaps| == |segments|
    && if segments == [] then text == ""
       else OccursAt(text, segments[0], gaps[0])
            && Placed(segments[1..], gaps[1..], text[gaps[0] + |segments[0]|..])
  }

  /** Some choice of gaps places them. */
  ghost predicate GapsExist(segments: seq<string>, text: string) {
    exists gaps :: Placed(segments, gaps, text)
  }

  lemma NoSegments(text: string)
    ensures GapsExist([], text) <==> text == ""
  {
    assert Placed([], [], text) <==> text == "";
  }

  ghost predicate SegmentsMatch(segments: seq<string>, text: string)
    requires |segments| > 0
  {
    segments[0] <= text && GapsExist(segments[1..], text[|segments[0]|..])
  }

  lemma {:induction false} GlobIsSegments(pattern: string, text: string)
    ensures Glob(pattern, text) <==> SegmentsMatch(Split(pattern, '*'), text)
    decreases pattern, 2
  {
    if pattern == "" {
      assert text[0..] == text && [""][1..] == [];
      NoSegments(text);
    } else if pattern[0] == '*' {
      StarIsSegments(pattern, text);
    } else {
      CharIsSegments(pattern, text);
    }
  }

  lemma {:induction false} CharIsSegments(pattern: string, text: string)
    requires pattern != "" && pattern[0] != '*'
    ensures Glob(pattern, text) <==> SegmentsMatch(Split(pattern, '*'), text)
    decreases pattern, 1
  {
    var segments, rest := Split(pattern, '*'), Split(pattern[1..], '*');
    assert segments[0] == [pattern[0]] + rest[0] && segments[1..] == rest[1..];
    if text != "" && text[0] == pattern[0] {
      GlobIsSegments(pattern[1..], text[1..]);
      assert segments[0] <= text <==> rest[0] <= text[1..] by {
        assert segments[0][1..] == rest[0];
      }
      if rest[0] <= text[1..] {
        assert text[1..][|rest[0]|..] == text[|segments[0]|..];
      }
    }
  }

  lemma {:induction false} StarIsSegments(pattern: string, text: string)
    requires pattern != "" && pattern[0] == '*'
    ensures Glob(pattern, text) <==> SegmentsMatch(Split(pattern, '*'), text)
    decreases pattern, 1
  {
    var segments, rest := Split(pattern, '*'), Split(pattern[1..], '*');
    assert segments[0] == "" && segments[1..] == rest && text[0..] == text;
    assert SegmentsMatch(segments, text) <==> GapsExist(rest, text);
    if Glob(pattern, text) {
      var gap := ChosenStar(pattern, text);
      GlobAfterGap(pattern[1..], text, gap);
      GapWitness(rest, text, gap);
    } else if GapsExist(rest, text) {
      var gap := ChosenGap(rest, text);
      GlobAfterGap(pattern[1..], text, gap);
      StarWitness(pattern, text, gap);
    }
  }

  lemma StarWitness(pattern: string, text: string, gap: nat)
    requires pattern != "" && pattern[0] == '*' && gap <= |text| && Glob(pattern[1..], text[gap..])
    ensures Glob(pattern, text)
  {}

  ghost function ChosenStar(pattern: string, text: string): (gap: nat)
    requires pattern != "" && pattern[0] == '*' && Glob(pattern, text)
    ensures gap <= |text| && Glob(pattern[1..], text[gap..])
  {
    var gap: nat :| gap <= |text| && Glob(pattern[1..], text[gap..]);
    gap
  }

  lemma GapWitness(segments: seq<string>, text: string, gap: nat)
    requires segments != [] && OccursAt(text, segments[0], gap)
    requires GapsExist(segments[1..], text[gap + |segments[0]|..])
    ensures GapsExist(segments, text)
  {
    var gaps :| Placed(segments[1..], gaps, text[gap + |segments[0]|..]);
    assert ([gap] + gaps)[1..] == gaps;
    assert Placed(segments, [gap] + gaps, text);
  }

  ghost function ChosenGap(segments: seq<string>, text: string): (gap: nat)
    requires segments != [] && GapsExist(segments, text)
    ensures OccursAt(text, segments[0], gap) && GapsExist(segments[1..], text[gap + |segments[0]|..])
  {
    var gaps :| Placed(segments, gaps, text);
    assert Placed(segments[1..], gaps[1..], text[gaps[0] + |segments[0]|..]);
    gaps[0]
  }

  lemma {:induction false} GlobAfterGap(pattern: string, text: string, gap: nat)
    requires gap <= |text|
    ensures var rest := Split(pattern, '*');
            Glob(pattern, text[gap..])
            <==> OccursAt(text, rest[0], gap) && GapsExist(rest[1..], text[gap + |rest[0]|..])
    decreases pattern, 3
  {
    GlobIsSegments(pattern, text[gap..]);
    var first := Split(pattern, '*')[0];
    if |first| <= |text[gap..]| {
      assert text[gap..][..|first|] == text[gap..gap + |first|];
      assert text[gap..][|first|..] == text[gap + |first|..];
    }
  }

  /** Starting earlier never hurts: the first gap grows. */
  lemma GapsExistEarlier(segments: seq<string>, text: string, early: nat, late: nat)
    requires segments != [] && early <= late <= |text|
    requires GapsExist(segments, text[late..])
    ensures GapsExist(segments, text[early..])
  {
    var gap := ChosenGap(segments, text[late..]);
    var wider := gap + (late - early);
    var n := |segments[0]|;
    assert text[late..][gap..gap + n] == text[early..][wider..wider + n];
    assert text[late..][gap + n..] == text[early..][wider + n..];
    GapWitness(segments, text[early..], wider);
  }

  /** The leftmost occurrence of a middle segment is as good a choice as any. */
  lemma LeftmostIsEnough(middle: string, rest: seq<string>, text: string)
    requires rest != []
    ensures GapsExist([middle] + rest, text)
       <==> Find(text, middle).Some? && GapsExist(rest, text[Find(text, middle).value + |middle|..])
  {
    var segments := [middle] + rest;
    assert segments[0] == middle && segments[1..] == rest;
    if GapsExist(segments, text) {
      var gap := ChosenGap(segments, text);
      GapsExistEarlier(rest, text, Find(text, middle).value + |middle|, gap + |middle|);
    }
    var found := Find(text, middle);
    if found.Some? && GapsExist(rest, text[found.value + |middle|..]) {
      GapWitness(segments, text, found.value);
    }
  }

  lemma LastIsSuffix(last: string, text: string)
    ensures GapsExist([last], text) <==> HasSuffix(text, last)
  {
    if GapsExist([last], text) {
      NoSegments(text[ChosenGap([last], text) + |last|..]);
    }
    if HasSuffix(text, last) {
      NoSegments(text[|text|..]);
      assert [last][1..] == [] && text[|text|..] == "";
      GapWitness([last], text, |text| - |last|);
    }
  }

  /** `matches_wildcard`: greedy, leftmost, one pass. */
  method MatchesWildcard(pattern: string, text: string) returns (matched: bool)
    ensures matched <==> Glob(pattern, text)
  {
    GlobIsSegments(pattern, text);
    var segments := Split(pattern, '*');
    var first := segments[0];
    if !(first <= text) {
      return false;
    }
    var remaining := text[|first|..];
    var tail := segments[1..];
    if tail == [] {
      NoSegments(remaining);
      return remaining == "";
    }
    var last, middles := tail[|tail| - 1], tail[..|tail| - 1];
    for i := 0 to |middles|
      invariant GapsExist(tail, text[|first|..]) <==> GapsExist(tail[i..], remaining)
    {
      var middle := middles[i];
      assert tail[i..] == [middle] + tail[i + 1..];
      LeftmostIsEnough(middle, tail[i + 1..], remaining);
      match Find(remaining, middle) {
        case Some(position) => remaining := remaining[position + |middle|..];
        case None => return false;
      }
    }
    assert tail[|middles|..] == [last];
    LastIsSuffix(last, remaining);
    matched := HasSuffix(remaining, last);
  }

  // ---------------------------------------------------------------- the soft engine

  /** The part after the last slash: `rsplit('/').next()`. */
  function Basename(path: string): (r: string)
    ensures '/' !in r && HasSuffix(path, r)
    ensures |r| < |path| ==> path[|path| - |r| - 1] == '/'
  {
    if path == "" then ""
    else if path[|path| - 1] == '/' then ""
    else Basename(path[..|path| - 1]) + [path[|path| - 1]]
  }

  /** The soft matcher's language, branch by branch. */
  ghost predicate SoftMatches(pattern: string, path: string) {
    if HasSuffix(pattern, "/**") then
      var prefix := pattern[..|pattern| - 3];
      path == prefix || prefix + "/" <= path
    else if pattern == SYNC_CONFLICT_PATTERN then Contains(Basename(path), SYNC_CONFLICT)
    else if "**/*" <= pattern then HasSuffix(path, pattern[4..])
    else Glob(pattern, path)
  }

  lemma {:induction false} GlobWithoutStar(pattern: string, text: string)
    requires '*' !in pattern
    ensures Glob(pattern, text) <==> pattern == text
  {
    if pattern != "" && text != "" && text[0] == pattern[0] {
      GlobWithoutStar(pattern[1..], text[1..]);
      assert pattern == [pattern[0]] + pattern[1..] && text == [text[0]] + text[1..];
    }
  }

  /** `matches_vault_path_pattern`. */
  method MatchesVaultPathPattern(pattern: string, path: string) returns (matched: bool)
    ensures matched <==> SoftMatches(pattern, path)
  {
    if HasSuffix(pattern, "/**") {
      var prefix := pattern[..|pattern| - 3];
      return path == prefix || prefix + "/" <= path;
    }
    if pattern == SYNC_CONFLICT_PATTERN {
      return Find(Basename(path), SYNC_CONFLICT).Some?;
    }
    if "**/*" <= pattern {
      return HasSuffix(path, pattern[4..]);
    }
    if '*' in pattern {
      matched := MatchesWildcard(pattern, path);
      return;
    }
    GlobWithoutStar(pattern, path);
    return pattern == path;
  }

  /** `path_matches_any_pattern`. */
  method PathMatchesAnyPattern(patterns: seq<string>, path: string) returns (matched: bool)
    ensures matched <==> exists pattern | pattern in patterns :: SoftMatches(pattern, path)
  {
    for i := 0 to |patterns|
      invariant forall k | 0 <= k < i :: !SoftMatches(patterns[k], path)
    {
      var hit := MatchesVaultPathPattern(patterns[i], path);
      if hit {
        return true;
      }
    }
    return false;
  }

  // ---------------------------------------------------------------- the hard engine

  /** The regular expressions that `deny_pattern_source` writes. */
  datatype Regex =
    | Literal(s: string) // an escaped text
    | AnyRun            // .*
    | SegmentRun        // [^/]*
    | Cat(left: Regex, right: Regex)
    | Maybe(inner: Regex)

  /** An anchored match under a per-character case fold. */
  ghost predicate Accepts(fold: char -> char, re: Regex, text: string) {
    match re
    case Literal(s) => |text| == |s| && forall i | 0 <= i < |s| :: fold(text[i]) == fold(s[i])
    case AnyRun => true
    case SegmentRun => forall c | c in text :: fold(c) != fold('/')
    case Cat(left, right) =>
      exists cut: nat :: cut <= |text| && Accepts(fold, left, text[..cut]) && Accepts(fold, right, text[cut..])
    case Maybe(inner) => text == "" || Accepts(fold, inner, text)
  }

  /** The escaped segments joined by `.*`. */
  function JoinAnyRun(segments: seq<string>): Regex
    requires |segments| > 0
  {
    if |segments| == 1 then Literal(segments[0])
    else Cat(Literal(segments[0]), Cat(AnyRun, JoinAnyRun(segments[1..])))
  }

  function AsciiLower(c: char): char {
    if 'A' <= c <= 'Z' then (c as int + 32) as char else c
  }

  predicate EqIgnoreAsciiCase(a: string, b: string) {
    |a| == |b| && forall i | 0 <= i < |a| :: AsciiLower(a[i]) == AsciiLower(b[i])
  }

  /** Two texts are respellings when they differ in nothing but the case of ASCII letters. */
  lemma RespelledExactly(a: string, b: string)
    ensures EqIgnoreAsciiCase(a, b) <==> |a| == |b| && forall i | 0 <= i < |a| ::
      || a[i] == b[i]
      || ('A' <= a[i] <= 'Z' && b[i] as int == a[i] as int + ('a' as int - 'A' as int))
      || ('A' <= b[i] <= 'Z' && a[i] as int == b[i] as int + ('a' as int - 'A' as int))
  {
    forall c: char, d: char
      ensures AsciiLower(c) == AsciiLower(d) <==>
        || c == d || ('A' <= c <= 'Z' && d as int == c as int + 32) || ('A' <= d <= 'Z' && c as int == d as int + 32)
    {
      SameLower(c, d);
    }
  }

  lemma SameLower(c: char, d: char)
    ensures AsciiLower(c) == AsciiLower(d) <==>
      || c == d || ('A' <= c <= 'Z' && d as int == c as int + 32) || ('A' <= d <= 'Z' && c as int == d as int + 32)
  {}

  /** `deny_pattern_source`; the flag is its comparison with the conflict pattern. */
  function PatternRegex(pattern: string, conflict: bool): Regex {
    if HasSuffix(pattern, "/**") then
      Cat(Literal(pattern[..|pattern| - 3]), Maybe(Cat(Literal("/"), AnyRun)))
    else if conflict then ConflictRegex()
    else if "**/*" <= pattern then Cat(AnyRun, Literal(pattern[4..]))
    else JoinAnyRun(Split(pattern, '*'))
  }

  function ConflictRegex(): Regex {
    Cat(Maybe(Cat(AnyRun, Literal("/"))), Cat(SegmentRun, Cat(Literal(SYNC_CONFLICT), SegmentRun)))
  }

  function DenyPattern(pattern: string): Regex {
    PatternRegex(pattern, EqIgnoreAsciiCase(pattern, SYNC_CONFLICT_PATTERN))
  }

  /** `is_blocked` for one compiled pattern. */
  ghost predicate HardMatches(fold: char -> char, pattern: string, path: string) {
    Accepts(fold, DenyPattern(pattern), path)
  }

  ghost function NoFold(): char -> char { c => c }

  lemma LiteralAccepts(s: string, text: string)
    ensures Accepts(NoFold(), Literal(s), text) <==> text == s
  {
    assert Accepts(NoFold(), Literal(s), text) ==> forall i | 0 <= i < |s| :: text[i] == s[i];
  }

  /** A literal followed by anything splits the text right after the literal. */
  lemma LiteralThen(s: string, re: Regex, text: string)
    ensures Accepts(NoFold(), Cat(Literal(s), re), text) <==> s <= text && Accepts(NoFold(), re, text[|s|..])
  {}

  /** `.*` followed by anything may skip any prefix. */
  lemma AnyRunThen(re: Regex, text: string)
    ensures Accepts(NoFold(), Cat(AnyRun, re), text)
       <==> exists cut: nat :: cut <= |text| && Accepts(NoFold(), re, text[cut..])
  {}

  lemma {:induction false} JoinAnyRunAccepts(segments: seq<string>, text: string)
    requires |segments| > 0
    ensures Accepts(NoFold(), JoinAnyRun(segments), text) <==> SegmentsMatch(segments, text)
    decreases |segments|, 0
  {
    var first, rest := segments[0], segments[1..];
    if |segments| == 1 {
      LiteralAccepts(first, text);
      if first <= text {
        NoSegments(text[|first|..]);
        assert text == first + text[|first|..];
      }
    } else {
      var joined := JoinAnyRun(rest);
      LiteralThen(first, Cat(AnyRun, joined), text);
      if first <= text {
        var remaining := text[|first|..];
        AnyRunThen(joined, remaining);
        if Accepts(NoFold(), Cat(AnyRun, joined), remaining) {
          var cut: nat :| cut <= |remaining| && Accepts(NoFold(), joined, remaining[cut..]);
          JoinedAfterGap(rest, remaining, cut);
          GapWitness(rest, remaining, cut);
        } else if GapsExist(rest, remaining) {
          JoinedAfterGap(rest, remaining, ChosenGap(rest, remaining));
        }
      }
    }
  }

  lemma {:induction false} JoinedAfterGap(segments: seq<string>, text: string, gap: nat)
    requires |segments| > 0 && gap <= |text|
    ensures Accepts(NoFold(), JoinAnyRun(segments), text[gap..])
       <==> OccursAt(text, segments[0], gap) && GapsExist(segments[1..], text[gap + |segments[0]|..])
    decreases |segments|, 1
  {
    JoinAnyRunAccepts(segments, text[gap..]);
    var first := segments[0];
    if |first| <= |text[gap..]| {
      assert text[gap..][..|first|] == text[gap..gap + |first|];
      assert text[gap..][|first|..] == text[gap + |first|..];
    }
  }

  lemma FolderAccepts(prefix: string, path: string)
    ensures Accepts(NoFold(), Cat(Literal(prefix), Maybe(Cat(Literal("/"), AnyRun))), path)
       <==> path == prefix || prefix + "/" <= path
  {
    var inner := Cat(Literal("/"), AnyRun);
    LiteralThen(prefix, Maybe(inner), path);
    if prefix <= path {
      var rest := path[|prefix|..];
      assert path == prefix + rest;
      if prefix + "/" <= path {
        assert rest[0] == path[|prefix|] == (prefix + "/")[|prefix|] == '/';
        assert Accepts(NoFold(), Literal("/"), rest[..1]) && Accepts(NoFold(), AnyRun, rest[1..]);
      }
      if Accepts(NoFold(), inner, rest) {
        var cut: nat :| cut <= |rest| && Accepts(NoFold(), Literal("/"), rest[..cut])
            && Accepts(NoFold(), AnyRun, rest[cut..]);
        assert rest[0] == rest[..cut][0] == '/';
        assert path[..|prefix| + 1] == prefix + "/";
      }
    }
  }

  lemma SuffixAccepts(suffix: string, path: string)
    ensures Accepts(NoFold(), Cat(AnyRun, Literal(suffix)), path) <==> HasSuffix(path, suffix)
  {}

  lemma BasenameUnique(path: string, cut: nat)
    requires cut <= |path| && '/' !in path[cut..] && (cut == 0 || path[cut - 1] == '/')
    ensures Basename(path) == path[cut..]
  {
    var base := Basename(path);
    var start := |path| - |base|;
    assert forall j | cut <= j < |path| :: path[j] in path[cut..] && path[j] != '/';
    assert forall j | start <= j < |path| :: path[j] in path[start..] && path[j] != '/';
  }

  lemma ConflictMeansBasename(path: string)
    ensures Accepts(NoFold(), ConflictRegex(), path) <==> Contains(Basename(path), SYNC_CONFLICT)
  {
    var base := Basename(path);
    if Accepts(NoFold(), ConflictRegex(), path) {
      ConflictInBasename(path);
    }
    if Contains(base, SYNC_CONFLICT) {
      var i :| OccursAt(base, SYNC_CONFLICT, i);
      LiteralAccepts(SYNC_CONFLICT, SYNC_CONFLICT);
      BasenameConflict(NoFold(), path, SYNC_CONFLICT, i);
    }
  }

  lemma FolderEndsInSlash(prefix: string)
    requires Accepts(NoFold(), Maybe(Cat(AnyRun, Literal("/"))), prefix)
    ensures prefix == "" || prefix[|prefix| - 1] == '/'
  {
    if prefix != "" {
      assert Accepts(NoFold(), Cat(AnyRun, Literal("/")), prefix);
      AnyRunThen(Literal("/"), prefix);
      var slash: nat :| slash <= |prefix| && Accepts(NoFold(), Literal("/"), prefix[slash..]);
      assert prefix[|prefix| - 1] == prefix[slash..][0] == '/';
    }
  }

  lemma ConflictInSegment(rest: string)
    requires Accepts(NoFold(), Cat(SegmentRun, Cat(Literal(SYNC_CONFLICT), SegmentRun)), rest)
    ensures '/' !in rest && Contains(rest, SYNC_CONFLICT)
  {
    var named := Cat(Literal(SYNC_CONFLICT), SegmentRun);
    var i: nat :| i <= |rest| && Accepts(NoFold(), SegmentRun, rest[..i]) && Accepts(NoFold(), named, rest[i..]);
    NamedSegment(rest, i, SYNC_CONFLICT);
  }

  lemma NamedSegment(rest: string, i: nat, name: string)
    requires i <= |rest| && '/' !in name
    requires Accepts(NoFold(), SegmentRun, rest[..i]) && Accepts(NoFold(), Cat(Literal(name), SegmentRun), rest[i..])
    ensures '/' !in rest && Contains(rest, name)
  {
    LiteralThen(name, SegmentRun, rest[i..]);
    var tail := rest[i..][|name|..];
    assert rest == rest[..i] + name + tail;
    assert '/' !in rest[..i] && '/' !in tail;
    assert OccursAt(rest, name, i);
  }

  lemma ConflictInBasename(path: string)
    requires Accepts(NoFold(), ConflictRegex(), path)
    ensures Contains(Basename(path), SYNC_CONFLICT)
  {
    var folder := Maybe(Cat(AnyRun, Literal("/")));
    var named := Cat(SegmentRun, Cat(Literal(SYNC_CONFLICT), SegmentRun));
    var cut: nat :| cut <= |path| && Accepts(NoFold(), folder, path[..cut]) && Accepts(NoFold(), named, path[cut..]);
    FolderEndsInSlash(path[..cut]);
    ConflictInSegment(path[cut..]);
    BasenameUnique(path, cut);
  }

  /** A fold under which a slash is only equal to a slash. */
  ghost predicate KeepsSlash(fold: char -> char) {
    forall c :: fold(c) == fold('/') ==> c == '/'
  }

  lemma BasenameConflict(fold: char -> char, path: string, spelling: string, i: int)
    requires KeepsSlash(fold)
    requires OccursAt(Basename(path), spelling, i) && Accepts(fold, Literal(SYNC_CONFLICT), spelling)
    ensures Accepts(fold, ConflictRegex(), path)
  {
    var base := Basename(path);
    var cut := |path| - |base|;
    assert path[cut..] == base;
    var folder := Maybe(Cat(AnyRun, Literal("/")));
    var named := Cat(Literal(SYNC_CONFLICT), SegmentRun);
    var n := |spelling|;
    assert base[i..][..n] == spelling && Accepts(fold, SegmentRun, base[i..][n..]);
    assert Accepts(fold, named, base[i..]);
    assert Accepts(fold, SegmentRun, base[..i]);
    assert Accepts(fold, Cat(SegmentRun, named), base);
    if cut > 0 {
      var prefix := path[..cut];
      assert prefix[cut - 1..] == "/";
      assert Accepts(fold, AnyRun, prefix[..cut - 1]) && Accepts(fold, Literal("/"), prefix[cut - 1..]);
      assert Accepts(fold, Cat(AnyRun, Literal("/")), prefix);
    }
    assert Accepts(fold, folder, path[..cut]);
  }

  // ---------------------------------------------------------------- the two engines compared

  lemma RegexMeansSoft(pattern: string, path: string)
    ensures Accepts(NoFold(), PatternRegex(pattern, pattern == SYNC_CONFLICT_PATTERN), path)
        <==> SoftMatches(pattern, path)
  {
    if HasSuffix(pattern, "/**") {
      FolderAccepts(pattern[..|pattern| - 3], path);
    } else if pattern == SYNC_CONFLICT_PATTERN {
      ConflictMeansBasename(path);
    } else if "**/*" <= pattern {
      SuffixAccepts(pattern[4..], path);
    } else {
      JoinAnyRunAccepts(Split(pattern, '*'), path);
      GlobIsSegments(pattern, path);
    }
  }

  /** Without folding, the engines accept the same paths unless the pattern is a respelling of the conflict pattern. */
  lemma HardEqualsSoft(pattern: string, path: string)
    requires EqIgnoreAsciiCase(pattern, SYNC_CONFLICT_PATTERN) ==> pattern == SYNC_CONFLICT_PATTERN
    ensures HardMatches(NoFold(), pattern, path) <==> SoftMatches(pattern, path)
  {
    RegexMeansSoft(pattern, path);
  }

  /** The exact condition: every other respelling of the conflict pattern tells the two engines apart. */
  lemma EnginesAgreeExactly(pattern: string)
    ensures (forall path :: HardMatches(NoFold(), pattern, path) <==> SoftMatches(pattern, path))
       <==> (EqIgnoreAsciiCase(pattern, SYNC_CONFLICT_PATTERN) ==> pattern == SYNC_CONFLICT_PATTERN)
  {
    if EqIgnoreAsciiCase(pattern, SYNC_CONFLICT_PATTERN) && pattern != SYNC_CONFLICT_PATTERN {
      RespellingShape(pattern);
      BasenameUnique(SYNC_CONFLICT, 0);
      assert OccursAt(SYNC_CONFLICT, SYNC_CONFLICT, 0);
      ConflictMeansBasename(SYNC_CONFLICT);
      assert HardMatches(NoFold(), pattern, SYNC_CONFLICT);
      assert !SoftMatches(pattern, SYNC_CONFLICT) by {
        assert |pattern[4..]| == |SYNC_CONFLICT| + 1;
      }
    } else {
      forall path ensures HardMatches(NoFold(), pattern, path) <==> SoftMatches(pattern, path) {
        HardEqualsSoft(pattern, path);
      }
    }
  }

  lemma RespellingShape(pattern: string)
    requires EqIgnoreAsciiCase(pattern, SYNC_CONFLICT_PATTERN)
    ensures "**/*" <= pattern && !HasSuffix(pattern, "/**")
    ensures pattern[19] == '*' && |pattern| == 20
    ensures forall i | 0 <= i < 15 :: AsciiLower(pattern[4 + i]) == AsciiLower(SYNC_CONFLICT[i])
    ensures '/' !in pattern[4..]
  {
    forall i | 0 <= i < 20 && SYNC_CONFLICT_PATTERN[i] in {'*', '/', '-', '.'}
      ensures pattern[i] == SYNC_CONFLICT_PATTERN[i]
    {
      assert AsciiLower(pattern[i]) == AsciiLower(SYNC_CONFLICT_PATTERN[i]);
    }
    assert pattern[..4] == "**/*";
    assert AsciiLower(pattern[17]) == AsciiLower(SYNC_CONFLICT_PATTERN[17]);
    assert pattern[17..][0] != "/**"[0];
    forall i | 4 <= i < 20 ensures pattern[i] != '/' {
      assert AsciiLower(pattern[i]) == AsciiLower(SYNC_CONFLICT_PATTERN[i]);
    }
    forall i | 0 <= i < 15 ensures AsciiLower(pattern[4 + i]) == AsciiLower(SYNC_CONFLICT[i]) {
      assert SYNC_CONFLICT_PATTERN[4 + i] == SYNC_CONFLICT[i];
    }
  }

  lemma {:induction false} FoldingAcceptsMore(fold: char -> char, re: Regex, text: string)
    requires KeepsSlash(fold)
    requires Accepts(NoFold(), re, text)
    ensures Accepts(fold, re, text)
  {
    match re
    case Cat(left, right) =>
      var cut: nat :| cut <= |text| && Accepts(NoFold(), left, text[..cut]) && Accepts(NoFold(), right, text[cut..]);
      FoldingAcceptsMore(fold, left, text[..cut]);
      FoldingAcceptsMore(fold, right, text[cut..]);
    case Maybe(inner) =>
      if text != "" {
        FoldingAcceptsMore(fold, inner, text);
      }
    case _ =>
  }

  /** Every soft match is a hard match, for every pattern, once the fold identifies ASCII case. */
  lemma HardIncludesSoft(fold: char -> char, pattern: string, path: string)
    requires KeepsSlash(fold)
    requires forall c :: fold(AsciiLower(c)) == fold(c)
    requires SoftMatches(pattern, path)
    ensures HardMatches(fold, pattern, path)
  {
    if EqIgnoreAsciiCase(pattern, SYNC_CONFLICT_PATTERN) && pattern != SYNC_CONFLICT_PATTERN {
      RespellingShape(pattern);
      var spelling := pattern[4..19];
      forall i | 0 <= i < 15 ensures fold(SYNC_CONFLICT[i]) == fold(spelling[i]) {
        assert spelling[i] == pattern[4 + i];
        assert fold(AsciiLower(SYNC_CONFLICT[i])) == fold(AsciiLower(spelling[i]));
      }
      var base := Basename(path);
      var tail := pattern[4..];
      assert |base| >= |tail| by {
        assert forall j | |path| - |tail| <= j < |path| :: path[j] in path[|path| - |tail|..] && path[j] != '/';
      }
      var i := |base| - |tail|;
      assert path[|path| - |base|..][i..] == path[|path| - |tail|..];
      assert base[i..] == tail && tail[..15] == spelling;
      assert base[i..i + 15] == base[i..][..15];
      BasenameConflict(fold, path, spelling, i);
    } else {
      HardEqualsSoft(pattern, path);
      FoldingAcceptsMore(fold, DenyPattern(pattern), path);
    }
  }

  // ---------------------------------------------------------------- folding both sides

  function Folded(fold: char -> char, s: string): (r: string)
    ensures |r| == |s| && forall i | 0 <= i < |s| :: r[i] == fold(s[i])
  {
    seq(|s|, i requires 0 <= i < |s| => fold(s[i]))
  }

  function FoldedRegex(fold: char -> char, re: Regex): Regex {
    match re
    case Literal(s) => Literal(Folded(fold, s))
    case Cat(left, right) => Cat(FoldedRegex(fold, left), FoldedRegex(fold, right))
    case Maybe(inner) => Maybe(FoldedRegex(fold, inner))
    case _ => re
  }

  lemma {:induction false} AcceptsFolded(fold: char -> char, re: Regex, text: string)
    requires fold('/') == '/'
    ensures Accepts(fold, re, text) <==> Accepts(NoFold(), FoldedRegex(fold, re), Folded(fold, text))
  {
    var folded := Folded(fold, text);
    match re
    case SegmentRun =>
      assert forall c | c in text :: fold(c) in folded by {
        forall c | c in text ensures fold(c) in folded {
          var i :| 0 <= i < |text| && text[i] == c;
          assert folded[i] == fold(c);
        }
      }
      if Accepts(fold, re, text) {
        forall d | d in folded ensures d != '/' {
          var i :| 0 <= i < |folded| && folded[i] == d;
          assert text[i] in text;
        }
      }
    case Cat(left, right) =>
      forall cut: nat | cut <= |text|
        ensures Accepts(fold, left, text[..cut]) <==> Accepts(NoFold(), FoldedRegex(fold, left), folded[..cut])
        ensures Accepts(fold, right, text[cut..]) <==> Accepts(NoFold(), FoldedRegex(fold, right), folded[cut..])
      {
        AcceptsFolded(fold, left, text[..cut]);
        AcceptsFolded(fold, right, text[cut..]);
        assert Folded(fold, text[..cut]) == folded[..cut] && Folded(fold, text[cut..]) == folded[cut..];
      }
    case Maybe(inner) => AcceptsFolded(fold, inner, text);
    case _ =>
  }

  ghost predicate KeepsStar(fold: char -> char) {
    forall c :: fold(c) == '*' <==> c == '*'
  }

  function FoldedAll(fold: char -> char, parts: seq<string>): seq<string> {
    if parts == [] then [] else [Folded(fold, parts[0])] + FoldedAll(fold, parts[1..])
  }

  lemma {:induction false} SplitFolds(fold: char -> char, s: string)
    requires KeepsStar(fold)
    ensures Split(Folded(fold, s), '*') == FoldedAll(fold, Split(s, '*'))
  {
    var folded := Folded(fold, s);
    if s == "" {
      assert folded == "" && FoldedAll(fold, [""]) == [""];
    } else {
      var rest := Split(s[1..], '*');
      assert folded[1..] == Folded(fold, s[1..]);
      SplitFolds(fold, s[1..]);
      if s[0] == '*' {
        assert ([""] + rest)[1..] == rest;
      } else {
        var first := [s[0]] + rest[0];
        assert ([first] + rest[1..])[1..] == rest[1..];
        assert Folded(fold, first) == [folded[0]] + Folded(fold, rest[0]);
      }
    }
  }

  lemma {:induction false} JoinAnyRunFolds(fold: char -> char, segments: seq<string>)
    requires |segments| > 0
    ensures |FoldedAll(fold, segments)| == |segments|
    ensures FoldedRegex(fold, JoinAnyRun(segments)) == JoinAnyRun(FoldedAll(fold, segments))
  {
    if |segments| <= 1 {
    } else {
      JoinAnyRunFolds(fold, segments[1..]);
      var rest := JoinAnyRun(segments[1..]);
      assert FoldedRegex(fold, Cat(AnyRun, rest)) == Cat(AnyRun, FoldedRegex(fold, rest));
      assert FoldedAll(fold, segments)[1..] == FoldedAll(fold, segments[1..]);
    }
  }

  lemma FoldedSuffix(fold: char -> char, s: string)
    requires KeepsStar(fold) && (forall c :: fold(c) == '/' <==> c == '/')
    ensures HasSuffix(Folded(fold, s), "/**") <==> HasSuffix(s, "/**")
    ensures "**/*" <= Folded(fold, s) <==> "**/*" <= s
  {
    var folded := Folded(fold, s);
    if |s| >= 3 {
      var n := |s| - 3;
      assert s[n..] == [s[n], s[n + 1], s[n + 2]] && folded[n..] == [folded[n], folded[n + 1], folded[n + 2]];
    }
    if |s| >= 4 {
      assert s[..4] == [s[0], s[1], s[2], s[3]] && folded[..4] == [folded[0], folded[1], folded[2], folded[3]];
    }
  }

  lemma FolderFolds(fold: char -> char, prefix: string)
    requires fold('/') == '/'
    ensures FoldedRegex(fold, Cat(Literal(prefix), Maybe(Cat(Literal("/"), AnyRun))))
         == Cat(Literal(Folded(fold, prefix)), Maybe(Cat(Literal("/"), AnyRun)))
  {
    var inner := Cat(Literal("/"), AnyRun);
    assert Folded(fold, "/") == "/";
    assert FoldedRegex(fold, inner) == inner;
    assert FoldedRegex(fold, Maybe(inner)) == Maybe(inner);
  }

  lemma ConflictFolds(fold: char -> char)
    requires fold('/') == '/' && Folded(fold, SYNC_CONFLICT) == SYNC_CONFLICT
    ensures FoldedRegex(fold, ConflictRegex()) == ConflictRegex()
  {
    var named := Cat(Literal(SYNC_CONFLICT), SegmentRun);
    var folder := Cat(AnyRun, Literal("/"));
    assert Folded(fold, "/") == "/";
    assert FoldedRegex(fold, named) == named && FoldedRegex(fold, Cat(SegmentRun, named)) == Cat(SegmentRun, named);
    assert FoldedRegex(fold, folder) == folder && FoldedRegex(fold, Maybe(folder)) == Maybe(folder);
  }

  lemma PatternRegexFolds(fold: char -> char, pattern: string, conflict: bool)
    requires KeepsStar(fold) && (forall c :: fold(c) == '/' <==> c == '/')
    requires Folded(fold, SYNC_CONFLICT) == SYNC_CONFLICT
    ensures FoldedRegex(fold, PatternRegex(pattern, conflict)) == PatternRegex(Folded(fold, pattern), conflict)
  {
    var folded := Folded(fold, pattern);
    FoldedSuffix(fold, pattern);
    if HasSuffix(pattern, "/**") {
      assert Folded(fold, pattern[..|pattern| - 3]) == folded[..|folded| - 3];
      FolderFolds(fold, pattern[..|pattern| - 3]);
    } else if conflict {
      ConflictFolds(fold);
    } else if "**/*" <= pattern {
      assert Folded(fold, pattern[4..]) == folded[4..];
    } else {
      SplitFolds(fold, pattern);
      JoinAnyRunFolds(fold, Split(pattern, '*'));
    }
  }

  lemma HardOfFolded(fold: char -> char, pattern: string, path: string)
    requires KeepsStar(fold) && (forall c :: fold(c) == '/' <==> c == '/')
    requires Folded(fold, SYNC_CONFLICT) == SYNC_CONFLICT
    ensures HardMatches(fold, pattern, path)
       <==> Accepts(NoFold(), PatternRegex(Folded(fold, pattern), EqIgnoreAsciiCase(pattern, SYNC_CONFLICT_PATTERN)),
                    Folded(fold, path))
  {
    AcceptsFolded(fold, DenyPattern(pattern), path);
    PatternRegexFolds(fold, pattern, EqIgnoreAsciiCase(pattern, SYNC_CONFLICT_PATTERN));
  }

  /** The bare marker tells the two readings of a pattern like the conflict pattern apart. */
  lemma MarkerTellsApart(pattern: string)
    requires "**/*" <= pattern && !HasSuffix(pattern, "/**") && |pattern| == |SYNC_CONFLICT_PATTERN|
    ensures Accepts(NoFold(), PatternRegex(pattern, true), SYNC_CONFLICT)
    ensures !Accepts(NoFold(), PatternRegex(pattern, false), SYNC_CONFLICT)
    ensures SoftMatches(pattern, SYNC_CONFLICT) <==> pattern == SYNC_CONFLICT_PATTERN
  {
    BasenameUnique(SYNC_CONFLICT, 0);
    assert OccursAt(SYNC_CONFLICT, SYNC_CONFLICT, 0);
    ConflictMeansBasename(SYNC_CONFLICT);
    SuffixAccepts(pattern[4..], SYNC_CONFLICT);
    assert |pattern[4..]| == |SYNC_CONFLICT| + 1;
  }

  /**
   * The case-insensitive engine is the case-sensitive one applied to folded spellings, on all paths exactly for the
   * patterns that the two ways of recognizing the conflict pattern, by ASCII case and by the fold, judge alike.
   */
  lemma HardIsFoldedSoft(fold: char -> char, pattern: string)
    requires KeepsStar(fold) && (forall c :: fold(c) == '/' <==> c == '/')
    requires Folded(fold, SYNC_CONFLICT) == SYNC_CONFLICT
    ensures (forall path ::
              HardMatches(fold, pattern, path) <==> SoftMatches(Folded(fold, pattern), Folded(fold, path)))
       <==> (EqIgnoreAsciiCase(pattern, SYNC_CONFLICT_PATTERN) <==> Folded(fold, pattern) == SYNC_CONFLICT_PATTERN)
  {
    hide HardMatches, SoftMatches, Accepts, PatternRegex, EqIgnoreAsciiCase, Folded;
    var folded, respelled := Folded(fold, pattern), EqIgnoreAsciiCase(pattern, SYNC_CONFLICT_PATTERN);
    if respelled <==> folded == SYNC_CONFLICT_PATTERN {
      forall path ensures HardMatches(fold, pattern, path) <==> SoftMatches(folded, Folded(fold, path)) {
        HardOfFolded(fold, pattern, path);
        RegexMeansSoft(folded, Folded(fold, path));
      }
    } else {
      FoldedSuffix(fold, pattern);
      if respelled {
        RespellingShape(pattern);
      }
      HardOfFolded(fold, pattern, SYNC_CONFLICT);
      MarkerTellsApart(folded);
    }
  }
}
