/** Normal forms of vault paths. */
module Paths {
  import opened Text

  const MAX_VAULT_PATH_LEN := 1024

  datatype Outcome = Normal(path: string) | TooLong | NotRelative | Traversal

  /** The bytes of a character in UTF-8. */
  function Width(c: char): nat {
    if c as int < 0x80 then 1 else if c as int < 0x800 then 2 else if c as int < 0x1_0000 then 3 else 4
  }

  function Bytes(s: string): nat {
    if s == "" then 0 else Width(s[0]) + Bytes(s[1..])
  }

  function Unified(s: string): (u: string)
    ensures |u| == |s| && forall i | 0 <= i < |s| :: u[i] == if s[i] == '\\' then '/' else s[i]
  {
    seq(|s|, i requires 0 <= i < |s| => if s[i] == '\\' then '/' else s[i])
  }

  predicate Empty(segment: string) { segment == "" || segment == "." }

  function Kept(segments: seq<string>): seq<string> {
    if segments == [] then []
    else
      var last := segments[|segments| - 1];
      Kept(segments[..|segments| - 1]) + if Empty(last) then [] else [last]
  }

  /** A drive prefix, absolute or not. */
  predicate Drive(segment: string) {
    |segment| >= 2 && ('a' <= segment[0] <= 'z' || 'A' <= segment[0] <= 'Z') && segment[1] == ':'
  }

  function Normalized(input: string): Outcome {
    var unified := Unified(input);
    if Bytes(input) > MAX_VAULT_PATH_LEN then TooLong
    else if "/" <= unified then NotRelative
    else
      var segments := Split(unified, '/');
      if ".." in segments then Traversal
      else
        var kept := Kept(segments);
        if kept != [] && Drive(kept[0]) then NotRelative else Normal(Join(kept, "/"))
  }

  method NormalizeVaultPath(input: string) returns (r: Outcome)
    ensures r == Normalized(input)
  {
    if Bytes(input) > MAX_VAULT_PATH_LEN {
      return TooLong;
    }
    var unified := Unified(input);
    if "/" <= unified {
      return NotRelative;
    }
    var pieces := Split(unified, '/');
    var segments: seq<string> := [];
    for i := 0 to |pieces|
      invariant segments == Kept(pieces[..i]) && ".." !in pieces[..i]
    {
      assert pieces[..i + 1][..i] == pieces[..i];
      if pieces[i] == ".." {
        return Traversal;
      }
      if !Empty(pieces[i]) {
        segments := segments + [pieces[i]];
      }
    }
    assert pieces[..|pieces|] == pieces;
    if segments != [] && Drive(segments[0]) {
      return NotRelative;
    }
    return Normal(Join(segments, "/"));
  }

  // ---------------------------------------------------------------- normal forms

  /** A segment that names something: it neither stays in place nor climbs, and holds no separator. */
  predicate Plain(segment: string) { !Empty(segment) && segment != ".." && '/' !in segment && '\\' !in segment }

  lemma {:induction false} SplitPieces(s: string, c: char)
    ensures forall p | p in Split(s, c) :: c !in p && forall ch | ch in p :: ch in s
  {
    if s == "" {
    } else {
      SplitPieces(s[1..], c);
      var rest := Split(s[1..], c);
      assert forall ch | ch in s[1..] :: ch in s;
      assert rest[0] in rest && forall p | p in rest[1..] :: p in rest;
    }
  }

  lemma {:induction false} KeptPieces(segments: seq<string>)
    ensures forall p | p in Kept(segments) :: p in segments && !Empty(p)
  {
    if segments == [] {
    } else {
      KeptPieces(segments[..|segments| - 1]);
      assert segments == segments[..|segments| - 1] + [segments[|segments| - 1]];
    }
  }

  lemma {:induction false} KeptAll(segments: seq<string>)
    requires forall p | p in segments :: !Empty(p)
    ensures Kept(segments) == segments
  {
    if segments == [] {
    } else {
      KeptAll(segments[..|segments| - 1]);
      assert segments == segments[..|segments| - 1] + [segments[|segments| - 1]];
    }
  }

  lemma {:induction false} BytesJoin(a: string, b: string)
    ensures Bytes(a + b) == Bytes(a) + Bytes(b)
  {
    if a == "" {
      assert a + b == b;
    } else {
      assert (a + b)[1..] == a[1..] + b;
      BytesJoin(a[1..], b);
    }
  }

  lemma {:induction false} BytesUnified(s: string)
    ensures Bytes(Unified(s)) == Bytes(s)
  {
    if s == "" {
    } else {
      assert Unified(s)[1..] == Unified(s[1..]);
      BytesUnified(s[1..]);
    }
  }

  lemma JoinLast(parts: seq<string>, last: string)
    ensures Join(parts + [last], "/") == if parts == [] then last else Join(parts, "/") + "/" + last
  {
    var all := parts + [last];
    if parts == [] {
      assert all == [last];
    } else {
      JoinConcat(all, |parts|, "/");
      assert all[..|parts|] == parts;
      assert all[|parts|..] == [last];
      assert Join([last], "/") == last;
    }
  }

  /** One more segment makes a path longer, and keeps the shorter of two paths the shorter one. */
  lemma LongerByLast(a: seq<string>, b: seq<string>, last: string)
    requires Bytes(Join(a, "/")) <= Bytes(Join(b, "/")) && (b == [] ==> a == [])
    ensures Bytes(Join(a + [last], "/")) <= Bytes(Join(b + [last], "/"))
    ensures Bytes(Join(a, "/")) <= Bytes(Join(b + [last], "/"))
  {
    hide Join, Bytes;
    JoinLast(a, last);
    JoinLast(b, last);
    BytesOfJoin(Join(a, "/"), last);
    BytesOfJoin(Join(b, "/"), last);
    KeptNothing(a);
  }

  /** Dropping segments makes the path no longer. */
  lemma {:induction false} KeptShorter(segments: seq<string>)
    ensures Bytes(Join(Kept(segments), "/")) <= Bytes(Join(segments, "/"))
  {
    hide Join, Bytes;
    if segments == [] {
    } else {
      var before, last := segments[..|segments| - 1], segments[|segments| - 1];
      KeptShorter(before);
      KeptNothing(before);
      LongerByLast(Kept(before), before, last);
      assert segments == before + [last];
      assert Kept(before) + [] == Kept(before);
    }
  }

  lemma KeptNothing(segments: seq<string>)
    ensures Join([], "/") == "" && (segments == [] ==> Kept(segments) == [])
  {}

  lemma BytesOfJoin(path: string, last: string)
    ensures Bytes(path + "/" + last) == Bytes(path) + 1 + Bytes(last) && Bytes("") == 0
  {
    BytesJoin(path + "/", last);
    BytesJoin(path, "/");
  }

  /** A normal path is empty or made of plain segments, with no drive in front. */
  lemma NormalForm(input: string) returns (segments: seq<string>)
    requires Normalized(input).Normal?
    ensures Normalized(input).path == Join(segments, "/") && forall p | p in segments :: Plain(p)
    ensures segments != [] ==> !Drive(segments[0])
    ensures Bytes(Normalized(input).path) <= Bytes(input) <= MAX_VAULT_PATH_LEN
  {
    hide Bytes, Join, Kept, Split, Drive;
    var unified := Unified(input);
    var pieces := Split(unified, '/');
    segments := Kept(pieces);
    SplitPieces(unified, '/');
    KeptPieces(pieces);
    KeptShorter(pieces);
    JoinSplit(unified, '/');
    BytesUnified(input);
  }

  lemma {:induction false} JoinedCharacters(segments: seq<string>)
    requires forall p | p in segments :: Plain(p)
    ensures '\\' !in Join(segments, "/") && !("/" <= Join(segments, "/"))
  {
    if segments == [] {
    } else {
      assert forall p | p in segments[1..] :: p in segments;
      JoinedCharacters(segments[1..]);
      assert segments[0] in segments && segments[0][0] in segments[0];
      assert Join(segments, "/")[0] == segments[0][0];
    }
  }

  /** Normalizing again changes nothing. */
  lemma NormalIdempotent(input: string)
    requires Normalized(input).Normal?
    ensures Normalized(Normalized(input).path) == Normalized(input)
  {
    hide Bytes, Kept, Split, Drive;
    var segments := NormalForm(input);
    var path := Normalized(input).path;
    JoinedCharacters(segments);
    assert Unified(path) == path;
    SplitPlain(segments);
  }

  lemma SplitPlain(segments: seq<string>)
    requires forall p | p in segments :: Plain(p)
    ensures Kept(Split(Join(segments, "/"), '/')) == segments && ".." !in Split(Join(segments, "/"), '/')
  {
    if segments == [] {
      assert Split("", '/') == [""] && Kept([""]) == Kept([]) + [];
    } else {
      assert forall i | 0 <= i < |segments| :: segments[i] in segments;
      SplitJoin(segments, '/');
      KeptAll(segments);
    }
  }

  // ---------------------------------------------------------------- exactly which segments stay

  /** The positions of the pieces that name something, in order. */
  ghost predicate Selects(positions: seq<nat>, pieces: seq<string>) {
    && (forall j, k | 0 <= j < k < |positions| :: positions[j] < positions[k])
    && (forall j | 0 <= j < |positions| :: positions[j] < |pieces|)
    && (forall i: nat | i < |pieces| :: i in positions <==> pieces[i] != "" && pieces[i] != ".")
  }

  lemma {:induction false} KeptSelects(pieces: seq<string>) returns (positions: seq<nat>)
    ensures Selects(positions, pieces) && |Kept(pieces)| == |positions|
    ensures forall k | 0 <= k < |positions| :: Kept(pieces)[k] == pieces[positions[k]]
  {
    if pieces == [] {
      positions := [];
    } else {
      var last := |pieces| - 1;
      var before := KeptSelects(pieces[..last]);
      positions := before + if Empty(pieces[last]) then [] else [last];
      hide Kept;
      SelectsMore(before, pieces);
    }
  }

  /** One more piece is one more position at the end, if it names something. */
  lemma SelectsMore(before: seq<nat>, pieces: seq<string>)
    requires pieces != [] && Selects(before, pieces[..|pieces| - 1])
    ensures Selects(before + if Empty(pieces[|pieces| - 1]) then [] else [|pieces| - 1], pieces)
  {
    var last := |pieces| - 1;
    var positions := before + if Empty(pieces[last]) then [] else [last];
    forall i: nat | i < |pieces| ensures i in positions <==> pieces[i] != "" && pieces[i] != "." {
      if i < last {
        assert pieces[..last][i] == pieces[i];
      } else {
        assert i !in before;
      }
    }
  }

  /** A letter and a colon in front. */
  ghost predicate OnDrive(segment: string) {
    exists letter, rest :: ('A' <= letter <= 'Z' || 'a' <= letter <= 'z') && segment == [letter] + ":" + rest
  }

  lemma DriveExactly(segment: string)
    ensures Drive(segment) <==> OnDrive(segment)
  {
    if |segment| >= 2 {
      assert segment == [segment[0]] + [segment[1]] + segment[2..];
    }
  }

  /** Seven, eleven and sixteen bits are what one, two and three bytes of UTF-8 hold (section 3 of RFC 3629). */
  lemma BytesExactly(c: char)
    ensures Bytes([c]) == if c <= '\U{7F}' then 1 else if c <= '\U{7FF}' then 2 else if c <= '\U{FFFF}' then 3 else 4
  {
    var s := [c];
    assert s[1..] == "";
  }

  /**
   * The result for any input, told by its pieces between separators of either kind: the refusals in their order, and
   * otherwise the pieces that name something, all of them and in order.
   */
  lemma NormalExactly(input: string, pieces: seq<string>) returns (positions: seq<nat>)
    requires pieces != [] && Join(pieces, "/") == Unified(input) && forall p | p in pieces :: '/' !in p
    ensures Selects(positions, pieces)
    ensures var segments := seq(|positions|, k requires 0 <= k < |positions| => pieces[positions[k]]);
      Normalized(input) ==
        if Bytes(input) > 1024 then TooLong
        else if input != "" && (input[0] == '/' || input[0] == '\\') then NotRelative
        else if ".." in pieces then Traversal
        else if segments != [] && OnDrive(segments[0]) then NotRelative
        else Normal(Join(segments, "/"))
  {
    hide Bytes, Join, Kept, Split, Drive, OnDrive;
    forall segment ensures Drive(segment) <==> OnDrive(segment) {
      DriveExactly(segment);
    }
    assert forall i | 0 <= i < |pieces| :: pieces[i] in pieces;
    SplitJoin(pieces, '/');
    positions := KeptSelects(pieces);
    assert Kept(pieces) == seq(|positions|, k requires 0 <= k < |positions| => pieces[positions[k]]);
  }

  /** A short path of segments that name something, without a drive in front, is its own normal form. */
  lemma PlainUnchanged(segments: seq<string>)
    requires (forall p | p in segments :: Plain(p)) && (segments != [] ==> !Drive(segments[0]))
    requires Bytes(Join(segments, "/")) <= 1024
    ensures Normalized(Join(segments, "/")) == Normal(Join(segments, "/"))
  {
    hide Bytes, Kept, Split, Drive;
    JoinedCharacters(segments);
    assert Unified(Join(segments, "/")) == Join(segments, "/");
    SplitPlain(segments);
  }
}
