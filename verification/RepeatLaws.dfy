/** Exactly when applying the same updates a second time leaves a note as the first time wrote it. */
module RepeatLaws {
  import opened Text
  import opened Json
  import opened Frontmatter
  import opened FrontmatterLaws
  import opened UpdateLaws

  // ---------------------------------------------------------------- without late dashes

  /** The second text, when the first one reads back up to its newlines. */
  lemma SecondText(nf: NumberFormat, current: string, updates: Fields)
    requires Lawful(nf) && Parsed(updates)
    requires var merged := Extend(ParseMarkdown(nf, current).fields, updates); merged != [] && NoLateDashKey(merged)
    ensures var note := ParseMarkdown(nf, current);
            var merged := Extend(note.fields, updates);
            Updated(nf, Rendered(nf, note.body, merged), updates) == Ok(Rendered(nf, Normalized(note.body), merged))
  {
    hide ParseMarkdown, NoLateDashKey, Lawful, Rendered, CanonicalFields, Extend, Normalized;
    var note := ParseMarkdown(nf, current);
    var merged := Extend(note.fields, updates);
    ParsedNote(nf, current);
    ExtendParsed(note.fields, updates);
    RenderedReads(nf, note.body, merged);
    UpdateExactly(nf, Rendered(nf, note.body, merged), updates);
    MergeTwice(note.fields, updates);
    SameCanonicalSameText(nf, Normalized(note.body), Extend(CanonicalFields(merged), updates), merged);
  }

  lemma SameBody(nf: NumberFormat, a: string, b: string, fields: Fields)
    ensures Rendered(nf, a, fields) == Rendered(nf, b, fields) <==> a == b
  {
    if fields != [] {
      var head := "---\n" + FieldText(nf, fields) + "---\n";
      assert (head + a)[|head|..] == a && (head + b)[|head|..] == b;
    }
  }

  // ---------------------------------------------------------------- with a late dash key

  lemma {:induction false} NormalizedShorter(s: string)
    ensures |Normalized(s)| <= |s|
    decreases |s|
  {
    if s == "" {
    } else if |s| >= 2 && s[0] == '\r' && s[1] == '\n' {
      NormalizedShorter(s[2..]);
    } else {
      NormalizedShorter(s[1..]);
    }
  }

  /** No text is its own normalization behind more characters than stand before it. */
  lemma {:induction false} NoDescent(head: string, front: string, rest: string)
    requires '\r' !in head && '\r' !in front && |front| > |head|
    ensures head + rest != front + Normalized(rest)
    decreases |rest|
  {
    if head + rest == front + Normalized(rest) {
      var shorter := Normalized(rest);
      assert |shorter| < |rest|;
      NormalizedPrefix(head, rest);
      NormalizedPrefix(front, shorter);
      NoDescent(head, front, shorter);
    }
  }

  /** Of two ordered maps, the one that holds all of the other has the longer text. */
  lemma {:induction false} LongerText(nf: NumberFormat, a: Fields, b: Fields)
    requires Sorted(a) && Sorted(b) && forall k :: Lookup(a, k).Some? ==> Lookup(b, k) == Lookup(a, k)
    ensures |FieldText(nf, a)| <= |FieldText(nf, b)|
    decreases |b|
  {
    hide FieldLine;
    if a == [] {
    } else {
      assert Lookup(b, a[0].key) == Some(a[0].value);
      SortedTail(b);
      if b[0].key == a[0].key {
        SortedTail(a);
        forall k | Lookup(a[1..], k).Some? ensures Lookup(b[1..], k) == Lookup(a[1..], k) {
          AbsentHead(a, k);
          assert Lookup(a, k) == Lookup(a[1..], k);
        }
        LongerText(nf, a[1..], b[1..]);
        assert b[0] == a[0];
      } else {
        forall k | Lookup(a, k).Some? ensures Lookup(b[1..], k) == Lookup(a, k) {
          HeadElsewhere(a, b, k);
        }
        LongerText(nf, a, b[1..]);
      }
    }
  }

  /** In an ordered map the first key does not come again. */
  lemma AbsentHead(fields: Fields, k: string)
    requires fields != [] && Sorted(fields) && Lookup(fields[1..], k).Some?
    ensures k != fields[0].key
  {
    LookupMember(fields[1..], k);
    BelowIrreflexive(fields[0].key);
  }

  lemma HeadElsewhere(a: Fields, b: Fields, k: string)
    requires a != [] && b != [] && Sorted(a) && Sorted(b) && b[0].key != a[0].key
    requires forall key :: Lookup(a, key).Some? ==> Lookup(b, key) == Lookup(a, key)
    requires Lookup(a, k).Some?
    ensures k != b[0].key
  {
    if k == b[0].key {
      assert Lookup(b, a[0].key).Some?;
      LookupMember(a[1..], k);
      LookupMember(b[1..], a[0].key);
      BelowTransitive(a[0].key, b[0].key, a[0].key);
      BelowIrreflexive(a[0].key);
    }
  }

  lemma {:induction false} PrefixLookup(fields: Fields, n: nat, k: string)
    requires n <= |fields| && Lookup(fields[..n], k).Some?
    ensures Lookup(fields, k) == Lookup(fields[..n], k)
  {
    if fields[0].key == k {
    } else {
      assert fields[..n][1..] == fields[1..][..n - 1];
      PrefixLookup(fields[1..], n - 1, k);
    }
  }

  /** Merging the updates into the fields before a cut loses none of them. */
  lemma CutMergeLonger(nf: NumberFormat, fields: Fields, updates: Fields, n: nat)
    requires Lawful(nf) && Sorted(fields) && Sorted(updates)
    requires n <= |Extend(fields, updates)|
    ensures var merged := Extend(fields, updates);
      |FieldText(nf, merged[..n])| <= |FieldText(nf, Extend(CanonicalFields(merged[..n]), updates))|
  {
    hide Lookup, Extend, CanonicalFields, FieldText, Lawful;
    var merged := Extend(fields, updates);
    ExtendSorted(fields, updates);
    var cut := CanonicalFields(merged[..n]);
    CanonicalSorted(merged[..n]);
    ExtendSorted(cut, updates);
    CanonicalSorted(Extend(cut, updates));
    forall k | Lookup(cut, k).Some? ensures Lookup(CanonicalFields(Extend(cut, updates)), k) == Lookup(cut, k) {
      CanonicalLookup(merged[..n], k);
      PrefixLookup(merged, n, k);
      CanonicalLookup(merged, k);
      MergedLookup(fields, updates, k);
      MergedLookup(cut, updates, k);
    }
    LongerText(nf, cut, CanonicalFields(Extend(cut, updates)));
    CanonicalText(nf, merged[..n]);
    CanonicalText(nf, Extend(cut, updates));
  }

  /** The printed text from the cut on: the fields that are lost, the delimiter and the body. */
  function FromCut(nf: NumberFormat, body: string, fields: Fields, k: nat): string
    requires k <= |fields|
  {
    FieldText(nf, fields[k..]) + "---\n" + body
  }

  lemma {:induction false} FieldTextSplits(nf: NumberFormat, fields: Fields, k: nat)
    requires k <= |fields|
    ensures FieldText(nf, fields) == FieldText(nf, fields[..k]) + FieldText(nf, fields[k..])
  {
    if k == 0 {
      assert fields[..0] == [] && fields[0..] == fields;
    } else {
      FieldTextSplits(nf, fields[1..], k - 1);
      assert fields[..k][1..] == fields[1..][..k - 1] && fields[1..][k - 1..] == fields[k..];
      AppendAssociates(FieldLine(nf, fields[0]) + "\n", FieldText(nf, fields[..k][1..]), FieldText(nf, fields[k..]));
    }
  }

  /** What is read back as the body behind a late dash key: all that was printed from there on, without the dashes. */
  lemma BodyBehindDashes(nf: NumberFormat, body: string, fields: Fields, k: nat)
    requires Lawful(nf) && Writable(fields) && Sorted(fields)
    requires 1 <= k < |fields| && "---" <= fields[k].key && NoLateDashKey(fields[..k])
    ensures Normalized(FromCut(nf, body, fields, k)) == "---" + ParseMarkdown(nf, Rendered(nf, body, fields)).body
  {
    hide FieldLines, Join, Split, ReadFields, Normalized, Rendered, SplitFrontmatter, Lawful, NoLateDashKey,
        NoLateDashes;
    hide FieldText;
    var lines := FieldLines(nf, fields);
    var end := "\n" + Normalized(body);
    NormalizedRendered(nf, body, fields);
    LateDashLine(nf, fields, k);
    LinesFrom(nf, fields, k);
    DashLine(nf, fields, k);
    BodyAtDashes(lines, k, end);
    CutText(nf, body, fields, k);
  }

  lemma DashLine(nf: NumberFormat, fields: Fields, k: nat)
    requires Lawful(nf) && Writable(fields) && k < |fields| && "---" <= fields[k].key
    ensures |FieldLines(nf, fields)[k]| > 3 && FieldLines(nf, fields)[k][3] != '\n'
  {
    hide Lawful, FieldLine;
    FieldTextOneLiners(nf, fields);
    LinesFrom(nf, fields, k);
    assert FieldLines(nf, fields)[k] == FieldLine(nf, fields[k]);
    LongerThanKey(nf, fields[k]);
    assert FieldLines(nf, fields)[k][3] in FieldLines(nf, fields)[k];
  }

  lemma LongerThanKey(nf: NumberFormat, field: Field)
    ensures |FieldLine(nf, field)| > |field.key|
  {}

  lemma {:induction false} LinesFrom(nf: NumberFormat, fields: Fields, k: nat)
    requires k <= |fields|
    ensures FieldLines(nf, fields)[k..] == FieldLines(nf, fields[k..])
  {
    if k == 0 {
      assert fields[0..] == fields;
    } else {
      LinesFrom(nf, fields[1..], k - 1);
      assert fields[1..][k - 1..] == fields[k..];
    }
  }

  lemma CutText(nf: NumberFormat, body: string, fields: Fields, k: nat)
    requires Lawful(nf) && Writable(fields) && k < |fields|
    ensures Normalized(FromCut(nf, body, fields, k))
        == Join(FieldLines(nf, fields[k..]), "\n") + "\n---" + ("\n" + Normalized(body))
  {
    hide FieldText, FieldLines, Join, Normalized, Lawful;
    NoReturnInText(nf, fields[k..]);
    FieldTextIsJoin(nf, fields[k..]);
    NormalizedPrefix(FieldText(nf, fields[k..]) + "---\n", body);
  }

  lemma BodyAtDashes(lines: seq<string>, k: nat, end: string)
    requires 1 <= k < |lines| && "---" <= lines[k] && NoLateDashes(lines[..k])
    requires forall i | 0 <= i < k :: OneLine(lines[i]) && |lines[i]| >= 3
    requires |lines[k]| > 3 && lines[k][3] != '\n'
    ensures "---" + SplitFrontmatter("---\n" + Join(lines, "\n") + "\n---" + end).body
         == Join(lines[k..], "\n") + "\n---" + end
  {
    hide SplitFrontmatter, Join, OneLine;
    JoinConcat(lines, k, "\n");
    var after := Join(lines[k..], "\n");
    DashesStart(lines[k..]);
    CutAtDashes(Join(lines[..k], "\n"), after, end);
    SplitAtLines(lines[..k], after[3..] + "\n---" + end);
    LineStarts(lines[k..]);
    assert (after[3..] + "\n---" + end)[0] != '\n';
    assert "---" + (after[3..] + "\n---" + end) == after + "\n---" + end;
  }

  lemma LineStarts(lines: seq<string>)
    requires lines != [] && |lines[0]| > 3
    ensures |Join(lines, "\n")| > 3 && Join(lines, "\n")[3] == lines[0][3]
  {}

  /** With a late dash key the second application always changes the text. */
  lemma LateDashNeverSettles(nf: NumberFormat, current: string, updates: Fields, k: nat)
    requires Lawful(nf) && Parsed(updates)
    requires var merged := Extend(ParseMarkdown(nf, current).fields, updates);
      1 <= k < |merged| && "---" <= merged[k].key && NoLateDashKey(merged[..k])
    ensures var note := ParseMarkdown(nf, current);
            var written := Rendered(nf, note.body, Extend(note.fields, updates));
            Updated(nf, written, updates) != Ok(written)
  {
    hide ParseMarkdown, NoLateDashKey, Lawful, Rendered, CanonicalFields, Extend, Normalized, FieldText;
    var note := ParseMarkdown(nf, current);
    var merged := Extend(note.fields, updates);
    var written := Rendered(nf, note.body, merged);
    ParsedNote(nf, current);
    ExtendParsed(note.fields, updates);
    UpdateExactly(nf, written, updates);
    LateDashKeyLoses(nf, note.body, merged, k);
    BodyBehindDashes(nf, note.body, merged, k);
    CutMergeLonger(nf, note.fields, updates, k);
    ParsedNote(nf, written);
    var again := ParseMarkdown(nf, written);
    ExtendParsed(again.fields, updates);
    NoReturnInText(nf, Extend(again.fields, updates));
    NoReturnInText(nf, merged);
    CutDiffers(nf, note.body, merged, k, again.body, Extend(again.fields, updates));
  }

  lemma RenderedText(nf: NumberFormat, body: string, fields: Fields)
    requires fields != []
    ensures Rendered(nf, body, fields) == "---\n" + FieldText(nf, fields) + "---\n" + body
  {}

  lemma CutAssociates(before: string, lost: string, body: string)
    ensures "---\n" + (before + lost) + "---\n" + body == ("---\n" + before) + (lost + "---\n" + body)
  {}

  lemma RenderedCut(nf: NumberFormat, body: string, merged: Fields, k: nat)
    requires k < |merged|
    ensures Rendered(nf, body, merged) == ("---\n" + FieldText(nf, merged[..k])) + FromCut(nf, body, merged, k)
  {
    hide FieldText;
    FieldTextSplits(nf, merged, k);
    CutAssociates(FieldText(nf, merged[..k]), FieldText(nf, merged[k..]), body);
  }

  lemma NoReturnBefore(nf: NumberFormat, merged: Fields, k: nat)
    requires k < |merged| && '\r' !in FieldText(nf, merged)
    ensures '\r' !in FieldText(nf, merged[..k])
  {
    hide FieldText;
    FieldTextSplits(nf, merged, k);
  }

  lemma NormalizedCut(nf: NumberFormat, body: string, merged: Fields, k: nat, rest: string)
    requires k < |merged| && Normalized(FromCut(nf, body, merged, k)) == "---" + rest
    requires '\r' !in FieldText(nf, merged)
    ensures Normalized(Rendered(nf, body, merged)) == ("---\n" + FieldText(nf, merged[..k]) + "---") + rest
  {
    hide Normalized, FieldText, Rendered, FromCut;
    RenderedCut(nf, body, merged, k);
    NoReturnBefore(nf, merged, k);
    var before := FieldText(nf, merged[..k]);
    NormalizedPrefix("---\n" + before, FromCut(nf, body, merged, k));
    assert ("---\n" + before) + ("---" + rest) == ("---\n" + before + "---") + rest;
  }

  lemma CutDiffers(nf: NumberFormat, body: string, merged: Fields, k: nat, rest: string, again: Fields)
    requires 1 <= k < |merged| && Normalized(FromCut(nf, body, merged, k)) == "---" + rest
    requires '\r' !in FieldText(nf, merged) && '\r' !in FieldText(nf, again)
    requires |FieldText(nf, merged[..k])| <= |FieldText(nf, again)|
    ensures Rendered(nf, rest, again) != Rendered(nf, body, merged)
  {
    hide Normalized, FieldText, FromCut, Rendered;
    CutLengths(nf, merged, k, again);
    var front := "---\n" + FieldText(nf, again) + "---\n";
    RenderedText(nf, rest, again);
    NormalizedCut(nf, body, merged, k, rest);
    NoReturnBefore(nf, merged, k);
    NormalizedPrefix(front, rest);
    NoDescent("---\n" + FieldText(nf, merged[..k]) + "---", front, rest);
  }

  /** The second text is not empty of fields when it is as long as the first. */
  lemma CutLengths(nf: NumberFormat, merged: Fields, k: nat, again: Fields)
    requires 1 <= k < |merged| && |FieldText(nf, merged[..k])| <= |FieldText(nf, again)|
    ensures again != []
  {
    assert merged[..k] != [];
  }

  // ---------------------------------------------------------------- without fields

  /** A text that is a printed note itself, one that reads back. */
  ghost predicate Printed(nf: NumberFormat, text: string) {
    exists fields, body :: fields != [] && Parsed(fields) && NoLateDashKey(fields) && !HasCrlf(body)
        && text == Rendered(nf, body, fields)
  }

  lemma {:induction false} CanonicalTwice(fields: Fields)
    ensures CanonicalFields(CanonicalFields(fields)) == CanonicalFields(fields)
  {
    if fields == [] {
    } else {
      CanonicalFieldsStep(fields);
      CanonicalTwice(fields[1..]);
      CanonicalFieldsStep(CanonicalFields(fields));
    }
  }

  /**
   * Reading and printing a text gives it back exactly when it opens no block and has no CR LF, or is a printed note.
   */
  lemma ReprintedExactly(nf: NumberFormat, text: string)
    requires Lawful(nf)
    ensures var note := ParseMarkdown(nf, text);
      Rendered(nf, note.body, note.fields) == text
      <==> (!HasCrlf(text) && SplitFrontmatter(text).lines.None?) || Printed(nf, text)
  {
    hide ParseMarkdown, HasCrlf, NoLateDashKey, Lawful, SplitFrontmatter, CanonicalFields, FieldText;
    var note := ParseMarkdown(nf, text);
    PlainBody(nf, text);
    ParsedNote(nf, text);
    if Rendered(nf, note.body, note.fields) == text && note.fields != [] {
      PrintedReads(nf, text, note);
    }
    if Printed(nf, text) {
      var fields, body :| fields != [] && Parsed(fields) && NoLateDashKey(fields) && !HasCrlf(body)
          && text == Rendered(nf, body, fields);
      RoundTripExactly(nf, body, fields);
      CanonicalTwice(fields);
      SameCanonicalSameText(nf, body, CanonicalFields(fields), fields);
    }
  }

  lemma PrintedReads(nf: NumberFormat, text: string, note: Note)
    requires Lawful(nf) && note == ParseMarkdown(nf, text) && Parsed(note.fields) && note.fields != []
    requires text == Rendered(nf, note.body, note.fields)
    ensures Printed(nf, text)
  {
    hide ParseMarkdown, HasCrlf, Lawful, CanonicalFields, FieldText, Rendered, Normalized;
    if NoLateDashKey(note.fields) {
      RenderedReads(nf, note.body, note.fields);
      NormalizedFixed(note.body);
    } else {
      var k := FirstLateDashKey(note.fields, 1);
      LateDashKeyLoses(nf, note.body, note.fields, k);
      CanonicalSize(note.fields[..k]);
      assert false;
    }
  }

  lemma CanonicalSize(fields: Fields)
    ensures |CanonicalFields(fields)| == |fields|
  {}

  // ---------------------------------------------------------------- the exact condition

  /** What a caller can check before the first application. */
  ghost predicate Settles(nf: NumberFormat, note: Note, merged: Fields) {
    if merged != [] then NoLateDashKey(merged) && !HasCrlf(note.body)
    else (!HasCrlf(note.body) && SplitFrontmatter(note.body).lines.None?) || Printed(nf, note.body)
  }

  lemma EmptyExactly(fields: Fields)
    ensures fields == [] <==> forall k :: Lookup(fields, k).None?
  {
    if fields != [] {
      assert Lookup(fields, fields[0].key).Some?;
    }
  }

  lemma NothingMerged(fields: Fields, updates: Fields)
    requires Sorted(fields) && Sorted(updates) && Extend(fields, updates) == []
    ensures fields == [] && updates == []
  {
    hide Lookup, Extend;
    forall k ensures Lookup(updates, k).None? && Lookup(fields, k).None? {
      ExtendLookup(fields, updates, k);
      EmptyExactly(Extend(fields, updates));
    }
    EmptyExactly(fields);
    EmptyExactly(updates);
  }

  /** Applying the same updates again leaves the written text unchanged exactly under that condition. */
  lemma SettlesExactly(nf: NumberFormat, current: string, updates: Fields)
    requires Lawful(nf) && Parsed(updates)
    ensures var note := ParseMarkdown(nf, current);
            var merged := Extend(note.fields, updates);
            var written := Updated(nf, current, updates);
            written.Ok? && (Updated(nf, written.value, updates) == written <==> Settles(nf, note, merged))
  {
    hide ParseMarkdown, HasCrlf, NoLateDashKey, Lawful, SplitFrontmatter, Rendered, CanonicalFields, Normalized,
        Printed;
    var note := ParseMarkdown(nf, current);
    var merged := Extend(note.fields, updates);
    ParsedNote(nf, current);
    UpdateExactly(nf, current, updates);
    if merged == [] {
      NothingMerged(note.fields, updates);
      EmptySettles(nf, note.body);
    } else if NoLateDashKey(merged) {
      SecondText(nf, current, updates);
      SameBody(nf, Normalized(note.body), note.body, merged);
      NormalizedFixed(note.body);
    } else {
      SomeLateDash(merged);
      var k := FirstLateDashKey(merged, 1);
      LateDashNeverSettles(nf, current, updates, k);
    }
  }

  lemma SomeLateDash(fields: Fields)
    requires fields != [] && !NoLateDashKey(fields)
    ensures |fields| > 1 && NoLateDashKey(fields[..1]) && exists i :: 1 <= i < |fields| && "---" <= fields[i].key
  {}

  lemma EmptySettles(nf: NumberFormat, body: string)
    requires Lawful(nf)
    ensures Rendered(nf, body, []) == body
    ensures Updated(nf, body, []) == Ok(body)
        <==> (!HasCrlf(body) && SplitFrontmatter(body).lines.None?) || Printed(nf, body)
  {
    hide ParseMarkdown, HasCrlf, Lawful, SplitFrontmatter, Printed;
    ReprintedExactly(nf, body);
    ParsedNote(nf, body);
    NothingExtends(ParseMarkdown(nf, body).fields);
  }

  lemma NothingExtends(fields: Fields)
    ensures Extend(fields, []) == fields
  {}
}
