/** Merging fields into a note: what is read back afterwards, and repeating the merge. */
module UpdateLaws {
  import opened Text
  import opened Frontmatter
  import opened FrontmatterLaws

  // ---------------------------------------------------------------- parsed fields can be written

  ghost predicate Parsed(fields: Fields) {
    Sorted(fields) && Writable(fields)
  }

  lemma InsertParsed(fields: Fields, key: string, value: Value)
    requires Parsed(fields) && ValidKey(key) && value.Printable()
    ensures Parsed(Insert(fields, key, value))
  {
    InsertSorted(fields, key, value);
    InsertKeys(fields, key, value);
  }

  lemma {:induction false} ReadFieldsParsed(nf: NumberFormat, lines: seq<string>, fields: Fields)
    requires Parsed(fields)
    ensures Parsed(ReadFields(nf, lines, fields))
    decreases |lines|
  {
    hide Parsed, KeyLine, LeadingItems;
    if lines == [] {
    } else {
      match KeyLine(lines[0])
      case None => ReadFieldsParsed(nf, lines[1..], fields);
      case Some((key, raw)) =>
        var items := LeadingItems(lines[1..]);
        var value := if raw != "" then ReadScalar(nf, raw) else if items == [] then Str("") else List(items);
        InsertParsed(fields, key, value);
        ReadFieldsParsed(nf, if raw != "" then lines[1..] else lines[1 + |items|..], Insert(fields, key, value));
    }
  }

  /** Every parsed note has fields that can be written back. */
  lemma ParsedNote(nf: NumberFormat, source: string)
    ensures Parsed(ParseMarkdown(nf, source).fields)
  {
    var block := SplitFrontmatter(Normalized(source));
    if block.lines.Some? {
      ReadFieldsParsed(nf, Split(block.lines.value, '\n'), []);
    }
  }

  lemma {:induction false} ExtendParsed(fields: Fields, updates: Fields)
    requires Parsed(fields) && Writable(updates)
    ensures Parsed(Extend(fields, updates))
    decreases |updates|
  {
    hide Parsed;
    if updates == [] {
    } else {
      assert updates[0] in updates;
      InsertParsed(fields, updates[0].key, updates[0].value);
      ExtendParsed(Insert(fields, updates[0].key, updates[0].value), updates[1..]);
    }
  }

  // ---------------------------------------------------------------- bodies

  lemma {:induction false} NormalizedCharacters(s: string)
    requires '\r' !in s
    ensures '\r' !in Normalized(s)
  {
    NormalizedPrefix(s, "");
    assert s + "" == s;
  }

  /** A text without carriage returns has a body without CR LF pairs. */
  lemma BodyWithoutCrlf(nf: NumberFormat, source: string)
    requires '\r' !in source
    ensures !HasCrlf(ParseMarkdown(nf, source).body)
  {
    var body := ParseMarkdown(nf, source).body;
    if HasCrlf(body) {
      CrlfHasReturn(body);
    }
    NormalizedCharacters(source);
    BodyIsPart(Normalized(source));
  }

  lemma CrlfHasReturn(s: string)
    requires HasCrlf(s)
    ensures '\r' in s
  {
    var i :| OccursAt(s, "\r\n", i);
    assert s[i] == s[i..i + 2][0];
  }

  lemma BodyIsPart(source: string)
    ensures var body := SplitFrontmatter(source).body;
            |body| <= |source| && body == source[|source| - |body|..]
    ensures SplitFrontmatter(source).lines.Some? ==> |SplitFrontmatter(source).body| < |source|
  {}

  /** A text is its own body exactly when it holds no CR LF and opens no field block. */
  lemma PlainBody(nf: NumberFormat, body: string)
    ensures ParseMarkdown(nf, body) == Note([], body) <==> !HasCrlf(body) && SplitFrontmatter(body).lines.None?
  {
    hide SplitFrontmatter, Normalized;
    NormalizedFixed(body);
    BodyIsPart(Normalized(body));
    PlainSplit(Normalized(body));
  }

  lemma PlainSplit(source: string)
    ensures SplitFrontmatter(source).lines.None? ==> SplitFrontmatter(source).body == source
  {}

  // ---------------------------------------------------------------- the merge

  /** What a caller can check on the parsed note and the updates before the call. */
  ghost predicate MergeReadsBack(note: Note, merged: Fields) {
    && !HasCrlf(note.body)
    && if merged == [] then SplitFrontmatter(note.body).lines.None? else NoLateDashKey(merged)
  }

  /**
   * Valid updates never fail on the fields that were parsed, and the written note reads back as the merged
   * fields over the same body exactly under the stated condition.
   */
  lemma UpdateExactly(nf: NumberFormat, current: string, updates: Fields)
    requires Lawful(nf) && Parsed(updates)
    ensures var note := ParseMarkdown(nf, current);
            var merged := Extend(note.fields, updates);
            var written := Updated(nf, current, updates);
            && written == Ok(Rendered(nf, note.body, merged))
            && (ParseMarkdown(nf, written.value) == Note(CanonicalFields(merged), note.body)
                <==> MergeReadsBack(note, merged))
  {
    hide ParseMarkdown, HasCrlf, NoLateDashKey, Lawful, SplitFrontmatter;
    var note := ParseMarkdown(nf, current);
    var merged := Extend(note.fields, updates);
    ParsedNote(nf, current);
    ExtendParsed(note.fields, updates);
    if merged == [] {
      PlainBody(nf, note.body);
    } else {
      RoundTripExactly(nf, note.body, merged);
    }
  }

  // ---------------------------------------------------------------- repeating the merge

  lemma {:induction false} CanonicalLookup(fields: Fields, k: string)
    ensures Lookup(CanonicalFields(fields), k)
         == match Lookup(fields, k) case Some(value) => Some(value.Canonical()) case None => None
  {
    if fields == [] {
    } else {
      CanonicalLookup(fields[1..], k);
      CanonicalFieldsStep(fields);
    }
  }

  lemma CanonicalSorted(fields: Fields)
    requires Sorted(fields)
    ensures Sorted(CanonicalFields(fields))
  {}

  /** Updates win, and everything else is what it was. */
  lemma MergedLookup(fields: Fields, updates: Fields, k: string)
    requires Sorted(fields) && Sorted(updates)
    ensures Lookup(CanonicalFields(Extend(fields, updates)), k)
         == match (Lookup(updates, k), Lookup(fields, k))
            case (Some(new_), _) => Some(new_.Canonical())
            case (None, Some(old_)) => Some(old_.Canonical())
            case (None, None) => None
  {
    ExtendLookup(fields, updates, k);
    CanonicalLookup(Extend(fields, updates), k);
  }

  lemma MergeTwice(fields: Fields, updates: Fields)
    requires Sorted(fields) && Sorted(updates)
    ensures var merged := Extend(fields, updates);
            CanonicalFields(Extend(CanonicalFields(merged), updates)) == CanonicalFields(merged)
  {
    hide CanonicalFields, Extend, Lookup, Sorted;
    var merged := Extend(fields, updates);
    var once := CanonicalFields(merged);
    ExtendSorted(fields, updates);
    CanonicalSorted(merged);
    ExtendSorted(once, updates);
    CanonicalSorted(Extend(once, updates));
    forall k ensures Lookup(CanonicalFields(Extend(once, updates)), k) == Lookup(once, k) {
      MergedLookup(fields, updates, k);
      MergedLookup(once, updates, k);
    }
    SameLookups(CanonicalFields(Extend(once, updates)), once);
  }

  lemma {:induction false} CanonicalText(nf: NumberFormat, fields: Fields)
    requires Lawful(nf)
    ensures FieldText(nf, CanonicalFields(fields)) == FieldText(nf, fields)
  {
    if fields == [] {
    } else {
      CanonicalText(nf, fields[1..]);
      CanonicalFieldsStep(fields);
      assert EncodeValue(nf, fields[0].value.Canonical()) == EncodeValue(nf, fields[0].value);
    }
  }

  lemma SameCanonicalSameText(nf: NumberFormat, body: string, a: Fields, b: Fields)
    requires Lawful(nf) && CanonicalFields(a) == CanonicalFields(b)
    ensures Rendered(nf, body, a) == Rendered(nf, body, b)
  {
    CanonicalText(nf, a);
    CanonicalText(nf, b);
    assert |CanonicalFields(a)| == |CanonicalFields(b)|;
  }

  /** Applying the same updates again leaves the text unchanged. */
  lemma UpdateIdempotent(nf: NumberFormat, current: string, updates: Fields)
    requires Lawful(nf) && Parsed(updates)
    requires var note := ParseMarkdown(nf, current); MergeReadsBack(note, Extend(note.fields, updates))
    ensures var written := Updated(nf, current, updates);
            written.Ok? && Updated(nf, written.value, updates) == written
  {
    hide ParseMarkdown, HasCrlf, NoLateDashKey, Lawful, SplitFrontmatter, Rendered, CanonicalFields, Extend;
    var note := ParseMarkdown(nf, current);
    var merged := Extend(note.fields, updates);
    UpdateExactly(nf, current, updates);
    ParsedNote(nf, current);
    MergeTwice(note.fields, updates);
    var written := Updated(nf, current, updates).value;
    UpdateExactly(nf, written, updates);
    SameCanonicalSameText(nf, note.body, Extend(CanonicalFields(merged), updates), merged);
  }
}
