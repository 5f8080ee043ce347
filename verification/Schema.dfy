/** The indentation parser of framework schemas, and the composition of overlays. */
module Schema {
  import opened Text
  import opened Frontmatter

  /** A key line: the width of its indentation, its key, and the trimmed text behind the colon. */
  datatype Line = Line(indent: nat, key: string, raw: string)

  datatype Value<V> = Scalar(scalar: V) | Mapping(fields: map<string, Value<V>>)

  // ---------------------------------------------------------------- the parser

  predicate Leaves(line: Line, parent: Option<nat>) { parent.Some? && line.indent <= parent.value }

  /** The mapping at the head of these lines, and the lines it leaves to its parent. */
  function Parsed<V>(scalar: string -> V, lines: seq<Line>, parent: Option<nat>)
      : (r: (map<string, Value<V>>, seq<Line>))
    ensures |r.1| <= |lines|
    decreases |lines|
  {
    if lines == [] || Leaves(lines[0], parent) then (map[], lines)
    else if lines[0].raw == "" then
      var child := Parsed(scalar, lines[1..], Some(lines[0].indent));
      var more := Parsed(scalar, child.1, parent);
      (map[lines[0].key := Mapping(child.0)] + more.0, more.1)
    else
      var more := Parsed(scalar, lines[1..], parent);
      (map[lines[0].key := Scalar(scalar(lines[0].raw))] + more.0, more.1)
  }

  lemma ParsedStep<V>(scalar: string -> V, line: Line, more: seq<Line>, parent: Option<nat>)
    requires !Leaves(line, parent)
    ensures line.raw != "" ==>
      Parsed(scalar, [line] + more, parent)
        == (map[line.key := Scalar(scalar(line.raw))] + Parsed(scalar, more, parent).0, Parsed(scalar, more, parent).1)
    ensures line.raw == "" ==>
      var child := Parsed(scalar, more, Some(line.indent));
      Parsed(scalar, [line] + more, parent)
        == (map[line.key := Mapping(child.0)] + Parsed(scalar, child.1, parent).0, Parsed(scalar, child.1, parent).1)
  {
    assert ([line] + more)[1..] == more;
  }

  lemma ParsedEnds<V>(scalar: string -> V, lines: seq<Line>, parent: Option<nat>)
    requires lines == [] || Leaves(lines[0], parent)
    ensures Parsed(scalar, lines, parent) == (map[], lines)
  {}

  method ParseMapping<V>(scalar: string -> V, lines: seq<Line>, start: nat, parent: Option<nat>)
    returns (result: map<string, Value<V>>, cursor: nat)
    requires start <= |lines|
    ensures start <= cursor <= |lines|
    ensures (result, lines[cursor..]) == Parsed(scalar, lines[start..], parent)
    ensures start < |lines| && !Leaves(lines[start], parent) ==> cursor > start
    decreases |lines| - start
  {
    hide Parsed;
    result, cursor := map[], start;
    ghost var all := Parsed(scalar, lines[start..], parent);
    assert map[] + all.0 == all.0;
    while cursor < |lines|
      invariant start <= cursor <= |lines|
      invariant all == (result + Parsed(scalar, lines[cursor..], parent).0, Parsed(scalar, lines[cursor..], parent).1)
      decreases |lines| - cursor
    {
      var line := lines[cursor];
      if Leaves(line, parent) {
        break;
      }
      assert lines[cursor..] == [line] + lines[cursor + 1..];
      ParsedStep(scalar, line, lines[cursor + 1..], parent);
      cursor := cursor + 1;
      var value: Value<V>;
      if line.raw == "" {
        var child, after := ParseMapping(scalar, lines, cursor, Some(line.indent));
        value, cursor := Mapping(child), after;
      } else {
        value := Scalar(scalar(line.raw));
      }
      UnionInsert(result, line.key, value, Parsed(scalar, lines[cursor..], parent).0);
      result := result[line.key := value];
    }
    ParsedEnds(scalar, lines[cursor..], parent);
    assert result + map[] == result;
  }

  lemma UnionInsert<K, V>(m: map<K, V>, k: K, v: V, n: map<K, V>)
    ensures m + (map[k := v] + n) == m[k := v] + n
  {}

  // ---------------------------------------------------------------- what indentation means

  /** A document as its writer meant it: every key line with the lines that belong to it. */
  datatype Item = Leaf(indent: nat, key: string, raw: string) | Nested(indent: nat, key: string, items: seq<Item>)

  function Print(items: seq<Item>): seq<Line> {
    if items == [] then [] else PrintItem(items[0]) + Print(items[1..])
  }

  function PrintItem(item: Item): (lines: seq<Line>)
    ensures lines != [] && lines[0].indent == item.indent && lines[0].key == item.key
  {
    match item
    case Leaf(indent, key, raw) => [Line(indent, key, raw)]
    case Nested(indent, key, items) => [Line(indent, key, "")] + Print(items)
  }

  /** Members are deeper than their parent, and what follows a block is not deeper than the block. */
  predicate WellIndented(items: seq<Item>, parent: Option<nat>) {
    items != [] ==>
      && (parent.Some? ==> items[0].indent > parent.value)
      && (match items[0]
          case Leaf(_, _, raw) => raw != ""
          case Nested(indent, _, inner) =>
            WellIndented(inner, Some(indent)) && (|items| > 1 ==> items[1].indent <= indent))
      && WellIndented(items[1..], parent)
  }

  function Meaning<V>(scalar: string -> V, items: seq<Item>): map<string, Value<V>> {
    if items == [] then map[] else map[items[0].key := ItemMeaning(scalar, items[0])] + Meaning(scalar, items[1..])
  }

  function ItemMeaning<V>(scalar: string -> V, item: Item): Value<V> {
    match item
    case Leaf(_, _, raw) => Scalar(scalar(raw))
    case Nested(_, _, items) => Mapping(Meaning(scalar, items))
  }

  /** The lines end here, or the next one belongs further out. */
  predicate Stops(rest: seq<Line>, parent: Option<nat>) { rest == [] || Leaves(rest[0], parent) }

  lemma NextStops(items: seq<Item>, rest: seq<Line>, parent: Option<nat>)
    requires WellIndented(items, parent) && items != [] && items[0].Nested? && Stops(rest, parent)
    ensures Stops(Print(items[1..]) + rest, Some(items[0].indent))
  {}

  lemma PrintHead(items: seq<Item>, rest: seq<Line>)
    requires items != []
    ensures Print(items) + rest == PrintItem(items[0]) + (Print(items[1..]) + rest)
    ensures var lines, tail := Print(items) + rest, Print(items[1..]) + rest;
      match items[0]
      case Leaf(indent, key, raw) => lines == [Line(indent, key, raw)] + tail
      case Nested(indent, key, inner) => lines == [Line(indent, key, "")] + (Print(inner) + tail)
  {
    var tail := Print(items[1..]) + rest;
    PrintCons(items, rest);
    match items[0]
    case Leaf(_, _, _) =>
    case Nested(indent, key, inner) => AppendAssociates([Line(indent, key, "")], Print(inner), tail);
  }

  lemma PrintCons(items: seq<Item>, rest: seq<Line>)
    requires items != []
    ensures Print(items) + rest == PrintItem(items[0]) + (Print(items[1..]) + rest)
  {}

  /** Parsing a printed document gives its meaning and stops right behind it. */
  lemma {:induction false} PrintParses<V>(scalar: string -> V, items: seq<Item>, rest: seq<Line>, parent: Option<nat>)
    requires WellIndented(items, parent) && Stops(rest, parent)
    ensures Parsed(scalar, Print(items) + rest, parent) == (Meaning(scalar, items), rest)
    decreases items
  {
    if items == [] {
      assert Print(items) + rest == rest;
    } else {
      hide Print, Parsed;
      var tail := Print(items[1..]) + rest;
      PrintParses(scalar, items[1..], rest, parent);
      PrintHead(items, rest);
      match items[0]
      case Leaf(indent, key, raw) => ParsedStep(scalar, Line(indent, key, raw), tail, parent);
      case Nested(indent, key, inner) =>
        NextStops(items, rest, parent);
        PrintParses(scalar, inner, tail, Some(indent));
        ParsedStep(scalar, Line(indent, key, ""), Print(inner) + tail, parent);
    }
  }

  /** The document some lines spell. */
  function Read(lines: seq<Line>, parent: Option<nat>): (r: (seq<Item>, seq<Line>))
    ensures |r.1| <= |lines|
    decreases |lines|
  {
    if Stops(lines, parent) then ([], lines)
    else if lines[0].raw == "" then
      var child := Read(lines[1..], Some(lines[0].indent));
      var more := Read(child.1, parent);
      ([Nested(lines[0].indent, lines[0].key, child.0)] + more.0, more.1)
    else
      var more := Read(lines[1..], parent);
      ([Leaf(lines[0].indent, lines[0].key, lines[0].raw)] + more.0, more.1)
  }

  lemma ReadStep(line: Line, more: seq<Line>, parent: Option<nat>)
    requires !Leaves(line, parent)
    ensures line.raw != "" ==>
      Read([line] + more, parent)
          == ([Leaf(line.indent, line.key, line.raw)] + Read(more, parent).0, Read(more, parent).1)
    ensures line.raw == "" ==>
      var child := Read(more, Some(line.indent));
      Read([line] + more, parent)
        == ([Nested(line.indent, line.key, child.0)] + Read(child.1, parent).0, Read(child.1, parent).1)
  {
    assert ([line] + more)[1..] == more;
  }

  lemma {:induction false} ReadPrints(lines: seq<Line>, parent: Option<nat>)
    ensures var (items, rest) := Read(lines, parent);
      WellIndented(items, parent) && Stops(rest, parent) && Print(items) + rest == lines
    decreases |lines|
  {
    if Stops(lines, parent) {
      assert Print([]) + lines == lines;
    } else {
      hide Read, Print;
      var line, more := lines[0], lines[1..];
      assert lines == [line] + more;
      ReadStep(line, more, parent);
      var (items, rest) := Read(lines, parent);
      PrintHead(items, rest);
      if line.raw == "" {
        var child := Read(more, Some(line.indent));
        ReadPrints(more, Some(line.indent));
        ReadPrints(child.1, parent);
        assert items[1..] == Read(child.1, parent).0;
        if |items| > 1 {
          FirstLine(items[1..], rest, child.1);
        }
      } else {
        ReadPrints(more, parent);
        assert items[1..] == Read(more, parent).0;
      }
    }
  }

  lemma FirstLine(items: seq<Item>, rest: seq<Line>, lines: seq<Line>)
    requires Print(items) + rest == lines && items != []
    ensures lines != [] && lines[0].indent == items[0].indent
  {
    assert lines[0] == PrintItem(items[0])[0];
  }

  lemma {:induction false} PrintReads(items: seq<Item>, rest: seq<Line>, parent: Option<nat>)
    requires WellIndented(items, parent) && Stops(rest, parent)
    ensures Read(Print(items) + rest, parent) == (items, rest)
    decreases items
  {
    if items == [] {
      assert Print(items) + rest == rest;
    } else {
      hide Print, Read;
      var tail := Print(items[1..]) + rest;
      PrintReads(items[1..], rest, parent);
      PrintHead(items, rest);
      assert items == [items[0]] + items[1..];
      match items[0]
      case Leaf(indent, key, raw) => ReadStep(Line(indent, key, raw), tail, parent);
      case Nested(indent, key, inner) =>
        NextStops(items, rest, parent);
        PrintReads(inner, tail, Some(indent));
        ReadStep(Line(indent, key, ""), Print(inner) + tail, parent);
    }
  }

  /** All lines spell exactly one well-indented document. */
  lemma SpelledExactly(lines: seq<Line>, items: seq<Item>)
    ensures Read(lines, None) == (items, []) <==> WellIndented(items, None) && Print(items) == lines
  {
    ReadPrints(lines, None);
    assert Print(items) + [] == Print(items);
    if WellIndented(items, None) && Print(items) == lines {
      PrintReads(items, [], None);
    }
  }

  /** At top level the parser consumes every line, and gives the meaning of the one document they spell. */
  lemma ParsesAll<V>(scalar: string -> V, lines: seq<Line>)
    ensures Read(lines, None).1 == [] && Parsed(scalar, lines, None) == (Meaning(scalar, Read(lines, None).0), [])
  {
    ReadPrints(lines, None);
    PrintParses(scalar, Read(lines, None).0, Read(lines, None).1, None);
  }

  /** With distinct keys the meaning has every item, empty blocks included, and nothing else. */
  lemma {:induction false} DistinctKeysKept<V>(scalar: string -> V, items: seq<Item>)
    requires forall i, j | 0 <= i < j < |items| :: items[i].key != items[j].key
    ensures forall i | 0 <= i < |items| ::
      items[i].key in Meaning(scalar, items) && Meaning(scalar, items)[items[i].key] == ItemMeaning(scalar, items[i])
    ensures forall k | k in Meaning(scalar, items) :: exists i :: 0 <= i < |items| && items[i].key == k
    decreases |items|
  {
    if items == [] {
    } else {
      var rest := items[1..];
      DistinctKeysKept(scalar, rest);
      assert forall i | 1 <= i < |items| :: items[i] == rest[i - 1];
    }
  }

  // ---------------------------------------------------------------- overlays

  /** The parts of a schema that composition looks at. */
  datatype Overlay<T> = Overlay(isOverlay: bool, overrides: bool, inbox: Option<string>, types: Option<map<string, T>>)

  predicate Admissible<T>(inbox: Option<string>, o: Overlay<T>) {
    o.isOverlay && (o.inbox.Some? ==> o.inbox == inbox) && o.types.Some?
  }

  function Added<T>(inbox: Option<string>, types: map<string, T>, o: Overlay<T>): Result<map<string, T>> {
    if !o.isOverlay then Err("overlay schema must have schema_kind: overlay")
    else if o.inbox.Some? && o.inbox != inbox then Err("overlay cannot change inbox.folder")
    else if o.types.None? then Err("types must be an object")
    else if !o.overrides && exists name :: name in o.types.value && name in types
      then Err("framework type already exists")
    else Ok(types + o.types.value)
  }

  function Composed<T>(inbox: Option<string>, types: map<string, T>, overlays: seq<Overlay<T>>): Result<map<string, T>>
    decreases |overlays|
  {
    if overlays == [] then Ok(types)
    else
      match Added(inbox, types, overlays[0])
      case Err(error) => Err(error)
      case Ok(more) => Composed(inbox, more, overlays[1..])
  }

  /** `base` with those of the new types whose names are not left. */
  function Merged<T>(base: map<string, T>, more: map<string, T>, left: set<string>): map<string, T> {
    base + map name | name in more && name !in left :: more[name]
  }

  lemma MergedStep<T>(base: map<string, T>, more: map<string, T>, left: set<string>, name: string)
    requires name in left && left <= more.Keys
    ensures Merged(base, more, left - {name}) == Merged(base, more, left)[name := more[name]]
    ensures name in Merged(base, more, left) <==> name in base
  {}

  lemma MergedEnds<T>(base: map<string, T>, more: map<string, T>)
    ensures Merged(base, more, more.Keys) == base && Merged(base, more, {}) == base + more
  {}

  method AddTypes<T>(base: map<string, T>, more: map<string, T>, overrides: bool) returns (r: Result<map<string, T>>)
    ensures r == if !overrides && exists name :: name in more && name in base then Err("framework type already exists")
                 else Ok(base + more)
  {
    hide Merged;
    MergedEnds(base, more);
    var types := base;
    var left := more.Keys;
    while left != {}
      invariant left <= more.Keys
      invariant !overrides ==> forall name | name in more && name !in left :: name !in base
      invariant types == Merged(base, more, left)
      decreases |left|
    {
      var name :| name in left;
      MergedStep(base, more, left, name);
      if name in types && !overrides {
        return Err("framework type already exists");
      }
      types := types[name := more[name]];
      left := left - {name};
    }
    return Ok(types);
  }

  method ComposeSchema<T>(inbox: Option<string>, base: map<string, T>, overlays: seq<Overlay<T>>)
    returns (r: Result<map<string, T>>)
    ensures r == Composed(inbox, base, overlays)
  {
    var types := base;
    for i := 0 to |overlays|
      invariant Composed(inbox, types, overlays[i..]) == Composed(inbox, base, overlays)
    {
      var o := overlays[i];
      ghost var rest := overlays[i..];
      assert rest[0] == o && rest[1..] == overlays[i + 1..];
      if !o.isOverlay {
        return Err("overlay schema must have schema_kind: overlay");
      }
      if o.inbox.Some? && o.inbox != inbox {
        return Err("overlay cannot change inbox.folder");
      }
      if o.types.None? {
        return Err("types must be an object");
      }
      var added := AddTypes(types, o.types.value, o.overrides);
      assert added == Added(inbox, types, o);
      if added.Err? {
        return added;
      }
      types := added.value;
    }
    return Ok(types);
  }

  /** The same types, or a failure on both sides. */
  predicate Same<T(==)>(a: Result<map<string, T>>, b: Result<map<string, T>>) { a == b || (a.Err? && b.Err?) }

  lemma SwapFirst<T>(inbox: Option<string>, types: map<string, T>, a: Overlay<T>, b: Overlay<T>, rest: seq<Overlay<T>>)
    requires !a.overrides && !b.overrides
    ensures Same(Composed(inbox, types, [a, b] + rest), Composed(inbox, types, [b, a] + rest))
  {
    hide Composed, Added, Admissible;
    TwoAdded(inbox, types, a, b, rest);
    TwoAdded(inbox, types, b, a, rest);
    if Both(inbox, types, a, b) {
      UnionsCommute(types, a.types.value, b.types.value);
    }
  }

  lemma UnionsCommute<T>(types: map<string, T>, a: map<string, T>, b: map<string, T>)
    requires a.Keys !! b.Keys
    ensures types + a + b == types + b + a
  {}

  ghost predicate Both<T>(inbox: Option<string>, types: map<string, T>, a: Overlay<T>, b: Overlay<T>) {
    && Admissible(inbox, a) && Admissible(inbox, b) && a.types.Some? && b.types.Some?
    && a.types.value.Keys !! types.Keys && b.types.value.Keys !! types.Keys && a.types.value.Keys !! b.types.value.Keys
  }

  lemma TwoAdded<T>(inbox: Option<string>, types: map<string, T>, a: Overlay<T>, b: Overlay<T>, rest: seq<Overlay<T>>)
    requires !a.overrides && !b.overrides
    ensures Both(inbox, types, a, b) ==>
      Composed(inbox, types, [a, b] + rest) == Composed(inbox, types + a.types.value + b.types.value, rest)
    ensures !Both(inbox, types, a, b) ==> Composed(inbox, types, [a, b] + rest).Err?
  {
    var all := [a, b] + rest;
    assert all[0] == a && all[1..] == [b] + rest && all[1..][0] == b && all[1..][1..] == rest;
    var first := Added(inbox, types, a);
    if first.Ok? {
      assert first.value == types + a.types.value;
      assert Composed(inbox, types, all) == Composed(inbox, first.value, [b] + rest);
    }
  }

  lemma {:induction false} MoveToFront<T>(inbox: Option<string>, types: map<string, T>, overlays: seq<Overlay<T>>,
      j: nat)
    requires j < |overlays| && forall o | o in overlays :: !o.overrides
    ensures Same(Composed(inbox, types, overlays),
        Composed(inbox, types, [overlays[j]] + overlays[..j] + overlays[j + 1..]))
    decreases j
  {
    hide Composed;
    var moved := [overlays[j]] + overlays[..j] + overlays[j + 1..];
    if j == 0 {
      assert moved == overlays;
    } else {
      var first, rest := overlays[0], overlays[1..];
      var others := rest[..j - 1] + rest[j..];
      assert overlays == [first] + rest && rest[j - 1] == overlays[j];
      assert [rest[j - 1]] + rest[..j - 1] + rest[j..] == [overlays[j]] + others;
      forall more ensures Same(Composed(inbox, more, rest), Composed(inbox, more, [overlays[j]] + others)) {
        MoveToFront(inbox, more, rest, j - 1);
      }
      SameTail(inbox, types, first, rest, [overlays[j]] + others);
      SwapFirst(inbox, types, first, overlays[j], others);
      assert [first] + ([overlays[j]] + others) == [first, overlays[j]] + others;
      assert moved == [overlays[j], first] + others;
    }
  }

  lemma SameTail<T>(inbox: Option<string>, types: map<string, T>, first: Overlay<T>, a: seq<Overlay<T>>,
      b: seq<Overlay<T>>)
    requires forall more :: Same(Composed(inbox, more, a), Composed(inbox, more, b))
    ensures Same(Composed(inbox, types, [first] + a), Composed(inbox, types, [first] + b))
  {
    assert ([first] + a)[1..] == a && ([first] + b)[1..] == b;
  }

  lemma SameChain<T>(a: Result<map<string, T>>, b: Result<map<string, T>>, c: Result<map<string, T>>)
    requires Same(a, b) && Same(c, b)
    ensures Same(a, c)
  {}

  lemma WithoutOne<T>(b: seq<T>, j: nat)
    requires j < |b|
    ensures multiset(b) == multiset{b[j]} + multiset(b[..j] + b[j + 1..])
  {
    assert b == b[..j] + ([b[j]] + b[j + 1..]);
  }

  lemma RemovedAt<T>(a: seq<T>, b: seq<T>, j: nat)
    requires multiset(a) == multiset(b) && a != [] && j < |b| && b[j] == a[0]
    ensures multiset(a[1..]) == multiset(b[..j] + b[j + 1..])
  {
    WithoutOne(a, 0);
    WithoutOne(b, j);
    assert a[..0] + a[0 + 1..] == a[1..];
    SameRest(multiset{a[0]}, multiset(a[1..]), multiset(b[..j] + b[j + 1..]));
  }

  lemma SameRest<T>(x: multiset<T>, m: multiset<T>, n: multiset<T>)
    requires x + m == x + n
    ensures m == n
  {
    assert x + m - x == m && x + n - x == n;
  }

  lemma SameMembers<T>(a: seq<T>, b: seq<T>)
    requires multiset(a) == multiset(b)
    ensures forall x | x in b :: x in a
  {
    forall x | x in b ensures x in a {
      assert x in multiset(b) && x in multiset(a);
    }
  }

  lemma FrontThenRest<T>(inbox: Option<string>, types: map<string, T>, a: seq<Overlay<T>>, b: seq<Overlay<T>>, j: nat)
    requires a != [] && j < |b| && b[j] == a[0] && forall o | o in b :: !o.overrides
    requires forall more :: Same(Composed(inbox, more, a[1..]), Composed(inbox, more, b[..j] + b[j + 1..]))
    ensures Same(Composed(inbox, types, a), Composed(inbox, types, b))
  {
    hide Composed;
    var rest := b[..j] + b[j + 1..];
    SameTail(inbox, types, a[0], a[1..], rest);
    MoveToFront(inbox, types, b, j);
    assert [a[0]] + a[1..] == a;
    assert [b[j]] + b[..j] + b[j + 1..] == [a[0]] + rest;
    SameChain(Composed(inbox, types, a), Composed(inbox, types, [a[0]] + rest), Composed(inbox, types, b));
  }

  /** Overlays that do not override compose to the same types in every order, or fail in every order. */
  lemma {:induction false} OrderDoesNotMatter<T>(inbox: Option<string>, types: map<string, T>, a: seq<Overlay<T>>,
      b: seq<Overlay<T>>)
    requires multiset(a) == multiset(b) && forall o | o in a :: !o.overrides
    ensures Same(Composed(inbox, types, a), Composed(inbox, types, b))
    decreases |a|
  {
    hide Composed, Same;
    if a == [] {
      assert |b| == |multiset(b)| == 0;
      assert a == b;
      SameItself(Composed(inbox, types, a));
    } else {
      assert a[0] in multiset(b);
      var j :| 0 <= j < |b| && b[j] == a[0];
      RemovedAt(a, b, j);
      SameMembers(a, b);
      forall more ensures Same(Composed(inbox, more, a[1..]), Composed(inbox, more, b[..j] + b[j + 1..])) {
        OrderDoesNotMatter(inbox, more, a[1..], b[..j] + b[j + 1..]);
      }
      FrontThenRest(inbox, types, a, b, j);
    }
  }

  lemma SameItself<T>(a: Result<map<string, T>>)
    ensures Same(a, a)
  {}

  lemma TwoOverrides<T>(inbox: Option<string>, types: map<string, T>, a: Overlay<T>, b: Overlay<T>)
    requires a.overrides && b.overrides && Admissible(inbox, a) && Admissible(inbox, b)
    ensures Composed(inbox, types, [a, b]) == Ok(types + a.types.value + b.types.value)
  {
    assert [a, b][1..] == [b] && [b][1..] == [];
    assert Composed(inbox, types + a.types.value, [b]) == Composed(inbox, types + a.types.value + b.types.value, []);
  }

  /** Overriding overlays do not: the later one wins. */
  lemma OverridesAreOrdered<T>(inbox: Option<string>, types: map<string, T>, a: Overlay<T>, b: Overlay<T>, name: string)
    requires a.overrides && b.overrides && Admissible(inbox, a) && Admissible(inbox, b)
    requires name in a.types.value && name in b.types.value && a.types.value[name] != b.types.value[name]
    ensures !Same(Composed(inbox, types, [a, b]), Composed(inbox, types, [b, a]))
  {
    hide Composed;
    TwoOverrides(inbox, types, a, b);
    TwoOverrides(inbox, types, b, a);
    assert (types + a.types.value + b.types.value)[name] != (types + b.types.value + a.types.value)[name];
  }

  // ---------------------------------------------------------------- what composition accepts and gives

  /** Why an overlay cannot be added, whatever it is added to. */
  ghost predicate Misfit<T>(inbox: Option<string>, o: Overlay<T>, error: string) {
    if !o.isOverlay then error == "overlay schema must have schema_kind: overlay"
    else if o.inbox.Some? && o.inbox != inbox then error == "overlay cannot change inbox.folder"
    else o.types.None? && error == "types must be an object"
  }

  /** The name is a type of the base or of an overlay before this one. */
  ghost predicate Taken<T>(base: map<string, T>, overlays: seq<Overlay<T>>, i: nat, name: string)
    requires i <= |overlays|
  {
    name in base || exists j :: 0 <= j < i && overlays[j].types.Some? && name in overlays[j].types.value
  }

  /** Why the overlay at this place cannot be added. */
  ghost predicate Blocked<T>(
      inbox: Option<string>, base: map<string, T>, overlays: seq<Overlay<T>>, i: nat, error: string)
    requires i < |overlays|
  {
    var o := overlays[i];
    || Misfit(inbox, o, error)
    || (Admissible(inbox, o) && !o.overrides && error == "framework type already exists"
        && exists name :: name in o.types.value && Taken(base, overlays, i, name))
  }

  /** The name is a type of this overlay. */
  ghost predicate Has<T>(o: Overlay<T>, name: string) { o.types.Some? && name in o.types.value }

  function TypeOf<T>(types: map<string, T>, name: string): Option<T> {
    if name in types then Some(types[name]) else None
  }

  /** The last overlay that has the name gives its type, or the base when none has it. */
  ghost predicate LastType<T>(base: map<string, T>, overlays: seq<Overlay<T>>, name: string, found: Option<T>) {
    || (exists i :: 0 <= i < |overlays| && Has(overlays[i], name) && found == Some(overlays[i].types.value[name])
          && forall j | i < j < |overlays| :: !Has(overlays[j], name))
    || ((forall i | 0 <= i < |overlays| :: !Has(overlays[i], name))
        && found == TypeOf(base, name))
  }

  lemma AddedExactly<T>(inbox: Option<string>, base: map<string, T>, overlays: seq<Overlay<T>>)
    requires overlays != []
    ensures var r := Added(inbox, base, overlays[0]);
      && (r.Ok? ==> overlays[0].types.Some? && r.value == base + overlays[0].types.value)
      && (r.Ok? ==> forall error :: !Blocked(inbox, base, overlays, 0, error))
      && (r.Err? ==> Blocked(inbox, base, overlays, 0, r.code))
  {
    var r, o := Added(inbox, base, overlays[0]), overlays[0];
    if r.Err? && Admissible(inbox, o) {
      var name :| name in o.types.value && name in base;
      assert Taken(base, overlays, 0, name);
    }
  }

  /** What blocks an overlay behind the first one is the same once the first one is added. */
  lemma BlockedBehind<T>(inbox: Option<string>, base: map<string, T>, overlays: seq<Overlay<T>>, i: nat, error: string)
    requires i + 1 < |overlays| && overlays[0].types.Some?
    ensures Blocked(inbox, base, overlays, i + 1, error)
       <==> Blocked(inbox, base + overlays[0].types.value, overlays[1..], i, error)
  {
    hide Misfit, Admissible;
    forall name
      ensures Taken(base, overlays, i + 1, name) <==> Taken(base + overlays[0].types.value, overlays[1..], i, name)
    {
      TakenBehind(base, overlays, i, name);
    }
  }

  lemma TakenBehind<T>(base: map<string, T>, overlays: seq<Overlay<T>>, i: nat, name: string)
    requires i + 1 <= |overlays| && overlays[0].types.Some?
    ensures Taken(base, overlays, i + 1, name) <==> Taken(base + overlays[0].types.value, overlays[1..], i, name)
  {
    var rest := overlays[1..];
    assert forall j | 0 <= j < |rest| :: rest[j] == overlays[j + 1];
    if j: nat :| j < i + 1 && overlays[j].types.Some? && name in overlays[j].types.value {
      if j > 0 {
        assert rest[j - 1] == overlays[j];
      }
    }
    if name in overlays[0].types.value {
      assert 0 <= 0 < i + 1 && overlays[0].types.Some? && name in overlays[0].types.value;
    }
  }

  lemma LastTypeBehind<T>(base: map<string, T>, overlays: seq<Overlay<T>>, name: string, found: Option<T>)
    requires overlays != [] && overlays[0].types.Some?
    requires LastType(base + overlays[0].types.value, overlays[1..], name, found)
    ensures LastType(base, overlays, name, found)
  {
    var rest := overlays[1..];
    assert forall j | 0 <= j < |rest| :: rest[j] == overlays[j + 1];
    assert forall j | 1 <= j < |overlays| :: overlays[j] == rest[j - 1];
    if i :| 0 <= i < |rest| && Has(rest[i], name) && found == Some(rest[i].types.value[name])
          && forall j | i < j < |rest| :: !Has(rest[j], name) {
      assert Has(overlays[i + 1], name);
    } else if Has(overlays[0], name) {
      assert found == Some(overlays[0].types.value[name]);
    }
  }

  /** The first overlay that is blocked, and why. */
  ghost predicate FirstBlocked<T>(
      inbox: Option<string>, base: map<string, T>, overlays: seq<Overlay<T>>, i: nat, error: string)
  {
    && i < |overlays| && Blocked(inbox, base, overlays, i, error)
    && forall j: nat, e | j < i :: !Blocked(inbox, base, overlays, j, e)
  }

  /**
   * Composition fails with the reason of the first overlay that is blocked, and otherwise gives every name the type
   * of the last overlay that has it.
   */
  lemma {:induction false} ComposedExactly<T>(inbox: Option<string>, base: map<string, T>, overlays: seq<Overlay<T>>)
    ensures var r := Composed(inbox, base, overlays);
      && (r.Err? ==> exists i: nat :: FirstBlocked(inbox, base, overlays, i, r.code))
      && (r.Ok? ==> forall i: nat, e | i < |overlays| :: !Blocked(inbox, base, overlays, i, e))
      && (r.Ok? ==> forall name :: LastType(base, overlays, name, TypeOf(r.value, name)))
    decreases |overlays|
  {
    hide Blocked, LastType, Added, Taken;
    if overlays == [] {
      NoOverlays(base);
    } else {
      AddedExactly(inbox, base, overlays);
      match Added(inbox, base, overlays[0])
      case Err(error) =>
        assert Composed(inbox, base, overlays) == Err(error);
        assert FirstBlocked(inbox, base, overlays, 0, error);
      case Ok(more) =>
        var rest := overlays[1..];
        assert more == base + overlays[0].types.value && Composed(inbox, base, overlays) == Composed(inbox, more, rest);
        ComposedExactly(inbox, more, rest);
        forall i: nat, e | i < |rest|
          ensures Blocked(inbox, base, overlays, i + 1, e) <==> Blocked(inbox, more, rest, i, e) {
          BlockedBehind(inbox, base, overlays, i, e);
        }
        match Composed(inbox, more, rest)
        case Err(error) =>
          var i: nat :| FirstBlocked(inbox, more, rest, i, error);
          forall j: nat, e | j < i + 1 ensures !Blocked(inbox, base, overlays, j, e) {
            if j > 0 {
              BlockedBehind(inbox, base, overlays, j - 1, e);
            }
          }
          assert FirstBlocked(inbox, base, overlays, i + 1, error);
        case Ok(types) =>
          forall i: nat, e | i < |overlays| ensures !Blocked(inbox, base, overlays, i, e) {
            if i > 0 {
              BlockedBehind(inbox, base, overlays, i - 1, e);
            }
          }
          forall name ensures LastType(base, overlays, name, TypeOf(types, name)) {
            LastTypeBehind(base, overlays, name, TypeOf(types, name));
          }
    }
  }

  lemma NoOverlays<T>(base: map<string, T>)
    ensures forall name :: LastType(base, [], name, TypeOf(base, name))
  {}
}
