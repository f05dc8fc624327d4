/** What the selections of a GraphQL query name, told from the selection objects themselves
    (fraiseql_rs/src/pipeline/projection.rs). */
module FieldSelections {
  import opened Answers
  import opened CamelCase
  import opened Json
  import opened Options
  import opened Project
  import opened Projections
  import opened Response
  import opened Schema
  import opened SchemaTransform
  import opened Tagging
  import opened Texts
  import opened TypedPaths

  /** The selection holds `x` under `k`. */
  predicate Holds(selection: Value, k: string, x: Value) {
    selection.Object? && Entry(k, x) in selection.fields
  }

  /** The selection holds a text under `k`. */
  predicate HoldsText(selection: Value, k: string) {
    selection.Object? && exists e <- selection.fields :: e.key == k && e.value.String?
  }

  lemma TextAtIff(selection: Value, k: string)
    ensures forall text: string :: TextAt(selection, k) == Some(text) <==> Holds(selection, k, String(text))
    ensures TextAt(selection, k).Some? <==> HoldsText(selection, k)
    ensures FlagAt(selection, k) <==> Holds(selection, k, Bool(true))
  {
    hide Lookup;
    if selection.Object? {
      TextInMap(selection.fields, k);
      if HoldsText(selection, k) {
        var e :| e in selection.fields && e.key == k && e.value.String?;
        assert e == Entry(k, String(e.value.text));
      }
    }
  }

  /** The selection is of the row path `path`, and has an alias. */
  predicate IsAliased(selection: Value, path: string) {
    Holds(selection, "materialized_path", String(path)) && HoldsText(selection, "alias")
  }

  lemma AliasOfFirst(selections: seq<Value>, path: string)
    requires selections != []
    ensures AliasOf(selections, path) ==
            if IsAliased(selections[0], path) then TextAt(selections[0], "alias") else AliasOf(selections[1..], path)
  {
    hide TextAt, Holds, HoldsText;
    TextAtIff(selections[0], "materialized_path");
    TextAtIff(selections[0], "alias");
  }

  /** The first selection of `path` that has an alias, and its alias; there is none, when no selection of `path` has
      one. */
  lemma {:induction false} AliasOfIff(selections: seq<Value>, path: string)
    ensures AliasOf(selections, path).None? <==> forall selection <- selections :: !IsAliased(selection, path)
    ensures forall j :: 0 <= j < |selections| && IsAliased(selections[j], path) &&
                        (forall i :: 0 <= i < j ==> !IsAliased(selections[i], path)) ==>
              AliasOf(selections, path).Some? &&
              Holds(selections[j], "alias", String(AliasOf(selections, path).value))
  {
    hide TextAt, Holds, HoldsText;
    if selections != [] {
      var (first, rest) := (selections[0], selections[1..]);
      assert selections == [first] + rest;
      TextAtIff(first, "materialized_path");
      TextAtIff(first, "alias");
      AliasOfIff(rest, path);
      AliasOfFirst(selections, path);
      forall j | 0 < j < |selections|
        ensures selections[j] == rest[j - 1]
      {
      }
    }
  }

  /** What stands after the last dot of `text`; all of it, when it has none. */
  predicate IsLastPart(part: string, text: string) {
    && '.' !in part
    && (part == text ||
        (|part| < |text| && text[|text| - |part|..] == part && text[|text| - |part| - 1] == '.'))
  }

  /** How the `n`-th segment of a row path is written, when no response path says: under the last dotted part of the
      alias of the first aliased selection that is of the row path up to there; else under its key in camelCase. */
  ghost predicate WritesSegment(selections: seq<Value>, sources: seq<string>, n: nat, output: string)
    requires n < |sources|
  {
    var prefix := Join(sources[..n + 1], ".");
    && ((forall selection <- selections :: !IsAliased(selection, prefix)) ==> output == Camel(sources[n]))
    && (forall j, alias: string | 0 <= j < |selections| && IsAliased(selections[j], prefix) &&
                                  Holds(selections[j], "alias", String(alias)) &&
                                  (forall i :: 0 <= i < j ==> !IsAliased(selections[i], prefix)) ::
          IsLastPart(output, alias))
  }

  lemma SegmentWritten(selections: seq<Value>, sources: seq<string>, n: nat)
    requires n < |sources|
    ensures WritesSegment(selections, sources, n, OutputFor(selections, sources, n))
  {
    hide AliasOf, IsAliased, Holds, Split, Join, Camel;
    var prefix, output := Join(sources[..n + 1], "."), OutputFor(selections, sources, n);
    AliasOfIff(selections, prefix);
    forall j, alias: string | 0 <= j < |selections| && IsAliased(selections[j], prefix) &&
                              Holds(selections[j], "alias", String(alias)) &&
                              (forall i :: 0 <= i < j ==> !IsAliased(selections[i], prefix))
      ensures IsLastPart(output, alias)
    {
      OneText(selections[j], "alias", alias, AliasOf(selections, prefix).value);
      LastPart(alias);
    }
  }

  lemma OneText(selection: Value, k: string, a: string, b: string)
    requires Holds(selection, k, String(a)) && Holds(selection, k, String(b))
    ensures a == b
  {
    TextAtIff(selection, k);
  }

  lemma {:induction false} LastPart(alias: string)
    ensures var parts := Split(alias, '.'); IsLastPart(parts[|parts| - 1], alias)
  {
    SplitJoins(alias, '.');
    var parts := Split(alias, '.');
    assert parts[|parts| - 1] in parts;
    if |parts| > 1 {
      JoinLast(parts, ".");
    }
  }

  lemma {:induction false} JoinLast(parts: seq<string>, separator: string)
    requires |parts| > 1
    ensures Join(parts, separator) == Join(parts[..|parts| - 1], separator) + separator + parts[|parts| - 1]
  {
    if |parts| > 2 {
      JoinLast(parts[1..], separator);
      assert parts[1..][..|parts| - 2] == parts[..|parts| - 1][1..];
    }
  }

  /** The path that a selection adds: its row keys are the dotted parts of its `materialized_path`; its response keys
      those of its `response_path`, when there are as many, else as `WritesSegment` says; it ends in the type that it
      names, and in an object when it says so. */
  ghost predicate Names(selection: Value, selections: seq<Value>, path: Path) {
    && path.sources != [] && |path.outputs| == |path.sources|
    && (forall source <- path.sources :: '.' !in source)
    && path.sources != [""]
    && Holds(selection, "materialized_path", String(Join(path.sources, ".")))
    && (forall response: string | Holds(selection, "response_path", String(response)) &&
                                  |Split(response, '.')| == |path.sources| ::
          (forall output <- path.outputs :: '.' !in output) && Join(path.outputs, ".") == response)
    && ((forall response: string | Holds(selection, "response_path", String(response)) ::
           |Split(response, '.')| != |path.sources|) ==>
          forall n :: 0 <= n < |path.sources| ==> WritesSegment(selections, path.sources, n, path.outputs[n]))
    && (forall name: string :: path.typeName == Some(name) <==> Holds(selection, "type_name", String(name)))
    && (path.isObject <==> Holds(selection, "is_nested_object", Bool(true)))
  }

  /** It adds that path; and none, when it has no `materialized_path` or an empty one. */
  lemma SelectionNames(selection: Value, selections: seq<Value>)
    ensures var path := PathOfSelection(selection, selections);
      && (path.None? <==> forall text: string :: Holds(selection, "materialized_path", String(text)) ==> text == "")
      && (path.Some? ==> Names(selection, selections, path.value))
  {
    hide TextAt, FlagAt, Holds, OutputFor, Split, Join, WritesSegment;
    TextAtIff(selection, "materialized_path");
    TextAtIff(selection, "response_path");
    TextAtIff(selection, "type_name");
    TextAtIff(selection, "is_nested_object");
    var path := PathOfSelection(selection, selections);
    if path.Some? {
      var text := TextAt(selection, "materialized_path").value;
      var sources := path.value.sources;
      SplitJoins(text, '.');
      assert sources == [""] ==> text == "" by {
        OneJoin("");
      }
      var response := TextAt(selection, "response_path");
      if response.Some? {
        SplitJoins(response.value, '.');
      }
      forall n | 0 <= n < |sources|
        ensures WritesSegment(selections, sources, n, OutputFor(selections, sources, n))
      {
        SegmentWritten(selections, sources, n);
      }
    }
  }

  lemma OneJoin(part: string)
    ensures Join([part], ".") == part
  {
  }

  lemma PathOfOne(one: Value, selections: seq<Value>)
    ensures PathsOf([one], selections) ==
            match PathOfSelection(one, selections) case None => [] case Some(path) => [path]
  {
    hide PathOfSelection;
    assert [one][..0] == [];
  }

  /** The paths that a list of selections adds: those of its selections, one after the other. */
  lemma {:induction false} PathsInOrder(a: seq<Value>, b: seq<Value>, selections: seq<Value>)
    ensures PathsOf(a + b, selections) == PathsOf(a, selections) + PathsOf(b, selections)
  {
    hide PathOfSelection;
    if b == [] {
      assert a + b == a;
    } else {
      var front := b[..|b| - 1];
      PathsInOrder(a, front, selections);
      assert (a + b)[..|a + b| - 1] == a + front;
    }
  }

  /** Each of them is one that a selection names. */
  lemma {:induction false} PathsAreNamed(some: seq<Value>, selections: seq<Value>)
    ensures forall path <- PathsOf(some, selections) ::
      exists i :: 0 <= i < |some| && Names(some[i], selections, path)
  {
    hide PathOfSelection, Names;
    if some != [] {
      var (front, last) := (some[..|some| - 1], some[|some| - 1]);
      PathsAreNamed(front, selections);
      SelectionNames(last, selections);
      forall path <- PathsOf(some, selections)
        ensures exists i :: 0 <= i < |some| && Names(some[i], selections, path)
      {
        if path in PathsOf(front, selections) {
          var i :| 0 <= i < |front| && Names(front[i], selections, path);
          assert some[i] == front[i];
        } else {
          assert Names(some[|some| - 1], selections, path);
        }
      }
    }
  }

  lemma DotInside(a: string, b: string, text: string)
    requires |a| < |b| <= |text| && text[|text| - |b|..] == b
    requires text[|text| - |a| - 1] == '.'
    ensures '.' in b
  {
    assert b[|b| - |a| - 1] == text[|text| - |a| - 1];
  }

  lemma OneLastPart(a: string, b: string, text: string)
    requires IsLastPart(a, text) && IsLastPart(b, text)
    ensures a == b
  {
    if |a| < |b| {
      DotInside(a, b, text);
    } else if |b| < |a| {
      DotInside(b, a, text);
    }
  }

  /** The first aliased selection of one key, which has no response path of one segment, adds that key under the last
      part of its alias. */
  lemma AliasPath(selections: seq<Value>, i: nat, key: string, alias: string, output: string)
    requires i < |selections| && '.' !in key && key != ""
    requires Holds(selections[i], "materialized_path", String(key))
    requires Holds(selections[i], "alias", String(alias)) && IsLastPart(output, alias)
    requires forall j :: 0 <= j < i ==> !IsAliased(selections[j], key)
    requires forall response: string :: Holds(selections[i], "response_path", String(response)) ==> '.' in response
    ensures var path := PathOfSelection(selections[i], selections);
      path.Some? && path.value.sources == [key] && path.value.outputs == [output]
  {
    hide PathOfSelection, Holds;
    var selection := selections[i];
    SelectionNames(selection, selections);
    var path := PathOfSelection(selection, selections).value;
    OneText(selection, "materialized_path", key, Join(path.sources, "."));
    SplitIff(key, '.', path.sources);
    SplitOfPart(key, '.', "");
    assert path.sources == [key];
    forall response: string | Holds(selection, "response_path", String(response))
      ensures |Split(response, '.')| != 1
    {
      SplitJoins(response, '.');
      OneSplit(response);
    }
    assert WritesSegment(selections, path.sources, 0, path.outputs[0]);
    assert path.sources[..1] == [key];
    OneJoin(key);
    AliasText(selection, alias);
    assert IsAliased(selection, key);
    OneLastPart(output, path.outputs[0], alias);
  }

  lemma AliasText(selection: Value, alias: string)
    requires Holds(selection, "alias", String(alias))
    ensures HoldsText(selection, "alias")
  {
    TextAtIff(selection, "alias");
  }

  lemma OneSplit(text: string)
    ensures |Split(text, '.')| == 1 ==> '.' !in text
  {
    SplitJoins(text, '.');
    var parts := Split(text, '.');
    if |parts| == 1 {
      assert parts == [parts[0]] && parts[0] in parts;
      OneJoin(parts[0]);
    }
  }

  /** Under the last part of its alias stands the selection's own data, unless an earlier selection took that key. */
  lemma AliasAnswered(
      m: Map<Value>, typeName: string, selections: seq<Value>, registry: SchemaRegistry, i: nat, key: string,
      alias: string, output: string, r: Value)
    requires i < |selections| && '.' !in key && key != "" && key != TYPENAME && output != TYPENAME
    requires Holds(selections[i], "materialized_path", String(key))
    requires Holds(selections[i], "alias", String(alias)) && IsLastPart(output, alias)
    requires forall j :: 0 <= j < i ==> !IsAliased(selections[j], key)
    requires forall response: string :: Holds(selections[i], "response_path", String(response)) ==> '.' in response
    requires forall j, path | 0 <= j < i && Names(selections[j], selections, path) :: path.outputs[0] != output
    requires r == Projected(Object(m), Some(typeName), FromSelections(selections), registry, true)
    ensures var field := FieldAt(FromSelections(selections), [output]);
      && field.Some? && field.value.source == key
      && AnswersWith(Follow(r, [Key(output)]), NewField(key, key).ValueIn(m), field.value,
                     TypeBelow(Some(typeName), FromSelections(selections), [output], registry), registry, true)
      && (field.value.children.None? && Has(m, key) ==>
            Has(r.fields, output) && Lookup(r.fields, output) == Lookup(m, key))
  {
    hide PathOfSelection, Names, Built, FieldAt, IsAliased, Holds, IsLastPart, AnswersWith, TypeBelow, Projected;
    var p, paths := FromSelections(selections), PathsOf(selections, selections);
    AliasPath(selections, i, key, alias, output);
    var path := PathOfSelection(selections[i], selections).value;
    OutputSource(selections, i, output);
    var steps := [Key(output)];
    assert KeysOf(steps) == [output] by {
      assert steps[1..] == [];
    }
    BuiltWellFormed(paths);
    assert path.outputs[..1] == [output];
    OwnDataAnswered(Object(m), Some(typeName), p, registry, true, path, steps);
    DigOne(m, key, output);
    var below := TypeBelow(Some(typeName), p, [output], registry);
    LeafAnswered(m, r, key, output, FieldAt(p, [output]).value, below, registry);
  }

  lemma DigOne(m: Map<Value>, key: string, output: string)
    ensures Dig(Object(m), [key], [Key(output)]) == NewField(key, key).ValueIn(m)
  {
    assert [key][1..] == [] && [Key(output)][1..] == [];
  }

  lemma LeafAnswered(
      m: Map<Value>, r: Value, key: string, output: string, field: ProjectedField, below: Option<string>,
      registry: SchemaRegistry)
    requires AnswersWith(Follow(r, [Key(output)]), NewField(key, key).ValueIn(m), field, below, registry, true)
    ensures field.children.None? && Has(m, key) ==>
      r.Object? && Has(r.fields, output) && Lookup(r.fields, output) == Lookup(m, key)
  {
    assert [Key(output)][1..] == [];
    if field.children.None? && Has(m, key) {
      assert NewField(key, key).ValueIn(m) == Lookup(m, key);
      HasEntry(m, key);
      assert r.Object? && Has(r.fields, output);
      HasEntry(r.fields, output);
      assert Follow(r, [Key(output)]) == Follow(Lookup(r.fields, output).value, []);
    }
  }

  lemma PathsAround(selections: seq<Value>, i: nat)
    requires i < |selections| && PathOfSelection(selections[i], selections).Some?
    ensures PathsOf(selections, selections) ==
            PathsOf(selections[..i], selections) + [PathOfSelection(selections[i], selections).value] +
            PathsOf(selections[i + 1..], selections)
  {
    hide PathOfSelection, PathsOf;
    var front, one, back := selections[..i], [selections[i]], selections[i + 1..];
    assert selections == front + (one + back);
    PathsInOrder(front, one + back, selections);
    PathsInOrder(one, back, selections);
    PathOfOne(selections[i], selections);
  }

  lemma FirstAfter(before: seq<Path>, path: Path, after: seq<Path>, output: string)
    requires path.outputs == [output]
    requires forall other <- before :: other.outputs != [] && other.outputs[0] != output
    ensures FirstNaming(before + [path] + after, [output]) == |before|
  {
    var paths := before + [path] + after;
    forall j | 0 <= j < |before|
      ensures !([output] <= paths[j].outputs)
    {
      assert paths[j] == before[j] && before[j] in before;
    }
    assert paths[|before|] == path;
  }

  /** The field under an output that no earlier selection took is the first to name it. */
  lemma OutputSource(selections: seq<Value>, i: nat, output: string)
    requires i < |selections|
    requires var path := PathOfSelection(selections[i], selections);
      path.Some? && |path.value.sources| == 1 && path.value.outputs == [output]
    requires forall j, path | 0 <= j < i && Names(selections[j], selections, path) :: path.outputs[0] != output
    ensures OwnSources(FromSelections(selections), PathOfSelection(selections[i], selections).value)
  {
    hide PathOfSelection, Names, Built, FactAt, FirstNaming, PathsOf;
    var path := PathOfSelection(selections[i], selections).value;
    var before, after := PathsOf(selections[..i], selections), PathsOf(selections[i + 1..], selections);
    PathsAround(selections, i);
    PathsAreNamed(selections[..i], selections);
    forall other <- before
      ensures other.outputs != [] && other.outputs[0] != output
    {
      var l :| 0 <= l < i && Names(selections[..i][l], selections, other);
      assert selections[..i][l] == selections[l];
    }
    FirstAfter(before, path, after, output);
    BuiltFact(PathsOf(selections, selections), [output]);
    assert path.outputs[..1] == [output];
  }
}
