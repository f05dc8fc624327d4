/** What a GraphQL query selects (fraiseql_rs/src/pipeline/projection.rs). */
module Projections {
  import opened CamelCase
  import opened Json
  import opened Options
  import opened SchemaTransform
  import opened Texts

  datatype ProjectedField = ProjectedField(
    source: string,
    alternates: seq<string>,
    output: string,
    typeName: Option<string>,
    children: Option<Projection>) {

    predicate IsTypename() {
      source == TYPENAME
    }

    /** The value under the source key, else under an alternate spelling, else under the first key with an
        underscore that camel-cases like the source. */
    function ValueIn(m: Map<Value>): Option<Value> {
      if Has(m, source) then Lookup(m, source)
      else
        var alternate := FirstPresent(alternates, m);
        if alternate.Some? then alternate else FirstSpelled(m, Camel(source))
    }
  }

  datatype Projection = Projection(fields: seq<ProjectedField>)

  function FirstPresent(keys: seq<string>, m: Map<Value>): Option<Value> {
    if keys == [] then None
    else if Has(m, keys[0]) then Lookup(m, keys[0])
    else FirstPresent(keys[1..], m)
  }

  function FirstSpelled(entries: seq<Entry<Value>>, camel: string): Option<Value> {
    if entries == [] then None
    else if '_' in entries[0].key && Camel(entries[0].key) == camel then Some(entries[0].value)
    else FirstSpelled(entries[1..], camel)
  }

  function NewField(source: string, output: string): ProjectedField {
    ProjectedField(source, Alternates(source), output, None, None)
  }

  function Alternates(source: string): seq<string> {
    if source == TYPENAME then []
    else
      var camel := if Camel(source) != source then [Camel(source)] else [];
      if Snake(source) != source && Snake(source) !in camel then camel + [Snake(source)] else camel
  }

  // ----- value_in finds a field under every spelling -----

  /** `key` is a spelling of `source`. */
  predicate Spells(key: string, source: string) {
    Camel(key) == Camel(source) || key == Snake(source)
  }

  lemma {:induction false} FirstPresentIff(keys: seq<string>, m: Map<Value>)
    ensures FirstPresent(keys, m).Some? <==> exists k <- keys :: Has(m, k)
    ensures FirstPresent(keys, m).Some? ==> exists k <- keys :: Has(m, k) && Lookup(m, k) == FirstPresent(keys, m)
  {
    if keys != [] {
      FirstPresentIff(keys[1..], m);
      assert keys == [keys[0]] + keys[1..] && keys[0] in keys;
    }
  }

  lemma {:induction false} FirstSpelledIff(entries: seq<Entry<Value>>, camel: string)
    ensures FirstSpelled(entries, camel).Some? <==> exists e <- entries :: '_' in e.key && Camel(e.key) == camel
    ensures FirstSpelled(entries, camel).Some? ==>
            exists e <- entries :: Camel(e.key) == camel && Some(e.value) == FirstSpelled(entries, camel)
  {
    hide Camel;
    if entries != [] {
      FirstSpelledIff(entries[1..], camel);
      assert entries == [entries[0]] + entries[1..] && entries[0] in entries;
    }
  }

  lemma HasEntry(m: Map<Value>, k: string)
    ensures Has(m, k) <==> exists e <- m :: e.key == k
    ensures Has(m, k) <==> Lookup(m, k).Some?
    ensures Has(m, k) ==> Entry(k, Lookup(m, k).value) in m
  {
    if e :| e in m && e.key == k {
      var i :| 0 <= i < |m| && m[i] == e;
      IndexOfUnique(m, i);
    }
  }

  /** The field is found exactly when some key of the row is a spelling of its source, and what is found
      is the value of such a key; the source itself comes first. */
  lemma ValueInIff(field: ProjectedField, m: Map<Value>)
    requires !field.IsTypename() && field.alternates == Alternates(field.source)
    ensures field.ValueIn(m).Some? <==> exists e <- m :: Spells(e.key, field.source)
    ensures field.ValueIn(m).Some? ==>
            exists e <- m :: Spells(e.key, field.source) && Some(e.value) == field.ValueIn(m)
    ensures Has(m, field.source) ==> field.ValueIn(m) == Lookup(m, field.source)
  {
    hide Camel, Snake, Has, Lookup;
    var source, found := field.source, field.ValueIn(m);
    FirstPresentIff(Alternates(source), m);
    FirstSpelledIff(m, Camel(source));
    HasEntry(m, source);
    AlternatesSpell(source);
    if found.Some? {
      if !Has(m, source) && FirstPresent(Alternates(source), m).Some? {
        var k :| k in Alternates(source) && Has(m, k) && Lookup(m, k) == found;
        HasEntry(m, k);
        assert Spells(Entry(k, found.value).key, source);
      } else if Has(m, source) {
        assert Spells(Entry(source, found.value).key, source);
      } else {
        var e :| e in m && Camel(e.key) == Camel(source) && Some(e.value) == found;
        assert Spells(e.key, source);
      }
    }
    if e :| e in m && Spells(e.key, source) {
      HasEntry(m, e.key);
      if '_' !in e.key {
        NoUnderscoreKept(e.key);
      }
      assert e.key == source || e.key in Alternates(source) || ('_' in e.key && Camel(e.key) == Camel(source));
    }
  }

  lemma AlternatesSpell(source: string)
    requires source != TYPENAME
    ensures forall k <- Alternates(source) :: Spells(k, source)
    ensures Camel(source) == source || Camel(source) in Alternates(source)
    ensures Snake(source) == source || Snake(source) in Alternates(source)
  {
    Idempotent(source);
    hide Camel, Snake;
  }

  /** Which spelling counts: the source itself, its camelCase form, its snake_case form; else the first key of the row
      that has an underscore and the same camelCase form. */
  lemma ValueInFirst(field: ProjectedField, m: Map<Value>)
    requires !field.IsTypename() && field.alternates == Alternates(field.source)
    ensures var source, found := field.source, field.ValueIn(m);
      && (Has(m, source) ==> found == Lookup(m, source))
      && (!Has(m, source) && Has(m, Camel(source)) ==> found == Lookup(m, Camel(source)))
      && (!Has(m, source) && !Has(m, Camel(source)) && Has(m, Snake(source)) ==> found == Lookup(m, Snake(source)))
      && (!Has(m, source) && !Has(m, Camel(source)) && !Has(m, Snake(source)) ==>
            (found == None <==> forall e <- m :: !('_' in e.key && Camel(e.key) == Camel(source))) &&
            forall i :: 0 <= i < |m| && '_' in m[i].key && Camel(m[i].key) == Camel(source) &&
                        (forall j :: 0 <= j < i ==> !('_' in m[j].key && Camel(m[j].key) == Camel(source))) ==>
              found == Some(m[i].value))
  {
    hide Camel, Snake, Has, Lookup;
    var source := field.source;
    FirstSpelledIff(m, Camel(source));
    FirstSpelledFirst(m, Camel(source));
    HasEntry(m, Camel(source));
    HasEntry(m, Snake(source));
    if !Has(m, source) {
      FirstOfAlternates(source, m);
    }
  }

  lemma FirstOfAlternates(source: string, m: Map<Value>)
    requires source != TYPENAME && !Has(m, source)
    ensures FirstPresent(Alternates(source), m) ==
            if Has(m, Camel(source)) then Lookup(m, Camel(source))
            else if Has(m, Snake(source)) then Lookup(m, Snake(source))
            else None
  {
    hide Camel, Snake, Has, Lookup;
    var camel, snake := Camel(source), Snake(source);
    HasEntry(m, camel);
    HasEntry(m, snake);
    assert [camel, snake][1..] == [snake] && [snake][1..] == [] && [camel][1..] == [];
    assert FirstPresent([snake], m) == if Has(m, snake) then Lookup(m, snake) else None;
    assert FirstPresent([camel], m) == if Has(m, camel) then Lookup(m, camel) else None;
  }

  lemma {:induction false} FirstSpelledFirst(entries: seq<Entry<Value>>, camel: string)
    ensures forall i :: 0 <= i < |entries| && '_' in entries[i].key && Camel(entries[i].key) == camel &&
                        (forall j :: 0 <= j < i ==> !('_' in entries[j].key && Camel(entries[j].key) == camel)) ==>
              FirstSpelled(entries, camel) == Some(entries[i].value)
  {
    hide Camel;
    if entries != [] {
      FirstSpelledFirst(entries[1..], camel);
      forall i | 0 < i < |entries|
        ensures entries[i] == entries[1..][i - 1]
      {
      }
    }
  }

  // ----- building a projection -----

  /** The position of the field written under `output`; the number of fields when there is none. */
  function OutputIndex(fields: seq<ProjectedField>, output: string): (i: nat)
    ensures i <= |fields|
    ensures i < |fields| ==> fields[i].output == output
    ensures forall j :: 0 <= j < i ==> fields[j].output != output
  {
    if fields == [] || fields[0].output == output then 0 else 1 + OutputIndex(fields[1..], output)
  }

  /** One path to add: the row's key and the response's key of each segment. */
  datatype Path = Path(sources: seq<string>, outputs: seq<string>, typeName: Option<string>, isObject: bool)

  function Inserted(p: Projection, path: Path): Projection
    decreases |path.sources|
  {
    if path.sources == [] || path.outputs == [] then p
    else
      var (source, output) := (path.sources[0], path.outputs[0]);
      var position := OutputIndex(p.fields, output);
      var fields := if position < |p.fields| then p.fields else p.fields + [NewField(source, output)];
      Projection(fields[position := Extended(fields[position], path)])
  }

  function Extended(field: ProjectedField, path: Path): (r: ProjectedField)
    requires path.sources != [] && path.outputs != []
    ensures r.output == field.output && r.source == field.source && r.alternates == field.alternates
    decreases |path.sources|, 0
  {
    var below := if field.children.Some? then field.children.value else Projection([]);
    if |path.sources| == 1 then
      var typed := if path.typeName.Some? && (path.isObject || field.IsTypename())
                   then field.(typeName := path.typeName) else field;
      if path.isObject && typed.children.None? then typed.(children := Some(Projection([]))) else typed
    else
      field.(children := Some(Inserted(below, path.(sources := path.sources[1..], outputs := path.outputs[1..]))))
  }

  /** What both `from_paths` and `from_selections` build: path after path, from nothing. */
  function Built(paths: seq<Path>): Projection {
    if paths == [] then Projection([]) else Inserted(Built(paths[..|paths| - 1]), paths[|paths| - 1])
  }

  function PathOf(segments: seq<string>, camelCase: bool): Path {
    Path(segments,
         seq(|segments|, i requires 0 <= i < |segments| =>
           if camelCase && segments[i] != TYPENAME then Camel(segments[i]) else segments[i]),
         None, false)
  }

  function FromPaths(paths: seq<seq<string>>, camelCase: bool): Projection {
    Built(seq(|paths|, i requires 0 <= i < |paths| => PathOf(paths[i], camelCase)))
  }

  /** `Value::get(k)` and `as_str`. */
  function TextAt(v: Value, k: string): Option<string> {
    if !v.Object? then None
    else
      var found: Option<Value> := Lookup(v.fields, k);
      if found.Some? && found.value.String? then Some(found.value.text) else None
  }

  /** `Value::get(k)` and `as_bool`, false when there is none. */
  predicate FlagAt(v: Value, k: string) {
    v.Object? && Lookup(v.fields, k) == Some(Bool(true))
  }

  /** The alias of the first selection of `path` that has one. */
  function AliasOf(selections: seq<Value>, path: string): Option<string> {
    if selections == [] then None
    else if TextAt(selections[0], "materialized_path") == Some(path) && TextAt(selections[0], "alias").Some? then
      TextAt(selections[0], "alias")
    else AliasOf(selections[1..], path)
  }

  /** The response key of a segment that no response path names: the last segment of the alias of the path up to
      there, else its key in camelCase. */
  function OutputFor(selections: seq<Value>, sources: seq<string>, i: nat): string
    requires i < |sources|
  {
    var alias := AliasOf(selections, Join(sources[..i + 1], "."));
    if alias.Some? then
      var parts := Split(alias.value, '.');
      parts[|parts| - 1]
    else Camel(sources[i])
  }

  /** The path one selection adds; none, without a `materialized_path`. */
  function PathOfSelection(selection: Value, selections: seq<Value>): (path: Option<Path>)
    ensures path.Some? ==> |path.value.sources| == |path.value.outputs| > 0
  {
    var text := TextAt(selection, "materialized_path");
    if text.None? || text.value == "" then None
    else
      var sources := Split(text.value, '.');
      var response := TextAt(selection, "response_path");
      var given := if response.Some? then Split(response.value, '.') else [];
      var outputs :=
        if |given| == |sources| then given
        else seq(|sources|, i requires 0 <= i < |sources| => OutputFor(selections, sources, i));
      Some(Path(sources, outputs, TextAt(selection, "type_name"), FlagAt(selection, "is_nested_object")))
  }

  function PathsOf(some: seq<Value>, selections: seq<Value>): (paths: seq<Path>)
    ensures forall path <- paths :: |path.sources| == |path.outputs| > 0
  {
    if some == [] then []
    else
      var front := PathsOf(some[..|some| - 1], selections);
      var last := PathOfSelection(some[|some| - 1], selections);
      if last.Some? then front + [last.value] else front
  }

  function FromSelections(selections: seq<Value>): Projection {
    Built(PathsOf(selections, selections))
  }

  lemma BuiltStep(paths: seq<Path>, path: Path)
    ensures Built(paths + [path]) == Inserted(Built(paths), path)
  {
    assert (paths + [path])[..|paths|] == paths;
  }

  method ProjectionFromPaths(paths: seq<seq<string>>, camelCase: bool) returns (p: Projection)
    ensures p == FromPaths(paths, camelCase)
  {
    hide Built, Inserted, PathOf;
    ghost var all := seq(|paths|, i requires 0 <= i < |paths| => PathOf(paths[i], camelCase));
    p := Projection([]);
    NothingBuilt(all);
    for i := 0 to |paths|
      invariant p == Built(all[..i])
    {
      p := Inserted(p, PathOf(paths[i], camelCase));
      BuiltStep(all[..i], all[i]);
      assert all[..i + 1] == all[..i] + [all[i]];
    }
    assert all[..|paths|] == all;
  }

  lemma NothingBuilt(paths: seq<Path>)
    ensures Built(paths[..0]) == Projection([])
  {
  }

  lemma PathsOfStep(selections: seq<Value>, i: nat)
    requires i < |selections|
    ensures var before, path := PathsOf(selections[..i], selections), PathOfSelection(selections[i], selections);
      PathsOf(selections[..i + 1], selections) == if path.Some? then before + [path.value] else before
  {
    assert selections[..i + 1][..i] == selections[..i];
  }

  method ProjectionFromSelections(selections: seq<Value>) returns (p: Projection)
    ensures p == FromSelections(selections)
  {
    hide Built, Inserted, PathOfSelection;
    p := Projection([]);
    NothingBuilt([]);
    for i := 0 to |selections|
      invariant p == Built(PathsOf(selections[..i], selections))
    {
      var path := PathOfSelection(selections[i], selections);
      PathsOfStep(selections, i);
      if path.Some? {
        BuiltStep(PathsOf(selections[..i], selections), path.value);
        p := Inserted(p, path.value);
      }
    }
    assert selections[..|selections|] == selections;
  }

  predicate DistinctHere(fields: seq<ProjectedField>) {
    forall i, j :: 0 <= i < j < |fields| ==> fields[i].output != fields[j].output
  }

  /** No two fields selected on one object are written under one key, at any level. */
  predicate DistinctOutputs(p: Projection) {
    && DistinctHere(p.fields)
    && forall i :: 0 <= i < |p.fields| && p.fields[i].children.Some? ==> DistinctOutputs(p.fields[i].children.value)
  }

  /** Every field knows the alternate spellings of its source. */
  predicate AllSpelled(p: Projection) {
    forall i :: 0 <= i < |p.fields| ==>
      && p.fields[i].alternates == Alternates(p.fields[i].source)
      && (p.fields[i].children.Some? ==> AllSpelled(p.fields[i].children.value))
  }

  lemma {:induction false} InsertedWellFormed(p: Projection, path: Path)
    requires DistinctOutputs(p) && AllSpelled(p)
    ensures DistinctOutputs(Inserted(p, path)) && AllSpelled(Inserted(p, path))
    decreases |path.sources|
  {
    hide Alternates, OutputIndex;
    if path.sources != [] && path.outputs != [] {
      var position := OutputIndex(p.fields, path.outputs[0]);
      var field := if position < |p.fields| then p.fields[position] else NewField(path.sources[0], path.outputs[0]);
      var below := if field.children.Some? then field.children.value else Projection([]);
      if |path.sources| > 1 {
        InsertedWellFormed(below, path.(sources := path.sources[1..], outputs := path.outputs[1..]));
      }
    }
  }

  /** Every projection the builders make has distinct outputs, and knows its sources' spellings. */
  lemma {:induction false} BuiltWellFormed(paths: seq<Path>)
    ensures DistinctOutputs(Built(paths)) && AllSpelled(Built(paths))
  {
    if paths != [] {
      BuiltWellFormed(paths[..|paths| - 1]);
      InsertedWellFormed(Built(paths[..|paths| - 1]), paths[|paths| - 1]);
    }
  }

  /** The field that is written under the keys `q`, one below the other. */
  function FieldAt(p: Projection, q: seq<string>): Option<ProjectedField> {
    if q == [] then None
    else
      var i := OutputIndex(p.fields, q[0]);
      if i == |p.fields| then None
      else if |q| == 1 then Some(p.fields[i])
      else if p.fields[i].children.Some? then FieldAt(p.fields[i].children.value, q[1..])
      else None
  }

  /** A field is selected under the keys `q`; what a response may hold besides is the injected tag
      (`Answers.OnlySelected`). */
  predicate Writes(p: Projection, q: seq<string>) {
    q == [] || FieldAt(p, q).Some?
  }

  /** What is selected under some keys: the row's key, the type's name, and whether it is an object. */
  datatype Fact = Fact(source: string, typeName: Option<string>, isObject: bool)

  function FactAt(p: Projection, q: seq<string>): Option<Fact> {
    match FieldAt(p, q)
    case None => None
    case Some(field) => Some(Fact(field.source, field.typeName, field.children.Some?))
  }

  lemma OutputIndexAppend(fields: seq<ProjectedField>, field: ProjectedField, output: string)
    ensures OutputIndex(fields + [field], output) ==
            if OutputIndex(fields, output) < |fields| || field.output != output then
              if OutputIndex(fields, output) < |fields| then OutputIndex(fields, output) else |fields| + 1
            else |fields|
  {
    var i, j := OutputIndex(fields, output), OutputIndex(fields + [field], output);
    assert forall l :: 0 <= l < |fields| ==> (fields + [field])[l] == fields[l];
    assert (fields + [field])[|fields|] == field;
    assert j < |fields| ==> fields[j].output == output;
  }

  lemma OutputIndexUpdate(fields: seq<ProjectedField>, i: nat, field: ProjectedField, output: string)
    requires i < |fields| && field.output == fields[i].output
    ensures OutputIndex(fields[i := field], output) == OutputIndex(fields, output)
  {
    var a, b := OutputIndex(fields, output), OutputIndex(fields[i := field], output);
    assert forall j :: 0 <= j < |fields| ==> fields[i := field][j].output == fields[j].output;
    assert b < |fields| ==> fields[b].output == output;
    assert a < |fields| ==> fields[i := field][a].output == output;
  }

  lemma PrefixTail(q: seq<string>, outputs: seq<string>)
    requires q != [] && outputs != []
    ensures q <= outputs <==> q[0] == outputs[0] && q[1..] <= outputs[1..]
  {
    assert outputs == [outputs[0]] + outputs[1..];
    assert q == [q[0]] + q[1..];
  }

  /** `path` gives the type's name of what it ends in, read from `source`. */
  predicate Types(path: Path, source: string) {
    path.typeName.Some? && (path.isObject || source == TYPENAME)
  }

  /** What is selected under `q` once `path` is inserted: the first source stays, the last type's name counts. */
  function Merged(before: Option<Fact>, path: Path, q: seq<string>): Option<Fact>
    requires |path.sources| == |path.outputs| && q != []
  {
    if !(q <= path.outputs) then before
    else
      var known := if before.Some? then before.value else Fact(path.sources[|q| - 1], None, false);
      var ends := |q| == |path.outputs|;
      Some(Fact(known.source,
                if ends && Types(path, known.source) then path.typeName else known.typeName,
                known.isObject || !ends || path.isObject))
  }

  lemma ExtendedFact(field: ProjectedField, path: Path)
    requires |path.sources| == |path.outputs| > 0
    ensures var r, ends := Extended(field, path), |path.sources| == 1;
      && r.typeName == (if ends && Types(path, field.source) then path.typeName else field.typeName)
      && (r.children.Some? <==> field.children.Some? || !ends || path.isObject)
      && (ends && r.children.Some? ==>
            r.children == if field.children.Some? then field.children else Some(Projection([])))
      && (!ends ==> r.children == Some(Inserted(if field.children.Some? then field.children.value else Projection([]),
                                                path.(sources := path.sources[1..], outputs := path.outputs[1..]))))
  {
    hide Alternates, Inserted;
  }

  lemma NothingAt(q: seq<string>)
    ensures FieldAt(Projection([]), q).None?
  {
  }

  /** The field of the inserted path's first key, and the others. */
  lemma InsertedFirst(p: Projection, path: Path, output: string)
    requires |path.sources| == |path.outputs| > 0
    ensures var i, fields := OutputIndex(p.fields, output), Inserted(p, path).fields;
      var j := OutputIndex(fields, output);
      if output == path.outputs[0] then
        j < |fields| &&
        fields[j] == Extended(if i < |p.fields| then p.fields[i] else NewField(path.sources[0], output), path)
      else if i < |p.fields| then j < |fields| && fields[j] == p.fields[i]
      else j == |fields|
  {
    hide Alternates, OutputIndex, Extended;
    var (source, first) := (path.sources[0], path.outputs[0]);
    var position := OutputIndex(p.fields, first);
    var fields := if position < |p.fields| then p.fields else p.fields + [NewField(source, first)];
    OutputIndexAppend(p.fields, NewField(source, first), output);
    OutputIndexAppend(p.fields, NewField(source, first), first);
    OutputIndexUpdate(fields, position, Extended(fields[position], path), output);
  }

  lemma NothingInserted(p: Projection, path: Path)
    requires path.sources == []
    ensures Inserted(p, path) == p
  {
  }

  /** Inserting a path decides this for that response path and its prefixes, and nothing else. */
  lemma {:induction false} InsertedFact(p: Projection, path: Path, q: seq<string>)
    requires |path.sources| == |path.outputs| && q != []
    ensures FactAt(Inserted(p, path), q) == Merged(FactAt(p, q), path, q)
    decreases |path.sources|
  {
    hide Alternates, OutputIndex, Extended, Inserted;
    if path.sources == [] {
      NothingInserted(p, path);
    } else {
      var output, i := path.outputs[0], OutputIndex(p.fields, q[0]);
      InsertedFirst(p, path, q[0]);
      PrefixTail(q, path.outputs);
      if q[0] == output {
        var field := if i < |p.fields| then p.fields[i] else NewField(path.sources[0], output);
        ExtendedFact(field, path);
        var below := if field.children.Some? then field.children.value else Projection([]);
        NothingAt(q[1..]);
        if |q| > 1 && |path.sources| > 1 {
          InsertedFact(below, path.(sources := path.sources[1..], outputs := path.outputs[1..]), q[1..]);
        }
      }
    }
  }

  /** Inserting a path selects that path with its prefixes, and nothing else. */
  lemma InsertedWrites(p: Projection, path: Path, q: seq<string>)
    requires |path.sources| == |path.outputs|
    ensures Writes(Inserted(p, path), q) <==> Writes(p, q) || q <= path.outputs
  {
    hide Inserted, FieldAt;
    if q != [] {
      InsertedFact(p, path, q);
    }
  }

  /** What is selected is exactly what the paths name. */
  lemma {:induction false} BuiltWrites(paths: seq<Path>, q: seq<string>)
    requires forall path <- paths :: |path.sources| == |path.outputs|
    ensures q != [] ==> (Writes(Built(paths), q) <==> exists path <- paths :: q <= path.outputs)
  {
    hide Inserted, FieldAt;
    if paths == [] {
      NothingAt(q);
    } else {
      var (front, last) := (paths[..|paths| - 1], paths[|paths| - 1]);
      assert paths == front + [last] && last in paths;
      BuiltWrites(front, q);
      InsertedWrites(Built(front), last, q);
    }
  }

  // ----- what the selected paths read -----

  /** The first path that names the response path `q`; their number when there is none. */
  function FirstNaming(paths: seq<Path>, q: seq<string>): (i: nat)
    ensures i <= |paths|
    ensures i < |paths| ==> q <= paths[i].outputs
    ensures forall j :: 0 <= j < i ==> !(q <= paths[j].outputs)
  {
    if paths == [] || q <= paths[0].outputs then 0 else 1 + FirstNaming(paths[1..], q)
  }

  /** The type's name that the last path to `q` gives, of those that give one. */
  function LastType(paths: seq<Path>, q: seq<string>, source: string): Option<string> {
    if paths == [] then None
    else
      var last := paths[|paths| - 1];
      if last.outputs == q && Types(last, source) then last.typeName
      else LastType(paths[..|paths| - 1], q, source)
  }

  lemma FirstNamingAppend(front: seq<Path>, last: Path, q: seq<string>)
    ensures FirstNaming(front + [last], q) ==
            if FirstNaming(front, q) < |front| then FirstNaming(front, q)
            else if q <= last.outputs then |front| else |front| + 1
  {
    var i, j, all := FirstNaming(front, q), FirstNaming(front + [last], q), front + [last];
    assert forall l :: 0 <= l < |front| ==> all[l] == front[l];
    assert all[|front|] == last;
    assert j < |front| ==> q <= front[j].outputs;
  }

  /** `path` selects something below `q`, or says that `q` is an object. */
  predicate IsObjectFor(path: Path, q: seq<string>) {
    q <= path.outputs && (|q| < |path.outputs| || path.isObject)
  }

  lemma MergedLast(front: seq<Path>, last: Path, q: seq<string>, before: Option<Fact>)
    requires q != [] && |last.sources| == |last.outputs|
    requires before.Some? ==>
      && before.value.typeName == LastType(front, q, before.value.source)
      && (before.value.isObject <==> exists path <- front :: IsObjectFor(path, q))
    requires before.None? ==> FirstNaming(front, q) == |front|
    ensures var fact := Merged(before, last, q);
      fact.Some? ==>
        && fact.value.typeName == LastType(front + [last], q, fact.value.source)
        && (fact.value.isObject <==> exists path <- front + [last] :: IsObjectFor(path, q))
  {
    hide FirstNaming, Types;
    var paths, fact := front + [last], Merged(before, last, q);
    assert paths[..|paths| - 1] == front && last in paths;
    if fact.Some? {
      NoType(front, q, fact.value.source);
      assert q <= last.outputs && |q| == |last.outputs| <==> last.outputs == q;
      if before.None? {
        forall path <- front
          ensures !IsObjectFor(path, q)
        {
          var i :| 0 <= i < |front| && front[i] == path;
        }
      }
    }
  }

  /** Under each response path is the source that the first path named for it, with the type's name that the last
      one gave it; and it is an object when some path goes on below it, or says so. */
  lemma {:induction false} BuiltFact(paths: seq<Path>, q: seq<string>)
    requires q != [] && forall path <- paths :: |path.sources| == |path.outputs|
    ensures var fact, i := FactAt(Built(paths), q), FirstNaming(paths, q);
      && (fact.Some? <==> i < |paths|)
      && (fact.Some? ==>
            && fact.value.source == paths[i].sources[|q| - 1]
            && fact.value.typeName == LastType(paths, q, fact.value.source)
            && (fact.value.isObject <==> exists path <- paths :: IsObjectFor(path, q)))
  {
    hide Inserted, FactAt, FirstNaming, LastType, Types, IsObjectFor;
    if paths == [] {
      NothingAt(q);
      NothingFirst(q);
    } else {
      var (front, last) := (paths[..|paths| - 1], paths[|paths| - 1]);
      assert paths == front + [last] && last in paths;
      BuiltFact(front, q);
      InsertedFact(Built(front), last, q);
      FirstNamingAppend(front, last, q);
      MergedLast(front, last, q, FactAt(Built(front), q));
    }
  }

  lemma NothingFirst(q: seq<string>)
    ensures FactAt(Projection([]), q).None? && FirstNaming([], q) == 0
  {
    NothingAt(q);
  }

  lemma {:induction false} NoType(paths: seq<Path>, q: seq<string>, source: string)
    ensures FirstNaming(paths, q) == |paths| ==> LastType(paths, q, source) == None
  {
    if paths != [] {
      var (front, last) := (paths[..|paths| - 1], paths[|paths| - 1]);
      assert paths == front + [last];
      FirstNamingAppend(front, last, q);
      NoType(front, q, source);
    }
  }

  /** Every key of `path` is read from where `path` says. */
  predicate OwnSources(p: Projection, path: Path)
    requires |path.sources| == |path.outputs|
  {
    forall n :: 0 < n <= |path.outputs| ==>
      FactAt(p, path.outputs[..n]).Some? && FactAt(p, path.outputs[..n]).value.source == path.sources[n - 1]
  }

  /** Two paths that share a response path read it from one key. */
  predicate Consistent(a: Path, b: Path)
    requires |a.sources| == |a.outputs| && |b.sources| == |b.outputs|
  {
    forall n :: 0 < n <= |a.outputs| && n <= |b.outputs| && a.outputs[..n] == b.outputs[..n] ==>
      a.sources[n - 1] == b.sources[n - 1]
  }

  /** Every path is read from its own source keys exactly when no two of them ask for different keys under one
      response path; otherwise the first one has it. */
  lemma OwnSourcesIff(paths: seq<Path>)
    requires forall path <- paths :: |path.sources| == |path.outputs|
    ensures (forall path <- paths :: OwnSources(Built(paths), path)) <==>
            (forall a <- paths, b <- paths :: Consistent(a, b))
  {
    hide Inserted, FieldAt, Built, FactAt;
    if forall path <- paths :: OwnSources(Built(paths), path) {
      forall a <- paths, b <- paths
        ensures Consistent(a, b)
      {
        assert OwnSources(Built(paths), a) && OwnSources(Built(paths), b);
      }
    }
    if forall a <- paths, b <- paths :: Consistent(a, b) {
      forall path <- paths
        ensures OwnSources(Built(paths), path)
      {
        forall n | 0 < n <= |path.outputs|
          ensures FactAt(Built(paths), path.outputs[..n]).Some?
          ensures FactAt(Built(paths), path.outputs[..n]).value.source == path.sources[n - 1]
        {
          var q := path.outputs[..n];
          BuiltFact(paths, q);
          assert q <= path.outputs;
          var i := FirstNaming(paths, q);
          assert i < |paths| by {
            var j :| 0 <= j < |paths| && paths[j] == path;
          }
          assert paths[i] in paths && paths[i].outputs[..n] == q;
          assert Consistent(paths[i], path);
        }
      }
    }
  }

  // ----- the order of the selection -----

  function OutputsOf(fields: seq<ProjectedField>): (outputs: seq<string>)
    ensures |outputs| == |fields|
  {
    seq(|fields|, i requires 0 <= i < |fields| => fields[i].output)
  }

  /** The response keys that are selected below `q`, in order. */
  function OutputsBelow(p: Projection, q: seq<string>): seq<string> {
    if q == [] then OutputsOf(p.fields)
    else
      var field := FieldAt(p, q);
      if field.Some? && field.value.children.Some? then OutputsOf(field.value.children.value.fields) else []
  }

  /** The keys that come next after `q` in the paths that go on from there. */
  function NextKeys(paths: seq<Path>, q: seq<string>): seq<string> {
    if paths == [] then []
    else
      var (front, last) := (paths[..|paths| - 1], paths[|paths| - 1]);
      NextKeys(front, q) + if q <= last.outputs && |q| < |last.outputs| then [last.outputs[|q|]] else []
  }

  lemma OutputIndexIn(fields: seq<ProjectedField>, output: string)
    ensures OutputIndex(fields, output) < |fields| <==> output in OutputsOf(fields)
  {
    var i := OutputIndex(fields, output);
    if i < |fields| {
      assert OutputsOf(fields)[i] == output;
    }
  }

  lemma InsertedOutputs(p: Projection, path: Path)
    requires |path.sources| == |path.outputs| > 0
    ensures OutputsOf(Inserted(p, path).fields) ==
            OutputsOf(p.fields) + if path.outputs[0] in OutputsOf(p.fields) then [] else [path.outputs[0]]
  {
    hide Alternates, OutputIndex, Extended;
    OutputIndexIn(p.fields, path.outputs[0]);
  }

  lemma OutputsBelowStep(p: Projection, q: seq<string>)
    requires q != []
    ensures var i := OutputIndex(p.fields, q[0]);
      OutputsBelow(p, q) ==
      if i < |p.fields| && p.fields[i].children.Some? then OutputsBelow(p.fields[i].children.value, q[1..]) else []
  {
    hide OutputIndex;
  }

  /** Inserting a path adds its keys at the end, if they are not there. */
  lemma {:induction false} InsertedOrder(p: Projection, path: Path, q: seq<string>)
    requires |path.sources| == |path.outputs|
    ensures OutputsBelow(Inserted(p, path), q) ==
            OutputsBelow(p, q) +
            if q <= path.outputs && |q| < |path.outputs| && path.outputs[|q|] !in OutputsBelow(p, q)
            then [path.outputs[|q|]] else []
    decreases |path.sources|
  {
    hide Alternates, OutputIndex, Extended, Inserted;
    if path.sources == [] {
      NothingInserted(p, path);
    } else if q == [] {
      InsertedOutputs(p, path);
    } else {
      var output, i := path.outputs[0], OutputIndex(p.fields, q[0]);
      InsertedFirst(p, path, q[0]);
      PrefixTail(q, path.outputs);
      OutputsBelowStep(p, q);
      OutputsBelowStep(Inserted(p, path), q);
      hide OutputsBelow;
      NothingOrdered(q[1..]);
      if q[0] == output {
        var field := if i < |p.fields| then p.fields[i] else NewField(path.sources[0], output);
        ExtendedFact(field, path);
        var below := if field.children.Some? then field.children.value else Projection([]);
        if |path.sources| > 1 {
          var rest := path.(sources := path.sources[1..], outputs := path.outputs[1..]);
          InsertedOrder(below, rest, q[1..]);
        }
      }
    }
  }

  /** Below every response path the keys are selected in the order in which the paths first name them. */
  lemma {:induction false} BuiltOrder(paths: seq<Path>, q: seq<string>)
    requires forall path <- paths :: |path.sources| == |path.outputs|
    ensures OutputsBelow(Built(paths), q) == FirstOccurrences(NextKeys(paths, q))
  {
    hide Inserted, OutputsBelow, FirstOccurrences;
    if paths == [] {
      NothingOrdered(q);
    } else {
      var (front, last) := (paths[..|paths| - 1], paths[|paths| - 1]);
      assert paths == front + [last] && last in paths;
      BuiltOrder(front, q);
      InsertedOrder(Built(front), last, q);
      if q <= last.outputs && |q| < |last.outputs| {
        OneMoreKey(NextKeys(front, q), last.outputs[|q|]);
      } else {
        assert NextKeys(front, q) + [] == NextKeys(front, q);
        assert OutputsBelow(Built(front), q) + [] == OutputsBelow(Built(front), q);
      }
    }
  }

  lemma OneMoreKey(keys: seq<string>, k: string)
    ensures FirstOccurrences(keys + [k]) ==
            FirstOccurrences(keys) + if k !in FirstOccurrences(keys) then [k] else []
  {
    FirstOccurrencesConcat([], keys);
    assert (keys + [k])[..|keys|] == keys;
  }

  lemma NothingOrdered(q: seq<string>)
    ensures OutputsBelow(Projection([]), q) == FirstOccurrences([]) == []
  {
    NothingAt(q);
  }

  // ----- plain paths -----

  /** A plain path is written under `q`, as far as `q` goes: `__typename` as it is, other keys in camelCase if asked. */
  predicate WrittenUnder(path: seq<string>, q: seq<string>, camelCase: bool) {
    && |q| <= |path|
    && forall n :: 0 <= n < |q| ==>
         q[n] == if camelCase && path[n] != TYPENAME then Camel(path[n]) else path[n]
  }

  lemma PathOfWritten(path: seq<string>, camelCase: bool, q: seq<string>)
    requires q != []
    ensures var r := PathOf(path, camelCase);
      && |r.sources| == |r.outputs| && r.sources == path && r.typeName == None && !r.isObject
      && (q <= r.outputs <==> WrittenUnder(path, q, camelCase))
  {
    hide Camel;
  }

  lemma FirstNamingIs(paths: seq<Path>, q: seq<string>, i: nat)
    requires i < |paths| && q <= paths[i].outputs && forall j :: 0 <= j < i ==> !(q <= paths[j].outputs)
    ensures FirstNaming(paths, q) == i
  {
  }

  /** A projection from plain paths selects exactly the paths, each read from its own keys unless an earlier one took
      the place; it gives no type names, and no objects but those that paths go on below. */
  lemma FromPathsIff(paths: seq<seq<string>>, camelCase: bool, q: seq<string>)
    requires q != []
    ensures var fact := FactAt(FromPaths(paths, camelCase), q);
      && (fact.Some? <==> exists path <- paths :: WrittenUnder(path, q, camelCase))
      && (forall i :: 0 <= i < |paths| && WrittenUnder(paths[i], q, camelCase) &&
                      (forall j :: 0 <= j < i ==> !WrittenUnder(paths[j], q, camelCase)) ==>
            fact.Some? && fact.value.source == paths[i][|q| - 1])
      && (fact.Some? ==>
            && fact.value.typeName == None
            && (fact.value.isObject <==> exists path <- paths :: WrittenUnder(path, q, camelCase) && |q| < |path|))
  {
    hide Built, FactAt, PathOf, WrittenUnder, FirstNaming, LastType;
    var all := seq(|paths|, i requires 0 <= i < |paths| => PathOf(paths[i], camelCase));
    forall i | 0 <= i < |paths|
      ensures q <= all[i].outputs <==> WrittenUnder(paths[i], q, camelCase)
      ensures |all[i].outputs| == |all[i].sources| && all[i].sources == paths[i]
      ensures all[i].typeName == None && !all[i].isObject
    {
      PathOfWritten(paths[i], camelCase, q);
    }
    BuiltFact(all, q);
    var fact, first := FactAt(Built(all), q), FirstNaming(all, q);
    assert first < |paths| ==> paths[first] in paths;
    forall i | 0 <= i < |paths| && WrittenUnder(paths[i], q, camelCase) &&
               (forall j :: 0 <= j < i ==> !WrittenUnder(paths[j], q, camelCase))
      ensures first == i
    {
      FirstNamingIs(all, q, i);
    }
    if fact.Some? {
      NoTypesGiven(all, q, fact.value.source);
      ObjectsGiven(all, paths, q, camelCase);
    }
  }

  lemma ObjectsGiven(all: seq<Path>, paths: seq<seq<string>>, q: seq<string>, camelCase: bool)
    requires |all| == |paths|
    requires forall i :: 0 <= i < |paths| ==>
      && (q <= all[i].outputs <==> WrittenUnder(paths[i], q, camelCase))
      && |all[i].outputs| == |paths[i]| && !all[i].isObject
    ensures (exists path <- all :: IsObjectFor(path, q)) <==>
            exists path <- paths :: WrittenUnder(path, q, camelCase) && |q| < |path|
  {
    hide WrittenUnder;
    if path :| path in all && IsObjectFor(path, q) {
      var i :| 0 <= i < |all| && all[i] == path;
      assert paths[i] in paths;
    }
    if path :| path in paths && WrittenUnder(path, q, camelCase) && |q| < |path| {
      var i :| 0 <= i < |paths| && paths[i] == path;
      assert all[i] in all;
    }
  }

  lemma {:induction false} NoTypesGiven(paths: seq<Path>, q: seq<string>, source: string)
    requires forall path <- paths :: path.typeName == None
    ensures LastType(paths, q, source) == None
  {
    if paths != [] {
      var (front, last) := (paths[..|paths| - 1], paths[|paths| - 1]);
      assert last in paths;
      NoTypesGiven(front, q, source);
    }
  }
}
