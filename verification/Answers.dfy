/** Which data stands where in a response: the answer under every path of it. */
module Answers {
  import opened Json
  import opened Options
  import opened Project
  import opened Projections
  import opened Response
  import opened Schema
  import opened SchemaTransform
  import opened Tagging
  import opened TypedPaths

  /** The keys on the way. */
  function KeysOf(steps: seq<Step>): seq<string> {
    if steps == [] then []
    else (if steps[0].Key? then [steps[0].key] else []) + KeysOf(steps[1..])
  }

  /** What the projection puts at `steps`, found without building the response: the field written under each key
      is looked up in the projection, and its value in the row. */
  function Expected(
      v: Value, currentType: Option<string>, p: Projection, registry: SchemaRegistry, inject: bool, steps: seq<Step>)
    : Option<Value>
    decreases |steps|
  {
    if steps == [] then Some(Projected(v, currentType, p, registry, inject))
    else
      match (steps[0], v)
      case (Item(i), Array(items)) =>
        if i < |items| then Expected(items[i], currentType, p, registry, inject, steps[1..]) else None
      case (Key(k), Object(m)) =>
        var i := OutputIndex(p.fields, k);
        if i < |p.fields| && Answered(p.fields[i], m, currentType) then
          var field := p.fields[i];
          if field.IsTypename() then Follow(String(TypenameFor(field, m, currentType).value), steps[1..])
          else
            match field.children
            case None => Follow(field.ValueIn(m).value, steps[1..])
            case Some(children) =>
              Expected(field.ValueIn(m).value, NestedType(field, currentType, registry), children, registry, inject,
                       steps[1..])
        else if inject && currentType.Some? && k == TYPENAME then Follow(String(currentType.value), steps[1..])
        else None
      case _ => None
  }

  lemma LookupAnswer(
      m: Map<Value>, currentType: Option<string>, p: Projection, registry: SchemaRegistry, inject: bool, k: string,
      r: Map<Value>)
    requires DistinctHere(p.fields) && Object(r) == Projected(Object(m), currentType, p, registry, inject)
    ensures Has(r, k) <==> Lookup(r, k).Some?
    ensures var i := OutputIndex(p.fields, k);
      Lookup(r, k) ==
      if i < |p.fields| && Answered(p.fields[i], m, currentType) then
        Answer(p.fields[i], m, currentType, registry, inject)
      else if inject && currentType.Some? && k == TYPENAME then Some(String(currentType.value))
      else None
  {
    hide Collect, Found, LastWrite, Answer, Answered, LastAnswered, OutputIndex, Lookup;
    var head, answers := Head(currentType, inject), Answers(m, currentType, p, registry, inject);
    AnswersAnswered(m, currentType, p, registry, inject);
    FoundLast(p.fields, answers, m, currentType, k);
    LastWriteConcat(head, Found(p.fields, answers), k);
    LookupWritten(r, m, currentType, p, registry, inject, k);
    HeadWrite(currentType, inject, k);
    var i, j := OutputIndex(p.fields, k), LastAnswered(p.fields, m, currentType, k);
    if j < |p.fields| {
      assert i == j;
      assert answers[j] == Answer(p.fields[j], m, currentType, registry, inject);
    }
  }

  lemma HeadWrite(currentType: Option<string>, inject: bool, k: string)
    ensures LastWrite(Head(currentType, inject), k) ==
            if inject && currentType.Some? && k == TYPENAME then Some(String(currentType.value)) else None
  {
    assert [Tag("")][..0] == [];
    if inject && currentType.Some? {
      assert Head(currentType, inject)[..0] == [];
    }
  }

  /** The response holds, under every path, what is expected there, and nothing else. */
  lemma {:induction false} AnswerAtPath(
      v: Value, currentType: Option<string>, p: Projection, registry: SchemaRegistry, inject: bool, steps: seq<Step>)
    requires DistinctOutputs(p)
    ensures Follow(Projected(v, currentType, p, registry, inject), steps) ==
            Expected(v, currentType, p, registry, inject, steps)
    decreases |steps|
  {
    hide Collect, Found, Answered, OutputIndex, Lookup, Has;
    if steps != [] {
      match (steps[0], v)
      case (Item(i), Array(items)) =>
        if i < |items| {
          AnswerAtPath(items[i], currentType, p, registry, inject, steps[1..]);
        }
      case (Key(k), Object(m)) =>
        LookupAnswer(m, currentType, p, registry, inject, k,
                     Projected(v, currentType, p, registry, inject).fields);
        var i := OutputIndex(p.fields, k);
        if i < |p.fields| && Answered(p.fields[i], m, currentType) {
          var field := p.fields[i];
          FoundIsAnswered(field, m, currentType);
          if !field.IsTypename() && field.children.Some? {
            AnswerAtPath(field.ValueIn(m).value, NestedType(field, currentType, registry), field.children.value,
                         registry, inject, steps[1..]);
          }
        }
      case _ =>
    }
  }

  lemma FoundIsAnswered(field: ProjectedField, m: Map<Value>, currentType: Option<string>)
    requires Answered(field, m, currentType)
    ensures if field.IsTypename() then TypenameFor(field, m, currentType).Some? else field.ValueIn(m).Some?
  {
  }

  // ----- nothing that was not selected -----

  /** `q` goes on below a selected leaf, whose value is copied as it stands. */
  ghost predicate BelowLeaf(p: Projection, q: seq<string>) {
    exists n :: 0 < n < |q| && FieldAt(p, q[..n]).Some? && FieldAt(p, q[..n]).value.children.None?
  }

  /** `q` is a tag injected into a selected object. */
  predicate IsInjectedTag(p: Projection, q: seq<string>) {
    q != [] && q[|q| - 1] == TYPENAME && Writes(p, q[..|q| - 1])
  }

  /** All that the response holds is selected, a part of a selected leaf, or a tag. */
  lemma {:induction false} OnlySelected(
      v: Value, currentType: Option<string>, p: Projection, registry: SchemaRegistry, inject: bool, steps: seq<Step>)
    requires DistinctOutputs(p) && Follow(Projected(v, currentType, p, registry, inject), steps).Some?
    ensures Writes(p, KeysOf(steps)) || BelowLeaf(p, KeysOf(steps)) || (inject && IsInjectedTag(p, KeysOf(steps)))
    decreases |steps|
  {
    AnswerAtPath(v, currentType, p, registry, inject, steps);
    ExpectedSelected(v, currentType, p, registry, inject, steps);
  }

  lemma {:induction false} ExpectedSelected(
      v: Value, currentType: Option<string>, p: Projection, registry: SchemaRegistry, inject: bool, steps: seq<Step>)
    requires Expected(v, currentType, p, registry, inject, steps).Some?
    ensures Writes(p, KeysOf(steps)) || BelowLeaf(p, KeysOf(steps)) || (inject && IsInjectedTag(p, KeysOf(steps)))
    decreases |steps|
  {
    hide OutputIndex, Answered, Projected;
    if steps != [] {
      match (steps[0], v)
      case (Item(i), Array(items)) =>
        ExpectedSelected(items[i], currentType, p, registry, inject, steps[1..]);
        assert KeysOf(steps) == KeysOf(steps[1..]);
      case (Key(k), Object(m)) =>
        var i, q := OutputIndex(p.fields, k), KeysOf(steps);
        var rest := KeysOf(steps[1..]);
        assert q == [k] + rest && q[1..] == rest && q[..1] == [k];
        if i < |p.fields| && Answered(p.fields[i], m, currentType) {
          var field := p.fields[i];
          assert FieldAt(p, [k]) == Some(field);
          FoundIsAnswered(field, m, currentType);
          if field.IsTypename() {
            TextIsLeaf(TypenameFor(field, m, currentType).value, steps[1..]);
          } else if field.children.Some? {
            ExpectedSelected(field.ValueIn(m).value, NestedType(field, currentType, registry), field.children.value,
                             registry, inject, steps[1..]);
            BelowField(p, k, field.children.value, rest);
          } else if rest != [] {
            assert BelowLeaf(p, q);
          }
        } else {
          TextIsLeaf(currentType.value, steps[1..]);
          assert q[..0] == [];
        }
    }
  }

  lemma TextIsLeaf(text: string, steps: seq<Step>)
    requires Follow(String(text), steps).Some?
    ensures steps == []
  {
  }

  lemma BelowField(p: Projection, k: string, children: Projection, rest: seq<string>)
    requires FieldAt(p, [k]).Some? && FieldAt(p, [k]).value.children == Some(children)
    ensures Writes(children, rest) ==> Writes(p, [k] + rest)
    ensures BelowLeaf(children, rest) ==> BelowLeaf(p, [k] + rest)
    ensures IsInjectedTag(children, rest) ==> IsInjectedTag(p, [k] + rest)
  {
    hide OutputIndex;
    var q := [k] + rest;
    assert q[1..] == rest;
    if BelowLeaf(children, rest) {
      var n :| 0 < n < |rest| && FieldAt(children, rest[..n]).Some? &&
               FieldAt(children, rest[..n]).value.children.None?;
      assert q[..n + 1] == [k] + rest[..n] && q[..n + 1][1..] == rest[..n];
      assert FieldAt(p, q[..n + 1]) == FieldAt(children, rest[..n]);
    }
    if rest != [] {
      var front := rest[..|rest| - 1];
      assert q[..|q| - 1] == [k] + front && ([k] + front)[1..] == front;
      assert front != [] ==> FieldAt(p, [k] + front) == FieldAt(children, front);
    }
  }

  // ----- every selection's own data -----

  /** What the row holds when each key step is answered by the next of `sources`, in any of its spellings. */
  function Dig(v: Value, sources: seq<string>, steps: seq<Step>): Option<Value>
    decreases |steps|
  {
    if steps == [] then if sources == [] then Some(v) else None
    else
      match (steps[0], v)
      case (Item(i), Array(items)) => if i < |items| then Dig(items[i], sources, steps[1..]) else None
      case (Key(_), Object(m)) =>
        if sources == [] then None
        else
          var found := NewField(sources[0], sources[0]).ValueIn(m);
          if found.Some? then Dig(found.value, sources[1..], steps[1..]) else None
      case _ => None
  }

  /** The type below the fields written under `q`. */
  function TypeBelow(currentType: Option<string>, p: Projection, q: seq<string>, registry: SchemaRegistry)
    : Option<string>
    decreases |q|
  {
    if q == [] then currentType
    else
      var i := OutputIndex(p.fields, q[0]);
      if i == |p.fields| then None
      else
        var field := p.fields[i];
        TypeBelow(NestedType(field, currentType, registry),
                  if field.children.Some? then field.children.value else Projection([]), q[1..], registry)
  }

  /** `answer` is what the field makes of what was found. */
  ghost predicate AnswersWith(
      answer: Option<Value>, found: Option<Value>, field: ProjectedField, below: Option<string>,
      registry: SchemaRegistry, inject: bool)
  {
    && (answer.Some? <==> found.Some?)
    && (answer.Some? ==>
          match field.children
          case None => answer == found
          case Some(children) => IsResponse(answer.value, found.value, below, children, registry, inject))
  }

  lemma {:induction false} ItemsOnly(
      v: Value, currentType: Option<string>, p: Projection, registry: SchemaRegistry, inject: bool, steps: seq<Step>)
    requires KeysOf(steps) == []
    ensures Follow(v, steps) == Dig(v, [], steps)
    ensures Expected(v, currentType, p, registry, inject, steps) ==
            if Dig(v, [], steps).Some? then Some(Projected(Dig(v, [], steps).value, currentType, p, registry, inject))
            else None
    decreases |steps|
  {
    hide Projected;
    if steps != [] {
      assert steps[0].Item? && KeysOf(steps[1..]) == [];
      if v.Array? && steps[0].index < |v.items| {
        ItemsOnly(v.items[steps[0].index], currentType, p, registry, inject, steps[1..]);
      }
    }
  }

  lemma OwnSourcesBelow(p: Projection, path: Path)
    requires |path.sources| == |path.outputs| > 1 && OwnSources(p, path)
    ensures var i := OutputIndex(p.fields, path.outputs[0]);
      && i < |p.fields|
      && p.fields[i].source == path.sources[0]
      && p.fields[i].children.Some?
      && OwnSources(p.fields[i].children.value, path.(sources := path.sources[1..], outputs := path.outputs[1..]))
      && FieldAt(p, path.outputs) == FieldAt(p.fields[i].children.value, path.outputs[1..])
  {
    hide OutputIndex;
    var q := path.outputs;
    assert q[..1] == [q[0]] && q[..2][1..] == [q[1]];
    assert FactAt(p, q[..1]).Some? && FactAt(p, q[..2]).Some?;
    var children := p.fields[OutputIndex(p.fields, q[0])].children.value;
    forall n | 0 < n <= |q| - 1
      ensures FactAt(children, q[1..][..n]) == FactAt(p, q[..n + 1])
    {
      assert q[..n + 1][1..] == q[1..][..n];
    }
  }

  lemma SourceOnly(field: ProjectedField, m: Map<Value>)
    requires field.alternates == Alternates(field.source)
    ensures field.ValueIn(m) == NewField(field.source, field.source).ValueIn(m)
  {
    hide Alternates;
  }

  /** A selected path that is read from its own source keys is answered by what the row holds there: a leaf by the
      value as it stands, an object by the response to what is selected below; and by nothing when there is nothing.
      (What is written or read as `__typename` is a type's name.) */
  lemma {:induction false} OwnDataAnswered(
      v: Value, currentType: Option<string>, p: Projection, registry: SchemaRegistry, inject: bool, path: Path,
      steps: seq<Step>)
    requires DistinctOutputs(p) && AllSpelled(p)
    requires |path.sources| == |path.outputs| > 0 && OwnSources(p, path)
    requires TYPENAME !in path.sources && TYPENAME !in path.outputs
    requires KeysOf(steps) == path.outputs
    ensures FieldAt(p, path.outputs).Some?
    ensures AnswersWith(Follow(Projected(v, currentType, p, registry, inject), steps), Dig(v, path.sources, steps),
                        FieldAt(p, path.outputs).value, TypeBelow(currentType, p, path.outputs, registry),
                        registry, inject)
  {
    assert path.outputs[..|path.outputs|] == path.outputs;
    AnswerAtPath(v, currentType, p, registry, inject, steps);
    OwnDataExpected(v, currentType, p, registry, inject, path, steps);
  }

  /** After the last key there are only list positions. */
  lemma LastKey(
      found: Value, field: ProjectedField, below: Option<string>, registry: SchemaRegistry, inject: bool,
      steps: seq<Step>)
    requires KeysOf(steps) == []
    ensures var answer := match field.children
                          case None => Follow(found, steps)
                          case Some(children) => Expected(found, below, children, registry, inject, steps);
      AnswersWith(answer, Dig(found, [], steps), field, below, registry, inject)
  {
    hide Projected, IsResponse;
    var children := if field.children.Some? then field.children.value else Projection([]);
    ItemsOnly(found, below, children, registry, inject, steps);
    var dug := Dig(found, [], steps);
    if dug.Some? {
      var x := Projected(dug.value, below, children, registry, inject);
      ResponseIff(x, dug.value, below, children, registry, inject);
    }
  }

  /** One key on the way: both sides look the same value up. */
  lemma KeyStep(
      m: Map<Value>, currentType: Option<string>, p: Projection, registry: SchemaRegistry, inject: bool, path: Path,
      steps: seq<Step>)
    requires AllSpelled(p)
    requires |path.sources| == |path.outputs| > 0 && OwnSources(p, path)
    requires TYPENAME !in path.sources && TYPENAME !in path.outputs
    requires KeysOf(steps) == path.outputs && steps != [] && steps[0].Key?
    ensures var q, i := path.outputs, OutputIndex(p.fields, path.outputs[0]);
      && KeysOf(steps[1..]) == q[1..]
      && i < |p.fields| && FieldAt(p, q[..1]) == Some(p.fields[i])
      && var field, found := p.fields[i], p.fields[i].ValueIn(m);
         && Dig(Object(m), path.sources, steps) ==
            (if found.Some? then Dig(found.value, path.sources[1..], steps[1..]) else None)
         && Expected(Object(m), currentType, p, registry, inject, steps) ==
            if found.None? then None
            else
              match field.children
              case None => Follow(found.value, steps[1..])
              case Some(children) =>
                Expected(found.value, NestedType(field, currentType, registry), children, registry, inject, steps[1..])
  {
    hide OutputIndex, Projected, Alternates, NestedType;
    var q := path.outputs;
    var k := steps[0].key;
    assert KeysOf(steps) == [k] + KeysOf(steps[1..]) && q[0] == k;
    assert q[..1] == [k] && FactAt(p, q[..1]).Some?;
    var field := p.fields[OutputIndex(p.fields, k)];
    assert field.source == path.sources[0] && path.sources[0] in path.sources && k in q;
    SourceOnly(field, m);
  }

  lemma {:induction false} OwnDataExpected(
      v: Value, currentType: Option<string>, p: Projection, registry: SchemaRegistry, inject: bool, path: Path,
      steps: seq<Step>)
    requires DistinctOutputs(p) && AllSpelled(p)
    requires |path.sources| == |path.outputs| > 0 && OwnSources(p, path)
    requires TYPENAME !in path.sources && TYPENAME !in path.outputs
    requires KeysOf(steps) == path.outputs
    ensures FieldAt(p, path.outputs).Some?
    ensures AnswersWith(Expected(v, currentType, p, registry, inject, steps), Dig(v, path.sources, steps),
                        FieldAt(p, path.outputs).value, TypeBelow(currentType, p, path.outputs, registry),
                        registry, inject)
    decreases |steps|
  {
    hide OutputIndex, Projected, IsResponse, Alternates, Follow, NestedType, ProjectedField.ValueIn;
    var q := path.outputs;
    assert q[..|q|] == q;
    match (steps[0], v)
    case (Item(i), Array(items)) =>
      if i < |items| {
        OwnDataExpected(items[i], currentType, p, registry, inject, path, steps[1..]);
      }
    case (Key(k), Object(m)) =>
      KeyStep(m, currentType, p, registry, inject, path, steps);
      hide Expected, Dig;
      var field := p.fields[OutputIndex(p.fields, q[0])];
      if field.ValueIn(m).Some? {
        var found, below := field.ValueIn(m).value, NestedType(field, currentType, registry);
        if |q| > 1 {
          OwnSourcesBelow(p, path);
          var rest := path.(sources := path.sources[1..], outputs := path.outputs[1..]);
          OwnDataExpected(found, below, field.children.value, registry, inject, rest, steps[1..]);
        } else {
          assert q[..1] == q && q[1..] == [] && path.sources[1..] == [];
          LastKey(found, field, below, registry, inject, steps[1..]);
        }
      }
    case _ =>
  }

  // ----- the type of every object below -----

  /** None of the fields is written as `__typename`. */
  predicate NoTagHere(p: Projection) {
    forall i :: 0 <= i < |p.fields| ==> p.fields[i].output != TYPENAME
  }

  /** The object carries the type's name, if it has one; or no `__typename`. */
  predicate TaggedWith(x: Value, t: Option<string>) {
    if t.Some? then CarriesTag(x, t.value) else x.Object? && forall e <- x.fields :: e.key != TYPENAME
  }

  lemma {:induction false} AnsweredAreOutputs(fields: seq<ProjectedField>, m: Map<Value>, currentType: Option<string>)
    ensures forall k <- AnsweredOutputs(fields, m, currentType) ::
      exists i :: 0 <= i < |fields| && fields[i].output == k
  {
    hide Answered;
    if fields != [] {
      var n := |fields| - 1;
      AnsweredAreOutputs(fields[..n], m, currentType);
      forall k <- AnsweredOutputs(fields, m, currentType)
        ensures exists i :: 0 <= i < |fields| && fields[i].output == k
      {
        if k in AnsweredOutputs(fields[..n], m, currentType) {
          var i :| 0 <= i < n && fields[..n][i].output == k;
          assert fields[i].output == k;
        } else {
          assert fields[n].output == k;
        }
      }
    }
  }

  lemma ResponseTag(x: Value, w: Map<Value>, t: Option<string>, p: Projection, registry: SchemaRegistry)
    requires IsResponse(x, Object(w), t, p, registry, true) && NoTagHere(p)
    ensures TaggedWith(x, t)
  {
    hide FirstOccurrences, AnsweredOutputs, IsAnswer, Answered;
    var outputs := AnsweredOutputs(p.fields, w, t);
    AnsweredAreOutputs(p.fields, w, t);
    if t.Some? {
      assert Keys(Head(t, true)) == [TYPENAME];
      FirstStays(TYPENAME, outputs);
      assert Keys(x.fields)[0] == x.fields[0].key == TYPENAME;
      assert IsEntry(x.fields[0], w, t, p, registry, true);
    } else {
      assert Keys(Head(t, true)) + outputs == outputs;
      FirstOccurrencesConcat([], outputs);
      forall e <- x.fields
        ensures e.key != TYPENAME
      {
        var i :| 0 <= i < |x.fields| && x.fields[i] == e;
        assert Keys(x.fields)[i] == e.key && e.key in Keys(x.fields);
      }
    }
  }

  lemma {:induction false} TypeBelowStep(
      currentType: Option<string>, p: Projection, q: seq<string>, registry: SchemaRegistry)
    requires q != [] && FieldAt(p, q).Some?
    ensures IsTypeBelow(TypeBelow(currentType, p, q, registry), FieldAt(p, q).value,
                        TypeBelow(currentType, p, q[..|q| - 1], registry), registry)
    decreases |q|
  {
    hide IsTypeBelow, OutputIndex, NestedType;
    var field := p.fields[OutputIndex(p.fields, q[0])];
    NestedTypeIff(field, currentType, registry);
    if |q| > 1 {
      var rest := q[1..];
      TypeBelowStep(NestedType(field, currentType, registry), field.children.value, rest, registry);
      assert q[..|q| - 1][1..] == rest[..|rest| - 1];
    } else {
      assert q[..0] == [];
      assert q[1..] == [];
    }
  }

  /** With injection, the objects that a built selection selects on are tagged with the type that the schema declares
      for their field in the type above; where it declares none, with the name that the last selection of the field
      gave; and with none, not at all. */
  lemma TaggedBelow(
      v: Value, currentType: Option<string>, paths: seq<Path>, registry: SchemaRegistry, path: Path, steps: seq<Step>,
      w: Map<Value>)
    requires (forall other <- paths :: |other.sources| == |other.outputs| > 0) && path in paths
    requires OwnSources(Built(paths), path) && TYPENAME !in path.sources && TYPENAME !in path.outputs
    requires KeysOf(steps) == path.outputs && Dig(v, path.sources, steps) == Some(Object(w))
    requires var field := FieldAt(Built(paths), path.outputs);
      field.Some? && field.value.children.Some? && NoTagHere(field.value.children.value)
    ensures var p, q := Built(paths), path.outputs;
      var x := Follow(Projected(v, currentType, p, registry, true), steps);
      var above, field := TypeBelow(currentType, p, q[..|q| - 1], registry), FieldAt(p, q).value;
      && x.Some?
      && field.source == path.sources[|q| - 1]
      && field.typeName == LastType(paths, q, field.source)
      && (forall nested :: DeclaresBelow(above, field, registry, nested) ==> TaggedWith(x.value, Some(nested)))
      && ((forall nested :: !DeclaresBelow(above, field, registry, nested)) ==> TaggedWith(x.value, field.typeName))
  {
    hide Inserted, FieldAt, TypeBelow, Built, Projected, TaggedWith, IsResponse, LastType, DeclaresBelow, Dig;
    var p, q := Built(paths), path.outputs;
    BuiltWellFormed(paths);
    BuiltFact(paths, q);
    assert q[..|q|] == q;
    OwnDataAnswered(v, currentType, p, registry, true, path, steps);
    TypeBelowStep(currentType, p, q, registry);
    var below, x := TypeBelow(currentType, p, q, registry), Follow(Projected(v, currentType, p, registry, true), steps);
    ResponseTag(x.value, w, below, FieldAt(p, q).value.children.value, registry);
    var above, field := TypeBelow(currentType, p, q[..|q| - 1], registry), FieldAt(p, q).value;
    NestedTypeIff(field, above, registry);
    forall nested | DeclaresBelow(above, field, registry, nested)
      ensures Some(nested) == below
    {
      assert IsTypeBelow(Some(nested), field, above, registry);
    }
  }

  // ----- from the selections to the response -----

  /** `transform_with_selections`: the response to what the selections name, and to nothing else; no key is
      written twice on any object; and each selection is answered by its own data, unless an earlier one took a
      response path of it for another key. */
  method TransformWithSelections(value: Value, currentType: string, selections: seq<Value>, registry: SchemaRegistry)
    returns (r: Value)
    ensures var p := FromSelections(selections);
      && IsResponse(r, value, Some(currentType), p, registry, true)
      && DistinctOutputs(p) && AllSpelled(p)
      && (forall q: seq<string> :: q != [] ==>
            (Writes(p, q) <==> exists path <- PathsOf(selections, selections) :: q <= path.outputs))
      && forall path <- PathsOf(selections, selections), steps: seq<Step> ::
           && OwnSources(p, path) && TYPENAME !in path.sources && TYPENAME !in path.outputs
           && KeysOf(steps) == path.outputs ==>
             && FieldAt(p, path.outputs).Some?
             && AnswersWith(Follow(r, steps), Dig(value, path.sources, steps), FieldAt(p, path.outputs).value,
                            TypeBelow(Some(currentType), p, path.outputs, registry), registry, true)
  {
    hide *;
    var paths := PathsOf(selections, selections);
    var projection := ProjectionFromSelections(selections);
    r := ProjectWithSchema(value, Some(currentType), projection, registry, true);
    ResponseIff(r, value, Some(currentType), projection, registry, true);
    SelectionsBuilt(selections);
    forall path <- paths, steps: seq<Step> |
        && OwnSources(projection, path) && TYPENAME !in path.sources && TYPENAME !in path.outputs
        && KeysOf(steps) == path.outputs
      ensures FieldAt(projection, path.outputs).Some?
      ensures AnswersWith(Follow(r, steps), Dig(value, path.sources, steps), FieldAt(projection, path.outputs).value,
                          TypeBelow(Some(currentType), projection, path.outputs, registry), registry, true)
    {
      OwnDataAnswered(value, Some(currentType), projection, registry, true, path, steps);
    }
  }

  lemma SelectionsBuilt(selections: seq<Value>)
    ensures var p := FromSelections(selections);
      && DistinctOutputs(p) && AllSpelled(p)
      && forall q: seq<string> :: q != [] ==>
           (Writes(p, q) <==> exists path <- PathsOf(selections, selections) :: q <= path.outputs)
  {
    hide Built, Writes, DistinctOutputs, AllSpelled;
    BuiltWellFormed(PathsOf(selections, selections));
    forall q: seq<string> | q != []
      ensures Writes(FromSelections(selections), q) <==>
              exists path <- PathsOf(selections, selections) :: q <= path.outputs
    {
      BuiltWrites(PathsOf(selections, selections), q);
    }
  }
}
