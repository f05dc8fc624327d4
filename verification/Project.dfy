/** `project_with_schema` (fraiseql_rs/src/json_transform.rs): GraphQL selection. */
module Project {
  import opened Json
  import opened Options
  import opened Projections
  import opened Schema
  import opened SchemaTransform

  // ----- the specification: what each selected field answers -----

  function TypenameIn(m: Map<Value>): Option<string> {
    var found: Option<Value> := Lookup(m, TYPENAME);
    if found.Some? && found.value.String? then Some(found.value.text) else None
  }

  /** The type name a selected `__typename` answers: the known type, else the selection's, else the row's. */
  function TypenameFor(field: ProjectedField, m: Map<Value>, currentType: Option<string>): Option<string> {
    if currentType.Some? then currentType
    else if field.typeName.Some? then field.typeName
    else TypenameIn(m)
  }

  /** The type below a field: the registry's for a nested field, else the selection's. */
  function NestedType(field: ProjectedField, currentType: Option<string>, registry: SchemaRegistry): Option<string> {
    var info := if currentType.Some? then registry.GetFieldType(currentType.value, field.source) else None;
    if info.Some? && info.value.isNestedObject then Some(info.value.typeName) else field.typeName
  }

  /** `name` is what a selected `__typename` answers: the known type's name; without one, the name the selection
      gives; without both, the one in the row. */
  predicate AnswersTypename(name: string, field: ProjectedField, m: Map<Value>, currentType: Option<string>) {
    || currentType == Some(name)
    || (currentType == None && field.typeName == Some(name))
    || (currentType == None && field.typeName == None && Entry(TYPENAME, String(name)) in m)
  }

  lemma TypenameForIff(field: ProjectedField, m: Map<Value>, currentType: Option<string>)
    ensures forall name: string :: TypenameFor(field, m, currentType) == Some(name) <==>
                                   AnswersTypename(name, field, m, currentType)
  {
    hide Lookup;
    TextInMap(m, TYPENAME);
  }

  lemma TextInMap(m: Map<Value>, k: string)
    ensures forall x: Value :: Lookup(m, k) == Some(x) <==> Entry(k, x) in m
  {
    forall x: Value
      ensures Lookup(m, k) == Some(x) <==> Entry(k, x) in m
    {
      if Entry(k, x) in m {
        var i :| 0 <= i < |m| && m[i] == Entry(k, x);
        IndexOfUnique(m, i);
      }
    }
  }

  /** The schema declares the field's value nested, of type `nested`. */
  ghost predicate DeclaresBelow(
      currentType: Option<string>, field: ProjectedField, registry: SchemaRegistry, nested: string)
  {
    && currentType.Some?
    && exists info :: registry.Declares(currentType.value, field.source, info) && info.isNestedObject &&
                      info.typeName == nested
  }

  /** `t` is the type below the field: the declared one; where none is declared, the one the selection names. */
  ghost predicate IsTypeBelow(
      t: Option<string>, field: ProjectedField, currentType: Option<string>, registry: SchemaRegistry)
  {
    || (t.Some? && DeclaresBelow(currentType, field, registry, t.value))
    || (t == field.typeName && forall nested :: !DeclaresBelow(currentType, field, registry, nested))
  }

  lemma NestedTypeIff(field: ProjectedField, currentType: Option<string>, registry: SchemaRegistry)
    ensures forall t :: IsTypeBelow(t, field, currentType, registry) <==> t == NestedType(field, currentType, registry)
  {
    if currentType.Some? {
      registry.LookupIff(currentType.value, field.source, None);
      forall info: FieldInfo
        ensures registry.Declares(currentType.value, field.source, info) <==>
                registry.GetFieldType(currentType.value, field.source) == Some(info)
      {
        registry.LookupIff(currentType.value, field.source, Some(info));
      }
    }
    var found := if currentType.Some? then registry.GetFieldType(currentType.value, field.source) else None;
    var nested := found.Some? && found.value.isNestedObject;
    assert forall t: string ::
      DeclaresBelow(currentType, field, registry, t) <==> nested && found.value.typeName == t;
    if nested {
      assert DeclaresBelow(currentType, field, registry, found.value.typeName);
    }
  }

  function Projected(
      v: Value, currentType: Option<string>, p: Projection, registry: SchemaRegistry, inject: bool): Value
    decreases p, 1, v
  {
    match v
    case Array(items) =>
      Array(seq(|items|, i requires 0 <= i < |items| => Projected(items[i], currentType, p, registry, inject)))
    case Object(m) =>
      Object(Collect(Head(currentType, inject) + Found(p.fields, Answers(m, currentType, p, registry, inject))))
    case _ => v
  }

  /** The injected tag. */
  function Head(currentType: Option<string>, inject: bool): seq<Entry<Value>> {
    if inject && currentType.Some? then [Tag(currentType.value)] else []
  }

  function Answers(m: Map<Value>, currentType: Option<string>, p: Projection, registry: SchemaRegistry, inject: bool)
    : (answers: seq<Option<Value>>)
    ensures |answers| == |p.fields|
    decreases p, 0
  {
    seq(|p.fields|, i requires 0 <= i < |p.fields| => Answer(p.fields[i], m, currentType, registry, inject))
  }

  function Answer(
      field: ProjectedField, m: Map<Value>, currentType: Option<string>, registry: SchemaRegistry, inject: bool)
    : Option<Value>
    decreases field
  {
    if field.IsTypename() then
      var typeName := TypenameFor(field, m, currentType);
      if typeName.Some? then Some(String(typeName.value)) else None
    else
      match field.ValueIn(m)
      case None => None
      case Some(x) =>
        match field.children
        case Some(children) =>
          Some(Projected(x, NestedType(field, currentType, registry), children, registry, inject))
        case None => Some(x)
  }

  /** The answers that are there, each under its field's output, in selection order. */
  function Found(fields: seq<ProjectedField>, answers: seq<Option<Value>>): (writes: seq<Entry<Value>>)
    requires |fields| == |answers|
    ensures forall e <- writes ::
      exists i :: 0 <= i < |fields| && fields[i].output == e.key && answers[i] == Some(e.value)
  {
    if fields == [] then []
    else
      var n := |fields| - 1;
      var front := Found(fields[..n], answers[..n]);
      if answers[n].Some? then front + [Entry(fields[n].output, answers[n].value)] else front
  }

  lemma FoundStep(fields: seq<ProjectedField>, answers: seq<Option<Value>>, i: nat)
    requires |fields| == |answers| && i < |fields|
    ensures Found(fields[..i + 1], answers[..i + 1]) ==
            Found(fields[..i], answers[..i]) +
            if answers[i].Some? then [Entry(fields[i].output, answers[i].value)] else []
  {
    assert fields[..i + 1][..i] == fields[..i] && answers[..i + 1][..i] == answers[..i];
  }

  // ----- the code -----

  method ProjectWithSchema(
      value: Value, currentType: Option<string>, projection: Projection, registry: SchemaRegistry, inject: bool)
    returns (r: Value)
    ensures r == Projected(value, currentType, projection, registry, inject)
    decreases projection, 1, value
  {
    match value
    case Array(items) =>
      var projected: seq<Value> := [];
      for i := 0 to |items|
        invariant |projected| == i
        invariant forall j :: 0 <= j < i ==>
          projected[j] == Projected(items[j], currentType, projection, registry, inject)
      {
        var item := ProjectWithSchema(items[i], currentType, projection, registry, inject);
        projected := projected + [item];
      }
      r := Array(projected);
    case Object(m) =>
      var result: Map<Value> := [];
      if inject && currentType.Some? {
        result := Insert(result, TYPENAME, String(currentType.value));
      }
      PrefixStart(m, currentType, projection, registry, inject);
      for i := 0 to |projection.fields|
        invariant result == Prefix(m, currentType, projection, registry, inject, i)
      {
        PrefixStep(m, currentType, projection, registry, inject, i);
        var field := projection.fields[i];
        if field.IsTypename() {
          var typeName := TypenameFor(field, m, currentType);
          if typeName.Some? {
            result := Insert(result, field.output, String(typeName.value));
          }
          continue;
        }
        var found := field.ValueIn(m);
        if found.None? {
          continue;
        }
        var projected := found.value;
        if field.children.Some? {
          var nestedType := NestedType(field, currentType, registry);
          projected := ProjectWithSchema(found.value, nestedType, field.children.value, registry, inject);
        }
        result := Insert(result, field.output, projected);
      }
      PrefixAll(m, currentType, projection, registry, inject);
      r := Object(result);
    case _ => r := value;
  }

  /** The result after the tag and the first `n` selected fields. */
  ghost function Prefix(
      m: Map<Value>, currentType: Option<string>, p: Projection, registry: SchemaRegistry, inject: bool, n: nat)
    : Map<Value>
    requires n <= |p.fields|
  {
    Collect(Head(currentType, inject) + Found(p.fields[..n], Answers(m, currentType, p, registry, inject)[..n]))
  }

  lemma PrefixStart(
      m: Map<Value>, currentType: Option<string>, p: Projection, registry: SchemaRegistry, inject: bool)
    ensures Prefix(m, currentType, p, registry, inject, 0) ==
            if inject && currentType.Some? then Insert([], TYPENAME, String(currentType.value)) else []
  {
    var head := Head(currentType, inject);
    assert head + [] == head;
    if head != [] {
      CollectAppend([], head[0]);
      assert [] + [head[0]] == head;
    }
  }

  lemma PrefixStep(
      m: Map<Value>, currentType: Option<string>, p: Projection, registry: SchemaRegistry, inject: bool, i: nat)
    requires i < |p.fields|
    ensures var before, answer := Prefix(m, currentType, p, registry, inject, i),
                                  Answer(p.fields[i], m, currentType, registry, inject);
      Prefix(m, currentType, p, registry, inject, i + 1) ==
      if answer.Some? then Insert(before, p.fields[i].output, answer.value) else before
  {
    hide Answer;
    var head, answers := Head(currentType, inject), Answers(m, currentType, p, registry, inject);
    var before := Found(p.fields[..i], answers[..i]);
    FoundStep(p.fields, answers, i);
    if answers[i].Some? {
      var e := Entry(p.fields[i].output, answers[i].value);
      assert head + (before + [e]) == (head + before) + [e];
      CollectAppend(head + before, e);
    } else {
      assert before + [] == before;
    }
  }

  lemma PrefixAll(
      m: Map<Value>, currentType: Option<string>, p: Projection, registry: SchemaRegistry, inject: bool)
    ensures Object(Prefix(m, currentType, p, registry, inject, |p.fields|)) ==
            Projected(Object(m), currentType, p, registry, inject)
  {
    var answers := Answers(m, currentType, p, registry, inject);
    assert p.fields[..|p.fields|] == p.fields && answers[..|p.fields|] == answers;
  }
}
