/** The projection compared with itself without injection, and with the schema transform. */
module Selection {
  import opened CamelCase
  import opened Json
  import opened Options
  import opened Project
  import opened Projections
  import opened Schema
  import opened SchemaTransform

  // ----- injection touches only the tag -----

  /** `r` without `__typename` on the objects that the projection selects on. */
  function WithoutTags(r: Value, p: Projection): Value
    decreases p, 1, r
  {
    match r
    case Array(items) => Array(seq(|items|, i requires 0 <= i < |items| => WithoutTags(items[i], p)))
    case Object(m) => Object(Drop(MapValues((k: string, x: Value) => FieldWithoutTags(k, x, p), m), TYPENAME))
    case _ => r
  }

  function FieldWithoutTags(k: string, x: Value, p: Projection): Value
    decreases p, 0
  {
    var j := OutputIndex(p.fields, k);
    if j < |p.fields| && p.fields[j].children.Some? then WithoutTags(x, p.fields[j].children.value) else x
  }

  function EraseAnswer(k: string, answer: Option<Value>, p: Projection): Option<Value> {
    if answer.Some? then Some(FieldWithoutTags(k, answer.value, p)) else None
  }

  function FieldEraser(p: Projection): (string, Value) -> Value {
    (k: string, x: Value) => FieldWithoutTags(k, x, p)
  }

  /** No output is `__typename`, at any level. */
  predicate NoTagOutputs(p: Projection) {
    forall i :: 0 <= i < |p.fields| ==>
      && p.fields[i].output != TYPENAME
      && (p.fields[i].children.Some? ==> NoTagOutputs(p.fields[i].children.value))
  }

  lemma {:induction false} FoundMapped(
      f: (string, Value) -> Value, fields: seq<ProjectedField>, a: seq<Option<Value>>, b: seq<Option<Value>>)
    requires |fields| == |a| == |b|
    requires forall j :: 0 <= j < |fields| ==>
      b[j] == if a[j].Some? then Some(f(fields[j].output, a[j].value)) else None
    ensures MapValues(f, Found(fields, a)) == Found(fields, b)
  {
    if fields != [] {
      var n := |fields| - 1;
      FoundMapped(f, fields[..n], a[..n], b[..n]);
    }
  }

  lemma WithoutTagsObject(m: Map<Value>, p: Projection)
    ensures WithoutTags(Object(m), p) == Object(Drop(MapValues(FieldEraser(p), m), TYPENAME))
  {
    assert MapValues((k: string, x: Value) => FieldWithoutTags(k, x, p), m) == MapValues(FieldEraser(p), m);
  }

  lemma OutputIndexDistinct(fields: seq<ProjectedField>, j: nat)
    requires DistinctHere(fields) && j < |fields|
    ensures OutputIndex(fields, fields[j].output) == j
  {
    var i := OutputIndex(fields, fields[j].output);
    assert i <= j;
  }

  lemma {:induction false} AnswerWithoutTags(
      j: nat, m: Map<Value>, currentType: Option<string>, p: Projection, registry: SchemaRegistry)
    requires j < |p.fields| && DistinctOutputs(p)
    ensures var output := p.fields[j].output;
      EraseAnswer(output, Answer(p.fields[j], m, currentType, registry, true), p) ==
      EraseAnswer(output, Answer(p.fields[j], m, currentType, registry, false), p)
    decreases p, 0
  {
    var field := p.fields[j];
    OutputIndexDistinct(p.fields, j);
    if !field.IsTypename() && field.ValueIn(m).Some? && field.children.Some? {
      InjectionErased(field.ValueIn(m).value, NestedType(field, currentType, registry), field.children.value, registry);
    }
  }

  /** Injection changes nothing but tags: with distinct outputs, as every built projection has, the results with
      and without it are the same once `__typename` is taken away along the selection. */
  lemma {:induction false} InjectionErased(
      v: Value, currentType: Option<string>, p: Projection, registry: SchemaRegistry)
    requires DistinctOutputs(p)
    ensures WithoutTags(Projected(v, currentType, p, registry, true), p) ==
            WithoutTags(Projected(v, currentType, p, registry, false), p)
    decreases p, 1, v
  {
    match v
    case Array(items) =>
      forall i | 0 <= i < |items|
        ensures WithoutTags(Projected(items[i], currentType, p, registry, true), p) ==
                WithoutTags(Projected(items[i], currentType, p, registry, false), p)
      {
        InjectionErased(items[i], currentType, p, registry);
      }
      assert WithoutTags(Projected(v, currentType, p, registry, true), p).items ==
             WithoutTags(Projected(v, currentType, p, registry, false), p).items;
    case Object(m) =>
      forall j | 0 <= j < |p.fields|
        ensures EraseAnswer(p.fields[j].output, Answer(p.fields[j], m, currentType, registry, true), p) ==
                EraseAnswer(p.fields[j].output, Answer(p.fields[j], m, currentType, registry, false), p)
      {
        AnswerWithoutTags(j, m, currentType, p, registry);
      }
      ObjectInjectionErased(m, currentType, p, registry);
    case _ =>
  }

  function EraseAnswers(answers: seq<Option<Value>>, p: Projection): (erased: seq<Option<Value>>)
    requires |answers| == |p.fields|
    ensures |erased| == |answers|
  {
    seq(|answers|, j requires 0 <= j < |answers| => EraseAnswer(p.fields[j].output, answers[j], p))
  }

  lemma ObjectInjectionErased(m: Map<Value>, currentType: Option<string>, p: Projection, registry: SchemaRegistry)
    requires forall j :: 0 <= j < |p.fields| ==>
      EraseAnswer(p.fields[j].output, Answer(p.fields[j], m, currentType, registry, true), p) ==
      EraseAnswer(p.fields[j].output, Answer(p.fields[j], m, currentType, registry, false), p)
    ensures WithoutTags(Projected(Object(m), currentType, p, registry, true), p) ==
            WithoutTags(Projected(Object(m), currentType, p, registry, false), p)
  {
    hide Answer, Collect, Found, Drop, FieldWithoutTags, WithoutTags, EraseAnswer;
    var tagged, plain := Answers(m, currentType, p, registry, true), Answers(m, currentType, p, registry, false);
    assert EraseAnswers(tagged, p) == EraseAnswers(plain, p);
    FoundErased(p, tagged);
    FoundErased(p, plain);
    ErasedHead(Head(currentType, true), Found(p.fields, tagged), p);
    ErasedHead(Head(currentType, false), Found(p.fields, plain), p);
  }

  lemma FoundErased(p: Projection, answers: seq<Option<Value>>)
    requires |answers| == |p.fields|
    ensures MapValues(FieldEraser(p), Found(p.fields, answers)) == Found(p.fields, EraseAnswers(answers, p))
  {
    hide Found, FieldWithoutTags;
    FoundMapped(FieldEraser(p), p.fields, answers, EraseAnswers(answers, p));
  }

  lemma ErasedHead(head: seq<Entry<Value>>, found: seq<Entry<Value>>, p: Projection)
    requires |head| <= 1 && forall e <- head :: e.key == TYPENAME
    ensures WithoutTags(Object(Collect(head + found)), p) ==
            Object(Collect(Drop(MapValues(FieldEraser(p), found), TYPENAME)))
  {
    hide Collect, FieldWithoutTags, WithoutTags;
    var f := FieldEraser(p);
    WithoutTagsObject(Collect(head + found), p);
    CollectMapValues(f, head + found);
    assert MapValues(f, head + found) == MapValues(f, head) + MapValues(f, found);
    CollectDrop(MapValues(f, head) + MapValues(f, found), TYPENAME);
    DropConcat(MapValues(f, head), MapValues(f, found), TYPENAME);
    DroppedHead(head, f);
    assert [] + Drop(MapValues(f, found), TYPENAME) == Drop(MapValues(f, found), TYPENAME);
  }

  lemma DroppedHead(head: seq<Entry<Value>>, f: (string, Value) -> Value)
    requires |head| <= 1 && forall e <- head :: e.key == TYPENAME
    ensures Drop(MapValues(f, head), TYPENAME) == []
  {
    if head != [] {
      assert head[0] in head;
      assert MapValues(f, head)[..0] == [];
    }
  }

  /** Without injection there is no tag to take away, unless `__typename` is selected under its own name. */
  lemma {:induction false} PlainHasNoTags(
      v: Value, currentType: Option<string>, p: Projection, registry: SchemaRegistry)
    requires DistinctOutputs(p) && NoTagOutputs(p)
    ensures WithoutTags(Projected(v, currentType, p, registry, false), p) ==
            Projected(v, currentType, p, registry, false)
    decreases p, 1, v
  {
    match v
    case Array(items) =>
      forall i | 0 <= i < |items|
        ensures WithoutTags(Projected(items[i], currentType, p, registry, false), p) ==
                Projected(items[i], currentType, p, registry, false)
      {
        PlainHasNoTags(items[i], currentType, p, registry);
      }
      assert WithoutTags(Projected(v, currentType, p, registry, false), p).items ==
             Projected(v, currentType, p, registry, false).items;
    case Object(m) =>
      var plain := Answers(m, currentType, p, registry, false);
      forall j | 0 <= j < |p.fields|
        ensures EraseAnswers(plain, p)[j] == plain[j]
      {
        PlainAnswerHasNoTags(j, m, currentType, p, registry);
      }
      PlainObject(currentType, p, plain);
    case _ =>
  }

  lemma {:induction false} PlainAnswerHasNoTags(
      j: nat, m: Map<Value>, currentType: Option<string>, p: Projection, registry: SchemaRegistry)
    requires j < |p.fields| && DistinctOutputs(p) && NoTagOutputs(p)
    ensures var answer := Answer(p.fields[j], m, currentType, registry, false);
      EraseAnswer(p.fields[j].output, answer, p) == answer
    decreases p, 0
  {
    var field := p.fields[j];
    OutputIndexDistinct(p.fields, j);
    assert field.children.Some? ==> forall t :: WithoutTags(String(t), field.children.value) == String(t);
    if !field.IsTypename() && field.ValueIn(m).Some? && field.children.Some? {
      PlainHasNoTags(field.ValueIn(m).value, NestedType(field, currentType, registry), field.children.value, registry);
    }
  }

  lemma PlainObject(currentType: Option<string>, p: Projection, plain: seq<Option<Value>>)
    requires |plain| == |p.fields| && EraseAnswers(plain, p) == plain
    requires NoTagOutputs(p)
    ensures var head := Head(currentType, false);
      WithoutTags(Object(Collect(head + Found(p.fields, plain))), p) == Object(Collect(head + Found(p.fields, plain)))
  {
    hide Collect, Drop, FieldWithoutTags, WithoutTags;
    var head := Head(currentType, false);
    ErasedHead(head, Found(p.fields, plain), p);
    FoundErased(p, plain);
    DropAbsent(Found(p.fields, plain), TYPENAME);
    assert head + Found(p.fields, plain) == Found(p.fields, plain);
  }

  /** So erasing the tags of the result with injection gives the result without. */
  lemma InjectionTouchesOnlyTags(v: Value, currentType: Option<string>, p: Projection, registry: SchemaRegistry)
    requires DistinctOutputs(p) && NoTagOutputs(p)
    ensures WithoutTags(Projected(v, currentType, p, registry, true), p) ==
            Projected(v, currentType, p, registry, false)
  {
    InjectionErased(v, currentType, p, registry);
    PlainHasNoTags(v, currentType, p, registry);
  }

  // ----- a full selection is the schema transform -----

  /** `p` selects every field of `v` in its order, each under its camelCase name and each nested field with its
      own full selection; the rows of a list share one selection. Every field is in the schema, and holds what
      the schema says: a nested list field no single object, a nested single field no list. */
  predicate SelectsAll(p: Projection, v: Value, typeName: string, registry: SchemaRegistry)
    decreases p, 1, v
  {
    match v
    case Array(_) => false
    case Object(m) =>
      && |p.fields| == |m|
      && forall i :: 0 <= i < |m| ==> SelectsField(p.fields[i], m[i], typeName, registry)
    case _ => true
  }

  predicate SelectsField(field: ProjectedField, e: Entry<Value>, typeName: string, registry: SchemaRegistry)
    decreases field
  {
    var info := registry.GetFieldType(typeName, e.key);
    && e.key != TYPENAME
    && field.source == e.key
    && field.output == Camel(e.key)
    && info.Some?
    && match field.children
       case None => !info.value.isNestedObject
       case Some(children) =>
         && info.value.isNestedObject
         && if info.value.isList then
              match e.value
              case Array(items) =>
                forall i :: 0 <= i < |items| ==> SelectsAll(children, items[i], info.value.typeName, registry)
              case Object(_) => false
              case _ => true
            else SelectsAll(children, e.value, info.value.typeName, registry)
  }

  lemma {:induction false} FieldSelected(
      m: Map<Value>, i: nat, p: Projection, typeName: string, registry: SchemaRegistry)
    requires i < |m| == |p.fields| && SelectsField(p.fields[i], m[i], typeName, registry)
    ensures Answer(p.fields[i], m, Some(typeName), registry, true) ==
            Some(TaggedField(m[i].value, registry.GetFieldType(typeName, m[i].key), registry))
    decreases p, 0
  {
    var field, info := p.fields[i], registry.GetFieldType(typeName, m[i].key).value;
    IndexOfUnique(m, i);
    if field.children.Some? {
      if info.isList && m[i].value.Array? {
        var items := m[i].value.items;
        forall j | 0 <= j < |items|
          ensures Projected(items[j], Some(info.typeName), field.children.value, registry, true) ==
                  Tagged(items[j], info.typeName, registry)
        {
          FullSelection(items[j], field.children.value, info.typeName, registry);
        }
        assert Projected(m[i].value, Some(info.typeName), field.children.value, registry, true).items ==
               Nested(m[i].value, info.typeName, true, registry).items;
      } else if !info.isList {
        FullSelection(m[i].value, field.children.value, info.typeName, registry);
      }
    }
  }

  lemma {:induction false} FoundAll(fields: seq<ProjectedField>, answers: seq<Option<Value>>, writes: seq<Entry<Value>>)
    requires |fields| == |answers| == |writes|
    requires forall i :: 0 <= i < |fields| ==> writes[i].key == fields[i].output && answers[i] == Some(writes[i].value)
    ensures Found(fields, answers) == writes
  {
    if fields != [] {
      var n := |fields| - 1;
      FoundAll(fields[..n], answers[..n], writes[..n]);
      assert writes[n] == Entry(fields[n].output, answers[n].value);
      assert writes == writes[..n] + [writes[n]];
    }
  }

  /** Selecting everything, with injection, is the schema transform, at every depth. */
  lemma {:induction false} FullSelection(v: Value, p: Projection, typeName: string, registry: SchemaRegistry)
    requires SelectsAll(p, v, typeName, registry)
    ensures Projected(v, Some(typeName), p, registry, true) == Tagged(v, typeName, registry)
    decreases p, 1, v
  {
    match v
    case Object(m) =>
      var answers, writes := Answers(m, Some(typeName), p, registry, true), TaggedFields(m, typeName, registry);
      forall i | 0 <= i < |m|
        ensures writes[i].key == p.fields[i].output && answers[i] == Some(writes[i].value)
      {
        FieldSelected(m, i, p, typeName, registry);
      }
      FoundAll(p.fields, answers, writes);
    case _ =>
  }

  // ----- the full selection of a row -----

  /** The full selection of `v`, written down from `v` itself; of a list, from its first object. */
  function Everything(v: Value, typeName: string, registry: SchemaRegistry): Projection
    decreases v, 1
  {
    match v
    case Object(m) => Projection(seq(|m|, i requires 0 <= i < |m| => FieldFor(m[i], typeName, registry)))
    case _ => Projection([])
  }

  function FieldFor(e: Entry<Value>, typeName: string, registry: SchemaRegistry): ProjectedField
    decreases e, 0
  {
    var info := registry.GetFieldType(typeName, e.key);
    var children :=
      if info.Some? && info.value.isNestedObject then
        if info.value.isList && e.value.Array? then Some(RowSelection(e.value.items, info.value.typeName, registry))
        else Some(Everything(e.value, info.value.typeName, registry))
      else None;
    ProjectedField(e.key, Alternates(e.key), Camel(e.key), None, children)
  }

  function RowSelection(items: seq<Value>, typeName: string, registry: SchemaRegistry): Projection
    decreases items
  {
    if items == [] then Projection([])
    else if items[0].Object? then Everything(items[0], typeName, registry)
    else RowSelection(items[1..], typeName, registry)
  }

  /** The row holds fields of the schema only, in the shapes the schema gives them, and the objects of a list
      have the same full selection. */
  predicate Selectable(v: Value, typeName: string, registry: SchemaRegistry)
    decreases v, 1
  {
    match v
    case Array(_) => false
    case Object(m) => forall i :: 0 <= i < |m| ==> SelectableField(m[i], typeName, registry)
    case _ => true
  }

  predicate SelectableField(e: Entry<Value>, typeName: string, registry: SchemaRegistry)
    decreases e, 0
  {
    var info := registry.GetFieldType(typeName, e.key);
    && e.key != TYPENAME
    && info.Some?
    && (info.value.isNestedObject ==>
          if info.value.isList then
            match e.value
            case Array(items) =>
              forall i :: 0 <= i < |items| ==>
                && Selectable(items[i], info.value.typeName, registry)
                && (items[i].Object? ==> Everything(items[i], info.value.typeName, registry) ==
                                         RowSelection(items, info.value.typeName, registry))
            case Object(_) => false
            case _ => true
          else Selectable(e.value, info.value.typeName, registry))
  }

  lemma {:induction false} EverythingSelectsAll(v: Value, typeName: string, registry: SchemaRegistry)
    requires Selectable(v, typeName, registry)
    ensures SelectsAll(Everything(v, typeName, registry), v, typeName, registry)
  {
    match v
    case Object(m) =>
      forall i | 0 <= i < |m|
        ensures SelectsField(FieldFor(m[i], typeName, registry), m[i], typeName, registry)
      {
        assert SelectableField(m[i], typeName, registry);
        var info, e := registry.GetFieldType(typeName, m[i].key).value, m[i].value;
        if info.isNestedObject {
          if info.isList && e.Array? {
            forall j | 0 <= j < |e.items|
              ensures SelectsAll(RowSelection(e.items, info.typeName, registry), e.items[j], info.typeName, registry)
            {
              EverythingSelectsAll(e.items[j], info.typeName, registry);
            }
          } else if !info.isList {
            EverythingSelectsAll(e, info.typeName, registry);
          }
        }
      }
    case _ =>
  }

  /** So every such row has a selection under which the two transforms answer the same. */
  lemma EverythingIsTheSchemaTransform(v: Value, typeName: string, registry: SchemaRegistry)
    requires Selectable(v, typeName, registry)
    ensures Projected(v, Some(typeName), Everything(v, typeName, registry), registry, true) ==
            Tagged(v, typeName, registry)
  {
    EverythingSelectsAll(v, typeName, registry);
    FullSelection(v, Everything(v, typeName, registry), typeName, registry);
  }
}
