/** Tagging only decorates: it adds `__typename`, and changes nothing else in data that conforms to the schema. */
module Decoration {
  import opened CamelCase
  import opened Json
  import opened KeyTransform
  import opened Options
  import opened Schema
  import opened SchemaTransform

  /** `v` without its `__typename` fields, at every depth. */
  function Untagged(v: Value): Value {
    match v
    case Object(m) =>
      Object(Drop(seq(|m|, i requires 0 <= i < |m| => Entry(m[i].key, Untagged(m[i].value))), TYPENAME))
    case Array(items) => Array(seq(|items|, i requires 0 <= i < |items| => Untagged(items[i])))
    case _ => v
  }

  /** No key at any depth camel-cases to `__typename`. */
  predicate NoTypenameKey(v: Value) {
    match v
    case Object(m) => forall i :: 0 <= i < |m| ==> Camel(m[i].key) != TYPENAME && NoTypenameKey(m[i].value)
    case Array(items) => forall i :: 0 <= i < |items| ==> NoTypenameKey(items[i])
    case _ => true
  }

  /** `v` is shaped as the schema says an object of this type is. A field that a later key of the same
      camelCase form overwrites does not matter; a value that the schema says is no object is copied, so
      it may hold objects only if their keys are in camelCase already. */
  predicate Conforms(v: Value, typeName: string, registry: SchemaRegistry)
    decreases v, 0
  {
    match v
    case Object(m) =>
      forall i :: 0 <= i < |m| && Live(Renamed(m), i) ==>
        FieldConforms(m[i].value, registry.GetFieldType(typeName, m[i].key), registry)
    case _ => AllCamel(v)
  }

  predicate FieldConforms(v: Value, info: Option<FieldInfo>, registry: SchemaRegistry)
    decreases v, 2
  {
    match info
    case None => true
    case Some(field) =>
      if field.isNestedObject then NestedConforms(v, field.typeName, field.isList, registry) else AllCamel(v)
  }

  predicate NestedConforms(v: Value, typeName: string, isList: bool, registry: SchemaRegistry)
    decreases v, 1
  {
    if isList then
      match v
      case Array(items) => forall i :: 0 <= i < |items| ==> Conforms(items[i], typeName, registry)
      case _ => AllCamel(v)
    else Conforms(v, typeName, registry)
  }

  lemma TypenameIsCamel()
    ensures Camel(TYPENAME) == TYPENAME
  {
    LeadingOfUnderscores(TYPENAME, 2);
    FixedPointIff(TYPENAME);
  }

  lemma {:induction false} UntaggedUnchanged(v: Value)
    requires NoTypenameKey(v)
    ensures Untagged(v) == v
  {
    TypenameIsCamel();
    match v
    case Object(m) =>
      var entries := seq(|m|, i requires 0 <= i < |m| => Entry(m[i].key, Untagged(m[i].value)));
      forall i | 0 <= i < |m|
        ensures entries[i] == m[i]
      {
        UntaggedUnchanged(m[i].value);
      }
      assert entries == m;
      DropAbsent(m, TYPENAME);
    case Array(items) =>
      forall i | 0 <= i < |items|
        ensures Untagged(items[i]) == items[i]
      {
        UntaggedUnchanged(items[i]);
      }
      assert Untagged(v).items == items;
    case _ =>
  }

  lemma {:induction false} CamelizedNoTypename(v: Value)
    requires NoTypenameKey(v)
    ensures NoTypenameKey(Camelized(v))
  {
    match v
    case Object(m) =>
      var r := Collect(CamelWrites(m));
      forall i | 0 <= i < |r|
        ensures Camel(r[i].key) != TYPENAME && NoTypenameKey(r[i].value)
      {
        CollectedFrom(CamelWrites(m), r[i]);
        var j :| 0 <= j < |m| && CamelWrites(m)[j] == r[i];
        Idempotent(m[j].key);
        CamelizedNoTypename(m[j].value);
      }
    case Array(items) =>
      forall i | 0 <= i < |items|
        ensures NoTypenameKey(Camelized(items[i]))
      {
        CamelizedNoTypename(items[i]);
      }
    case _ =>
  }

  function UntaggedValue(k: string, v: Value): Value {
    Untagged(v)
  }

  lemma UntaggedIsMap(m: Map<Value>)
    ensures Untagged(Object(m)) == Object(Drop(MapValues(UntaggedValue, m), TYPENAME))
  {
    assert seq(|m|, i requires 0 <= i < |m| => Entry(m[i].key, Untagged(m[i].value))) == MapValues(UntaggedValue, m);
  }

  /** Erasing the tags of a tagged object: what is left was written field by field. */
  lemma UntaggedObject(fields: seq<Entry<Value>>, tag: Entry<Value>)
    requires tag.key == TYPENAME && forall e <- fields :: e.key != tag.key
    ensures Untagged(Object(Collect([tag] + fields))) == Object(Collect(MapValues(UntaggedValue, fields)))
  {
    UntaggedIsMap(Collect([tag] + fields));
    CollectDropFirst(UntaggedValue, tag, fields);
  }

  lemma ObjectDecorationIff(
      tag: Entry<Value>, fields: seq<Entry<Value>>, plain: seq<Entry<Value>>, names: seq<Entry<Value>>)
    requires Keys(fields) == Keys(plain) == Keys(names) && |fields| == |plain| == |names|
    requires tag.key == TYPENAME && forall e <- fields :: e.key != tag.key
    ensures Untagged(Object(Collect([tag] + fields))) == Object(Collect(plain)) <==>
            forall i :: 0 <= i < |names| && Live(names, i) ==> Untagged(fields[i].value) == plain[i].value
  {
    hide Collect, Live, Untagged, Drop;
    UntaggedObject(fields, tag);
    var mapped := MapValues(UntaggedValue, fields);
    assert Keys(mapped) == Keys(fields);
    CollectEqualIff(mapped, plain, names);
    assert forall i :: 0 <= i < |names| ==> mapped[i].value == Untagged(fields[i].value);
  }

  lemma TaggedKeys(m: Map<Value>, typeName: string, registry: SchemaRegistry)
    ensures Keys(TaggedFields(m, typeName, registry)) == Keys(Renamed(m))
  {
    hide Camel;
  }

  /** Tagging is pure decoration: taking the tags away gives the plain key rewrite, order included,
      exactly when the data conforms to the type; for every registry. */
  lemma {:induction false} DecorationIff(v: Value, typeName: string, registry: SchemaRegistry)
    requires NoTypenameKey(v)
    ensures Untagged(Tagged(v, typeName, registry)) == Camelized(v) <==> Conforms(v, typeName, registry)
    decreases v, 0
  {
    match v
    case Object(m) =>
      var fields := TaggedFields(m, typeName, registry);
      TaggedKeys(m, typeName, registry);
      SameKeys(m);
      ObjectDecorationIff(Tag(typeName), fields, CamelWrites(m), Renamed(m));
      forall i | 0 <= i < |m|
        ensures Untagged(fields[i].value) == CamelWrites(m)[i].value <==>
                FieldConforms(m[i].value, registry.GetFieldType(typeName, m[i].key), registry)
      {
        FieldDecorationIff(m[i].value, registry.GetFieldType(typeName, m[i].key), registry);
      }
    case _ =>
      UntaggedUnchanged(v);
      UnchangedIff(v);
  }

  lemma {:induction false} FieldDecorationIff(v: Value, info: Option<FieldInfo>, registry: SchemaRegistry)
    requires NoTypenameKey(v)
    ensures Untagged(TaggedField(v, info, registry)) == Camelized(v) <==> FieldConforms(v, info, registry)
    decreases v, 2
  {
    match info
    case None =>
      CamelizedNoTypename(v);
      UntaggedUnchanged(Camelized(v));
    case Some(field) =>
      if field.isNestedObject {
        NestedDecorationIff(v, field.typeName, field.isList, registry);
      } else {
        UntaggedUnchanged(v);
        UnchangedIff(v);
      }
  }

  lemma {:induction false} NestedDecorationIff(v: Value, typeName: string, isList: bool, registry: SchemaRegistry)
    requires NoTypenameKey(v)
    ensures Untagged(Nested(v, typeName, isList, registry)) == Camelized(v) <==>
            NestedConforms(v, typeName, isList, registry)
    decreases v, 1
  {
    if isList {
      match v
      case Array(items) =>
        var a, b := Untagged(Nested(v, typeName, true, registry)).items, Camelized(v).items;
        forall i | 0 <= i < |items|
          ensures a[i] == b[i] <==> Conforms(items[i], typeName, registry)
        {
          DecorationIff(items[i], typeName, registry);
        }
        assert a == b <==> forall i :: 0 <= i < |items| ==> a[i] == b[i];
      case _ =>
        UntaggedUnchanged(v);
        UnchangedIff(v);
    } else {
      DecorationIff(v, typeName, registry);
    }
  }
}
