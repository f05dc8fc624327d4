/** Which type tags which object. */
module TypedPaths {
  import opened CamelCase
  import opened Json
  import opened KeyTransform
  import opened Options
  import opened Schema
  import opened SchemaTransform
  import opened Decoration

  datatype Step = Key(key: string) | Item(index: nat)

  /** Where `path` leads in the result. */
  function Follow(r: Value, path: seq<Step>): Option<Value> {
    if path == [] then Some(r)
    else
      match (path[0], r)
      case (Key(k), Object(m)) => if Has(m, k) then Follow(Lookup(m, k).value, path[1..]) else None
      case (Item(i), Array(items)) => if i < |items| then Follow(items[i], path[1..]) else None
      case _ => None
  }

  function CamelPath(path: seq<Step>): (r: seq<Step>)
    ensures |r| == |path|
  {
    seq(|path|, i requires 0 <= i < |path| => if path[i].Key? then Key(Camel(path[i].key)) else path[i])
  }

  /** Where `path` leads in the data through the schema's nested fields, and the type the schema gives
      there; a nested list field is entered by its items. */
  function Reach(v: Value, typeName: string, isList: bool, path: seq<Step>, registry: SchemaRegistry)
    : Option<(Value, string)>
  {
    if path == [] then if isList then None else Some((v, typeName))
    else
      match (path[0], v)
      case (Key(k), Object(m)) =>
        var i, info := IndexOf(m, k), registry.GetFieldType(typeName, k);
        if !isList && i < |m| && Live(Renamed(m), i) && info.Some? && info.value.isNestedObject then
          Reach(m[i].value, info.value.typeName, info.value.isList, path[1..], registry)
        else None
      case (Item(i), Array(items)) =>
        if isList && i < |items| then Reach(items[i], typeName, false, path[1..], registry) else None
      case _ => None
  }

  lemma TaggedLookup(m: Map<Value>, typeName: string, registry: SchemaRegistry, i: nat)
    requires i < |m| && Live(Renamed(m), i)
    ensures Lookup(Tagged(Object(m), typeName, registry).fields, Camel(m[i].key)) ==
            Some(TaggedField(m[i].value, registry.GetFieldType(typeName, m[i].key), registry))
  {
    hide Camel, Collect, Lookup, LastWrite, FirstOccurrences;
    var fields := TaggedFields(m, typeName, registry);
    TaggedKeys(m, typeName, registry);
    LiveAfterTag(Tag(typeName), fields, Renamed(m), i);
    assert fields[i].key == Camel(m[i].key);
  }

  lemma LiveAfterTag(tag: Entry<Value>, fields: seq<Entry<Value>>, names: seq<Entry<Value>>, i: nat)
    requires Keys(fields) == Keys(names) && i < |fields| == |names| && Live(names, i)
    ensures Lookup(Collect([tag] + fields), fields[i].key) == Some(fields[i].value)
  {
    hide Collect, Lookup, LastWrite;
    LiveByKeys(fields, names, i);
    LastWriteLive(fields, fields[i].key);
    LookupCollect([tag] + fields, fields[i].key);
    LastWriteConcat([tag], fields, fields[i].key);
  }

  /** An object's tag stands first, and is its type exactly unless a data field overwrites it with
      something else. */
  lemma TagIff(m: Map<Value>, typeName: string, registry: SchemaRegistry, m': Map<Value>)
    requires Tagged(Object(m), typeName, registry) == Object(m')
    ensures Lookup(m', TYPENAME) == Some(String(typeName)) <==>
            forall i :: 0 <= i < |m| && Live(Renamed(m), i) && Camel(m[i].key) == TYPENAME ==>
              m[i].value == String(typeName)
    ensures m' != [] && m'[0].key == TYPENAME
  {
    hide Camel, Collect, Lookup, LastWrite, FirstOccurrences;
    var fields := TaggedFields(m, typeName, registry);
    LookupFirst(Tag(typeName), fields);
    TaggedKeys(m, typeName, registry);
    KeysCollect([Tag(typeName)] + fields);
    KeysAfterFirst(Tag(typeName), fields);
    FirstStays(TYPENAME, Keys(fields));
    assert Keys(m')[0] == TYPENAME;
    LiveWritesAre(fields, TYPENAME, String(typeName));
    forall i | 0 <= i < |m|
      ensures fields[i].key == Camel(m[i].key)
      ensures Live(fields, i) <==> Live(Renamed(m), i)
      ensures fields[i].value == String(typeName) <==> m[i].value == String(typeName)
    {
      LiveByKeys(fields, Renamed(m), i);
      StringKept(m[i].value, registry.GetFieldType(typeName, m[i].key), registry, typeName);
    }
  }

  lemma StringKept(v: Value, info: Option<FieldInfo>, registry: SchemaRegistry, text: string)
    ensures TaggedField(v, info, registry) == String(text) <==> v == String(text)
  {
    match info
    case None =>
    case Some(field) => assert Nested(v, field.typeName, field.isList, registry).String? <==> v.String?;
  }

  lemma LiveWritesAre(writes: seq<Entry<Value>>, k: string, v: Value)
    ensures (LastWrite(writes, k).Some? ==> LastWrite(writes, k) == Some(v)) <==>
            forall i :: 0 <= i < |writes| && Live(writes, i) && writes[i].key == k ==> writes[i].value == v
  {
    LastWriteLive(writes, k);
    assert forall i :: 0 <= i < |writes| ==> Keys(writes)[i] == writes[i].key;
  }

  /** Wherever the schema's nested fields lead in the data, the same path in camelCase leads in the
      result to the value transformed for the type the schema gives it: every object on the way is tagged
      with its own type. */
  lemma {:induction false} TypedAtEveryPath(
      v: Value, typeName: string, isList: bool, path: seq<Step>, registry: SchemaRegistry, w: Value, wType: string)
    requires Reach(v, typeName, isList, path, registry) == Some((w, wType))
    ensures Follow(Nested(v, typeName, isList, registry), CamelPath(path)) == Some(Tagged(w, wType, registry))
    ensures w.Object? && (forall e <- w.fields :: Camel(e.key) != TYPENAME) ==>
            Lookup(Tagged(w, wType, registry).fields, TYPENAME) == Some(String(wType))
  {
    hide Camel, Collect;
    if w.Object? {
      TagIff(w.fields, wType, registry, Tagged(w, wType, registry).fields);
    }
    if path != [] {
      assert CamelPath(path)[1..] == CamelPath(path[1..]);
      match (path[0], v)
      case (Key(k), Object(m)) =>
        var i, info := IndexOf(m, k), registry.GetFieldType(typeName, k);
        TypedAtEveryPath(m[i].value, info.value.typeName, info.value.isList, path[1..], registry, w, wType);
        TaggedLookup(m, typeName, registry, i);
      case (Item(i), Array(items)) =>
        TypedAtEveryPath(items[i], typeName, false, path[1..], registry, w, wType);
    }
  }
}
