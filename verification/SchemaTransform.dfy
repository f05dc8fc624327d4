/** `transform_with_schema` and `transform_nested_object` (fraiseql_rs/src/json_transform.rs). */
module SchemaTransform {
  import opened CamelCase
  import opened Json
  import opened KeyTransform
  import opened Options
  import opened Schema

  const TYPENAME := "__typename"

  // ----- the specification: one pure function a field -----

  function Tagged(v: Value, typeName: string, registry: SchemaRegistry): Value
    decreases v, 0
  {
    match v
    case Object(m) => Object(Collect([Tag(typeName)] + TaggedFields(m, typeName, registry)))
    case _ => v
  }

  function Tag(typeName: string): Entry<Value> {
    Entry(TYPENAME, String(typeName))
  }

  function TaggedFields(m: Map<Value>, typeName: string, registry: SchemaRegistry): (writes: seq<Entry<Value>>)
    ensures |writes| == |m|
    decreases m
  {
    seq(|m|, i requires 0 <= i < |m| =>
      Entry(Camel(m[i].key), TaggedField(m[i].value, registry.GetFieldType(typeName, m[i].key), registry)))
  }

  function TaggedField(v: Value, info: Option<FieldInfo>, registry: SchemaRegistry): Value
    decreases v, 2
  {
    match info
    case None => Camelized(v)
    case Some(field) => if field.isNestedObject then Nested(v, field.typeName, field.isList, registry) else v
  }

  function Nested(v: Value, typeName: string, isList: bool, registry: SchemaRegistry): Value
    decreases v, 1
  {
    if isList then
      match v
      case Array(items) => Array(seq(|items|, i requires 0 <= i < |items| => Tagged(items[i], typeName, registry)))
      case _ => v
    else Tagged(v, typeName, registry)
  }

  // ----- the code -----

  method TransformNestedObject(value: Value, typeName: string, isList: bool, registry: SchemaRegistry)
    returns (r: Value)
    ensures r == Nested(value, typeName, isList, registry)
    decreases value, 1
  {
    if isList {
      match value
      case Array(items) =>
        var transformed: seq<Value> := [];
        for i := 0 to |items|
          invariant |transformed| == i
          invariant forall j :: 0 <= j < i ==> transformed[j] == Tagged(items[j], typeName, registry)
        {
          var item := Null;
          if items[i] != Null {
            item := TransformWithSchema(items[i], typeName, registry);
          }
          transformed := transformed + [item];
        }
        r := Array(transformed);
      case Null => r := Null;
      case _ => r := value;
    } else {
      match value
      case Null => r := Null;
      case _ => r := TransformWithSchema(value, typeName, registry);
    }
  }

  /** The result after the tag and the first `n` fields. */
  ghost function Prefix(m: Map<Value>, typeName: string, registry: SchemaRegistry, n: nat): Map<Value>
    requires n <= |m|
  {
    Collect(([Tag(typeName)] + TaggedFields(m, typeName, registry))[..n + 1])
  }

  lemma PrefixStart(m: Map<Value>, typeName: string, registry: SchemaRegistry)
    ensures Prefix(m, typeName, registry, 0) == Insert([], TYPENAME, String(typeName))
  {
    CollectStep([Tag(typeName)] + TaggedFields(m, typeName, registry), 0);
  }

  lemma PrefixStep(m: Map<Value>, typeName: string, registry: SchemaRegistry, i: nat)
    requires i < |m|
    ensures Prefix(m, typeName, registry, i + 1) ==
            Insert(Prefix(m, typeName, registry, i), Camel(m[i].key),
                   TaggedField(m[i].value, registry.GetFieldType(typeName, m[i].key), registry))
  {
    var writes := [Tag(typeName)] + TaggedFields(m, typeName, registry);
    assert writes[i + 1] == TaggedFields(m, typeName, registry)[i];
    CollectStep(writes, i + 1);
  }

  lemma PrefixAll(m: Map<Value>, typeName: string, registry: SchemaRegistry)
    ensures Object(Prefix(m, typeName, registry, |m|)) == Tagged(Object(m), typeName, registry)
  {
    var writes := [Tag(typeName)] + TaggedFields(m, typeName, registry);
    assert writes[..|m| + 1] == writes;
  }

  /** The map is copied once, and shrinks as the values are taken out of it: each `unwrap` succeeds
      because a key not visited yet is still owned. */
  method TransformWithSchema(value: Value, currentType: string, registry: SchemaRegistry) returns (r: Value)
    ensures r == Tagged(value, currentType, registry)
    decreases value, 0
  {
    match value
    case Object(m) =>
      var result: Map<Value> := Insert([], TYPENAME, String(currentType));
      PrefixStart(m, currentType, registry);
      var owned := m;
      OwnsAll(m);
      for i := 0 to |m|
        invariant result == Prefix(m, currentType, registry, i)
        invariant Owns(owned, m, i)
      {
        var key := m[i].key;
        var camelKey := ToCamelCase(key);
        OwnedFound(owned, m, i);
        var transformed: Value;
        match registry.GetFieldType(currentType, key) {
        case Some(field) =>
          if field.isNestedObject {
            var val := Lookup(owned, key).value;
            transformed := TransformNestedObject(val, field.typeName, field.isList, registry);
          } else {
            transformed := Lookup(owned, key).value;
            owned := SwapRemove(owned, key);
          }
        case None =>
          var val := Lookup(owned, key).value;
          owned := SwapRemove(owned, key);
          transformed := TransformValue(val);
        }
        result := Insert(result, camelKey, transformed);
        PrefixStep(m, currentType, registry, i);
      }
      PrefixAll(m, currentType, registry);
      r := Object(result);
    case Null => r := Null;
    case _ => r := value;
  }
}
