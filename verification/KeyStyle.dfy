/** snake_case and camelCase data get the same response. */
module KeyStyle {
  import opened CamelCase
  import opened Json
  import opened KeyTransform
  import opened Options
  import opened Schema
  import opened SchemaTransform
  import opened Decoration
  import opened TypedPaths

  lemma {:induction false} FieldStyleInsensitive(v: Value, info: Option<FieldInfo>, registry: SchemaRegistry)
    requires forall t :: registry.StyleInsensitive(t)
    requires FieldConforms(v, info, registry)
    ensures TaggedField(Camelized(v), info, registry) == TaggedField(v, info, registry)
    decreases v, 2
  {
    match info
    case None => CamelizedIdempotent(v);
    case Some(field) =>
      if !field.isNestedObject {
        AllCamelUnchanged(v);
      } else if field.isList {
        match v
        case Array(items) =>
          forall i | 0 <= i < |items|
            ensures Tagged(Camelized(items[i]), field.typeName, registry) == Tagged(items[i], field.typeName, registry)
          {
            KeyStyleInsensitive(items[i], field.typeName, registry);
          }
          assert Nested(Camelized(v), field.typeName, true, registry).items ==
                 Nested(v, field.typeName, true, registry).items;
        case _ => AllCamelUnchanged(v);
      } else {
        KeyStyleInsensitive(v, field.typeName, registry);
      }
  }

  /** Rows whose keys are in camelCase already get the same response as the snake_case rows they come from. */
  lemma {:induction false} KeyStyleInsensitive(v: Value, typeName: string, registry: SchemaRegistry)
    requires forall t :: registry.StyleInsensitive(t)
    requires Conforms(v, typeName, registry)
    ensures Tagged(Camelized(v), typeName, registry) == Tagged(v, typeName, registry)
    decreases v, 0
  {
    match v
    case Object(m) =>
      CamelizedFields(m, typeName, registry);
      var f := ByKey(typeName, registry);
      registry.LookupStyleIff(typeName);
      forall i | 0 <= i < |m| && Live(Renamed(m), i)
        ensures MapValues(f, CamelWrites(m))[i].value == TaggedFields(m, typeName, registry)[i].value
      {
        FieldStyleInsensitive(m[i].value, registry.GetFieldType(typeName, m[i].key), registry);
      }
      SameLiveFields(m, typeName, registry);
    case _ => AllCamelUnchanged(v);
  }

  lemma {:induction false} FieldStyleOnlyWhenConforming(v: Value, info: Option<FieldInfo>, registry: SchemaRegistry)
    requires forall t :: registry.StyleInsensitive(t)
    requires TaggedField(Camelized(v), info, registry) == TaggedField(v, info, registry)
    ensures FieldConforms(v, info, registry)
    decreases v, 2
  {
    match info
    case None =>
    case Some(field) =>
      UnchangedIff(v);
      if field.isNestedObject {
        if field.isList {
          if v.Array? {
            var items := v.items;
            var a, b := Nested(Camelized(v), field.typeName, true, registry).items,
                        Nested(v, field.typeName, true, registry).items;
            forall i | 0 <= i < |items|
              ensures Conforms(items[i], field.typeName, registry)
            {
              assert a[i] == b[i];
              StyleOnlyWhenConforming(items[i], field.typeName, registry);
            }
          }
        } else {
          StyleOnlyWhenConforming(v, field.typeName, registry);
        }
      }
  }

  lemma {:induction false} StyleOnlyWhenConforming(v: Value, typeName: string, registry: SchemaRegistry)
    requires forall t :: registry.StyleInsensitive(t)
    requires Tagged(Camelized(v), typeName, registry) == Tagged(v, typeName, registry)
    ensures Conforms(v, typeName, registry)
    decreases v, 0
  {
    match v
    case Object(m) =>
      var fields := TaggedFields(m, typeName, registry);
      var restyled := MapValues(ByKey(typeName, registry), CamelWrites(m));
      CamelizedFields(m, typeName, registry);
      assert Keys(fields) == Keys(Renamed(m)) == Keys(restyled);
      registry.LookupStyleIff(typeName);
      hide Camel, Collect, Lookup, Camelized;
      forall i | 0 <= i < |m| && Live(Renamed(m), i)
        ensures FieldConforms(m[i].value, registry.GetFieldType(typeName, m[i].key), registry)
      {
        LiveAfterTag(Tag(typeName), fields, Renamed(m), i);
        LiveAfterTag(Tag(typeName), restyled, Renamed(m), i);
        assert fields[i].key == restyled[i].key;
        assert fields[i].value == restyled[i].value;
        FieldStyleOnlyWhenConforming(m[i].value, registry.GetFieldType(typeName, m[i].key), registry);
      }
    case _ => UnchangedIff(v);
  }

  /** The row in camelCase, tagged: its writes are those of the row, restyled. */
  lemma CamelizedFields(m: Map<Value>, typeName: string, registry: SchemaRegistry)
    ensures Tagged(Camelized(Object(m)), typeName, registry) ==
            Object(Collect([Tag(typeName)] + MapValues(ByKey(typeName, registry), CamelWrites(m))))
  {
    CamelizedIsAllCamel(Object(m));
    RetaggedFields(Collect(CamelWrites(m)), typeName, registry);
    var f := ByKey(typeName, registry);
    CollectMapValues(f, CamelWrites(m));
    CollectOfCollected([Tag(typeName)], MapValues(f, CamelWrites(m)));
  }

  /** Snake_case rows and the same rows in camelCase get the same response exactly when they conform. */
  lemma KeyStyleInsensitiveIff(v: Value, typeName: string, registry: SchemaRegistry)
    requires forall t :: registry.StyleInsensitive(t)
    ensures Tagged(Camelized(v), typeName, registry) == Tagged(v, typeName, registry) <==>
            Conforms(v, typeName, registry)
  {
    if Conforms(v, typeName, registry) {
      KeyStyleInsensitive(v, typeName, registry);
    } else if Tagged(Camelized(v), typeName, registry) == Tagged(v, typeName, registry) {
      StyleOnlyWhenConforming(v, typeName, registry);
    }
  }

  function ByKey(typeName: string, registry: SchemaRegistry): (string, Value) -> Value {
    (k: string, v: Value) => TaggedField(v, registry.GetFieldType(typeName, k), registry)
  }

  lemma RetaggedFields(m: Map<Value>, typeName: string, registry: SchemaRegistry)
    requires AllCamel(Object(m))
    ensures TaggedFields(m, typeName, registry) == MapValues(ByKey(typeName, registry), m)
  {
    forall i | 0 <= i < |m|
      ensures Camel(m[i].key) == m[i].key
    {
      FixedPointIff(m[i].key);
    }
  }

  lemma SameLiveFields(m: Map<Value>, typeName: string, registry: SchemaRegistry)
    requires forall i :: 0 <= i < |m| && Live(Renamed(m), i) ==>
      MapValues(ByKey(typeName, registry), CamelWrites(m))[i].value == TaggedFields(m, typeName, registry)[i].value
    ensures Collect([Tag(typeName)] + MapValues(ByKey(typeName, registry), CamelWrites(m))) ==
            Collect([Tag(typeName)] + TaggedFields(m, typeName, registry))
  {
    hide Camel, Camelized, Collect;
    var a, b := MapValues(ByKey(typeName, registry), CamelWrites(m)), TaggedFields(m, typeName, registry);
    assert Keys(a) == Keys(Renamed(m)) == Keys(b);
    SameLiveAfter(Tag(typeName), a, b, Renamed(m));
  }
}
