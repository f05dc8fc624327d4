/** What the schema transform does, told from the declarations of the schema alone. */
module Tagging {
  import opened CamelCase
  import opened Json
  import opened KeyTransform
  import opened Options
  import opened Schema
  import opened SchemaTransform
  import opened TypedPaths

  /** `r` is the row `v`, tagged: the tag first, then the camelCase keys in the order in which they first come up; and
      under each what the schema says of the last key that has this form. */
  ghost predicate IsTagged(r: Value, v: Value, typeName: string, registry: SchemaRegistry)
    decreases v, 0
  {
    match v
    case Object(m) =>
      && r.Object?
      && Keys(r.fields) == FirstOccurrences([TYPENAME] + Keys(Renamed(m)))
      && (forall i, j :: 0 <= i < |r.fields| && 0 <= j < |m| && r.fields[i].key == Camel(m[j].key) &&
                         Live(Renamed(m), j) ==>
            IsTaggedField(r.fields[i].value, m[j].value, m[j].key, typeName, registry))
      && (TYPENAME !in Keys(Renamed(m)) ==> |r.fields| > 0 && r.fields[0].value == String(typeName))
    case _ => r == v
  }

  /** A declared field is what its declaration says; any other is rewritten, and not tagged. */
  ghost predicate IsTaggedField(x: Value, v: Value, k: string, typeName: string, registry: SchemaRegistry)
    decreases v, 2
  {
    && (forall info | registry.Declares(typeName, k, info) :: IsDeclared(x, v, info, registry))
    && (registry.Undeclared(typeName, k) ==> IsRewrite(x, v))
  }

  ghost predicate IsDeclared(x: Value, v: Value, info: FieldInfo, registry: SchemaRegistry)
    decreases v, 1
  {
    if !info.isNestedObject then x == v
    else if !info.isList then IsTagged(x, v, info.typeName, registry)
    else
      match v
      case Array(items) =>
        && x.Array?
        && |x.items| == |items|
        && forall i :: 0 <= i < |items| ==> IsTagged(x.items[i], items[i], info.typeName, registry)
      case _ => x == v
  }

  lemma LastWriteOne(e: Entry<Value>, k: string)
    ensures LastWrite([e], k) == if k == e.key then Some(e.value) else None
  {
    assert [e][..0] == [];
  }

  lemma LastWriteTagged(
      tag: Entry<Value>, writes: seq<Entry<Value>>, names: seq<Entry<Value>>, k: string, x: Value)
    requires Keys(writes) == Keys(names) && |writes| == |names|
    requires k in Keys(names) || k == tag.key
    ensures LastWrite([tag] + writes, k) == Some(x) <==>
            if k in Keys(names) then
              forall j :: 0 <= j < |names| && k == names[j].key && Live(names, j) ==> x == writes[j].value
            else x == tag.value
  {
    hide LastWrite;
    LastWriteConcat([tag], writes, k);
    LastWriteOne(tag, k);
    LastWriteLive(writes, k);
    forall j | 0 <= j < |names|
      ensures names[j].key == writes[j].key && (Live(names, j) <==> Live(writes, j))
    {
      LiveByKeys(writes, names, j);
      assert Keys(names)[j] == Keys(writes)[j];
    }
  }

  lemma TaggedWritesIff(
      tag: Entry<Value>, writes: seq<Entry<Value>>, names: seq<Entry<Value>>, r: Map<Value>)
    requires Keys(writes) == Keys(names) && |writes| == |names|
    ensures r == Collect([tag] + writes) <==>
            && Keys(r) == FirstOccurrences([tag.key] + Keys(names))
            && (forall i, j :: 0 <= i < |r| && 0 <= j < |names| && r[i].key == names[j].key && Live(names, j) ==>
                  r[i].value == writes[j].value)
            && (tag.key !in Keys(names) ==> |r| > 0 && r[0].value == tag.value)
  {
    hide Collect, FirstOccurrences, LastWrite;
    KeysAfterFirst(tag, writes);
    CollectIff([tag] + writes, r);
    FirstStays(tag.key, Keys(names));
    FirstOccurrencesConcat([], [tag.key] + Keys(names));
    assert |r| > 0 ==> Keys(r)[0] == r[0].key;
    if Keys(r) == FirstOccurrences([tag.key] + Keys(names)) {
      forall i | 0 <= i < |r|
        ensures r[i].key in Keys(names) || (i == 0 && r[i].key == tag.key)
        ensures LastWrite([tag] + writes, r[i].key) == Some(r[i].value) <==>
                if r[i].key in Keys(names) then
                  forall j :: 0 <= j < |names| && r[i].key == names[j].key && Live(names, j) ==>
                    r[i].value == writes[j].value
                else r[i].value == tag.value
      {
        assert Keys(r)[i] == r[i].key && Keys(r)[i] in Keys(r);
        LastWriteTagged(tag, writes, names, r[i].key, r[i].value);
      }
      forall i, j | 0 <= i < |r| && 0 <= j < |names| && r[i].key == names[j].key
        ensures r[i].key in Keys(names)
      {
        assert Keys(names)[j] == names[j].key;
      }
    }
  }

  /** The code's result is the one value so tagged: for every row, type and registry. */
  lemma {:induction false} TaggedIff(r: Value, v: Value, typeName: string, registry: SchemaRegistry)
    ensures IsTagged(r, v, typeName, registry) <==> r == Tagged(v, typeName, registry)
    decreases v, 0
  {
    hide Camel, Collect, Live, FirstOccurrences, Keys, Camelized;
    match v
    case Object(m) =>
      if r.Object? {
        var fields := TaggedFields(m, typeName, registry);
        FieldNames(m, typeName, registry);
        TaggedWritesIff(Tag(typeName), fields, Renamed(m), r.fields);
        forall i, j | 0 <= i < |r.fields| && 0 <= j < |m|
          ensures IsTaggedField(r.fields[i].value, m[j].value, m[j].key, typeName, registry) <==>
                  r.fields[i].value == fields[j].value
        {
          TaggedFieldIff(r.fields[i].value, m[j].value, m[j].key, typeName, registry);
        }
      }
    case _ =>
  }

  lemma FieldNames(m: Map<Value>, typeName: string, registry: SchemaRegistry)
    ensures Keys(TaggedFields(m, typeName, registry)) == Keys(Renamed(m))
    ensures forall j :: 0 <= j < |m| ==> Renamed(m)[j].key == Camel(m[j].key)
  {
  }

  lemma {:induction false} TaggedFieldIff(x: Value, v: Value, k: string, typeName: string, registry: SchemaRegistry)
    ensures IsTaggedField(x, v, k, typeName, registry) <==>
            x == TaggedField(v, registry.GetFieldType(typeName, k), registry)
    decreases v, 2
  {
    hide Camel, Camelized;
    var found := registry.GetFieldType(typeName, k);
    registry.LookupIff(typeName, k, None);
    forall info: FieldInfo
      ensures registry.Declares(typeName, k, info) <==> found == Some(info)
    {
      registry.LookupIff(typeName, k, Some(info));
    }
    RewriteIff(x, v);
    if found.Some? {
      DeclaredIff(x, v, found.value, registry);
    }
  }

  lemma {:induction false} DeclaredIff(x: Value, v: Value, info: FieldInfo, registry: SchemaRegistry)
    ensures IsDeclared(x, v, info, registry) <==> x == TaggedField(v, Some(info), registry)
    decreases v, 1
  {
    if info.isNestedObject {
      if !info.isList {
        TaggedIff(x, v, info.typeName, registry);
      } else if v.Array? && x.Array? && |x.items| == |v.items| {
        forall i | 0 <= i < |v.items|
          ensures IsTagged(x.items[i], v.items[i], info.typeName, registry) <==>
                  x.items[i] == Tagged(v.items[i], info.typeName, registry)
        {
          TaggedIff(x.items[i], v.items[i], info.typeName, registry);
        }
      }
    }
  }

  // ----- a declared field -----

  /** `x` is an object that carries the type's name first. */
  predicate CarriesTag(x: Value, typeName: string) {
    x.Object? && |x.fields| > 0 && x.fields[0] == Tag(typeName)
  }

  /** The row's keys do not camel-case to `__typename`. */
  predicate NoTagKey(v: Value) {
    v.Object? ==> forall e <- v.fields :: Camel(e.key) != TYPENAME
  }

  lemma ObjectCarriesTag(w: Map<Value>, typeName: string, registry: SchemaRegistry)
    requires NoTagKey(Object(w))
    ensures CarriesTag(Tagged(Object(w), typeName, registry), typeName)
  {
    hide Camel, Collect, Lookup;
    var r := Tagged(Object(w), typeName, registry).fields;
    TagIff(w, typeName, registry, r);
    FirstFound(r);
  }

  lemma FirstFound(r: Map<Value>)
    ensures r != [] ==> Lookup(r, r[0].key) == Some(r[0].value)
  {
    if r != [] {
      IndexOfUnique(r, 0);
    }
  }

  /** A field that `types` declares, under its own name or another spelling of it that is no declared name: declared
      nested, its objects carry the declared type's name, one by one in a declared list; declared not nested, it is
      copied as it is. */
  lemma DeclaredField(m: Map<Value>, i: nat, typeName: string, name: string, registry: SchemaRegistry)
    requires typeName in registry.types && name in registry.types[typeName].fields
    requires i < |m| && Live(Renamed(m), i)
    requires m[i].key == name || (Camel(m[i].key) == name && m[i].key !in registry.types[typeName].fields)
    ensures var info, v := registry.types[typeName].fields[name], m[i].value;
      var found := Lookup(Tagged(Object(m), typeName, registry).fields, Camel(m[i].key));
      && found.Some?
      && (!info.isNestedObject ==> found.value == v)
      && (info.isNestedObject && !info.isList && v.Object? && NoTagKey(v) ==> CarriesTag(found.value, info.typeName))
      && (info.isNestedObject && info.isList && v.Array? ==>
            && found.value.Array?
            && |found.value.items| == |v.items|
            && forall j :: 0 <= j < |v.items| && v.items[j].Object? && NoTagKey(v.items[j]) ==>
                 CarriesTag(found.value.items[j], info.typeName))
  {
    hide Camel, Collect, Lookup, CarriesTag, NoTagKey;
    var info, v := registry.types[typeName].fields[name], m[i].value;
    registry.LookupIff(typeName, m[i].key, Some(info));
    TaggedLookup(m, typeName, registry, i);
    if info.isNestedObject {
      if !info.isList {
        if v.Object? && NoTagKey(v) {
          ObjectCarriesTag(v.fields, info.typeName, registry);
        }
      } else if v.Array? {
        forall j | 0 <= j < |v.items| && v.items[j].Object? && NoTagKey(v.items[j])
          ensures CarriesTag(Tagged(v.items[j], info.typeName, registry), info.typeName)
        {
          ObjectCarriesTag(v.items[j].fields, info.typeName, registry);
        }
      }
    }
  }

  /** A field that is not declared is rewritten key by key, and nothing in it is tagged. */
  lemma UndeclaredField(m: Map<Value>, i: nat, typeName: string, registry: SchemaRegistry)
    requires i < |m| && Live(Renamed(m), i) && registry.Undeclared(typeName, m[i].key)
    ensures var found := Lookup(Tagged(Object(m), typeName, registry).fields, Camel(m[i].key));
      found.Some? && IsRewrite(found.value, m[i].value)
  {
    hide Camel, Collect, Lookup, Camelized;
    registry.LookupIff(typeName, m[i].key, None);
    TaggedLookup(m, typeName, registry, i);
    RewriteIff(Camelized(m[i].value), m[i].value);
  }
}
