/** The schema registry's lookups (fraiseql_rs/src/schema_registry.rs). */
module Schema {
  import opened CamelCase
  import opened Options

  datatype FieldInfo = FieldInfo(typeName: string, isNestedObject: bool, isList: bool)

  datatype TypeInfo = TypeInfo(fields: map<string, FieldInfo>)

  datatype SchemaRegistry = SchemaRegistry(version: string, features: seq<string>, types: map<string, TypeInfo>) {

    /** The field under its own name, else under its camelCase name. */
    function GetFieldType(typeName: string, fieldName: string): Option<FieldInfo> {
      if typeName !in types then None
      else
        var fields := types[typeName].fields;
        if fieldName in fields then Some(fields[fieldName])
        else if Camel(fieldName) in fields then Some(fields[Camel(fieldName)])
        else None
    }

    /** What `types` declares for the key: under the key itself, or, when the key is no declared name, under its
        camelCase form. */
    ghost predicate Declares(typeName: string, k: string, info: FieldInfo) {
      && typeName in types
      && exists name <- types[typeName].fields ::
           && types[typeName].fields[name] == info
           && (name == k || (name == Camel(k) && k !in types[typeName].fields))
    }

    ghost predicate Undeclared(typeName: string, k: string) {
      typeName in types ==> k !in types[typeName].fields && Camel(k) !in types[typeName].fields
    }

    /** What is found is what is declared, as it is; nothing is found exactly when nothing is declared. */
    lemma LookupIff(typeName: string, k: string, found: Option<FieldInfo>)
      ensures GetFieldType(typeName, k) == found <==>
              match found
              case Some(info) => Declares(typeName, k, info)
              case None => Undeclared(typeName, k)
    {
    }

    /** A field declared under a name that is not camelCase is declared alike under its camelCase name. */
    predicate StyleInsensitive(typeName: string) {
      typeName in types ==>
        var fields := types[typeName].fields;
        forall name <- fields :: Camel(name) in fields && fields[Camel(name)] == fields[name]
    }

    /** snake_case and camelCase keys find the same field types exactly on such types. */
    lemma LookupStyleIff(typeName: string)
      ensures (forall k :: GetFieldType(typeName, k) == GetFieldType(typeName, Camel(k))) <==>
              StyleInsensitive(typeName)
    {
      if typeName in types {
        var fields := types[typeName].fields;
        forall k
          ensures Camel(Camel(k)) == Camel(k)
        {
          Idempotent(k);
        }
        if forall k :: GetFieldType(typeName, k) == GetFieldType(typeName, Camel(k)) {
          forall name <- fields
            ensures Camel(name) in fields && fields[Camel(name)] == fields[name]
          {
            assert GetFieldType(typeName, name) == GetFieldType(typeName, Camel(name));
          }
        }
      }
    }

    /** In particular when every declared name is camelCase. */
    lemma CamelNamesStyleInsensitive(typeName: string)
      requires typeName in types ==> forall name <- types[typeName].fields :: IsCamel(name)
      ensures StyleInsensitive(typeName)
    {
      if typeName in types {
        forall name <- types[typeName].fields
          ensures Camel(name) == name
        {
          FixedPointIff(name);
        }
      }
    }
  }
}
