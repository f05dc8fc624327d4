/** The two recursive key rewriters: `transform_value` (fraiseql_rs/src/json_transform.rs) and
    `transform_dict_keys` with `transform_value_recursive` (fraiseql_rs/src/camel_case.rs). */
module KeyTransform {
  import opened CamelCase
  import opened Json
  import opened Options

  /** `v` with every key, at every depth, in camelCase; of the keys that collide, the last one's
      value stands where the first one stood. */
  function Camelized(v: Value): Value {
    match v
    case Object(m) => Object(Collect(CamelWrites(m)))
    case Array(items) => Array(seq(|items|, i requires 0 <= i < |items| => Camelized(items[i])))
    case _ => v
  }

  function CamelWrites(m: Map<Value>): (writes: seq<Entry<Value>>)
    ensures |writes| == |m|
  {
    seq(|m|, i requires 0 <= i < |m| => Entry(Camel(m[i].key), Camelized(m[i].value)))
  }

  /** `m` with its own keys in camelCase and its values as they are. */
  function Renamed(m: Map<Value>): (writes: seq<Entry<Value>>)
    ensures |writes| == |m|
  {
    seq(|m|, i requires 0 <= i < |m| => Entry(Camel(m[i].key), m[i].value))
  }

  lemma SameKeys(m: Map<Value>)
    ensures Keys(CamelWrites(m)) == Keys(Renamed(m))
  {
    hide Camel, Camelized, Collect;
  }

  method TransformValue(value: Value) returns (r: Value)
    ensures r == Camelized(value)
    decreases value
  {
    match value
    case Object(m) =>
      var newMap: Map<Value> := [];
      for i := 0 to |m|
        invariant newMap == Collect(CamelWrites(m)[..i])
      {
        var camelKey := ToCamelCase(m[i].key);
        var transformed := TransformValue(m[i].value);
        newMap := Insert(newMap, camelKey, transformed);
        CollectStep(CamelWrites(m), i);
      }
      assert CamelWrites(m)[..|m|] == CamelWrites(m);
      r := Object(newMap);
    case Array(items) =>
      var transformed: seq<Value> := [];
      for i := 0 to |items|
        invariant |transformed| == i && forall j :: 0 <= j < i ==> transformed[j] == Camelized(items[j])
      {
        var item := TransformValue(items[i]);
        transformed := transformed + [item];
      }
      r := Array(transformed);
    case _ => r := value;
  }

  method TransformDictKeys(obj: Map<Value>, recursive: bool) returns (result: Map<Value>)
    ensures recursive ==> Object(result) == Camelized(Object(obj))
    ensures !recursive ==> result == Collect(Renamed(obj))
    decreases obj
  {
    result := [];
    ghost var writes := if recursive then CamelWrites(obj) else Renamed(obj);
    for i := 0 to |obj|
      invariant result == Collect(writes[..i])
    {
      var camelKey := ToCamelCase(obj[i].key);
      var newValue := obj[i].value;
      if recursive {
        newValue := TransformValueRecursive(obj[i].value);
      }
      result := Insert(result, camelKey, newValue);
      CollectStep(writes, i);
    }
    assert writes[..|obj|] == writes;
  }

  method TransformValueRecursive(value: Value) returns (r: Value)
    ensures r == Camelized(value)
    decreases value
  {
    match value
    case Object(dict) =>
      var transformed := TransformDictKeys(dict, true);
      r := Object(transformed);
    case Array(list) =>
      var newList: seq<Value> := [];
      for i := 0 to |list|
        invariant |newList| == i && forall j :: 0 <= j < i ==> newList[j] == Camelized(list[j])
      {
        var item := TransformValueRecursive(list[i]);
        newList := newList + [item];
      }
      r := Array(newList);
    case _ => r := value;
  }

  // ----- what it leaves alone -----

  /** Every key at every depth is in camelCase. */
  predicate AllCamel(v: Value) {
    match v
    case Object(m) => forall i :: 0 <= i < |m| ==> IsCamel(m[i].key) && AllCamel(m[i].value)
    case Array(items) => forall i :: 0 <= i < |items| ==> AllCamel(items[i])
    case _ => true
  }

  lemma CollectedFrom<V>(writes: seq<Entry<V>>, e: Entry<V>)
    requires e in Collect(writes)
    ensures e in writes
  {
    var i :| 0 <= i < |Collect(writes)| && Collect(writes)[i] == e;
    IndexOfUnique(Collect(writes), i);
    LookupCollect(writes, e.key);
    LastWriteLive(writes, e.key);
  }

  lemma {:induction false} CamelizedIsAllCamel(v: Value)
    ensures AllCamel(Camelized(v))
  {
    match v
    case Object(m) =>
      var r := Collect(CamelWrites(m));
      forall i | 0 <= i < |r|
        ensures IsCamel(r[i].key) && AllCamel(r[i].value)
      {
        CollectedFrom(CamelWrites(m), r[i]);
        var j :| 0 <= j < |m| && CamelWrites(m)[j] == r[i];
        Idempotent(m[j].key);
        CamelizedIsAllCamel(m[j].value);
      }
    case Array(items) =>
      forall i | 0 <= i < |items|
        ensures AllCamel(Camelized(items[i]))
      {
        CamelizedIsAllCamel(items[i]);
      }
    case _ =>
  }

  lemma {:induction false} AllCamelUnchanged(v: Value)
    requires AllCamel(v)
    ensures Camelized(v) == v
  {
    match v
    case Object(m) =>
      forall i | 0 <= i < |m|
        ensures CamelWrites(m)[i] == m[i]
      {
        FixedPointIff(m[i].key);
        AllCamelUnchanged(m[i].value);
      }
      assert CamelWrites(m) == m;
      CollectUnique(m);
    case Array(items) =>
      forall i | 0 <= i < |items|
        ensures Camelized(items[i]) == items[i]
      {
        AllCamelUnchanged(items[i]);
      }
      assert Camelized(v).items == items;
    case _ =>
  }

  /** A value is left as it is exactly when all its keys are in camelCase already. */
  lemma UnchangedIff(v: Value)
    ensures Camelized(v) == v <==> AllCamel(v)
  {
    CamelizedIsAllCamel(v);
    if AllCamel(v) {
      AllCamelUnchanged(v);
    }
  }

  lemma CamelizedIdempotent(v: Value)
    ensures Camelized(Camelized(v)) == Camelized(v)
  {
    CamelizedIsAllCamel(v);
    AllCamelUnchanged(Camelized(v));
  }

  // ----- the rewrite told without the code -----

  /** `r` is `v` with its keys rewritten: the camelCase keys in the order in which they first come up, and under
      each the rewrite of the value of the last key that has this form. */
  ghost predicate IsRewrite(r: Value, v: Value)
    decreases v
  {
    match v
    case Object(m) =>
      && r.Object?
      && Keys(r.fields) == FirstOccurrences(Keys(Renamed(m)))
      && forall i, j ::
           0 <= i < |r.fields| && 0 <= j < |m| && r.fields[i].key == Camel(m[j].key) && Live(Renamed(m), j) ==>
             IsRewrite(r.fields[i].value, m[j].value)
    case Array(items) =>
      r.Array? && |r.items| == |items| && forall i :: 0 <= i < |items| ==> IsRewrite(r.items[i], items[i])
    case _ => r == v
  }

  lemma LiveValues(writes: seq<Entry<Value>>, names: seq<Entry<Value>>, r: Map<Value>)
    requires Keys(writes) == Keys(names) && |writes| == |names|
    ensures r == Collect(writes) <==>
            && Keys(r) == FirstOccurrences(Keys(names))
            && forall i, j :: 0 <= i < |r| && 0 <= j < |names| && r[i].key == names[j].key && Live(names, j) ==>
                 r[i].value == writes[j].value
  {
    hide Collect, FirstOccurrences, LastWrite;
    CollectIff(writes, r);
    KeysCollect(writes);
    forall i, j | 0 <= i < |r| && 0 <= j < |names| && r[i].key == names[j].key && Live(names, j)
      ensures LastWrite(writes, r[i].key) == Some(writes[j].value)
    {
      LiveByKeys(writes, names, j);
      assert Keys(writes)[j] == Keys(names)[j];
      LastWriteLive(writes, r[i].key);
    }
    if Keys(r) == FirstOccurrences(Keys(names)) {
      forall i | 0 <= i < |r|
        ensures exists j :: 0 <= j < |names| && r[i].key == names[j].key && Live(names, j)
      {
        LastWriteLive(names, r[i].key);
        assert Keys(r)[i] == r[i].key;
        FirstOccurrencesConcat([], Keys(names));
      }
    }
  }

  /** The code's result is the one such rewrite. */
  lemma {:induction false} RewriteIff(r: Value, v: Value)
    ensures IsRewrite(r, v) <==> r == Camelized(v)
    decreases v
  {
    hide Camel, Collect, Live, FirstOccurrences, Keys;
    match v
    case Object(m) =>
      if r.Object? {
        SameKeys(m);
        LiveValues(CamelWrites(m), Renamed(m), r.fields);
        forall i, j | 0 <= i < |r.fields| && 0 <= j < |m|
          ensures IsRewrite(r.fields[i].value, m[j].value) <==> r.fields[i].value == CamelWrites(m)[j].value
        {
          RewriteIff(r.fields[i].value, m[j].value);
        }
      }
    case Array(items) =>
      if r.Array? && |r.items| == |items| {
        forall i | 0 <= i < |items|
          ensures IsRewrite(r.items[i], items[i]) <==> r.items[i] == Camelized(items[i])
        {
          RewriteIff(r.items[i], items[i]);
        }
      }
    case _ =>
  }

  // ----- what it loses -----

  function Sum(counts: seq<nat>): nat {
    if counts == [] then 0 else Sum(counts[..|counts| - 1]) + counts[|counts| - 1]
  }

  /** The number of object fields in `v`, at every depth. */
  function FieldCount(v: Value): nat {
    match v
    case Object(m) => |m| + Sum(seq(|m|, i requires 0 <= i < |m| => FieldCount(m[i].value)))
    case Array(items) => Sum(seq(|items|, i requires 0 <= i < |items| => FieldCount(items[i])))
    case _ => 0
  }

  function Counts(entries: seq<Entry<Value>>): (counts: seq<nat>)
    ensures |counts| == |entries|
  {
    seq(|entries|, i requires 0 <= i < |entries| => FieldCount(entries[i].value))
  }

  lemma {:induction false} SumAtMost(a: seq<nat>, b: seq<nat>)
    requires |a| == |b|
    requires forall i :: 0 <= i < |a| ==> a[i] <= b[i]
    ensures Sum(a) <= Sum(b)
    ensures Sum(a) == Sum(b) <==> a == b
  {
    if a != [] {
      var n := |a| - 1;
      SumAtMost(a[..n], b[..n]);
      assert a == a[..n] + [a[n]] && b == b[..n] + [b[n]];
    }
  }

  lemma {:induction false} SumUpdate(a: seq<nat>, i: nat, n: nat)
    requires i < |a|
    ensures Sum(a[i := n]) + a[i] == Sum(a) + n
  {
    var last := |a| - 1;
    if i < last {
      SumUpdate(a[..last], i, n);
      assert a[i := n][..last] == a[..last][i := n];
    } else {
      assert a[i := n][..last] == a[..last];
    }
  }

  function Weight(entries: seq<Entry<Value>>): nat {
    |entries| + Sum(Counts(entries))
  }

  lemma WeightAppend(front: seq<Entry<Value>>, e: Entry<Value>)
    ensures Weight(front + [e]) == Weight(front) + 1 + FieldCount(e.value)
  {
    assert Counts(front + [e]) == Counts(front) + [FieldCount(e.value)];
    assert Counts(front + [e])[..|front|] == Counts(front);
  }

  lemma WeightInsert(m: Map<Value>, k: string, v: Value)
    ensures Has(m, k) ==> Weight(Insert(m, k, v)) < Weight(m) + 1 + FieldCount(v)
    ensures !Has(m, k) ==> Weight(Insert(m, k, v)) == Weight(m) + 1 + FieldCount(v)
  {
    var i := IndexOf(m, k);
    if i < |m| {
      assert Counts(Insert(m, k, v)) == Counts(m)[i := FieldCount(v)];
      SumUpdate(Counts(m), i, FieldCount(v));
    } else {
      WeightAppend(m, Entry(k, v));
    }
  }

  /** Writing to an object twice under one key loses a field. */
  lemma {:induction false} CollectWeight(writes: seq<Entry<Value>>)
    ensures Weight(Collect(writes)) <= Weight(writes)
    ensures Weight(Collect(writes)) == Weight(writes) <==> UniqueKeys(writes)
  {
    if writes != [] {
      var (front, last) := (writes[..|writes| - 1], writes[|writes| - 1]);
      assert writes == front + [last];
      CollectWeight(front);
      WeightAppend(front, last);
      WeightInsert(Collect(front), last.key, last.value);
      UniqueKeysAppend(front, last);
    }
  }

  /** No two keys of `m` share their camelCase form. */
  predicate CamelDistinct(m: Map<Value>) {
    forall i, j :: 0 <= i < j < |m| ==> Camel(m[i].key) != Camel(m[j].key)
  }

  /** No two keys of one object share their camelCase form, at any depth. */
  predicate CollisionFree(v: Value) {
    match v
    case Object(m) => CamelDistinct(m) && forall i :: 0 <= i < |m| ==> CollisionFree(m[i].value)
    case Array(items) => forall i :: 0 <= i < |items| ==> CollisionFree(items[i])
    case _ => true
  }

  lemma CamelWritesUnique(m: Map<Value>)
    ensures UniqueKeys(CamelWrites(m)) <==> CamelDistinct(m)
  {
    assert forall i :: 0 <= i < |m| ==> CamelWrites(m)[i].key == Camel(m[i].key);
  }

  /** The key rewrite never adds a field, and keeps the number of fields exactly when no two keys
      of an object collide. */
  lemma {:induction false} FieldsKeptIff(v: Value)
    ensures FieldCount(Camelized(v)) <= FieldCount(v)
    ensures FieldCount(Camelized(v)) == FieldCount(v) <==> CollisionFree(v)
  {
    match v
    case Object(m) =>
      var writes := CamelWrites(m);
      var a, b := Counts(writes), Counts(m);
      forall i | 0 <= i < |m|
        ensures a[i] <= b[i]
        ensures a[i] == b[i] <==> CollisionFree(m[i].value)
      {
        FieldsKeptIff(m[i].value);
      }
      assert a == b <==> forall i :: 0 <= i < |m| ==> a[i] == b[i];
      WritesWeight(writes, m);
      CamelWritesUnique(m);
      FieldCountIsWeight(m);
      FieldCountIsWeight(Collect(writes));
    case Array(items) =>
      var a := seq(|items|, i requires 0 <= i < |items| => FieldCount(Camelized(items[i])));
      var b := seq(|items|, i requires 0 <= i < |items| => FieldCount(items[i]));
      forall i | 0 <= i < |items|
        ensures a[i] <= b[i]
        ensures a[i] == b[i] <==> CollisionFree(items[i])
      {
        FieldsKeptIff(items[i]);
      }
      SumAtMost(a, b);
      var r := Camelized(v).items;
      assert a == seq(|r|, i requires 0 <= i < |r| => FieldCount(r[i]));
    case _ =>
  }

  lemma WritesWeight(writes: seq<Entry<Value>>, m: Map<Value>)
    requires |writes| == |m|
    requires forall i :: 0 <= i < |m| ==> Counts(writes)[i] <= Counts(m)[i]
    ensures Weight(Collect(writes)) <= Weight(m)
    ensures Weight(Collect(writes)) == Weight(m) <==> UniqueKeys(writes) && Counts(writes) == Counts(m)
  {
    SumAtMost(Counts(writes), Counts(m));
    CollectWeight(writes);
  }

  lemma FieldCountIsWeight(m: Map<Value>)
    ensures FieldCount(Object(m)) == Weight(m)
  {
    assert Counts(m) == seq(|m|, i requires 0 <= i < |m| => FieldCount(m[i].value));
  }

  function Flatten<T>(parts: seq<seq<T>>): seq<T> {
    if parts == [] then [] else parts[0] + Flatten(parts[1..])
  }

  /** The scalars in `v`, from first to last. */
  function Leaves(v: Value): seq<Value> {
    match v
    case Object(m) => Flatten(seq(|m|, i requires 0 <= i < |m| => Leaves(m[i].value)))
    case Array(items) => Flatten(seq(|items|, i requires 0 <= i < |items| => Leaves(items[i])))
    case _ => [v]
  }

  /** Without collisions every scalar is kept, in its place. */
  lemma {:induction false} LeavesKept(v: Value)
    requires CollisionFree(v)
    ensures Leaves(Camelized(v)) == Leaves(v)
  {
    match v
    case Object(m) =>
      var writes := CamelWrites(m);
      CollectUnique(writes);
      forall i | 0 <= i < |m|
        ensures Leaves(writes[i].value) == Leaves(m[i].value)
      {
        LeavesKept(m[i].value);
      }
      assert seq(|writes|, i requires 0 <= i < |writes| => Leaves(writes[i].value))
          == seq(|m|, i requires 0 <= i < |m| => Leaves(m[i].value));
    case Array(items) =>
      var r := Camelized(v).items;
      forall i | 0 <= i < |items|
        ensures Leaves(r[i]) == Leaves(items[i])
      {
        LeavesKept(items[i]);
      }
      assert seq(|r|, i requires 0 <= i < |r| => Leaves(r[i]))
          == seq(|items|, i requires 0 <= i < |items| => Leaves(items[i]));
    case _ =>
  }

  // ----- the way back -----

  predicate AllCanonical(v: Value) {
    match v
    case Object(m) => forall i :: 0 <= i < |m| ==> Canonical(m[i].key) && AllCanonical(m[i].value)
    case Array(items) => forall i :: 0 <= i < |items| ==> AllCanonical(items[i])
    case _ => true
  }

  /** `v` with `to_snake_case` applied to every key. */
  function Snaked(v: Value): Value {
    match v
    case Object(m) => Object(Collect(SnakeWrites(m)))
    case Array(items) => Array(seq(|items|, i requires 0 <= i < |items| => Snaked(items[i])))
    case _ => v
  }

  function SnakeWrites(m: Map<Value>): (writes: seq<Entry<Value>>)
    ensures |writes| == |m|
  {
    seq(|m|, i requires 0 <= i < |m| => Entry(Snake(m[i].key), Snaked(m[i].value)))
  }

  lemma {:induction false} CanonicalCollisionFree(v: Value)
    requires AllCanonical(v)
    ensures CollisionFree(v)
  {
    match v
    case Object(m) =>
      forall i, j | 0 <= i < j < |m|
        ensures Camel(m[i].key) != Camel(m[j].key)
      {
        if Camel(m[i].key) == Camel(m[j].key) {
          CanonicalInjective(m[i].key, m[j].key);
        }
      }
      forall i | 0 <= i < |m|
        ensures CollisionFree(m[i].value)
      {
        CanonicalCollisionFree(m[i].value);
      }
    case Array(items) =>
      forall i | 0 <= i < |items|
        ensures CollisionFree(items[i])
      {
        CanonicalCollisionFree(items[i]);
      }
    case _ =>
  }

  lemma {:induction false} CanonicalRoundTrip(v: Value)
    requires AllCanonical(v)
    ensures Snaked(Camelized(v)) == v
  {
    match v
    case Object(m) =>
      CanonicalCollisionFree(v);
      var writes := CamelWrites(m);
      CamelWritesUnique(m);
      CollectUnique(writes);
      forall i | 0 <= i < |m|
        ensures SnakeWrites(writes)[i] == m[i]
      {
        RoundTripIff(m[i].key);
        CanonicalRoundTrip(m[i].value);
      }
      assert SnakeWrites(writes) == m;
      CollectUnique(m);
    case Array(items) =>
      forall i | 0 <= i < |items|
        ensures Snaked(Camelized(items[i])) == items[i]
      {
        CanonicalRoundTrip(items[i]);
      }
      assert Snaked(Camelized(v)).items == items;
    case _ =>
  }

  lemma {:induction false} RoundTripOnlyCanonical(v: Value)
    requires Snaked(Camelized(v)) == v
    ensures AllCanonical(v)
  {
    match v
    case Object(m) =>
      var writes := CamelWrites(m);
      var back := SnakeWrites(Collect(writes));
      assert Collect(back) == m;
      CollectLength(writes);
      CollectLength(back);
      CollectUnique(writes);
      CollectUnique(back);
      forall i | 0 <= i < |m|
        ensures Canonical(m[i].key) && AllCanonical(m[i].value)
      {
        assert back[i] == m[i];
        RoundTripIff(m[i].key);
        RoundTripOnlyCanonical(m[i].value);
      }
    case Array(items) =>
      forall i | 0 <= i < |items|
        ensures AllCanonical(items[i])
      {
        assert Snaked(Camelized(v)).items[i] == Snaked(Camelized(items[i]));
        RoundTripOnlyCanonical(items[i]);
      }
    case _ =>
  }

  /** The key rewrite can be undone key by key exactly when every key is canonical: then nothing is lost. */
  lemma TreeRoundTripIff(v: Value)
    ensures Snaked(Camelized(v)) == v <==> AllCanonical(v)
  {
    if AllCanonical(v) {
      CanonicalRoundTrip(v);
    } else if Snaked(Camelized(v)) == v {
      RoundTripOnlyCanonical(v);
    }
  }
}
