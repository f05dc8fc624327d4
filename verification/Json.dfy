/** JSON values, and the insertion-ordered `serde_json::Map` (its `preserve_order` feature is on,
    fraiseql_rs/Cargo.toml). */
module Json {
  import opened Options

  datatype Entry<+V> = Entry(key: string, value: V)

  predicate UniqueKeys<V>(entries: seq<Entry<V>>) {
    forall i, j :: 0 <= i < j < |entries| ==> entries[i].key != entries[j].key
  }

  /** An object: distinct keys, in insertion order. */
  type Map<V> = entries: seq<Entry<V>> | UniqueKeys(entries) witness []

  /** A JSON number, by how serde_json reads it: as an `i64`, else as an `f64`, else kept by its digits. */
  datatype Number = Integer(i: int) | Double(digits: string) | Wide(digits: string)

  datatype Value =
    | Null
    | Bool(b: bool)
    | Number(n: Number)
    | String(text: string)
    | Array(items: seq<Value>)
    | Object(fields: Map<Value>)

  /** The position of the first entry for `k`; the length when there is none. */
  function IndexOf<V>(entries: seq<Entry<V>>, k: string): (i: nat)
    ensures i <= |entries|
    ensures i < |entries| ==> entries[i].key == k
    ensures forall j :: 0 <= j < i ==> entries[j].key != k
  {
    if entries == [] || entries[0].key == k then 0 else 1 + IndexOf(entries[1..], k)
  }

  predicate Has<V>(entries: seq<Entry<V>>, k: string) {
    IndexOf(entries, k) < |entries|
  }

  function Lookup<V>(entries: seq<Entry<V>>, k: string): Option<V> {
    var i := IndexOf(entries, k);
    if i < |entries| then Some(entries[i].value) else None
  }

  /** `Map::insert`: a present key keeps its position and gets the new value. */
  function Insert<V>(m: Map<V>, k: string, v: V): Map<V> {
    var i := IndexOf(m, k);
    if i < |m| then m[i := Entry(k, v)] else m + [Entry(k, v)]
  }

  /** `Map::remove` under `preserve_order`: the last entry takes the place of the removed one. */
  function SwapRemove<V>(m: Map<V>, k: string): Map<V> {
    var i, last := IndexOf(m, k), |m| - 1;
    if i == |m| then m else m[i := m[last]][..last]
  }

  /** The entries of `m` from position `i` on are all in `owned`. */
  ghost predicate Owns<V>(owned: Map<V>, m: Map<V>, i: nat) {
    forall j :: i <= j < |m| ==> Lookup(owned, m[j].key) == Some(m[j].value)
  }

  /** The object that a sequence of writes leaves behind. */
  function Collect<V>(writes: seq<Entry<V>>): Map<V> {
    if writes == [] then []
    else
      var last := writes[|writes| - 1];
      Insert(Collect(writes[..|writes| - 1]), last.key, last.value)
  }

  /** One more write. */
  lemma CollectStep<V>(writes: seq<Entry<V>>, i: nat)
    requires i < |writes|
    ensures Collect(writes[..i + 1]) == Insert(Collect(writes[..i]), writes[i].key, writes[i].value)
  {
    assert writes[..i + 1][..i] == writes[..i];
  }

  lemma CollectAppend<V>(writes: seq<Entry<V>>, e: Entry<V>)
    ensures Collect(writes + [e]) == Insert(Collect(writes), e.key, e.value)
  {
    assert (writes + [e])[..|writes|] == writes;
  }

  function Keys<V>(entries: seq<Entry<V>>): (keys: seq<string>)
    ensures |keys| == |entries|
  {
    seq(|entries|, i requires 0 <= i < |entries| => entries[i].key)
  }

  /** `keys` without repetitions, each where it first stands. */
  function FirstOccurrences(keys: seq<string>): seq<string> {
    if keys == [] then []
    else
      var (front, last) := (keys[..|keys| - 1], keys[|keys| - 1]);
      if last in front then FirstOccurrences(front) else FirstOccurrences(front) + [last]
  }

  /** The value last written under `k`. */
  function LastWrite<V>(writes: seq<Entry<V>>, k: string): Option<V> {
    if writes == [] then None
    else if writes[|writes| - 1].key == k then Some(writes[|writes| - 1].value)
    else LastWrite(writes[..|writes| - 1], k)
  }

  /** Nothing after position `i` writes its key again. */
  predicate Live<V>(writes: seq<Entry<V>>, i: nat)
    requires i < |writes|
  {
    forall j :: i < j < |writes| ==> writes[j].key != writes[i].key
  }

  function Drop<V>(entries: seq<Entry<V>>, k: string): (r: seq<Entry<V>>)
    ensures UniqueKeys(entries) ==> UniqueKeys(r)
    ensures forall e <- r :: e in entries
  {
    if entries == [] then []
    else
      var (front, last) := (entries[..|entries| - 1], entries[|entries| - 1]);
      assert forall e <- Drop(front, k) :: e in front;
      assert UniqueKeys(entries) ==> forall e <- front :: e.key != last.key;
      if last.key == k then Drop(front, k) else Drop(front, k) + [last]
  }

  function MapValues<V, W>(f: (string, V) -> W, entries: seq<Entry<V>>): (r: seq<Entry<W>>)
    ensures UniqueKeys(entries) ==> UniqueKeys(r)
    ensures |r| == |entries|
  {
    seq(|entries|, i requires 0 <= i < |entries| => Entry(entries[i].key, f(entries[i].key, entries[i].value)))
  }

  // ----- lookups -----

  lemma IndexOfUnique<V>(m: Map<V>, i: nat)
    requires i < |m|
    ensures IndexOf(m, m[i].key) == i
    ensures Lookup(m, m[i].key) == Some(m[i].value)
  {
    var j := IndexOf(m, m[i].key);
    assert j <= i;
  }

  lemma LookupInsert<V>(m: Map<V>, k: string, v: V, k': string)
    ensures Lookup(Insert(m, k, v), k') == if k' == k then Some(v) else Lookup(m, k')
  {
    var i, r := IndexOf(m, k), Insert(m, k, v);
    var j := IndexOf(m, k');
    if k' == k {
      IndexOfUnique(r, i);
    } else if j < |m| {
      assert r[j] == m[j];
      IndexOfUnique(r, j);
    }
  }

  lemma SwapRemoveAt<V>(m: Map<V>, k: string, i: nat, j: nat)
    requires i == IndexOf(m, k) < |m| && j < |m| && j != i
    ensures Lookup(SwapRemove(m, k), m[j].key) == Some(m[j].value)
  {
    var r := SwapRemove(m, k);
    var to := if j == |m| - 1 then i else j;
    assert r[to] == m[j];
    IndexOfUnique(r, to);
  }

  lemma LookupSwapRemove<V>(m: Map<V>, k: string, k': string)
    requires k' != k
    ensures Lookup(m, k').Some? ==> Lookup(SwapRemove(m, k), k') == Lookup(m, k')
  {
    var i, j := IndexOf(m, k), IndexOf(m, k');
    if i < |m| && j < |m| {
      SwapRemoveAt(m, k, i, j);
    }
  }

  lemma OwnsAll<V>(m: Map<V>)
    ensures Owns(m, m, 0)
  {
    forall j | 0 <= j < |m|
      ensures Lookup(m, m[j].key) == Some(m[j].value)
    {
      IndexOfUnique(m, j);
    }
  }

  /** A value not taken yet is still owned; taking it leaves the later ones owned. */
  lemma OwnedFound<V>(owned: Map<V>, m: Map<V>, i: nat)
    requires i < |m| && Owns(owned, m, i)
    ensures Lookup(owned, m[i].key) == Some(m[i].value)
    ensures Owns(owned, m, i + 1) && Owns(SwapRemove(owned, m[i].key), m, i + 1)
  {
    forall j | i < j < |m|
      ensures Lookup(SwapRemove(owned, m[i].key), m[j].key) == Some(m[j].value)
    {
      LookupSwapRemove(owned, m[i].key, m[j].key);
    }
  }

  /** The last write wins. */
  lemma {:induction false} LookupCollect<V>(writes: seq<Entry<V>>, k: string)
    ensures Lookup(Collect(writes), k) == LastWrite(writes, k)
  {
    if writes != [] {
      var (front, last) := (writes[..|writes| - 1], writes[|writes| - 1]);
      LookupCollect(front, k);
      LookupInsert(Collect(front), last.key, last.value, k);
    }
  }

  /** It stands where the key was first written. */
  lemma {:induction false} KeysCollect<V>(writes: seq<Entry<V>>)
    ensures Keys(Collect(writes)) == FirstOccurrences(Keys(writes))
    ensures forall k :: Has(Collect(writes), k) <==> k in Keys(writes)
  {
    if writes != [] {
      var (front, last) := (writes[..|writes| - 1], writes[|writes| - 1]);
      KeysCollect(front);
      var m := Collect(front);
      assert Keys(writes) == Keys(front) + [last.key];
      assert Keys(writes)[..|writes| - 1] == Keys(front);
      var r := Insert(m, last.key, last.value);
      assert Keys(r) == Keys(m) + if last.key in Keys(front) then [] else [last.key];
      forall k
        ensures Has(r, k) <==> k in Keys(writes)
      {
        LookupInsert(m, last.key, last.value, k);
      }
    }
  }

  lemma MapExtensional<V>(a: Map<V>, b: Map<V>)
    requires Keys(a) == Keys(b)
    requires forall k <- Keys(a) :: Lookup(a, k) == Lookup(b, k)
    ensures a == b
  {
    forall i | 0 <= i < |a|
      ensures a[i] == b[i]
    {
      assert a[i].key == Keys(a)[i] == Keys(b)[i] == b[i].key;
      IndexOfUnique(a, i);
      IndexOfUnique(b, i);
    }
  }

  /** What it is to be the object that the writes leave: their keys, each where it was first written and with
      its last value. */
  lemma CollectIff<V>(writes: seq<Entry<V>>, r: Map<V>)
    ensures r == Collect(writes) <==>
            && Keys(r) == FirstOccurrences(Keys(writes))
            && forall i :: 0 <= i < |r| ==> LastWrite(writes, r[i].key) == Some(r[i].value)
  {
    hide Collect, LastWrite, Lookup, FirstOccurrences;
    KeysCollect(writes);
    forall i | 0 <= i < |r|
      ensures Lookup(r, r[i].key) == Some(r[i].value)
      ensures Lookup(Collect(writes), r[i].key) == LastWrite(writes, r[i].key)
      ensures Keys(r)[i] == r[i].key
    {
      IndexOfUnique(r, i);
      LookupCollect(writes, r[i].key);
    }
    if && Keys(r) == FirstOccurrences(Keys(writes))
       && forall i :: 0 <= i < |r| ==> LastWrite(writes, r[i].key) == Some(r[i].value)
    {
      forall k <- Keys(r)
        ensures Lookup(r, k) == Lookup(Collect(writes), k)
      {
        var i :| 0 <= i < |r| && Keys(r)[i] == k;
      }
      MapExtensional(r, Collect(writes));
    }
  }

  lemma {:induction false} FirstOccurrencesUnique(keys: seq<string>)
    requires forall i, j :: 0 <= i < j < |keys| ==> keys[i] != keys[j]
    ensures FirstOccurrences(keys) == keys
  {
    if keys != [] {
      FirstOccurrencesUnique(keys[..|keys| - 1]);
      assert keys == keys[..|keys| - 1] + [keys[|keys| - 1]];
    }
  }

  lemma {:induction false} FirstOccurrencesAfter(key: string, keys: seq<string>)
    requires forall i, j :: 0 <= i < j < |keys| ==> keys[i] != keys[j]
    ensures FirstOccurrences([key] + keys) == [key] + DropKey(keys, key)
  {
    var all := [key] + keys;
    if keys == [] {
      assert all[..0] == [];
    } else {
      var (front, last) := (keys[..|keys| - 1], keys[|keys| - 1]);
      assert all[..|all| - 1] == [key] + front;
      assert keys == front + [last];
      FirstOccurrencesAfter(key, front);
    }
  }

  /** Writes to distinct keys are kept as they are. */
  lemma {:induction false} CollectUnique<V>(writes: seq<Entry<V>>)
    requires UniqueKeys(writes)
    ensures Collect(writes) == writes
  {
    if writes != [] {
      var front := writes[..|writes| - 1];
      CollectUnique(front);
      assert writes == front + [writes[|writes| - 1]];
    }
  }

  lemma UniqueKeysAppend<V>(front: seq<Entry<V>>, last: Entry<V>)
    ensures UniqueKeys(front + [last]) <==> UniqueKeys(front) && !Has(Collect(front), last.key)
  {
    var all := front + [last];
    KeysCollect(front);
    assert forall i :: 0 <= i < |front| ==> Keys(front)[i] == front[i].key == all[i].key;
    if UniqueKeys(all) {
      assert all[|front|] == last;
    }
  }

  /** Only a repeated key makes an object shorter than its writes. */
  lemma {:induction false} CollectLength<V>(writes: seq<Entry<V>>)
    ensures |Collect(writes)| <= |writes|
    ensures |Collect(writes)| == |writes| <==> UniqueKeys(writes)
  {
    if writes != [] {
      var (front, last) := (writes[..|writes| - 1], writes[|writes| - 1]);
      assert writes == front + [last];
      CollectLength(front);
      UniqueKeysAppend(front, last);
    }
  }

  lemma {:induction false} CollectMapValues<V, W>(f: (string, V) -> W, writes: seq<Entry<V>>)
    ensures Collect(MapValues(f, writes)) == MapValues(f, Collect(writes))
  {
    if writes != [] {
      var (front, last) := (writes[..|writes| - 1], writes[|writes| - 1]);
      CollectMapValues(f, front);
      assert MapValues(f, writes)[..|writes| - 1] == MapValues(f, front);
      var m := Collect(front);
      InsertMapValues(f, m, last.key, last.value);
    }
  }

  lemma InsertMapValues<V, W>(f: (string, V) -> W, m: Map<V>, k: string, v: V)
    ensures Insert(MapValues(f, m), k, f(k, v)) == MapValues(f, Insert(m, k, v))
  {
    var i, j := IndexOf(m, k), IndexOf(MapValues(f, m), k);
    if i < |m| {
      assert MapValues(f, m)[i].key == k;
      IndexOfUnique(MapValues(f, m), i);
    }
  }

  lemma {:induction false} DropAbsent<V>(entries: seq<Entry<V>>, k: string)
    requires forall e <- entries :: e.key != k
    ensures Drop(entries, k) == entries
  {
    if entries != [] {
      var front := entries[..|entries| - 1];
      assert entries == front + [entries[|entries| - 1]];
      DropAbsent(front, k);
    }
  }

  lemma {:induction false} DropConcat<V>(a: seq<Entry<V>>, b: seq<Entry<V>>, k: string)
    ensures Drop(a + b, k) == Drop(a, k) + Drop(b, k)
  {
    if b == [] {
      assert a + b == a;
    } else {
      var (front, last) := (b[..|b| - 1], b[|b| - 1]);
      DropConcat(a, front, k);
      assert (a + b)[..|a + b| - 1] == a + front;
    }
  }

  lemma {:induction false} LastWriteDrop<V>(writes: seq<Entry<V>>, k: string, k': string)
    ensures LastWrite(Drop(writes, k), k') == if k' == k then None else LastWrite(writes, k')
  {
    if writes != [] {
      var (front, last) := (writes[..|writes| - 1], writes[|writes| - 1]);
      LastWriteDrop(front, k, k');
      if last.key != k {
        assert Drop(writes, k) == Drop(front, k) + [last];
        assert Drop(writes, k)[..|Drop(writes, k)| - 1] == Drop(front, k);
      }
    }
  }

  function DropKey(keys: seq<string>, k: string): seq<string> {
    if keys == [] then []
    else
      var (front, last) := (keys[..|keys| - 1], keys[|keys| - 1]);
      if last == k then DropKey(front, k) else DropKey(front, k) + [last]
  }

  lemma {:induction false} KeysDrop<V>(entries: seq<Entry<V>>, k: string)
    ensures Keys(Drop(entries, k)) == DropKey(Keys(entries), k)
  {
    if entries != [] {
      var (front, last) := (entries[..|entries| - 1], entries[|entries| - 1]);
      KeysDrop(front, k);
      assert Keys(entries)[..|entries| - 1] == Keys(front);
    }
  }

  lemma {:induction false} FirstOccurrencesDrop(keys: seq<string>, k: string)
    ensures FirstOccurrences(DropKey(keys, k)) == DropKey(FirstOccurrences(keys), k)
    ensures forall k' :: k' in DropKey(keys, k) <==> k' in keys && k' != k
  {
    if keys != [] {
      var (front, last) := (keys[..|keys| - 1], keys[|keys| - 1]);
      FirstOccurrencesDrop(front, k);
      assert keys == front + [last];
      var f, d := FirstOccurrences(front), DropKey(front, k);
      assert (f + [last])[..|f|] == f;
      assert (d + [last])[..|d|] == d;
    }
  }

  lemma LookupDrop<V>(m: Map<V>, k: string, k': string)
    ensures Lookup(Drop(m, k), k') == if k' == k then None else Lookup(m, k')
  {
    CollectUnique(m);
    CollectUnique(Drop(m, k));
    LookupCollect(m, k');
    LookupCollect(Drop(m, k), k');
    LastWriteDrop(m, k, k');
  }

  /** Dropping a key from the writes, or from what they leave, is the same. */
  lemma CollectDrop<V>(writes: seq<Entry<V>>, k: string)
    ensures Collect(Drop(writes, k)) == Drop(Collect(writes), k)
  {
    var a, b := Collect(Drop(writes, k)), Drop(Collect(writes), k);
    KeysCollect(writes);
    KeysCollect(Drop(writes, k));
    KeysDrop(writes, k);
    KeysDrop(Collect(writes), k);
    FirstOccurrencesDrop(Keys(writes), k);
    forall k'
      ensures Lookup(a, k') == Lookup(b, k')
    {
      LookupCollect(Drop(writes, k), k');
      LastWriteDrop(writes, k, k');
      LookupDrop(Collect(writes), k, k');
      LookupCollect(writes, k');
    }
    MapExtensional(a, b);
  }

  /** A first write that no later one touches, dropped from the result. */
  lemma CollectDropFirst<V, W>(f: (string, V) -> W, first: Entry<V>, rest: seq<Entry<V>>)
    requires forall e <- rest :: e.key != first.key
    ensures Drop(MapValues(f, Collect([first] + rest)), first.key) == Collect(MapValues(f, rest))
  {
    hide Collect;
    var mapped := MapValues(f, rest);
    var head := Entry(first.key, f(first.key, first.value));
    CollectMapValues(f, [first] + rest);
    assert MapValues(f, [first] + rest) == [head] + mapped;
    CollectDrop([head] + mapped, first.key);
    DropHead(head, mapped);
  }

  lemma DropHead<V>(head: Entry<V>, rest: seq<Entry<V>>)
    requires forall e <- rest :: e.key != head.key
    ensures Drop([head] + rest, head.key) == rest
  {
    DropConcat([head], rest, head.key);
    DropAbsent(rest, head.key);
    assert Drop([head], head.key) == [];
  }

  /** What a first write shows: the last later write to its key, if there is one. */
  lemma LookupFirst<V>(first: Entry<V>, rest: seq<Entry<V>>)
    ensures Lookup(Collect([first] + rest), first.key) ==
            if LastWrite(rest, first.key).Some? then LastWrite(rest, first.key) else Some(first.value)
  {
    LookupCollect([first] + rest, first.key);
    LastWriteConcat([first], rest, first.key);
  }

  // ----- comparing what two write sequences leave -----

  lemma {:induction false} LastWriteConcat<V>(a: seq<Entry<V>>, b: seq<Entry<V>>, k: string)
    ensures LastWrite(a + b, k) == if LastWrite(b, k).Some? then LastWrite(b, k) else LastWrite(a, k)
  {
    if b == [] {
      assert a + b == a;
    } else {
      var front := b[..|b| - 1];
      LastWriteConcat(a, front, k);
      assert (a + b)[..|a + b| - 1] == a + front;
    }
  }

  /** Only live writes show. */
  lemma {:induction false} LastWriteLive<V>(writes: seq<Entry<V>>, k: string)
    ensures LastWrite(writes, k).None? <==> k !in Keys(writes)
    ensures forall i :: 0 <= i < |writes| && writes[i].key == k && Live(writes, i) ==>
              LastWrite(writes, k) == Some(writes[i].value)
    ensures k in Keys(writes) ==> exists i :: 0 <= i < |writes| && writes[i].key == k && Live(writes, i)
  {
    if writes != [] {
      var (front, last) := (writes[..|writes| - 1], writes[|writes| - 1]);
      LastWriteLive(front, k);
      assert Keys(writes) == Keys(front) + [last.key];
      if last.key == k {
        assert Live(writes, |writes| - 1);
      } else {
        forall i | 0 <= i < |front| && front[i].key == k
          ensures Live(writes, i) <==> Live(front, i)
        {
          assert forall j :: i < j < |front| ==> front[j] == writes[j];
        }
        if k in Keys(front) {
          var i :| 0 <= i < |front| && front[i].key == k && Live(front, i);
          assert writes[i].key == k && Live(writes, i);
        }
      }
    }
  }

  lemma LiveByKeys<V, W>(a: seq<Entry<V>>, b: seq<Entry<W>>, i: nat)
    requires Keys(a) == Keys(b) && i < |a| == |b|
    ensures Live(a, i) <==> Live(b, i)
  {
    assert forall j :: 0 <= j < |a| ==> a[j].key == Keys(a)[j] == Keys(b)[j] == b[j].key;
  }

  lemma SameLive<V>(a: seq<Entry<V>>, b: seq<Entry<V>>, names: seq<Entry<V>>)
    requires Keys(a) == Keys(b) == Keys(names) && |a| == |b| == |names|
    requires forall i :: 0 <= i < |names| && Live(names, i) ==> a[i].value == b[i].value
    ensures Collect(a) == Collect(b)
  {
    hide Collect, LastWrite, FirstOccurrences;
    KeysCollect(a);
    KeysCollect(b);
    forall k <- Keys(Collect(a))
      ensures Lookup(Collect(a), k) == Lookup(Collect(b), k)
    {
      LookupCollect(a, k);
      LookupCollect(b, k);
      LastWriteLive(a, k);
      var i :| 0 <= i < |a| && a[i].key == k && Live(a, i);
      LiveByKeys(a, names, i);
      LiveByKeys(a, b, i);
      assert Keys(a)[i] == Keys(b)[i];
      LastWriteLive(b, k);
    }
    MapExtensional(Collect(a), Collect(b));
  }

  lemma {:induction false} FirstStays(key: string, keys: seq<string>)
    ensures |FirstOccurrences([key] + keys)| > 0 && FirstOccurrences([key] + keys)[0] == key
  {
    var all := [key] + keys;
    if keys == [] {
      assert all[..0] == [];
    } else {
      assert all[..|all| - 1] == [key] + keys[..|keys| - 1];
      FirstStays(key, keys[..|keys| - 1]);
    }
  }

  lemma LiveShown<V>(writes: seq<Entry<V>>, names: seq<Entry<V>>, i: nat)
    requires Keys(writes) == Keys(names) && i < |writes| == |names|
    requires Live(names, i)
    ensures Lookup(Collect(writes), names[i].key) == Some(writes[i].value)
  {
    hide Collect, LastWrite, Lookup;
    LiveByKeys(writes, names, i);
    assert Keys(writes)[i] == Keys(names)[i];
    LookupCollect(writes, names[i].key);
    LastWriteLive(writes, names[i].key);
  }

  lemma LiveAfterFirst<V>(first: Entry<V>, rest: seq<Entry<V>>, i: nat)
    requires i < |rest| && Live([first] + rest, i + 1)
    ensures Live(rest, i)
  {
    var all := [first] + rest;
    forall j | i < j < |rest|
      ensures rest[j].key != rest[i].key
    {
      assert all[j + 1].key != all[i + 1].key;
    }
  }

  lemma KeysAfterFirst<V>(first: Entry<V>, rest: seq<Entry<V>>)
    ensures Keys([first] + rest) == [first.key] + Keys(rest)
  {
  }

  lemma SameLiveAfter<V>(first: Entry<V>, a: seq<Entry<V>>, b: seq<Entry<V>>, names: seq<Entry<V>>)
    requires Keys(a) == Keys(b) == Keys(names) && |a| == |b| == |names|
    requires forall i :: 0 <= i < |names| && Live(names, i) ==> a[i].value == b[i].value
    ensures Collect([first] + a) == Collect([first] + b)
  {
    hide *;
    KeysAfterFirst(first, a);
    KeysAfterFirst(first, b);
    KeysAfterFirst(first, names);
    forall i | 0 <= i < |names| + 1 && Live([first] + names, i)
      ensures ([first] + a)[i].value == ([first] + b)[i].value
    {
      if i > 0 {
        LiveAfterFirst(first, names, i - 1);
      }
    }
    SameLive([first] + a, [first] + b, [first] + names);
  }

  /** Two write sequences over the same keys leave the same object exactly when their live writes agree. */
  lemma CollectEqualIff<V>(a: seq<Entry<V>>, b: seq<Entry<V>>, names: seq<Entry<V>>)
    requires Keys(a) == Keys(b) == Keys(names) && |a| == |b| == |names|
    ensures Collect(a) == Collect(b) <==>
            forall i :: 0 <= i < |names| && Live(names, i) ==> a[i].value == b[i].value
  {
    hide Collect, LastWrite, Lookup;
    if Collect(a) == Collect(b) {
      forall i | 0 <= i < |names| && Live(names, i)
        ensures a[i].value == b[i].value
      {
        LiveShown(a, names, i);
        LiveShown(b, names, i);
      }
    } else if forall i :: 0 <= i < |names| && Live(names, i) ==> a[i].value == b[i].value {
      SameLive(a, b, names);
    }
  }

  lemma {:induction false} FirstOccurrencesConcat(a: seq<string>, b: seq<string>)
    ensures FirstOccurrences(a + FirstOccurrences(b)) == FirstOccurrences(a + b)
    ensures forall k :: k in FirstOccurrences(b) <==> k in b
  {
    if b != [] {
      var (front, last) := (b[..|b| - 1], b[|b| - 1]);
      FirstOccurrencesConcat(a, front);
      assert (a + b)[..|a + b| - 1] == a + front;
      if last in front {
        assert last in a + front;
      } else {
        var f := FirstOccurrences(front);
        assert (a + FirstOccurrences(b))[..|a| + |f|] == a + f;
        assert last in a + f <==> last in a + front;
      }
    }
  }

  /** Writing an object's entries again is like writing what it was collected from. */
  lemma CollectOfCollected<V>(a: seq<Entry<V>>, b: seq<Entry<V>>)
    ensures Collect(a + Collect(b)) == Collect(a + b)
  {
    hide Collect, Lookup, FirstOccurrences;
    var m := Collect(b);
    KeysCollect(a + m);
    KeysCollect(a + b);
    KeysCollect(b);
    assert Keys(a + m) == Keys(a) + Keys(m);
    assert Keys(a + b) == Keys(a) + Keys(b);
    FirstOccurrencesConcat(Keys(a), Keys(b));
    forall k
      ensures Lookup(Collect(a + m), k) == Lookup(Collect(a + b), k)
    {
      LookupOfCollected(a, b, k);
    }
    MapExtensional(Collect(a + m), Collect(a + b));
  }

  lemma LookupOfCollected<V>(a: seq<Entry<V>>, b: seq<Entry<V>>, k: string)
    ensures Lookup(Collect(a + Collect(b)), k) == Lookup(Collect(a + b), k)
  {
    hide Collect, Lookup, LastWrite;
    var m := Collect(b);
    LookupCollect(a + m, k);
    LookupCollect(a + b, k);
    LastWriteConcat(a, m, k);
    LastWriteConcat(a, b, k);
    LookupCollect(m, k);
    LookupCollect(b, k);
    CollectUnique(m);
  }
}
