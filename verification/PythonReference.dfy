/** The pure-Python transform that the Rust one is measured against (benchmarks/rust_vs_python_benchmark.py). */
module PythonReference {
  import opened CamelCase
  import opened Json
  import opened KeyTransform

  predicate IsLetter(c: char) { IsUpper(c) || IsLower(c) }

  predicate IsAscii(s: string) { forall i :: 0 <= i < |s| ==> s[i] as int < 128 }

  /** Python's `str.title`, on ASCII: a letter is upper case after anything but a letter, else lower case. */
  function Title(s: string, afterLetter: bool): string {
    if s == "" then ""
    else
      var c := s[0];
      var titled := if IsLetter(c) then if afterLetter then [AsciiLower(c)] else AsciiUpper(c) else [c];
      titled + Title(s[1..], IsLetter(c))
  }

  function TitledAll(segments: seq<string>): string {
    if segments == [] then "" else Title(segments[0], false) + TitledAll(segments[1..])
  }

  /** `to_camel_case_python`: split at every underscore, title every segment but the first. */
  function CamelPython(s: string): string {
    var components := Segments(s);
    components[0] + TitledAll(components[1..])
  }

  /** Inside the segment, the letters after letters are lower case, and the others upper case. */
  predicate TitleFriendly(segment: string) {
    segment == "" || FriendlyAfter(segment[0], segment[1..])
  }

  predicate FriendlyAfter(c: char, s: string)
    decreases s
  {
    s == "" || ((IsLetter(s[0]) ==> (IsLower(s[0]) <==> IsLetter(c))) && FriendlyAfter(s[0], s[1..]))
  }

  lemma {:induction false} TitleLength(s: string, afterLetter: bool)
    ensures |Title(s, afterLetter)| == |s|
  {
    if s != "" {
      TitleLength(s[1..], IsLetter(s[0]));
    }
  }

  /** An ASCII letter, by its code. */
  predicate LetterCode(c: char) {
    65 <= c as int <= 90 || 97 <= c as int <= 122
  }

  /** Character by character: a letter after a letter is lower case, any other letter upper case, and what is no letter
      is kept. */
  lemma {:induction false} TitleAt(s: string, afterLetter: bool, i: nat)
    requires i < |s|
    ensures |Title(s, afterLetter)| == |s|
    ensures var c, inWord := s[i], if i == 0 then afterLetter else LetterCode(s[i - 1]);
      Title(s, afterLetter)[i] as int ==
      if inWord && 65 <= c as int <= 90 then c as int + 32
      else if !inWord && 97 <= c as int <= 122 then c as int - 32
      else c as int
  {
    TitleLength(s, afterLetter);
    if i > 0 {
      TitleAt(s[1..], IsLetter(s[0]), i - 1);
    }
  }

  lemma {:induction false} TitleKeepsIff(c: char, s: string)
    ensures Title(s, IsLetter(c)) == s <==> FriendlyAfter(c, s)
    decreases s
  {
    if s != "" {
      TitleKeepsIff(s[0], s[1..]);
      assert Title(s, IsLetter(c))[1..] == Title(s[1..], IsLetter(s[0]));
      assert s == [s[0]] + s[1..];
    }
  }

  lemma Cancel(a: string, b: string, c: string)
    ensures a + b == a + c <==> b == c
  {
    assert (a + b)[|a|..] == b && (a + c)[|a|..] == c;
  }

  lemma TitleIsCapitalizedIff(segment: string)
    requires IsAscii(segment)
    ensures Title(segment, false) == Capitalized(segment) <==> TitleFriendly(segment)
    ensures |Title(segment, false)| == |Capitalized(segment)|
  {
    TitleLength(segment, false);
    if segment != "" {
      var c, rest := segment[0], segment[1..];
      TitleKeepsIff(c, rest);
      assert Title(segment, false) == AsciiUpper(c) + Title(rest, IsLetter(c));
      Cancel(AsciiUpper(c), Title(rest, IsLetter(c)), rest);
    }
  }

  lemma {:induction false} TitledAllIff(segments: seq<string>)
    requires forall i :: 0 <= i < |segments| ==> IsAscii(segments[i])
    ensures TitledAll(segments) == CapitalizedAll(segments) <==>
            forall i :: 0 <= i < |segments| ==> TitleFriendly(segments[i])
    ensures |TitledAll(segments)| == |CapitalizedAll(segments)|
  {
    if segments != [] {
      var (first, rest) := (segments[0], segments[1..]);
      TitledAllIff(rest);
      TitleIsCapitalizedIff(first);
      var n := |Title(first, false)|;
      assert TitledAll(segments)[..n] == Title(first, false) && TitledAll(segments)[n..] == TitledAll(rest);
      assert CapitalizedAll(segments)[..n] == Capitalized(first);
      assert CapitalizedAll(segments)[n..] == CapitalizedAll(rest);
      assert forall i :: 1 <= i < |segments| ==> segments[i] == rest[i - 1];
      assert forall i :: 0 <= i < |rest| ==> rest[i] == segments[i + 1];
    }
  }

  lemma {:induction false} SplitAscii(s: string)
    requires IsAscii(s)
    ensures forall i :: 0 <= i < |Segments(s)| ==> IsAscii(Segments(s)[i])
  {
    if s != "" {
      SplitAscii(s[1..]);
      var (all, rest) := (Segments(s), Segments(s[1..]));
      assert forall i :: 1 <= i < |all| ==> all[i] == if s[0] == '_' then rest[i - 1] else rest[i];
    }
  }

  /** Both forms have as many characters as there are other than the underscores that go. */
  lemma {:induction false} SplitLeading(s: string)
    requires IsAscii(s)
    ensures Leading(s) > 0 ==> |CamelPython(s)| < |Camel(s)|
    ensures |TitledAll(Segments(s))| == |Segments(s)[0]| + |TitledAll(Segments(s)[1..])|
    ensures |CamelPython(s)| == |CamelPython(s[Leading(s)..])|
  {
    TitleLength(Segments(s)[0], false);
    if Leading(s) > 0 {
      var rest := s[1..];
      SplitLeading(rest);
      assert Segments(s)[1..] == Segments(rest);
      assert rest[Leading(rest)..] == s[Leading(s)..];
      LengthAgrees(s[Leading(s)..]);
    } else {
      assert s[0..] == s;
    }
  }

  lemma LengthAgrees(t: string)
    requires IsAscii(t)
    ensures |CamelPython(t)| == |Segments(t)[0] + CapitalizedAll(Segments(t)[1..])|
  {
    SplitAscii(t);
    TitledAllIff(Segments(t)[1..]);
  }

  /** On an ASCII key the two conversions agree exactly when the key does not start with an underscore and each
      later segment reads in title case but for its first letter. */
  lemma KeyAgreesIff(k: string)
    requires IsAscii(k)
    ensures CamelPython(k) == Camel(k) <==>
            Leading(k) == 0 && forall i :: 1 <= i < |Segments(k)| ==> TitleFriendly(Segments(k)[i])
  {
    hide TitleFriendly, TitledAll, CapitalizedAll;
    SplitLeading(k);
    if Leading(k) == 0 {
      assert k[0..] == k;
      var first, later := Segments(k)[0], Segments(k)[1..];
      SplitAscii(k);
      TitledAllIff(later);
      Cancel(first, TitledAll(later), CapitalizedAll(later));
      assert Camel(k) == first + CapitalizedAll(later) by {
        assert k[..0] + first == first;
      }
      assert forall i {:trigger Segments(k)[i]} :: 1 <= i < |Segments(k)| ==> Segments(k)[i] == later[i - 1];
      assert forall i :: 0 <= i < |later| ==> later[i] == Segments(k)[i + 1];
    }
  }

  // ----- dictionaries -----

  /** `transform_dict_python(data, recursive=True)`: a list's dictionaries are transformed, its lists are not. */
  function DictPython(m: Map<Value>): Map<Value>
    decreases m, 1
  {
    Collect(DictWrites(m))
  }

  function DictWrites(m: Map<Value>): (writes: seq<Entry<Value>>)
    ensures |writes| == |m|
    decreases m, 0
  {
    seq(|m|, i requires 0 <= i < |m| => Entry(CamelPython(m[i].key), ValuePython(m[i].value)))
  }

  function ValuePython(v: Value): Value {
    match v
    case Object(d) => Object(DictPython(d))
    case Array(items) => Array(seq(|items|, i requires 0 <= i < |items| => ItemPython(items[i])))
    case _ => v
  }

  function ItemPython(item: Value): Value {
    match item
    case Object(d) => Object(DictPython(d))
    case _ => item
  }

  /** `m` with its own keys converted and its values as they are. */
  function RenamedPython(m: Map<Value>): (writes: seq<Entry<Value>>)
    ensures |writes| == |m|
  {
    seq(|m|, i requires 0 <= i < |m| => Entry(CamelPython(m[i].key), m[i].value))
  }

  method TransformDictPython(data: Map<Value>, recursive: bool) returns (result: Map<Value>)
    ensures recursive ==> result == DictPython(data)
    ensures !recursive ==> result == Collect(RenamedPython(data))
    decreases data, 1
  {
    hide Collect, Insert, CamelPython, ValuePython, ItemPython;
    result := [];
    ghost var writes := if recursive then DictWrites(data) else RenamedPython(data);
    EmptyStart(writes);
    for i := 0 to |data|
      invariant result == Collect(writes[..i])
    {
      var (key, value) := (data[i].key, data[i].value);
      var camelKey := CamelPython(key);
      CollectStep(writes, i);
      var converted := value;
      if recursive && value.Object? {
        var dict := TransformDictPython(value.fields, true);
        converted := Object(dict);
      } else if recursive && value.Array? {
        converted := TransformListPython(value.items);
      }
      ValueCases(value);
      result := Insert(result, camelKey, converted);
    }
    assert writes[..|data|] == writes;
  }

  lemma EmptyStart(writes: seq<Entry<Value>>)
    ensures Collect(writes[..0]) == []
  {
  }

  lemma ValueCases(v: Value)
    ensures v.Object? ==> ValuePython(v) == Object(DictPython(v.fields))
    ensures !v.Object? && !v.Array? ==> ValuePython(v) == v
  {
  }

  /** The list comprehension inside `transform_dict_python`. */
  method TransformListPython(items: seq<Value>) returns (list: Value)
    ensures list == ValuePython(Array(items))
    decreases items, 0
  {
    var result: seq<Value> := [];
    for j := 0 to |items|
      invariant |result| == j && forall l :: 0 <= l < j ==> result[l] == ItemPython(items[l])
    {
      var item := items[j];
      if item.Object? {
        var dict := TransformDictPython(item.fields, true);
        item := Object(dict);
      }
      result := result + [item];
    }
    list := Array(result);
  }

  /** At every depth the keys convert alike, and what lies in a list inside a list is in camelCase already. */
  predicate PythonFriendly(v: Value) {
    match v
    case Object(m) => forall i :: 0 <= i < |m| ==> FriendlyKey(m[i].key) && PythonFriendly(m[i].value)
    case Array(items) =>
      forall i :: 0 <= i < |items| ==> if items[i].Array? then AllCamel(items[i]) else PythonFriendly(items[i])
    case _ => true
  }

  predicate FriendlyKey(k: string) {
    IsAscii(k) && Leading(k) == 0 && forall i :: 1 <= i < |Segments(k)| ==> TitleFriendly(Segments(k)[i])
  }

  /** Then the fast transform gives what the Python one gives, colliding keys included. */
  lemma {:induction false} AgreesWithPython(v: Value)
    requires PythonFriendly(v)
    ensures Camelized(v) == ValuePython(v)
  {
    match v
    case Object(m) =>
      forall i | 0 <= i < |m|
        ensures CamelWrites(m)[i] == DictWrites(m)[i]
      {
        KeyAgreesIff(m[i].key);
        AgreesWithPython(m[i].value);
      }
      assert CamelWrites(m) == DictWrites(m);
    case Array(items) =>
      forall i | 0 <= i < |items|
        ensures Camelized(items[i]) == ItemPython(items[i])
      {
        if items[i].Array? {
          AllCamelUnchanged(items[i]);
        } else {
          AgreesWithPython(items[i]);
        }
      }
      assert Camelized(v).items == ValuePython(v).items;
    case _ =>
  }

  predicate AsciiKeys(v: Value) {
    match v
    case Object(m) => forall i :: 0 <= i < |m| ==> IsAscii(m[i].key) && AsciiKeys(m[i].value)
    case Array(items) => forall i :: 0 <= i < |items| ==> AsciiKeys(items[i])
    case _ => true
  }

  /** Where no two keys of an object collide, nothing hides a difference. */
  lemma {:induction false} AgreesOnlyWhenFriendly(v: Value)
    requires AsciiKeys(v) && CollisionFree(v) && Camelized(v) == ValuePython(v)
    ensures PythonFriendly(v)
  {
    match v
    case Object(m) =>
      var camel, python := CamelWrites(m), DictWrites(m);
      CamelWritesUnique(m);
      CollectUnique(camel);
      CollectLength(python);
      CollectUnique(python);
      forall i | 0 <= i < |m|
        ensures FriendlyKey(m[i].key) && PythonFriendly(m[i].value)
      {
        assert camel[i] == python[i];
        KeyAgreesIff(m[i].key);
        AgreesOnlyWhenFriendly(m[i].value);
      }
    case Array(items) =>
      forall i | 0 <= i < |items|
        ensures if items[i].Array? then AllCamel(items[i]) else PythonFriendly(items[i])
      {
        assert Camelized(v).items[i] == ValuePython(v).items[i];
        if items[i].Array? {
          UnchangedIff(items[i]);
        } else {
          AgreesOnlyWhenFriendly(items[i]);
        }
      }
    case _ =>
  }

  /** So on ASCII keys that do not collide, the two transforms agree exactly on these values. */
  lemma AgreesIff(v: Value)
    requires AsciiKeys(v) && CollisionFree(v)
    ensures Camelized(v) == ValuePython(v) <==> PythonFriendly(v)
  {
    if PythonFriendly(v) {
      AgreesWithPython(v);
    } else if Camelized(v) == ValuePython(v) {
      AgreesOnlyWhenFriendly(v);
    }
  }

  /** Not so for a list directly inside a list: the Python form leaves its keys alone. */
  lemma NestedListDiffers(k: string, v: Value)
    requires !IsCamel(k)
    ensures var nested := Array([Array([Object([Entry(k, v)])])]);
      ValuePython(nested) == nested && Camelized(nested) != nested
  {
    var nested := Array([Array([Object([Entry(k, v)])])]);
    assert ValuePython(nested).items == nested.items;
    assert !AllCamel(nested) by {
      assert !AllCamel(Object([Entry(k, v)])) by {
        assert [Entry(k, v)][0].key == k;
      }
      assert [Object([Entry(k, v)])][0] == Object([Entry(k, v)]);
      assert nested.items[0] == Array([Object([Entry(k, v)])]);
    }
    UnchangedIff(nested);
  }
}
