/** Splitting and joining of strings. */
module Texts {
  /** The parts of `s` between separators, empty ones included. */
  function Split(s: string, separator: char): (parts: seq<string>)
    ensures parts != []
  {
    if s == "" then [""]
    else if s[0] == separator then [""] + Split(s[1..], separator)
    else var rest := Split(s[1..], separator); [[s[0]] + rest[0]] + rest[1..]
  }

  function Join<T>(parts: seq<seq<T>>, separator: seq<T>): seq<T> {
    if parts == [] then []
    else if |parts| == 1 then parts[0]
    else parts[0] + separator + Join(parts[1..], separator)
  }

  lemma JoinFirst<T>(first: seq<T>, rest: seq<seq<T>>, separator: seq<T>)
    ensures Join([first] + rest, separator) == if rest == [] then first else first + separator + Join(rest, separator)
  {
    assert ([first] + rest)[1..] == rest;
  }

  lemma {:induction false} SplitJoins(s: string, separator: char)
    ensures Join(Split(s, separator), [separator]) == s
    ensures forall part <- Split(s, separator) :: separator !in part
  {
    hide Join;
    if s == "" {
      JoinFirst("", [], [separator]);
      assert [""] + [] == [""];
    } else {
      SplitJoins(s[1..], separator);
      var rest := Split(s[1..], separator);
      assert s == [s[0]] + s[1..];
      if s[0] == separator {
        JoinFirst("", rest, [separator]);
      } else {
        assert rest[0] in rest && rest == [rest[0]] + rest[1..];
        JoinFirst(rest[0], rest[1..], [separator]);
        JoinFirst([s[0]] + rest[0], rest[1..], [separator]);
      }
    }
  }

  lemma {:induction false} SplitOfPart(part: string, separator: char, rest: string)
    requires separator !in part
    ensures Split(part, separator) == [part]
    ensures Split(part + [separator] + rest, separator) == [part] + Split(rest, separator)
  {
    if part == "" {
      assert part + [separator] + rest == [separator] + rest;
      assert ([separator] + rest)[1..] == rest;
    } else {
      SplitOfPart(part[1..], separator, rest);
      assert part == [part[0]] + part[1..];
      assert (part + [separator] + rest)[1..] == part[1..] + [separator] + rest;
    }
  }

  lemma {:induction false} SplitOfJoin(parts: seq<string>, separator: char)
    requires parts != [] && forall part <- parts :: separator !in part
    ensures Split(Join(parts, [separator]), separator) == parts
  {
    assert parts[0] in parts;
    if |parts| == 1 {
      SplitOfPart(parts[0], separator, "");
    } else {
      SplitOfJoin(parts[1..], separator);
      SplitOfPart(parts[0], separator, Join(parts[1..], [separator]));
    }
  }

  /** The parts are the only ones without separators that join to `s`. */
  lemma SplitIff(s: string, separator: char, parts: seq<string>)
    ensures Split(s, separator) == parts <==>
            parts != [] && (forall part <- parts :: separator !in part) && Join(parts, [separator]) == s
  {
    SplitJoins(s, separator);
    if parts != [] && (forall part <- parts :: separator !in part) && Join(parts, [separator]) == s {
      SplitOfJoin(parts, separator);
    }
  }
}
