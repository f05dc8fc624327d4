/** `to_camel_case` (fraiseql_rs/src/camel_case.rs) and `to_snake_case` (fraiseql_rs/src/pipeline/projection.rs). */
module CamelCase {
  import opened Texts

  predicate IsUpper(c: char) { 'A' <= c <= 'Z' }

  predicate IsLower(c: char) { 'a' <= c <= 'z' }

  function AsciiUpper(c: char): string {
    if IsLower(c) then [c - 'a' + 'A'] else [c]
  }

  function AsciiLower(c: char): char {
    if IsUpper(c) then c - 'A' + 'a' else c
  }

  /** What the model knows of Rust's `char::to_uppercase`: it is exact on ASCII; elsewhere
      it may be any mapping, to several characters too, that gives something and no underscore. */
  ghost predicate Uppercases(f: char -> string) {
    forall c :: && (c as int < 128 ==> f(c) == AsciiUpper(c))
                && (c != '_' ==> f(c) != "" && '_' !in f(c))
  }

  type Uppercasing = f: char -> string | Uppercases(f) witness AsciiUpper

  /** `to_uppercase`. No value is given: the results hold for every Unicode case mapping. */
  const UPPER: Uppercasing

  /** On ASCII letters the cases are 32 apart; everything else in ASCII is kept. */
  lemma AsciiCases(c: char)
    ensures 97 <= c as int <= 122 ==> UPPER(c) == [(c as int - 32) as char] && AsciiLower(c) == c
    ensures 65 <= c as int <= 90 ==> UPPER(c) == [c] && AsciiLower(c) == (c as int + 32) as char
    ensures c as int < 128 && !(97 <= c as int <= 122) && !(65 <= c as int <= 90) ==>
      UPPER(c) == [c] && AsciiLower(c) == c
  {
  }

  // ----- the specification: split at underscores, capitalize, join -----

  /** How many underscores `s` starts with. */
  function Leading(s: string): (n: nat)
    ensures n <= |s|
    ensures forall i :: 0 <= i < n ==> s[i] == '_'
    ensures n < |s| ==> s[n] != '_'
  {
    if s != "" && s[0] == '_' then 1 + Leading(s[1..]) else 0
  }

  /** The segments of `s` between underscores, empty ones included. */
  function Segments(s: string): (segments: seq<string>)
    ensures segments != []
  {
    Split(s, '_')
  }

  function Capitalized(segment: string): string {
    if segment == "" then "" else UPPER(segment[0]) + segment[1..]
  }

  function CapitalizedAll(segments: seq<string>): string {
    if segments == [] then "" else Capitalized(segments[0]) + CapitalizedAll(segments[1..])
  }

  function Camel(s: string): string {
    var segments := Segments(s[Leading(s)..]);
    s[..Leading(s)] + segments[0] + CapitalizedAll(segments[1..])
  }

  // ----- the loop -----

  /** What the loop still appends once it is past the leading underscores. */
  function Scan(t: string, capitalizeNext: bool): string {
    if t == "" then ""
    else if t[0] == '_' then Scan(t[1..], true)
    else (if capitalizeNext then UPPER(t[0]) else [t[0]]) + Scan(t[1..], false)
  }

  lemma {:induction false} ScanIsSplit(t: string)
    ensures Scan(t, false) == Segments(t)[0] + CapitalizedAll(Segments(t)[1..])
    ensures Scan(t, true) == CapitalizedAll(Segments(t))
  {
    if t != "" {
      ScanIsSplit(t[1..]);
      var rest := Segments(t[1..]);
      if t[0] == '_' {
        assert Segments(t)[1..] == rest;
      } else {
        assert Segments(t)[1..] == rest[1..];
        assert Segments(t)[0][1..] == rest[0];
      }
    }
  }

  lemma CamelIsScan(s: string)
    ensures Camel(s) == s[..Leading(s)] + Scan(s[Leading(s)..], false)
  {
    ScanIsSplit(s[Leading(s)..]);
  }

  lemma ScanStep(s: string, i: nat, capitalizeNext: bool, before: string)
    requires i < |s|
    ensures s[i] == '_' ==> Scan(s[i..], capitalizeNext) == Scan(s[i + 1..], true)
    ensures s[i] != '_' ==>
      before + Scan(s[i..], capitalizeNext) ==
      before + (if capitalizeNext then UPPER(s[i]) else [s[i]]) + Scan(s[i + 1..], false)
  {
    assert s[i..][1..] == s[i + 1..];
    if s[i] != '_' {
      var up, rest := if capitalizeNext then UPPER(s[i]) else [s[i]], Scan(s[i + 1..], false);
      assert before + (up + rest) == before + up + rest;
    }
  }

  /** The two-flag character loop. */
  method ToCamelCase(s: string) returns (result: string)
    ensures result == Camel(s)
  {
    if s == "" {
      return "";
    }
    result := "";
    var capitalizeNext, isFirstChar := false, true;
    CamelIsScan(s);
    var i := 0;
    while i < |s|
      invariant 0 <= i <= |s|
      invariant isFirstChar ==> i <= Leading(s) && result == s[..i] && !capitalizeNext
      invariant !isFirstChar ==> result + Scan(s[i..], capitalizeNext) == Camel(s)
    {
      var c := s[i];
      ScanStep(s, i, capitalizeNext, result);
      assert isFirstChar ==> (c != '_' <==> i == Leading(s));
      if c == '_' {
        if isFirstChar {
          result := result + [c];
        } else {
          capitalizeNext := true;
        }
      } else {
        if capitalizeNext {
          result := result + UPPER(c);
          capitalizeNext := false;
        } else {
          result := result + [c];
        }
        isFirstChar := false;
      }
      i := i + 1;
    }
    if isFirstChar {
      assert result == s;
    } else {
      assert s[i..] == "";
    }
  }

  // ----- fixed points and idempotence -----

  /** `s` is camelCase already: no underscore but leading ones. */
  predicate IsCamel(s: string) {
    '_' !in s[Leading(s)..]
  }

  lemma {:induction false} ScanHasNoUnderscore(t: string, capitalizeNext: bool)
    ensures '_' !in Scan(t, capitalizeNext)
  {
    if t != "" {
      ScanHasNoUnderscore(t[1..], t[0] == '_');
    }
  }

  lemma {:induction false} ScanKeepsCamel(t: string)
    requires '_' !in t
    ensures Scan(t, false) == t
  {
    if t != "" {
      assert '_' !in t[1..] by { assert forall c :: c in t[1..] ==> c in t; }
      assert t[0] in t;
      ScanKeepsCamel(t[1..]);
    }
  }

  /** A name is left unchanged exactly when its only underscores are leading ones. */
  lemma FixedPointIff(s: string)
    ensures Camel(s) == s <==> IsCamel(s)
  {
    var n := Leading(s);
    CamelIsScan(s);
    ScanHasNoUnderscore(s[n..], false);
    if IsCamel(s) {
      ScanKeepsCamel(s[n..]);
    }
    if Camel(s) == s {
      assert Camel(s)[n..] == Scan(s[n..], false);
    }
  }

  lemma {:induction false} LeadingOfUnderscores(s: string, n: nat)
    requires n <= |s| && '_' !in s[n..]
    requires forall i :: 0 <= i < n ==> s[i] == '_'
    ensures Leading(s) == n
  {
    if n > 0 {
      assert s[1..][n - 1..] == s[n..];
      LeadingOfUnderscores(s[1..], n - 1);
    } else {
      assert s[0..] == s;
      assert s != "" ==> s[0] in s;
    }
  }

  /** Converting twice changes nothing more. */
  lemma Idempotent(s: string)
    ensures IsCamel(Camel(s))
    ensures Camel(Camel(s)) == Camel(s)
  {
    var n := Leading(s);
    CamelIsScan(s);
    ScanHasNoUnderscore(s[n..], false);
    assert Camel(s)[n..] == Scan(s[n..], false);
    LeadingOfUnderscores(Camel(s), n);
    FixedPointIff(Camel(s));
  }

  /** A name without underscores is kept. */
  lemma NoUnderscoreKept(s: string)
    requires '_' !in s
    ensures Camel(s) == s
  {
    LeadingOfUnderscores(s, 0);
    FixedPointIff(s);
  }

  // ----- back to snake_case -----

  function SnakeChar(c: char): string {
    if IsUpper(c) then ['_', AsciiLower(c)] else [c]
  }

  function SnakeTail(t: string): string {
    if t == "" then "" else SnakeChar(t[0]) + SnakeTail(t[1..])
  }

  /** An underscore before every ASCII capital but one at the very start, and lower case. */
  function Snake(s: string): string {
    if s == "" then "" else [AsciiLower(s[0])] + SnakeTail(s[1..])
  }

  lemma {:induction false} SnakeTailConcat(a: string, b: string)
    ensures SnakeTail(a + b) == SnakeTail(a) + SnakeTail(b)
  {
    if a == "" {
      assert a + b == b;
    } else {
      assert (a + b)[1..] == a[1..] + b;
      SnakeTailConcat(a[1..], b);
    }
  }

  lemma SnakeOfNothing()
    ensures Snake("") == ""
  {
  }

  /** One more character. */
  lemma SnakeStep(s: string, i: nat)
    requires i < |s|
    ensures Snake(s[..i + 1]) == Snake(s[..i]) + if i > 0 then SnakeChar(s[i]) else [AsciiLower(s[i])]
  {
    var c := s[i];
    assert s[..i + 1] == s[..i] + [c];
    if i > 0 {
      assert s[..i + 1][1..] == s[..i][1..] + [c];
      SnakeTailConcat(s[..i][1..], [c]);
      assert SnakeTail([c]) == SnakeChar(c);
    }
  }

  method ToSnakeCase(s: string) returns (result: string)
    ensures result == Snake(s)
  {
    hide Snake;
    result := "";
    SnakeOfNothing();
    var i := 0;
    while i < |s|
      invariant 0 <= i <= |s|
      invariant result == Snake(s[..i])
    {
      var c := s[i];
      SnakeStep(s, i);
      if IsUpper(c) {
        if i > 0 {
          result := result + "_";
        }
        result := result + [AsciiLower(c)];
      } else {
        result := result + [c];
      }
      i := i + 1;
    }
    assert s[..|s|] == s;
  }

  predicate StartsLower(segment: string) {
    segment != "" && IsLower(segment[0])
  }

  predicate HasNoUpper(s: string) {
    forall c <- s :: !IsUpper(c)
  }

  /** No capital, and each segment after the first starts with a lower-case letter. */
  predicate Canonical(s: string) {
    HasNoUpper(s) && forall segment <- Segments(s[Leading(s)..])[1..] :: StartsLower(segment)
  }

  /** `Canonical`, read character by character; `after`: an underscore precedes. */
  predicate CanonicalTail(t: string, after: bool) {
    if t == "" then !after
    else if t[0] == '_' then !after && CanonicalTail(t[1..], true)
    else (if after then IsLower(t[0]) else !IsUpper(t[0])) && CanonicalTail(t[1..], false)
  }

  lemma {:induction false} CanonicalTailIsSplit(t: string)
    ensures CanonicalTail(t, false) <==> HasNoUpper(t) && forall segment <- Segments(t)[1..] :: StartsLower(segment)
    ensures CanonicalTail(t, true) <==> HasNoUpper(t) && forall segment <- Segments(t) :: StartsLower(segment)
  {
    var segments := Segments(t);
    assert segments == [segments[0]] + segments[1..] && segments[0] in segments;
    assert forall segment :: segment in segments <==> segment == segments[0] || segment in segments[1..];
    if t != "" {
      CanonicalTailIsSplit(t[1..]);
      var rest := Segments(t[1..]);
      assert forall c :: c in t <==> c == t[0] || c in t[1..];
      assert HasNoUpper(t) <==> !IsUpper(t[0]) && HasNoUpper(t[1..]);
      if t[0] == '_' {
        assert segments[1..] == rest;
      } else {
        assert segments[1..] == rest[1..];
        assert StartsLower(segments[0]) <==> IsLower(t[0]);
      }
    }
  }

  /** After an underscore, snake_case text goes on with a letter that was a capital. */
  lemma SnakeTailStart(x: string)
    requires '_' !in x && x != ""
    ensures SnakeTail(x)[0] == '_' <==> IsUpper(x[0])
    ensures IsUpper(x[0]) ==> SnakeTail(x) == ['_', AsciiLower(x[0])] + SnakeTail(x[1..])
  {
    assert x[0] in x;
  }

  lemma {:induction false} TailRoundTrip(t: string)
    ensures SnakeTail(Scan(t, false)) == t <==> CanonicalTail(t, false)
    ensures SnakeTail(Scan(t, true)) == "_" + t <==> CanonicalTail(t, true)
  {
    if t != "" {
      var c, rest := t[0], t[1..];
      TailRoundTrip(rest);
      assert t == [c] + rest;
      if c == '_' {
        UnderscoreTail(rest);
      } else {
        SnakeTailConcat([c], Scan(rest, false));
        SnakeTailConcat(UPPER(c), Scan(rest, false));
        if !IsUpper(c) {
          assert SnakeTail([c] + Scan(rest, false))[1..] == SnakeTail(Scan(rest, false));
        } else {
          assert SnakeTail([c]) == SnakeChar(c);
        }
        CapitalRoundTrip(c, rest);
      }
    }
  }

  lemma CapitalRoundTrip(c: char, rest: string)
    requires c != '_'
    requires SnakeTail(Scan(rest, false)) == rest <==> CanonicalTail(rest, false)
    ensures SnakeTail(UPPER(c) + Scan(rest, false)) == "_" + ([c] + rest) <==>
            IsLower(c) && CanonicalTail(rest, false)
  {
    var up, body := UPPER(c), SnakeTail(Scan(rest, false));
    SnakeTailConcat(up, Scan(rest, false));
    SnakeTailStart(up);
    if IsLower(c) {
      assert SnakeTail(up) == ['_', c];
      assert (['_', c] + body)[2..] == body;
      assert "_" + ([c] + rest) == ['_', c] + rest;
    } else if IsUpper(up[0]) {
      assert (SnakeTail(up) + body)[1] == AsciiLower(up[0]);
      assert ("_" + ([c] + rest))[1] == c;
    } else {
      assert (SnakeTail(up) + body)[0] == SnakeTail(up)[0];
    }
  }

  /** Two underscores in a row never come back. */
  lemma UnderscoreTail(rest: string)
    ensures SnakeTail(Scan(rest, true)) != "_" + (['_'] + rest)
  {
    var x := Scan(rest, true);
    ScanHasNoUnderscore(rest, true);
    if x != "" {
      SnakeTailStart(x);
      if IsUpper(x[0]) {
        assert SnakeTail(x)[1] == AsciiLower(x[0]);
      }
    }
  }

  /** The way back recovers a name exactly when the name is canonical. */
  lemma RoundTripIff(s: string)
    ensures Snake(Camel(s)) == s <==> Canonical(s)
  {
    var n := Leading(s);
    var t := s[n..];
    CamelIsScan(s);
    CanonicalTailIsSplit(t);
    assert HasNoUpper(s) <==> HasNoUpper(t) by {
      assert s == s[..n] + t;
    }
    if n == 0 {
      RoundTripFromLetter(s);
    } else {
      RoundTripFromUnderscore(s);
    }
  }

  lemma RoundTripFromUnderscore(s: string)
    requires Leading(s) > 0
    ensures Snake(Camel(s)) == s <==> CanonicalTail(s[Leading(s)..], false)
  {
    hide Snake, SnakeTail, Camel, Scan, CanonicalTail;
    var u, t := s[..Leading(s)], s[Leading(s)..];
    var body := Scan(t, false);
    CamelIsScan(s);
    TailRoundTrip(t);
    SnakeAfterUnderscores(u, body);
    assert (u + SnakeTail(body))[|u|..] == SnakeTail(body);
    assert s[|u|..] == t;
    assert s == u + t;
  }

  lemma SnakeAfterUnderscores(u: string, body: string)
    requires u != "" && forall i :: 0 <= i < |u| ==> u[i] == '_'
    ensures Snake(u + body) == u + SnakeTail(body)
  {
    SnakeTailConcat(u, body);
    SnakeTailOfUnderscores(u);
    SnakeIsTail(u + body);
  }

  lemma SnakeIsTail(s: string)
    requires s != "" && !IsUpper(s[0])
    ensures Snake(s) == SnakeTail(s)
  {
  }

  lemma {:induction false} SnakeTailOfUnderscores(u: string)
    requires forall i :: 0 <= i < |u| ==> u[i] == '_'
    ensures SnakeTail(u) == u
  {
    if u != "" {
      SnakeTailOfUnderscores(u[1..]);
    }
  }

  lemma RoundTripFromLetter(s: string)
    requires Leading(s) == 0
    ensures Snake(Camel(s)) == s <==> CanonicalTail(s, false)
  {
    CamelIsScan(s);
    assert s[0..] == s;
    if s != "" {
      TailRoundTrip(s[1..]);
      assert Camel(s) == [s[0]] + Scan(s[1..], false);
      assert Camel(s)[1..] == Scan(s[1..], false);
      assert Snake(Camel(s))[1..] == SnakeTail(Scan(s[1..], false));
      assert s == [s[0]] + s[1..];
      assert Snake(Camel(s))[0] == AsciiLower(s[0]);
    }
  }

  /** So no two canonical names share a camelCase form. */
  lemma CanonicalInjective(a: string, b: string)
    requires Canonical(a) && Canonical(b) && Camel(a) == Camel(b)
    ensures a == b
  {
    RoundTripIff(a);
    RoundTripIff(b);
  }
}
