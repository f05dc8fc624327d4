/** The SQL that the builders write (fraiseql_rs/src/mutations.rs): statements, their text, and how a database
    reads the text (PostgreSQL documentation, section 4.1, "Lexical Structure"). */
module Sql {
  import opened Options
  import opened Texts

  datatype Operator = Eq | Ne | Gt | Gte | Lt | Lte | Like {
    function Symbol(): string {
      match this
      case Eq => "=" case Ne => "!=" case Gt => ">" case Gte => ">=" case Lt => "<" case Lte => "<=" case Like => "LIKE"
    }
  }

  datatype Operand = Column(name: string) | Bound(placeholder: nat) | Literal(number: nat)

  datatype Condition = Condition(left: Operand, operator: Operator, right: Operand)

  datatype Assignment = Assignment(column: string, placeholder: nat)

  /** `where` lists the alternatives of the condition; there is none, when it is empty. */
  datatype Statement =
    | InsertInto(table: string, values: seq<Assignment>)
    | Update(table: string, sets: seq<Assignment>, where: seq<Condition>)
    | DeleteFrom(table: string, where: seq<Condition>)

  // ----- the text -----

  function Decimal(n: nat): string {
    if n < 10 then ["0123456789"[n]] else Decimal(n / 10) + ["0123456789"[n % 10]]
  }

  function Placeholder(n: nat): string {
    "$" + Decimal(n)
  }

  function OperandText(operand: Operand): string {
    match operand
    case Column(name) => name
    case Bound(n) => Placeholder(n)
    case Literal(n) => Decimal(n)
  }

  function ConditionText(c: Condition): string {
    OperandText(c.left) + " " + c.operator.Symbol() + " " + OperandText(c.right)
  }

  function SetText(a: Assignment): string {
    a.column + " = " + Placeholder(a.placeholder)
  }

  function ColumnText(a: Assignment): string {
    a.column
  }

  function ValueText(a: Assignment): string {
    Placeholder(a.placeholder)
  }

  function TextOf<T>(items: seq<T>, text: T -> string): (texts: seq<string>)
    ensures |texts| == |items|
  {
    seq(|items|, i requires 0 <= i < |items| => text(items[i]))
  }

  function WhereText(where: seq<Condition>): string {
    if where == [] then "" else " WHERE " + Join(TextOf(where, ConditionText), " OR ")
  }

  function Render(statement: Statement): string {
    match statement
    case InsertInto(table, values) =>
      "INSERT INTO " + table + " (" + Join(TextOf(values, ColumnText), ", ") + ") VALUES (" +
      Join(TextOf(values, ValueText), ", ") + ")"
    case Update(table, sets, where) =>
      "UPDATE " + table + " SET " + Join(TextOf(sets, SetText), ", ") + WhereText(where)
    case DeleteFrom(table, where) =>
      "DELETE FROM " + table + WhereText(where)
  }

  // ----- how the text is read: into tokens -----

  datatype Token = Word(text: string) | Parameter(n: nat) | Numeral(n: nat) | Symbol(text: string)

  predicate IsSpace(c: char) { c == ' ' || c == '\t' || c == '\n' || c == '\r' }

  predicate IsDigit(c: char) { '0' <= c <= '9' }

  predicate StartsWord(c: char) {
    'a' <= c <= 'z' || 'A' <= c <= 'Z' || c == '_' || c as int >= 128
  }

  /** A word may hold dots: then it is a qualified name. */
  predicate InWord(c: char) {
    StartsWord(c) || IsDigit(c) || c == '$' || c == '.'
  }

  predicate InOperator(c: char) {
    || c == '<' || c == '>' || c == '=' || c == '!' || c == '~' || c == '@' || c == '#' || c == '%' || c == '^'
    || c == '+' || c == '-' || c == '*' || c == '/' || c == '&' || c == '|' || c == '`' || c == '?'
  }

  /** How many characters at the start of `s` satisfy `p`. */
  function Span(s: string, p: char -> bool): (n: nat)
    ensures n <= |s|
    ensures forall i :: 0 <= i < n ==> p(s[i])
    ensures n < |s| ==> !p(s[n])
  {
    if s != "" && p(s[0]) then 1 + Span(s[1..], p) else 0
  }

  function NatOf(digits: string): nat
    requires forall i :: 0 <= i < |digits| ==> IsDigit(digits[i])
  {
    if digits == "" then 0
    else
      var last := digits[|digits| - 1];
      assert IsDigit(last);
      10 * NatOf(digits[..|digits| - 1]) + (last as int - '0' as int)
  }

  /** Words without quotes are folded to lower case. */
  function Folded(word: string): (folded: string)
    ensures |folded| == |word|
  {
    seq(|word|, i requires 0 <= i < |word| => if 'A' <= word[i] <= 'Z' then word[i] - 'A' + 'a' else word[i])
  }

  /** `s` starts with a placeholder. */
  predicate StartsParameter(s: string) {
    |s| > 1 && s[0] == '$' && IsDigit(s[1])
  }

  /** The first token of `s`, which does not start with a space, and its length. */
  function FirstToken(s: string): (r: (Token, nat))
    requires s != "" && !IsSpace(s[0])
    ensures 0 < r.1 <= |s|
  {
    if StartsWord(s[0]) then
      var n := Span(s, InWord);
      (Word(Folded(s[..n])), n)
    else if IsDigit(s[0]) then
      var n := Span(s, IsDigit);
      (Numeral(NatOf(s[..n])), n)
    else if StartsParameter(s) then
      var n := Span(s[1..], IsDigit);
      (Parameter(NatOf(s[1..][..n])), n + 1)
    else if InOperator(s[0]) then
      var n := Span(s, InOperator);
      (Symbol(s[..n]), n)
    else (Symbol(s[..1]), 1)
  }

  function Tokens(s: string): seq<Token>
    decreases |s|
  {
    if s == "" then []
    else if IsSpace(s[0]) then Tokens(s[1..])
    else var (token, n) := FirstToken(s); [token] + Tokens(s[n..])
  }

  // ----- and the tokens into a statement -----

  /** Words that are no names. The model knows only these; the results hold for every larger set. */
  const KEYWORDS: set<string> := {"from", "into", "like", "or", "where"}

  type ReservedWords = words: set<string> | KEYWORDS <= words witness KEYWORDS

  const RESERVED: ReservedWords

  predicate IsWord(s: string) {
    s != "" && StartsWord(s[0]) && (forall c <- s :: InWord(c)) && Folded(s) == s
  }

  /** What stands for itself as a column: an identifier without capitals that is no reserved word. */
  predicate IsName(s: string) {
    IsWord(s) && '.' !in s && s !in RESERVED
  }

  /** A table's name, which may be qualified. */
  predicate IsTable(s: string) {
    IsWord(s) && forall part <- Split(s, '.') :: IsName(part)
  }

  function ReadOperand(t: Token): (r: Option<Operand>)
    ensures r.Some? ==> NamedOperand(r.value)
  {
    match t
    case Word(text) => if IsName(text) then Some(Column(text)) else None
    case Parameter(n) => Some(Bound(n))
    case Numeral(n) => Some(Literal(n))
    case Symbol(_) => None
  }

  function ReadOperator(t: Token): Option<Operator> {
    if t == Symbol("=") then Some(Eq)
    else if t == Symbol("!=") then Some(Ne)
    else if t == Symbol(">") then Some(Gt)
    else if t == Symbol(">=") then Some(Gte)
    else if t == Symbol("<") then Some(Lt)
    else if t == Symbol("<=") then Some(Lte)
    else if t == Word("like") then Some(Like)
    else None
  }

  /** Conditions with OR between them, to the end. */
  function ReadAlternatives(ts: seq<Token>): (r: Option<seq<Condition>>)
    ensures r.Some? ==> NamedWhere(r.value)
  {
    if |ts| < 3 then None
    else
      var left, operator, right := ReadOperand(ts[0]), ReadOperator(ts[1]), ReadOperand(ts[2]);
      if left.None? || operator.None? || right.None? then None
      else
        var first := Condition(left.value, operator.value, right.value);
        if |ts| == 3 then Some([first])
        else if ts[3] != Word("or") then None
        else
          var rest := ReadAlternatives(ts[4..]);
          if rest.Some? then Some([first] + rest.value) else None
  }

  function ReadWhere(ts: seq<Token>): (r: Option<seq<Condition>>)
    ensures r.Some? ==> NamedWhere(r.value)
  {
    if ts == [] then Some([])
    else if ts[0] == Word("where") then ReadAlternatives(ts[1..])
    else None
  }

  /** Assignments with commas between them, and the tokens after them. */
  function ReadSets(ts: seq<Token>): (r: Option<(seq<Assignment>, seq<Token>)>)
    ensures r.Some? ==> NamedColumns(r.value.0)
  {
    if |ts| < 3 || !ts[0].Word? || !IsName(ts[0].text) || ts[1] != Symbol("=") || !ts[2].Parameter? then None
    else
      var first := Assignment(ts[0].text, ts[2].n);
      if |ts| == 3 || ts[3] != Symbol(",") then Some(([first], ts[3..]))
      else
        var rest := ReadSets(ts[4..]);
        if rest.Some? then Some(([first] + rest.value.0, rest.value.1)) else None
  }

  /** Columns with commas between them, and the parameters for them. */
  function ReadValues(columns: seq<Token>, parameters: seq<Token>): (r: Option<seq<Assignment>>)
    requires |columns| == |parameters|
    ensures r.Some? ==> NamedColumns(r.value)
  {
    if columns == [] then Some([])
    else if !columns[0].Word? || !IsName(columns[0].text) || !parameters[0].Parameter? then None
    else
      var first := Assignment(columns[0].text, parameters[0].n);
      if |columns| == 1 then Some([first])
      else if |columns| == 2 || columns[1] != Symbol(",") || parameters[1] != Symbol(",") then None
      else
        var rest := ReadValues(columns[2..], parameters[2..]);
        if rest.Some? then Some([first] + rest.value) else None
  }

  function ReadInsert(ts: seq<Token>): (r: Option<Statement>)
    ensures r.Some? ==> Named(r.value)
  {
    if |ts| < 8 || |ts| % 2 != 0 then None
    else
      var n := (|ts| - 8) / 2;
      if && ts[..2] == [Word("insert"), Word("into")] && ts[2].Word? && IsTable(ts[2].text) && ts[3] == Symbol("(")
         && ts[4 + n..7 + n] == [Symbol(")"), Word("values"), Symbol("(")] && ts[7 + 2 * n] == Symbol(")")
      then
        var values := ReadValues(ts[4..4 + n], ts[7 + n..7 + 2 * n]);
        if values.Some? then Some(InsertInto(ts[2].text, values.value)) else None
      else None
  }

  function ReadUpdate(ts: seq<Token>): (r: Option<Statement>)
    ensures r.Some? ==> Named(r.value)
  {
    if |ts| < 3 || ts[0] != Word("update") || !ts[1].Word? || !IsTable(ts[1].text) || ts[2] != Word("set") then None
    else
      var sets := if |ts| == 3 || ts[3] == Word("where") then Some(([], ts[3..])) else ReadSets(ts[3..]);
      if sets.None? then None
      else
        var where := ReadWhere(sets.value.1);
        if where.Some? then Some(Update(ts[1].text, sets.value.0, where.value)) else None
  }

  function ReadDelete(ts: seq<Token>): (r: Option<Statement>)
    ensures r.Some? ==> Named(r.value)
  {
    if |ts| < 3 || ts[..2] != [Word("delete"), Word("from")] || !ts[2].Word? || !IsTable(ts[2].text) then None
    else
      var where := ReadWhere(ts[3..]);
      if where.Some? then Some(DeleteFrom(ts[2].text, where.value)) else None
  }

  /** The statement a text is, in the part of SQL modelled here. */
  function Read(text: string): (r: Option<Statement>)
    ensures r.Some? ==> Named(r.value)
  {
    var ts := Tokens(text);
    if ts == [] then None
    else if ts[0] == Word("insert") then ReadInsert(ts)
    else if ts[0] == Word("update") then ReadUpdate(ts)
    else ReadDelete(ts)
  }

  // ----- statements whose names are names -----

  predicate NamedOperand(operand: Operand) {
    operand.Column? ==> IsName(operand.name)
  }

  predicate NamedWhere(where: seq<Condition>) {
    forall c <- where :: NamedOperand(c.left) && NamedOperand(c.right)
  }

  predicate NamedColumns(assignments: seq<Assignment>) {
    forall a <- assignments :: IsName(a.column)
  }

  predicate Named(statement: Statement) {
    && IsTable(statement.table)
    && match statement
       case InsertInto(_, values) => NamedColumns(values)
       case Update(_, sets, where) => NamedColumns(sets) && NamedWhere(where)
       case DeleteFrom(_, where) => NamedWhere(where)
  }

  // ----- the tokens of a text made of pieces -----

  /** No token goes on over such a character. */
  predicate Breaks(c: char) { IsSpace(c) || c == '(' || c == ')' || c == ',' }

  predicate Apart(a: string, b: string) {
    a == "" || b == "" || Breaks(a[|a| - 1]) || Breaks(b[0])
  }

  lemma {:induction false} SpanConcat(a: string, b: string, p: char -> bool)
    requires forall c :: Breaks(c) ==> !p(c)
    requires Apart(a, b) && a != ""
    ensures Span(a + b, p) == Span(a, p)
  {
    if p(a[0]) {
      assert (a + b)[1..] == a[1..] + b;
      if |a| > 1 {
        SpanConcat(a[1..], b, p);
      } else {
        assert a[1..] + b == b;
      }
    }
  }

  /** A token that starts with `n` more characters of a kind `p`. */
  lemma SpanTextConcat(a: string, b: string, p: char -> bool)
    requires forall c :: Breaks(c) ==> !p(c)
    requires Apart(a, b) && a != ""
    ensures Span(a + b, p) == Span(a, p) && (a + b)[..Span(a, p)] == a[..Span(a, p)]
  {
    SpanConcat(a, b, p);
  }

  lemma ParameterConcat(a: string, b: string)
    requires Apart(a, b) && a != "" && a[0] == '$'
    ensures StartsParameter(a + b) == StartsParameter(a)
    ensures StartsParameter(a) ==> Apart(a[1..], b) && (a + b)[1..] == a[1..] + b
  {
    if |a| > 1 {
      assert (a + b)[1] == a[1];
    } else if b != "" {
      assert (a + b)[1] == b[0];
    }
  }

  lemma FirstTokenConcat(a: string, b: string)
    requires Apart(a, b) && a != "" && !IsSpace(a[0])
    ensures FirstToken(a + b) == FirstToken(a)
  {
    hide Span, NatOf, Folded, InWord, InOperator, Apart, StartsWord, IsSpace, Breaks;
    BreaksNothing();
    SpanTextConcat(a, b, InWord);
    SpanTextConcat(a, b, IsDigit);
    SpanTextConcat(a, b, InOperator);
    assert (a + b)[0] == a[0] && (a + b)[..1] == a[..1];
    if a[0] == '$' {
      ParameterConcat(a, b);
      if StartsParameter(a) {
        SpanTextConcat(a[1..], b, IsDigit);
      }
    }
  }

  lemma BreaksNothing()
    ensures forall c :: Breaks(c) ==> !InWord(c) && !IsDigit(c) && !InOperator(c)
  {
  }

  lemma {:induction false} TokensConcat(a: string, b: string)
    requires Apart(a, b)
    ensures Tokens(a + b) == Tokens(a) + Tokens(b)
    decreases |a|
  {
    hide FirstToken;
    if a == "" {
      assert a + b == b;
    } else if IsSpace(a[0]) {
      assert (a + b)[1..] == a[1..] + b;
      TokensConcat(a[1..], b);
    } else {
      FirstTokenConcat(a, b);
      var n := FirstToken(a).1;
      assert (a + b)[n..] == a[n..] + b;
      TokensConcat(a[n..], b);
    }
  }

  function TokensOfAll(texts: seq<string>): (groups: seq<seq<Token>>)
    ensures |groups| == |texts|
  {
    seq(|texts|, i requires 0 <= i < |texts| => Tokens(texts[i]))
  }

  lemma {:induction false} TokensJoin(texts: seq<string>, separator: string)
    requires separator != "" && Breaks(separator[0]) && Breaks(separator[|separator| - 1])
    ensures Tokens(Join(texts, separator)) == Join(TokensOfAll(texts), Tokens(separator))
  {
    hide Tokens;
    if |texts| == 0 {
      NoTokens();
    } else if |texts| > 1 {
      var rest := Join(texts[1..], separator);
      TokensConcat(texts[0] + separator, rest);
      TokensConcat(texts[0], separator);
      TokensJoin(texts[1..], separator);
      assert TokensOfAll(texts)[1..] == TokensOfAll(texts[1..]);
    }
  }

  lemma NoTokens()
    ensures Tokens("") == []
  {
  }

  lemma {:induction false} SpanAll(s: string, p: char -> bool)
    requires forall c <- s :: p(c)
    ensures Span(s, p) == |s|
  {
  }

  lemma WordToken(w: string)
    requires w != "" && StartsWord(w[0]) && forall c <- w :: InWord(c)
    ensures Tokens(w) == [Word(Folded(w))]
  {
    SpanAll(w, InWord);
    assert w[..|w|] == w && w[|w|..] == "";
  }

  lemma {:induction false} NatOfDecimal(n: nat)
    ensures Decimal(n) != "" && forall c <- Decimal(n) :: IsDigit(c)
    ensures NatOf(Decimal(n)) == n
  {
    assert forall i {:trigger "0123456789"[i]} :: 0 <= i < 10 ==>
      IsDigit("0123456789"[i]) && "0123456789"[i] as int - '0' as int == i;
    if n < 10 {
      assert Decimal(n)[..0] == "";
    } else {
      NatOfDecimal(n / 10);
      assert Decimal(n)[..|Decimal(n)| - 1] == Decimal(n / 10);
    }
  }

  lemma NumberTokens(n: nat)
    ensures Tokens(Decimal(n)) == [Numeral(n)]
    ensures Tokens(Placeholder(n)) == [Parameter(n)]
  {
    var d := Decimal(n);
    NatOfDecimal(n);
    SpanAll(d, IsDigit);
    assert d[0] in d;
    assert d[..|d|] == d && d[|d|..] == "";
    var s := Placeholder(n);
    assert s[1..] == d && s[1] == d[0] && s[|d| + 1..] == "";
  }

  /** No two placeholders are written alike. */
  lemma DecimalInjective(a: nat, b: nat)
    requires Decimal(a) == Decimal(b)
    ensures a == b
  {
    NatOfDecimal(a);
    NatOfDecimal(b);
  }

  // ----- the tokens of a statement, and back -----

  function OperandToken(operand: Operand): Token {
    match operand
    case Column(name) => Word(name)
    case Bound(n) => Parameter(n)
    case Literal(n) => Numeral(n)
  }

  function OperatorToken(operator: Operator): Token {
    if operator.Like? then Word("like") else Symbol(operator.Symbol())
  }

  function ConditionTokens(c: Condition): seq<Token> {
    [OperandToken(c.left), OperatorToken(c.operator), OperandToken(c.right)]
  }

  function SetTokens(a: Assignment): seq<Token> {
    [Word(a.column), Symbol("="), Parameter(a.placeholder)]
  }

  function ColumnTokens(a: Assignment): seq<Token> {
    [Word(a.column)]
  }

  function ValueTokens(a: Assignment): seq<Token> {
    [Parameter(a.placeholder)]
  }

  function GroupsOf<T>(items: seq<T>, tokens: T -> seq<Token>): (groups: seq<seq<Token>>)
    ensures |groups| == |items|
  {
    seq(|items|, i requires 0 <= i < |items| => tokens(items[i]))
  }

  lemma SpaceToken(c: char)
    requires IsSpace(c)
    ensures Tokens([c]) == []
  {
    NoTokens();
  }

  lemma MarkToken(c: char)
    requires c == '(' || c == ')' || c == ','
    ensures Tokens([c]) == [Symbol([c])]
  {
    NoTokens();
    assert [c][..1] == [c];
  }

  /** A word with spaces around it. */
  lemma SpacedWord(w: string, folded: string)
    requires w != "" && StartsWord(w[0]) && (forall c <- w :: InWord(c)) && Folded(w) == folded
    ensures Tokens(w + " ") == [Word(folded)]
    ensures Tokens(" " + w + " ") == [Word(folded)]
    ensures Tokens(" " + w) == [Word(folded)]
  {
    hide Tokens;
    SpaceToken(' ');
    WordToken(w);
    TokensConcat(w, " ");
    TokensConcat(" ", w);
    TokensConcat(" " + w, " ");
  }

  lemma NameToken(name: string)
    requires IsWord(name)
    ensures Tokens(name) == [Word(name)]
  {
    WordToken(name);
  }

  lemma OperatorText(s: string)
    requires s != "" && forall c <- s :: InOperator(c)
    ensures Tokens(s) == [Symbol(s)]
  {
    SpanAll(s, InOperator);
    assert s[0] in s;
    assert s[..|s|] == s && s[|s|..] == "";
    NoTokens();
  }

  lemma SymbolTokens(operator: Operator)
    ensures Tokens(operator.Symbol()) == [OperatorToken(operator)]
    ensures ReadOperator(OperatorToken(operator)) == Some(operator)
  {
    hide Tokens;
    if operator.Like? {
      assert Folded("LIKE") == "like";
      WordToken("LIKE");
    } else {
      OperatorText(operator.Symbol());
    }
  }

  lemma OperandTokens(operand: Operand)
    requires NamedOperand(operand)
    ensures Tokens(OperandText(operand)) == [OperandToken(operand)]
    ensures ReadOperand(OperandToken(operand)) == Some(operand)
  {
    match operand
    case Column(name) => NameToken(name);
    case Bound(n) => NumberTokens(n);
    case Literal(n) => NumberTokens(n);
  }

  /** Three texts with spaces between them. */
  lemma ThreeTokens(a: string, b: string, c: string, x: Token, y: Token, z: Token)
    requires Tokens(a) == [x] && Tokens(b) == [y] && Tokens(c) == [z]
    ensures Tokens(a + " " + b + " " + c) == [x, y, z]
  {
    hide Tokens;
    SpaceToken(' ');
    TokensConcat(a, " ");
    TokensConcat(a + " ", b);
    TokensConcat(a + " " + b, " ");
    TokensConcat(a + " " + b + " ", c);
  }

  lemma TokensOfCondition(c: Condition)
    requires NamedOperand(c.left) && NamedOperand(c.right)
    ensures Tokens(ConditionText(c)) == ConditionTokens(c)
  {
    hide Tokens, OperandText, OperandToken, OperatorToken;
    OperandTokens(c.left);
    OperandTokens(c.right);
    SymbolTokens(c.operator);
    ThreeTokens(OperandText(c.left), c.operator.Symbol(), OperandText(c.right),
                OperandToken(c.left), OperatorToken(c.operator), OperandToken(c.right));
  }

  lemma TokensOfSet(a: Assignment)
    requires IsName(a.column)
    ensures Tokens(SetText(a)) == SetTokens(a)
  {
    hide Tokens, Placeholder;
    NameToken(a.column);
    NumberTokens(a.placeholder);
    SymbolTokens(Eq);
    ThreeTokens(a.column, "=", Placeholder(a.placeholder), Word(a.column), Symbol("="), Parameter(a.placeholder));
    assert SetText(a) == a.column + " " + "=" + " " + Placeholder(a.placeholder);
  }

  lemma CommaTokens()
    ensures Tokens(", ") == [Symbol(",")]
  {
    MarkToken(',');
    SpaceToken(' ');
    TokensConcat(",", " ");
    assert "," + " " == ", ";
  }

  lemma OrTokens()
    ensures Tokens(" OR ") == [Word("or")]
  {
    assert Folded("OR") == "or";
    SpacedWord("OR", "or");
    assert " " + "OR" + " " == " OR ";
  }

  lemma TokensOfSets(sets: seq<Assignment>)
    requires NamedColumns(sets)
    ensures Tokens(Join(TextOf(sets, SetText), ", ")) == Join(GroupsOf(sets, SetTokens), [Symbol(",")])
  {
    hide Tokens, Join, SetTokens, SetText, IsName;
    TokensJoin(TextOf(sets, SetText), ", ");
    CommaTokens();
    forall i | 0 <= i < |sets|
      ensures Tokens(SetText(sets[i])) == SetTokens(sets[i])
    {
      TokensOfSet(sets[i]);
    }
    assert TokensOfAll(TextOf(sets, SetText)) == GroupsOf(sets, SetTokens);
  }

  lemma TokensOfInsert(values: seq<Assignment>)
    requires NamedColumns(values)
    ensures Tokens(Join(TextOf(values, ColumnText), ", ")) == Join(GroupsOf(values, ColumnTokens), [Symbol(",")])
    ensures Tokens(Join(TextOf(values, ValueText), ", ")) == Join(GroupsOf(values, ValueTokens), [Symbol(",")])
  {
    hide Tokens, Join, IsName, Placeholder;
    TokensJoin(TextOf(values, ColumnText), ", ");
    TokensJoin(TextOf(values, ValueText), ", ");
    CommaTokens();
    forall i | 0 <= i < |values|
      ensures Tokens(ColumnText(values[i])) == ColumnTokens(values[i])
      ensures Tokens(ValueText(values[i])) == ValueTokens(values[i])
    {
      hide *;
      TokensOfValue(values[i]);
    }
    assert TokensOfAll(TextOf(values, ColumnText)) == GroupsOf(values, ColumnTokens);
    assert TokensOfAll(TextOf(values, ValueText)) == GroupsOf(values, ValueTokens);
  }

  lemma TokensOfValue(a: Assignment)
    requires IsName(a.column)
    ensures Tokens(ColumnText(a)) == ColumnTokens(a)
    ensures Tokens(ValueText(a)) == ValueTokens(a)
  {
    hide Tokens, Placeholder;
    NameToken(a.column);
    NumberTokens(a.placeholder);
  }

  function WhereTokens(where: seq<Condition>): seq<Token> {
    if where == [] then [] else [Word("where")] + Join(GroupsOf(where, ConditionTokens), [Word("or")])
  }

  lemma TokensOfWhere(where: seq<Condition>)
    requires NamedWhere(where)
    ensures Tokens(WhereText(where)) == WhereTokens(where)
    ensures WhereText(where) == "" || Breaks(WhereText(where)[0])
  {
    hide Tokens, Join, ConditionTokens, ConditionText, NamedOperand;
    if where == [] {
      NoTokens();
    } else {
      var texts := TextOf(where, ConditionText);
      TokensJoin(texts, " OR ");
      OrTokens();
      forall i | 0 <= i < |where|
        ensures Tokens(ConditionText(where[i])) == ConditionTokens(where[i])
      {
        TokensOfCondition(where[i]);
      }
      assert TokensOfAll(texts) == GroupsOf(where, ConditionTokens);
      assert Folded("WHERE") == "where";
      SpacedWord("WHERE", "where");
      assert " " + "WHERE" + " " == " WHERE ";
      TokensConcat(" WHERE ", Join(texts, " OR "));
    }
  }

  lemma JoinStep<T>(items: seq<T>, tokens: T -> seq<Token>, separator: Token)
    requires items != []
    ensures Join(GroupsOf(items, tokens), [separator]) ==
            tokens(items[0]) +
            if |items| == 1 then [] else [separator] + Join(GroupsOf(items[1..], tokens), [separator])
  {
    var groups := GroupsOf(items, tokens);
    assert groups[0] == tokens(items[0]);
    assert groups[1..] == GroupsOf(items[1..], tokens);
  }

  lemma ConditionRead(c: Condition)
    requires NamedOperand(c.left) && NamedOperand(c.right)
    ensures var ts := ConditionTokens(c);
      && ReadOperand(ts[0]) == Some(c.left)
      && ReadOperator(ts[1]) == Some(c.operator)
      && ReadOperand(ts[2]) == Some(c.right)
  {
    hide Tokens;
    OperandTokens(c.left);
    OperandTokens(c.right);
    SymbolTokens(c.operator);
  }

  lemma {:induction false} AlternativesRead(where: seq<Condition>)
    requires NamedWhere(where) && where != []
    ensures ReadAlternatives(Join(GroupsOf(where, ConditionTokens), [Word("or")])) == Some(where)
  {
    hide IsName, ReadOperator, OperatorToken, ReadOperand, OperandToken, Join, NamedOperand;
    var first, rest := where[0], where[1..];
    ConditionRead(first);
    JoinStep(where, ConditionTokens, Word("or"));
    assert where == [first] + rest;
    assert rest == [] ==> where == [first];
    if rest != [] {
      AlternativesRead(rest);
      var tail := Join(GroupsOf(rest, ConditionTokens), [Word("or")]);
      JoinStep(rest, ConditionTokens, Word("or"));
      assert (ConditionTokens(first) + ([Word("or")] + tail))[4..] == tail;
    }
  }

  lemma {:induction false} SetsRead(sets: seq<Assignment>, rest: seq<Token>)
    requires NamedColumns(sets) && sets != []
    requires rest == [] || rest[0] != Symbol(",")
    ensures ReadSets(Join(GroupsOf(sets, SetTokens), [Symbol(",")]) + rest) == Some((sets, rest))
  {
    hide IsName, Join;
    var first, others := sets[0], sets[1..];
    JoinStep(sets, SetTokens, Symbol(","));
    assert sets == [first] + others;
    var ts := Join(GroupsOf(sets, SetTokens), [Symbol(",")]) + rest;
    if others != [] {
      SetsRead(others, rest);
      var tail := Join(GroupsOf(others, SetTokens), [Symbol(",")]) + rest;
      assert ts == SetTokens(first) + [Symbol(",")] + tail;
      assert ts[4..] == tail;
    } else {
      assert sets == [first];
      assert ts == SetTokens(first) + rest;
      assert ts[3..] == rest;
    }
  }

  lemma {:induction false} ValuesRead(values: seq<Assignment>)
    requires NamedColumns(values)
    ensures var columns, parameters :=
      Join(GroupsOf(values, ColumnTokens), [Symbol(",")]), Join(GroupsOf(values, ValueTokens), [Symbol(",")]);
      && |columns| == |parameters| == (if values == [] then 0 else 2 * |values| - 1)
      && ReadValues(columns, parameters) == Some(values)
  {
    hide IsName, Join;
    if values == [] {
      NoGroups(values, ColumnTokens);
      NoGroups(values, ValueTokens);
    } else {
      var first, rest := values[0], values[1..];
      JoinStep(values, ColumnTokens, Symbol(","));
      JoinStep(values, ValueTokens, Symbol(","));
      assert values == [first] + rest;
      assert rest == [] ==> values == [first];
      if rest != [] {
        ValuesRead(rest);
        var columns := Join(GroupsOf(rest, ColumnTokens), [Symbol(",")]);
        var parameters := Join(GroupsOf(rest, ValueTokens), [Symbol(",")]);
        assert (ColumnTokens(first) + ([Symbol(",")] + columns))[2..] == columns;
        assert (ValueTokens(first) + ([Symbol(",")] + parameters))[2..] == parameters;
      }
    }
  }

  lemma NoGroups<T>(items: seq<T>, tokens: T -> seq<Token>)
    requires items == []
    ensures Join(GroupsOf(items, tokens), [Symbol(",")]) == []
  {
  }

  lemma WhereRead(where: seq<Condition>)
    requires NamedWhere(where)
    ensures ReadWhere(WhereTokens(where)) == Some(where)
    ensures WhereTokens(where) == [] || WhereTokens(where)[0] == Word("where")
  {
    hide ReadAlternatives, Join;
    if where != [] {
      AlternativesRead(where);
      var ts := WhereTokens(where);
      assert ts[1..] == Join(GroupsOf(where, ConditionTokens), [Word("or")]);
    }
  }

  lemma UpdateRead(table: string, sets: seq<Assignment>, where: seq<Condition>)
    requires Named(Update(table, sets, where))
    ensures Read(Render(Update(table, sets, where))) == Some(Update(table, sets, where))
  {
    hide Tokens, Join, ReadSets, ReadWhere, IsName, IsTable, WhereTokens, WhereText, Split;
    assert IsWord(table) by {
      hide *;
      TableIsWord(table);
    }
    var setTokens := Join(GroupsOf(sets, SetTokens), [Symbol(",")]);
    UpdateTokens(table, sets, where);
    WhereRead(where);
    var ts := [Word("update"), Word(table), Word("set")] + setTokens + WhereTokens(where);
    assert ts[3..] == setTokens + WhereTokens(where);
    if sets == [] {
      NoGroups(sets, SetTokens);
      assert ts[3..] == WhereTokens(where);
    } else {
      SetsRead(sets, WhereTokens(where));
      FirstSet(sets);
    }
  }

  lemma TableIsWord(table: string)
    requires IsTable(table)
    ensures IsWord(table)
  {
  }

  lemma FirstSet(sets: seq<Assignment>)
    requires sets != [] && NamedColumns(sets)
    ensures var ts := Join(GroupsOf(sets, SetTokens), [Symbol(",")]);
      ts != [] && ts[0] != Word("where")
  {
    hide IsWord;
    assert sets[0] in sets;
    assert sets[0].column !in KEYWORDS;
    JoinStep(sets, SetTokens, Symbol(","));
  }

  lemma UpdateTokens(table: string, sets: seq<Assignment>, where: seq<Condition>)
    requires IsWord(table) && NamedColumns(sets) && NamedWhere(where)
    ensures Tokens(Render(Update(table, sets, where))) ==
            [Word("update"), Word(table), Word("set")] + Join(GroupsOf(sets, SetTokens), [Symbol(",")]) +
            WhereTokens(where)
  {
    hide Tokens, Join, IsWord, IsName, WhereTokens, WhereText, SetText, SetTokens;
    var setText := Join(TextOf(sets, SetText), ", ");
    assert Folded("UPDATE") == "update" && Folded("SET") == "set";
    SpacedWord("UPDATE", "update");
    SpacedWord("SET", "set");
    assert "UPDATE" + " " == "UPDATE " && " " + "SET" + " " == " SET ";
    NameToken(table);
    TokensOfSets(sets);
    TokensOfWhere(where);
    TokensConcat("UPDATE ", table);
    TokensConcat("UPDATE " + table, " SET ");
    TokensConcat("UPDATE " + table + " SET ", setText);
    TokensConcat("UPDATE " + table + " SET " + setText, WhereText(where));
  }

  lemma DeleteTokens(table: string, where: seq<Condition>)
    requires IsWord(table) && NamedWhere(where)
    ensures Tokens(Render(DeleteFrom(table, where))) ==
            [Word("delete"), Word("from"), Word(table)] + WhereTokens(where)
  {
    hide Tokens, IsWord, IsName, WhereTokens, WhereText;
    assert Folded("DELETE") == "delete" && Folded("FROM") == "from";
    SpacedWord("DELETE", "delete");
    SpacedWord("FROM", "from");
    assert "DELETE" + " " + ("FROM" + " ") == "DELETE FROM ";
    TokensConcat("DELETE" + " ", "FROM" + " ");
    NameToken(table);
    TokensOfWhere(where);
    TokensConcat("DELETE FROM ", table);
    TokensConcat("DELETE FROM " + table, WhereText(where));
  }

  lemma DeleteRead(table: string, where: seq<Condition>)
    requires Named(DeleteFrom(table, where))
    ensures Read(Render(DeleteFrom(table, where))) == Some(DeleteFrom(table, where))
  {
    hide Tokens, ReadWhere, IsName, IsTable, WhereTokens, WhereText, Split;
    TableIsWord(table);
    DeleteTokens(table, where);
    WhereRead(where);
    var ts := [Word("delete"), Word("from"), Word(table)] + WhereTokens(where);
    assert ts[3..] == WhereTokens(where);
    assert ts[..2] == [Word("delete"), Word("from")];
  }

  lemma InsertStart(table: string, columns: string)
    requires IsWord(table)
    ensures Tokens("INSERT INTO " + table + " (" + columns) ==
            [Word("insert"), Word("into"), Word(table), Symbol("(")] + Tokens(columns)
  {
    hide Tokens, IsWord, Apart;
    NameToken(table);
    InsertMarks();
    BreaksApart("INSERT INTO ", table);
    TokensConcat("INSERT INTO ", table);
    BreaksApart("INSERT INTO " + table, " (");
    TokensConcat("INSERT INTO " + table, " (");
    BreaksApart("INSERT INTO " + table + " (", columns);
    TokensConcat("INSERT INTO " + table + " (", columns);
  }

  lemma InsertEnd(parameters: string)
    ensures Tokens(") VALUES (" + parameters + ")") ==
            [Symbol(")"), Word("values"), Symbol("(")] + Tokens(parameters) + [Symbol(")")]
  {
    hide Tokens, Apart;
    InsertMarks();
    BreaksApart(") VALUES (", parameters);
    TokensConcat(") VALUES (", parameters);
    BreaksApart(") VALUES (" + parameters, ")");
    TokensConcat(") VALUES (" + parameters, ")");
  }

  lemma BreaksApart(a: string, b: string)
    requires (a != "" && Breaks(a[|a| - 1])) || (b != "" && Breaks(b[0]))
    ensures Apart(a, b)
  {
  }

  lemma InsertTokens(table: string, values: seq<Assignment>)
    requires IsWord(table) && NamedColumns(values)
    ensures Tokens(Render(InsertInto(table, values))) ==
            [Word("insert"), Word("into"), Word(table), Symbol("(")] +
            Join(GroupsOf(values, ColumnTokens), [Symbol(",")]) + [Symbol(")"), Word("values"), Symbol("(")] +
            Join(GroupsOf(values, ValueTokens), [Symbol(",")]) + [Symbol(")")]
  {
    hide Tokens, Join, IsWord, IsName, Apart, ColumnText, ValueText, ColumnTokens, ValueTokens;
    var columns, parameters := Join(TextOf(values, ColumnText), ", "), Join(TextOf(values, ValueText), ", ");
    var start, end := "INSERT INTO " + table + " (" + columns, ") VALUES (" + parameters + ")";
    TokensOfInsert(values);
    InsertStart(table, columns);
    InsertEnd(parameters);
    BreaksApart(start, end);
    TokensConcat(start, end);
    assert Render(InsertInto(table, values)) == start + end;
  }

  lemma InsertMarks()
    ensures Tokens("INSERT INTO ") == [Word("insert"), Word("into")]
    ensures Tokens(" (") == [Symbol("(")]
    ensures Tokens(") VALUES (") == [Symbol(")"), Word("values"), Symbol("(")]
    ensures Tokens(")") == [Symbol(")")]
  {
    hide Tokens;
    assert Folded("INSERT") == "insert" && Folded("INTO") == "into" && Folded("VALUES") == "values";
    SpacedWord("INSERT", "insert");
    SpacedWord("INTO", "into");
    SpacedWord("VALUES", "values");
    TokensConcat("INSERT" + " ", "INTO" + " ");
    assert "INSERT" + " " + ("INTO" + " ") == "INSERT INTO ";
    SpaceToken(' ');
    MarkToken('(');
    MarkToken(')');
    TokensConcat(" ", "(");
    assert " " + "(" == " (";
    TokensConcat(")", " " + "VALUES" + " ");
    TokensConcat(")" + (" " + "VALUES" + " "), "(");
    assert ")" + (" " + "VALUES" + " ") + "(" == ") VALUES (";
  }

  lemma InsertRead(table: string, values: seq<Assignment>)
    requires Named(InsertInto(table, values))
    ensures Read(Render(InsertInto(table, values))) == Some(InsertInto(table, values))
  {
    hide Tokens, Join, ReadValues, IsName, IsTable, Split;
    TableIsWord(table);
    InsertTokens(table, values);
    ValuesRead(values);
    var columns := Join(GroupsOf(values, ColumnTokens), [Symbol(",")]);
    var parameters := Join(GroupsOf(values, ValueTokens), [Symbol(",")]);
    var marks := [Symbol(")"), Word("values"), Symbol("(")];
    var ts := [Word("insert"), Word("into"), Word(table), Symbol("(")] + columns + marks + parameters + [Symbol(")")];
    var n := |columns|;
    assert (|ts| - 8) / 2 == n;
    assert ts[..2] == [Word("insert"), Word("into")];
    assert ts[4..4 + n] == columns && ts[4 + n..7 + n] == marks && ts[7 + n..7 + 2 * n] == parameters;
  }

  /** The text of a statement is read as that statement exactly when its names are names. */
  lemma ReadIff(statement: Statement)
    ensures Read(Render(statement)) == Some(statement) <==> Named(statement)
  {
    hide Read, Render;
    if Named(statement) {
      match statement
      case InsertInto(table, values) => InsertRead(table, values);
      case Update(table, sets, where) => UpdateRead(table, sets, where);
      case DeleteFrom(table, where) => DeleteRead(table, where);
    }
  }

  /** So no two of these statements are written alike. */
  lemma RenderInjective(a: Statement, b: Statement)
    requires Named(a) && Named(b) && Render(a) == Render(b)
    ensures a == b
  {
    hide Read, Render, Named;
    ReadIff(a);
    ReadIff(b);
  }
}
