/** The parameterised SQL builders (fraiseql_rs/src/mutations.rs). */
module Mutations {
  import opened Json
  import opened Options
  import opened Sql
  import opened Texts

  /** `JsonText` is the text of a printed JSON array or object. */
  datatype QueryParam =
    | NullParam
    | BoolParam(b: bool)
    | BigInt(i: int)
    | DoubleParam(digits: string)
    | Text(text: string)
    | JsonText(value: Value)

  function ValueToQueryParam(value: Value): QueryParam {
    match value
    case Null => NullParam
    case Bool(b) => BoolParam(b)
    case Number(Integer(i)) => BigInt(i)
    case Number(Double(digits)) => DoubleParam(digits)
    case Number(Wide(digits)) => Text(digits)
    case String(text) => Text(text)
    case Array(_) => JsonText(value)
    case Object(_) => JsonText(value)
  }

  /** The JSON value that a parameter was made of. */
  function ValueOfParam(param: QueryParam): Value {
    match param
    case NullParam => Null
    case BoolParam(b) => Bool(b)
    case BigInt(i) => Number(Integer(i))
    case DoubleParam(digits) => Number(Double(digits))
    case Text(text) => String(text)
    case JsonText(value) => value
  }

  /** It can be told from the parameter exactly unless it is a number too wide for both kinds, which is bound as its
      digits. */
  lemma ParamKeepsIff(value: Value)
    ensures ValueOfParam(ValueToQueryParam(value)) == value <==> !(value.Number? && value.n.Wide?)
    ensures value.Number? && value.n.Wide? ==> ValueToQueryParam(value) == ValueToQueryParam(String(value.n.digits))
  {
  }

  /** An operator name that is not known is read as equality. */
  function ParseOperator(name: string): Operator {
    if name == "ne" then Ne
    else if name == "gt" then Gt
    else if name == "gte" then Gte
    else if name == "lt" then Lt
    else if name == "lte" then Lte
    else if name == "like" then Like
    else Eq
  }

  // ----- the builders -----

  datatype Filter = Filter(field: string, operator: Operator, value: Value)

  /** The filter, when it is an object with a textual field and operator, and a value. */
  function ParseFilter(filters: Option<Value>): Option<Filter> {
    match filters
    case Some(Object(m)) =>
      var field: Option<Value>, operator: Option<Value>, value: Option<Value> :=
        Lookup(m, "field"), Lookup(m, "operator"), Lookup(m, "value");
      if field.Some? && operator.Some? && value.Some? && field.value.String? && operator.value.String? then
        Some(Filter(field.value.text, ParseOperator(operator.value.text), value.value))
      else None
    case _ => None
  }

  function WhereOf(filter: Option<Filter>, paramIndex: nat): seq<Condition> {
    if filter.Some? then [Condition(Column(filter.value.field), filter.value.operator, Bound(paramIndex))] else []
  }

  function FilterParams(filter: Option<Filter>): seq<QueryParam> {
    if filter.Some? then [ValueToQueryParam(filter.value.value)] else []
  }

  function BuildWhereClause(filters: Option<Value>, paramIndex: nat): Option<(string, seq<QueryParam>)> {
    var filter := ParseFilter(filters);
    if filter.None? then None else Some((WhereText(WhereOf(filter, paramIndex)), FilterParams(filter)))
  }

  /** The columns that the input gives values for: none, if it is no object. */
  function InputFields(input: Value): Map<Value> {
    if input.Object? then input.fields else []
  }

  /** Column `i` is bound to `$i+1`. */
  function Numbered(m: Map<Value>): (assignments: seq<Assignment>)
    ensures |assignments| == |m|
  {
    seq(|m|, i requires 0 <= i < |m| => Assignment(m[i].key, i + 1))
  }

  function Params(m: Map<Value>): (params: seq<QueryParam>)
    ensures |params| == |m|
  {
    seq(|m|, i requires 0 <= i < |m| => ValueToQueryParam(m[i].value))
  }

  /** The text of each statement, and its parameters. */
  function InsertSql(table: string, input: Value): (string, seq<QueryParam>) {
    var m := InputFields(input);
    (Render(InsertInto(table, Numbered(m))), Params(m))
  }

  function UpdateSql(table: string, input: Value, filters: Option<Value>): (string, seq<QueryParam>) {
    var m, filter := InputFields(input), ParseFilter(filters);
    (Render(Update(table, Numbered(m), WhereOf(filter, |m| + 1))), Params(m) + FilterParams(filter))
  }

  function DeleteSql(table: string, filters: Option<Value>): (string, seq<QueryParam>) {
    var filter := ParseFilter(filters);
    (Render(DeleteFrom(table, WhereOf(filter, 1))), FilterParams(filter))
  }

  method BuildInsertSql(table: string, input: Value) returns (sql: string, params: seq<QueryParam>)
    ensures sql == InsertSql(table, input).0 && params == InsertSql(table, input).1
  {
    hide Decimal, Join, Placeholder, ValueToQueryParam;
    var columns: seq<string>, values: seq<string> := [], [];
    params := [];
    ghost var m := InputFields(input);
    if input.Object? {
      for i := 0 to |input.fields|
        invariant |columns| == |values| == |params| == i
        invariant forall j :: 0 <= j < i ==> columns[j] == m[j].key && values[j] == Placeholder(j + 1)
        invariant forall j :: 0 <= j < i ==> params[j] == ValueToQueryParam(m[j].value)
      {
        columns := columns + [input.fields[i].key];
        values := values + [Placeholder(|params| + 1)];
        params := params + [ValueToQueryParam(input.fields[i].value)];
      }
    }
    assert columns == TextOf(Numbered(m), ColumnText) by {
      assert forall j :: 0 <= j < |m| ==> columns[j] == ColumnText(Numbered(m)[j]);
    }
    assert values == TextOf(Numbered(m), ValueText) by {
      assert forall j :: 0 <= j < |m| ==> values[j] == ValueText(Numbered(m)[j]);
    }
    sql := "INSERT INTO " + table + " (" + Join(columns, ", ") + ") VALUES (" + Join(values, ", ") + ")";
  }

  lemma NoWhere(filters: Option<Value>, n: nat)
    ensures ParseFilter(filters).None? ==> WhereText(WhereOf(ParseFilter(filters), n)) == ""
  {
  }

  lemma UpdateText(table: string, input: Value, filters: Option<Value>)
    ensures var m, filter, built := InputFields(input), ParseFilter(filters), UpdateSql(table, input, filters);
      && built.0 == "UPDATE " + table + " SET " + Join(TextOf(Numbered(m), SetText), ", ") +
                    WhereText(WhereOf(filter, |m| + 1))
      && built.1 == Params(m) + FilterParams(filter)
  {
    hide Join, InputFields, ParseFilter, WhereText;
  }

  method BuildUpdateSql(table: string, input: Value, filters: Option<Value>)
    returns (sql: string, params: seq<QueryParam>)
    ensures sql == UpdateSql(table, input, filters).0 && params == UpdateSql(table, input, filters).1
  {
    hide Decimal, Join, Placeholder, ValueToQueryParam, UpdateSql, WhereText, ParseFilter;
    UpdateText(table, input, filters);
    NoWhere(filters, |InputFields(input)| + 1);
    var sets: seq<string> := [];
    params := [];
    var paramIndex := 1;
    ghost var m := InputFields(input);
    if input.Object? {
      for i := 0 to |input.fields|
        invariant |sets| == |params| == i && paramIndex == i + 1
        invariant forall j :: 0 <= j < i ==> sets[j] == SetText(Assignment(m[j].key, j + 1))
        invariant forall j :: 0 <= j < i ==> params[j] == ValueToQueryParam(m[j].value)
      {
        sets := sets + [input.fields[i].key + " = " + Placeholder(paramIndex)];
        params := params + [ValueToQueryParam(input.fields[i].value)];
        paramIndex := paramIndex + 1;
      }
    }
    assert sets == TextOf(Numbered(m), SetText);
    sql := "UPDATE " + table + " SET " + Join(sets, ", ");
    assert params == Params(m);
    var whereClause := BuildWhereClause(filters, paramIndex);
    if whereClause.Some? {
      sql := sql + whereClause.value.0;
      params := params + whereClause.value.1;
    }
  }

  method BuildDeleteSqlWithParams(table: string, filters: Option<Value>)
    returns (sql: string, params: seq<QueryParam>)
    ensures sql == DeleteSql(table, filters).0 && params == DeleteSql(table, filters).1
  {
    sql := "DELETE FROM " + table;
    params := [];
    var whereClause := BuildWhereClause(filters, |params| + 1);
    if whereClause.Some? {
      sql := sql + whereClause.value.0;
      params := params + whereClause.value.1;
    }
  }

  // ----- the numbering -----

  /** The placeholders of a statement, from left to right. */
  function Placeholders(statement: Statement): seq<nat> {
    match statement
    case InsertInto(_, values) => AssignedPlaceholders(values)
    case Update(_, sets, where) => AssignedPlaceholders(sets) + WherePlaceholders(where)
    case DeleteFrom(_, where) => WherePlaceholders(where)
  }

  function AssignedPlaceholders(assignments: seq<Assignment>): seq<nat> {
    seq(|assignments|, i requires 0 <= i < |assignments| => assignments[i].placeholder)
  }

  function OperandPlaceholders(operand: Operand): seq<nat> {
    if operand.Bound? then [operand.placeholder] else []
  }

  function WherePlaceholders(where: seq<Condition>): seq<nat> {
    if where == [] then []
    else OperandPlaceholders(where[0].left) + OperandPlaceholders(where[0].right) + WherePlaceholders(where[1..])
  }

  /** `$1` to `$n`, each once, in order. */
  predicate NumberedThrough(placeholders: seq<nat>, n: nat) {
    |placeholders| == n && forall i :: 0 <= i < n ==> placeholders[i] == i + 1
  }

  /** Every placeholder names its parameter: columns first, the filter last. */
  lemma PlaceholdersMatchParams(table: string, input: Value, filters: Option<Value>)
    ensures var m, filter := InputFields(input), ParseFilter(filters);
      && NumberedThrough(Placeholders(Update(table, Numbered(m), WhereOf(filter, |m| + 1))),
                         |Params(m) + FilterParams(filter)|)
      && NumberedThrough(Placeholders(InsertInto(table, Numbered(m))), |Params(m)|)
      && NumberedThrough(Placeholders(DeleteFrom(table, WhereOf(filter, 1))), |FilterParams(filter)|)
  {
    hide InputFields, ParseFilter, ValueToQueryParam;
    var filter := ParseFilter(filters);
    FilterPlaceholders(filter, |InputFields(input)| + 1);
    FilterPlaceholders(filter, 1);
  }

  lemma FilterPlaceholders(filter: Option<Filter>, n: nat)
    ensures WherePlaceholders(WhereOf(filter, n)) == if filter.Some? then [n] else []
  {
    var where := WhereOf(filter, n);
    if filter.Some? {
      assert where[1..] == [];
    }
  }

  // ----- what the statements do -----

  type Row = map<string, QueryParam>

  type Database = map<string, seq<Row>>

  /** The database after a statement; or it refuses the statement; or the text is not in the part of SQL that is
      modelled, and what it does is not said. */
  datatype Result = Done(db: Database) | Refused | Unread

  /** A comparison of SQL: whether it is true, for the database's own notion of order and pattern. */
  type Comparison = (Operator, QueryParam, QueryParam) -> bool

  function ColumnOf(row: Row, column: string): QueryParam {
    if column in row then row[column] else NullParam
  }

  function OperandOf(operand: Operand, params: seq<QueryParam>, row: Row): QueryParam {
    match operand
    case Column(name) => ColumnOf(row, name)
    case Bound(n) => if 1 <= n <= |params| then params[n - 1] else NullParam
    case Literal(n) => BigInt(n)
  }

  predicate WhereHolds(where: seq<Condition>, params: seq<QueryParam>, row: Row, holds: Comparison) {
    where == [] ||
    exists c <- where :: holds(c.operator, OperandOf(c.left, params, row), OperandOf(c.right, params, row))
  }

  /** `row` with the assignments made one after the other. */
  function Assign(row: Row, assignments: seq<Assignment>, params: seq<QueryParam>): Row {
    if assignments == [] then row
    else
      var last := assignments[|assignments| - 1];
      var before := Assign(row, assignments[..|assignments| - 1], params);
      before[last.column := OperandOf(Bound(last.placeholder), params, row)]
  }

  predicate DistinctColumns(assignments: seq<Assignment>) {
    forall i, j :: 0 <= i < j < |assignments| ==> assignments[i].column != assignments[j].column
  }

  /** There is a parameter for every placeholder, and a placeholder for every parameter. */
  predicate Fits(placeholders: seq<nat>, n: nat) {
    && (forall p <- placeholders :: 1 <= p <= n)
    && forall i :: 1 <= i <= n ==> i in placeholders
  }

  /** Binding `params` and running the statement. It is refused when the parameters do not fit, when there is no
      such table, when it assigns no column, and when it assigns one twice. */
  function Eval(statement: Statement, params: seq<QueryParam>, db: Database, holds: Comparison): Result {
    if !Fits(Placeholders(statement), |params|) || statement.table !in db then Refused
    else
      var rows := db[statement.table];
      match statement
      case InsertInto(table, values) =>
        if values == [] || !DistinctColumns(values) then Refused
        else Done(db[table := rows + [Assign(map[], values, params)]])
      case Update(table, sets, where) =>
        if sets == [] || !DistinctColumns(sets) then Refused
        else Done(db[table := Reassigned(rows, sets, where, params, holds)])
      case DeleteFrom(table, where) => Done(db[table := Kept(rows, where, params, holds)])
  }

  function Reassigned(
      rows: seq<Row>, sets: seq<Assignment>, where: seq<Condition>, params: seq<QueryParam>, holds: Comparison)
    : (r: seq<Row>)
    ensures |r| == |rows|
  {
    seq(|rows|, i requires 0 <= i < |rows| =>
      if WhereHolds(where, params, rows[i], holds) then Assign(rows[i], sets, params) else rows[i])
  }

  function Kept(rows: seq<Row>, where: seq<Condition>, params: seq<QueryParam>, holds: Comparison): seq<Row> {
    if rows == [] then []
    else
      var rest := Kept(rows[1..], where, params, holds);
      if WhereHolds(where, params, rows[0], holds) then rest else [rows[0]] + rest
  }

  /** What a database does with a text and its parameters. */
  function Run(sql: string, params: seq<QueryParam>, db: Database, holds: Comparison): Result {
    match Read(sql)
    case None => Unread
    case Some(statement) => Eval(statement, params, db, holds)
  }

  // ----- said directly -----

  /** The input as a record of converted values. */
  function Record(m: Map<Value>): Row {
    map e <- m :: e.key := ValueToQueryParam(Lookup(m, e.key).value)
  }

  /** The rows a filter is about: all of them, when there is none. */
  predicate Selected(filter: Option<Filter>, row: Row, holds: Comparison) {
    filter.Some? ==>
      holds(filter.value.operator, ColumnOf(row, filter.value.field), ValueToQueryParam(filter.value.value))
  }

  function Unselected(rows: seq<Row>, filter: Option<Filter>, holds: Comparison): seq<Row> {
    if rows == [] then []
    else (if Selected(filter, rows[0], holds) then [] else [rows[0]]) + Unselected(rows[1..], filter, holds)
  }

  function Overwritten(rows: seq<Row>, filter: Option<Filter>, record: Row, holds: Comparison): (r: seq<Row>)
    ensures |r| == |rows|
  {
    seq(|rows|, i requires 0 <= i < |rows| => if Selected(filter, rows[i], holds) then rows[i] + record else rows[i])
  }

  /** The input becomes a row of the table. */
  function Inserted(table: string, m: Map<Value>, db: Database): Result {
    if m == [] || table !in db then Refused else Done(db[table := db[table] + [Record(m)]])
  }

  /** The input is written over the table's selected rows. */
  function Updated(table: string, m: Map<Value>, filter: Option<Filter>, db: Database, holds: Comparison): Result {
    if m == [] || table !in db then Refused
    else Done(db[table := Overwritten(db[table], filter, Record(m), holds)])
  }

  /** The table's selected rows are gone. */
  function Deleted(table: string, filter: Option<Filter>, db: Database, holds: Comparison): Result {
    if table !in db then Refused else Done(db[table := Unselected(db[table], filter, holds)])
  }

  predicate NamedKeys(m: Map<Value>) {
    forall e <- m :: IsName(e.key)
  }

  predicate NamedFilter(filter: Option<Filter>) {
    filter.Some? ==> IsName(filter.value.field)
  }

  lemma RecordAt(m: Map<Value>, i: nat)
    requires i < |m|
    ensures m[i].key in Record(m) && Record(m)[m[i].key] == ValueToQueryParam(m[i].value)
  {
    IndexOfUnique(m, i);
    assert m[i] in m;
  }

  lemma RecordStep(m: Map<Value>)
    requires m != []
    ensures var (front, last) := (m[..|m| - 1], m[|m| - 1]);
      Record(m) == Record(front)[last.key := ValueToQueryParam(last.value)]
  {
    hide Lookup, ValueToQueryParam;
    var n := |m| - 1;
    var front, last: Entry<Value> := m[..n], m[n];
    var r := Record(front)[last.key := ValueToQueryParam(last.value)];
    RecordAt(m, n);
    forall k
      ensures k in Record(m) <==> k in r
      ensures k in Record(m) ==> Record(m)[k] == r[k]
    {
      if k in Record(m) && k != last.key {
        var e :| e in m && e.key == k;
        var i :| 0 <= i < |m| && m[i] == e;
        RecordAt(m, i);
        RecordAt(front, i);
      }
    }
  }

  /** Binding the parameters rebuilds the converted input. */
  lemma {:induction false} AssignIsRecord(row: Row, m: Map<Value>, params: seq<QueryParam>)
    requires |m| <= |params| && forall i :: 0 <= i < |m| ==> params[i] == ValueToQueryParam(m[i].value)
    ensures Assign(row, Numbered(m), params) == row + Record(m)
  {
    hide Assign, Record, ValueToQueryParam;
    if m == [] {
      EmptyRecord(row, params);
    } else {
      AssignIsRecord(row, m[..|m| - 1], params);
      RecordStep(m);
      AssignStep(row, m, params);
    }
  }

  lemma AssignStep(row: Row, m: Map<Value>, params: seq<QueryParam>)
    requires 0 < |m| <= |params|
    ensures var n := |m| - 1;
      Assign(row, Numbered(m), params) == Assign(row, Numbered(m[..n]), params)[m[n].key := params[n]]
  {
    var n := |m| - 1;
    assert Numbered(m)[..n] == Numbered(m[..n]);
    assert Numbered(m)[n] == Assignment(m[n].key, n + 1);
  }

  lemma EmptyRecord(row: Row, params: seq<QueryParam>)
    ensures Assign(row, Numbered([]), params) == row == row + Record([])
  {
  }

  lemma NumberedDistinct(m: Map<Value>)
    ensures DistinctColumns(Numbered(m))
    ensures NamedColumns(Numbered(m)) <==> NamedKeys(m)
  {
    hide IsName;
    var columns := Numbered(m);
    assert forall i :: 0 <= i < |m| ==> m[i] in m && columns[i] in columns && columns[i].column == m[i].key;
  }

  lemma NumberedFits(placeholders: seq<nat>, n: nat)
    requires NumberedThrough(placeholders, n)
    ensures Fits(placeholders, n)
  {
    forall i | 1 <= i <= n
      ensures i in placeholders
    {
      assert placeholders[i - 1] == i;
    }
  }

  lemma FilterMeans(filter: Option<Filter>, before: seq<QueryParam>, row: Row, holds: Comparison)
    ensures WhereHolds(WhereOf(filter, |before| + 1), before + FilterParams(filter), row, holds) <==>
            Selected(filter, row, holds)
  {
    var where := WhereOf(filter, |before| + 1);
    if filter.Some? {
      assert where[0] in where;
    }
  }

  lemma FilterNamed(filter: Option<Filter>, n: nat)
    ensures NamedWhere(WhereOf(filter, n)) <==> NamedFilter(filter)
  {
    hide IsName;
    if filter.Some? {
      assert WhereOf(filter, n)[0] in WhereOf(filter, n);
    }
  }

  lemma EvalUpdate(table: string, input: Value, filters: Option<Value>, db: Database, holds: Comparison)
    ensures var m, filter := InputFields(input), ParseFilter(filters);
      Eval(Update(table, Numbered(m), WhereOf(filter, |m| + 1)), Params(m) + FilterParams(filter), db, holds) ==
      Updated(table, m, filter, db, holds)
  {
    hide Record, Assign, ParseFilter, Selected, WhereHolds, ValueToQueryParam, Fits, Placeholders, InputFields;
    var m, filter := InputFields(input), ParseFilter(filters);
    var params := Params(m) + FilterParams(filter);
    PlaceholdersMatchParams(table, input, filters);
    NumberedFits(Placeholders(Update(table, Numbered(m), WhereOf(filter, |m| + 1))), |params|);
    NumberedDistinct(m);
    forall row: Row
      ensures Assign(row, Numbered(m), params) == row + Record(m)
      ensures WhereHolds(WhereOf(filter, |m| + 1), params, row, holds) <==> Selected(filter, row, holds)
    {
      AssignIsRecord(row, m, params);
      FilterMeans(filter, Params(m), row, holds);
    }
    if table in db {
      assert Reassigned(db[table], Numbered(m), WhereOf(filter, |m| + 1), params, holds)
          == Overwritten(db[table], filter, Record(m), holds);
    }
  }

  lemma EvalDelete(table: string, filters: Option<Value>, db: Database, holds: Comparison)
    ensures var filter := ParseFilter(filters);
      Eval(DeleteFrom(table, WhereOf(filter, 1)), FilterParams(filter), db, holds) ==
      Deleted(table, filter, db, holds)
  {
    hide ParseFilter, Selected, WhereHolds, ValueToQueryParam, Fits, Placeholders;
    var filter := ParseFilter(filters);
    PlaceholdersMatchParams(table, Null, filters);
    NumberedFits(Placeholders(DeleteFrom(table, WhereOf(filter, 1))), |FilterParams(filter)|);
    if table in db {
      KeptIsUnselected(db[table], filter, holds);
    }
  }

  lemma {:induction false} KeptIsUnselected(rows: seq<Row>, filter: Option<Filter>, holds: Comparison)
    ensures Kept(rows, WhereOf(filter, 1), FilterParams(filter), holds) == Unselected(rows, filter, holds)
  {
    if rows != [] {
      KeptIsUnselected(rows[1..], filter, holds);
      FilterMeans(filter, [], rows[0], holds);
      assert [] + FilterParams(filter) == FilterParams(filter);
    }
  }

  lemma EvalInsert(table: string, input: Value, db: Database, holds: Comparison)
    ensures var m := InputFields(input);
      Eval(InsertInto(table, Numbered(m)), Params(m), db, holds) == Inserted(table, m, db)
  {
    hide Record, Assign, ValueToQueryParam, InputFields, Fits, Placeholders;
    var m := InputFields(input);
    PlaceholdersMatchParams(table, input, None);
    NumberedFits(Placeholders(InsertInto(table, Numbered(m))), |Params(m)|);
    NumberedDistinct(m);
    AssignIsRecord(map[], m, Params(m));
    assert map[] + Record(m) == Record(m);
  }

  // ----- what the built texts do -----

  /** Running the built UPDATE writes the converted input over the selected rows, and leaves the other rows and
      tables alone; an input without fields is refused. The names must be names. */
  lemma UpdateMeans(table: string, input: Value, filters: Option<Value>, db: Database, holds: Comparison)
    requires IsTable(table) && NamedKeys(InputFields(input)) && NamedFilter(ParseFilter(filters))
    ensures var m, filter := InputFields(input), ParseFilter(filters);
      Run(UpdateSql(table, input, filters).0, UpdateSql(table, input, filters).1, db, holds) ==
      Updated(table, m, filter, db, holds)
  {
    hide Eval, Read, Render, IsName, IsTable;
    var m, filter := InputFields(input), ParseFilter(filters);
    NumberedDistinct(m);
    FilterNamed(filter, |m| + 1);
    ReadIff(Update(table, Numbered(m), WhereOf(filter, |m| + 1)));
    EvalUpdate(table, input, filters, db, holds);
  }

  /** Running the built DELETE removes exactly the selected rows. */
  lemma DeleteMeans(table: string, filters: Option<Value>, db: Database, holds: Comparison)
    requires IsTable(table) && NamedFilter(ParseFilter(filters))
    ensures var filter := ParseFilter(filters);
      Run(DeleteSql(table, filters).0, DeleteSql(table, filters).1, db, holds) == Deleted(table, filter, db, holds)
  {
    hide Eval, Read, Render, IsName, IsTable;
    var filter := ParseFilter(filters);
    FilterNamed(filter, 1);
    ReadIff(DeleteFrom(table, WhereOf(filter, 1)));
    EvalDelete(table, filters, db, holds);
  }

  /** Running the built INSERT adds the converted input as one row. */
  lemma InsertMeans(table: string, input: Value, db: Database, holds: Comparison)
    requires IsTable(table) && NamedKeys(InputFields(input))
    ensures var m := InputFields(input);
      Run(InsertSql(table, input).0, InsertSql(table, input).1, db, holds) == Inserted(table, m, db)
  {
    hide Eval, Read, Render, IsName, IsTable;
    var m := InputFields(input);
    NumberedDistinct(m);
    ReadIff(InsertInto(table, Numbered(m)));
    EvalInsert(table, input, db, holds);
  }

  /** A filter that is not well formed is dropped, so that the statement is about every row. */
  lemma DroppedFilterDeletesAll(table: string, filters: Option<Value>, db: Database, holds: Comparison)
    requires ParseFilter(filters).None? && IsTable(table) && table in db
    ensures DeleteSql(table, filters).1 == []
    ensures Run(DeleteSql(table, filters).0, [], db, holds) == Done(db[table := []])
  {
    hide Run, Render, IsTable;
    DeleteMeans(table, filters, db, holds);
    NoneUnselected(db[table], holds);
  }

  lemma {:induction false} NoneUnselected(rows: seq<Row>, holds: Comparison)
    ensures Unselected(rows, None, holds) == []
  {
    if rows != [] {
      NoneUnselected(rows[1..], holds);
    }
  }

  // ----- what the operators of a filter mean -----

  /** The filter is an object that holds `x` under `k`. */
  predicate HoldsIn(filters: Option<Value>, k: string, x: Value) {
    filters.Some? && filters.value.Object? && Entry(k, x) in filters.value.fields
  }

  lemma LookupHeld(m: Map<Value>, k: string, x: Value)
    requires Entry(k, x) in m
    ensures Lookup(m, k) == Some(x)
  {
    var i :| 0 <= i < |m| && m[i] == Entry(k, x);
    IndexOfUnique(m, i);
  }

  /** A filter counts exactly when it is an object with a textual field and operator, and a value. */
  lemma FilterParsed(filters: Option<Value>)
    ensures ParseFilter(filters).Some? <==>
            && filters.Some? && filters.value.Object?
            && (exists e <- filters.value.fields :: e.key == "field" && e.value.String?)
            && (exists e <- filters.value.fields :: e.key == "operator" && e.value.String?)
            && (exists e <- filters.value.fields :: e.key == "value")
  {
    hide Lookup, ParseOperator;
    if filters.Some? && filters.value.Object? {
      var m := filters.value.fields;
      LookupEntry(m, "field");
      LookupEntry(m, "operator");
      LookupEntry(m, "value");
    }
  }

  lemma LookupEntry(m: Map<Value>, k: string)
    ensures var found := Lookup(m, k);
      && (found.Some? ==> Entry(k, found.value) in m)
      && forall e <- m :: e.key == k ==> found == Some(e.value)
  {
    forall e <- m | e.key == k
      ensures Lookup(m, k) == Some(e.value)
    {
      LookupHeld(m, k, e.value);
    }
  }

  lemma FilterOf(filters: Option<Value>, field: string, name: string, value: Value)
    requires HoldsIn(filters, "field", String(field)) && HoldsIn(filters, "operator", String(name))
    requires HoldsIn(filters, "value", value)
    ensures ParseFilter(filters) == Some(Filter(field, ParseOperator(name), value))
  {
    hide Lookup, ParseOperator;
    var m := filters.value.fields;
    LookupHeld(m, "field", String(field));
    LookupHeld(m, "operator", String(name));
    LookupHeld(m, "value", value);
  }

  /** The text of the built DELETE: the operator's name decides what stands between field and placeholder. */
  lemma DeleteText(table: string, filters: Option<Value>, field: string, name: string, value: Value)
    requires HoldsIn(filters, "field", String(field)) && HoldsIn(filters, "operator", String(name))
    requires HoldsIn(filters, "value", value)
    ensures var start, sql := "DELETE FROM " + table + " WHERE " + field, DeleteSql(table, filters).0;
      match name
      case "ne" => sql == start + " != $1"
      case "gt" => sql == start + " > $1"
      case "gte" => sql == start + " >= $1"
      case "lt" => sql == start + " < $1"
      case "lte" => sql == start + " <= $1"
      case "like" => sql == start + " LIKE $1"
      case _ => sql == start + " = $1"
  {
    hide ParseFilter, ValueToQueryParam, HoldsIn;
    FilterOf(filters, field, name, value);
    var symbol := ParseOperator(name).Symbol();
    OneCondition(field, ParseOperator(name));
    var where := WhereOf(ParseFilter(filters), 1);
    assert WhereText(where) == " WHERE " + (field + " " + symbol + " $1");
    hide ParseOperator, Operator.Symbol;
    var start := "DELETE FROM " + table + " WHERE " + field;
    assert "DELETE FROM " + table + (" WHERE " + (field + " " + symbol + " $1")) == start + (" " + symbol + " $1");
  }

  lemma OneCondition(field: string, operator: Operator)
    ensures var where := [Condition(Column(field), operator, Bound(1))];
      Join(TextOf(where, ConditionText), " OR ") == field + " " + operator.Symbol() + " $1"
  {
    hide Operator.Symbol;
    assert Placeholder(1) == "$1";
    var where := [Condition(Column(field), operator, Bound(1))];
    assert TextOf(where, ConditionText) == [ConditionText(where[0])];
  }

  /** Comparing integers; nothing else is comparable. */
  function IntegerComparison(operator: Operator, a: QueryParam, b: QueryParam): bool {
    && a.BigInt? && b.BigInt?
    && match operator
       case Eq => a.i == b.i
       case Ne => a.i != b.i
       case Gt => a.i > b.i
       case Gte => a.i >= b.i
       case Lt => a.i < b.i
       case Lte => a.i <= b.i
       case Like => false
  }

  /** What an operator's name says of two integers; a name that is not known says that they are equal. */
  predicate Compares(name: string, a: int, b: int) {
    match name
    case "ne" => a != b
    case "gt" => a > b
    case "gte" => a >= b
    case "lt" => a < b
    case "lte" => a <= b
    case "like" => false
    case _ => a == b
  }

  /** The row's column holds an integer that compares so with `n`. */
  predicate Matches(row: Row, field: string, name: string, n: int) {
    field in row && row[field].BigInt? && Compares(name, row[field].i, n)
  }

  function Unmatched(rows: seq<Row>, field: string, name: string, n: int): seq<Row> {
    if rows == [] then []
    else (if Matches(rows[0], field, name, n) then [] else [rows[0]]) + Unmatched(rows[1..], field, name, n)
  }

  lemma SelectedByInteger(filters: Option<Value>, field: string, name: string, n: int, row: Row)
    requires HoldsIn(filters, "field", String(field)) && HoldsIn(filters, "operator", String(name))
    requires HoldsIn(filters, "value", Number(Integer(n)))
    ensures Selected(ParseFilter(filters), row, IntegerComparison) <==> Matches(row, field, name, n)
  {
    hide ParseFilter, HoldsIn;
    FilterOf(filters, field, name, Number(Integer(n)));
  }

  /** Deleting by an integer removes exactly the rows whose column holds an integer that compares with it as the
      operator's name says. */
  lemma DeleteByInteger(table: string, filters: Option<Value>, field: string, name: string, n: int, db: Database)
    requires HoldsIn(filters, "field", String(field)) && HoldsIn(filters, "operator", String(name))
    requires HoldsIn(filters, "value", Number(Integer(n)))
    requires IsTable(table) && IsName(field) && table in db
    ensures var (sql, params) := DeleteSql(table, filters);
      Run(sql, params, db, IntegerComparison) == Done(db[table := Unmatched(db[table], field, name, n)])
  {
    hide Run, IsTable, IsName, ParseFilter, HoldsIn;
    FilterOf(filters, field, name, Number(Integer(n)));
    DeleteMeans(table, filters, db, IntegerComparison);
    UnmatchedIsUnselected(db[table], filters, field, name, n);
  }

  lemma {:induction false} UnmatchedIsUnselected(
      rows: seq<Row>, filters: Option<Value>, field: string, name: string, n: int)
    requires HoldsIn(filters, "field", String(field)) && HoldsIn(filters, "operator", String(name))
    requires HoldsIn(filters, "value", Number(Integer(n)))
    ensures Unselected(rows, ParseFilter(filters), IntegerComparison) == Unmatched(rows, field, name, n)
  {
    hide ParseFilter, HoldsIn, Selected, Matches;
    if rows != [] {
      SelectedByInteger(filters, field, name, n, rows[0]);
      UnmatchedIsUnselected(rows[1..], filters, field, name, n);
    }
  }

  /** And updating writes exactly those over. */
  lemma UpdateByInteger(
      table: string, input: Value, filters: Option<Value>, field: string, name: string, n: int, db: Database)
    requires HoldsIn(filters, "field", String(field)) && HoldsIn(filters, "operator", String(name))
    requires HoldsIn(filters, "value", Number(Integer(n)))
    requires IsTable(table) && IsName(field) && table in db && input.Object? && input.fields != []
    requires NamedKeys(input.fields)
    ensures var (sql, params) := UpdateSql(table, input, filters);
      Run(sql, params, db, IntegerComparison) ==
      Done(db[table := seq(|db[table]|, i requires 0 <= i < |db[table]| =>
             if Matches(db[table][i], field, name, n) then db[table][i] + Record(input.fields) else db[table][i])])
  {
    hide Run, IsTable, IsName, ParseFilter, HoldsIn, Selected, Matches, Record, ValueToQueryParam;
    FilterOf(filters, field, name, Number(Integer(n)));
    UpdateMeans(table, input, filters, db, IntegerComparison);
    var rows := db[table];
    forall i | 0 <= i < |rows|
      ensures Selected(ParseFilter(filters), rows[i], IntegerComparison) <==> Matches(rows[i], field, name, n)
    {
      SelectedByInteger(filters, field, name, n, rows[i]);
    }
    assert Overwritten(rows, ParseFilter(filters), Record(input.fields), IntegerComparison) ==
      seq(|rows|, i requires 0 <= i < |rows| =>
        if Matches(rows[i], field, name, n) then rows[i] + Record(input.fields) else rows[i]);
  }

  function Unlike(rows: seq<Row>, field: string, pattern: string, holds: Comparison): seq<Row> {
    if rows == [] then []
    else
      var rest := Unlike(rows[1..], field, pattern, holds);
      if holds(Like, ColumnOf(rows[0], field), Text(pattern)) then rest else [rows[0]] + rest
  }

  /** `like` compares the column with the pattern by LIKE. */
  lemma DeleteByPattern(
      table: string, filters: Option<Value>, field: string, pattern: string, db: Database, holds: Comparison)
    requires HoldsIn(filters, "field", String(field)) && HoldsIn(filters, "operator", String("like"))
    requires HoldsIn(filters, "value", String(pattern))
    requires IsTable(table) && IsName(field) && table in db
    ensures var (sql, params) := DeleteSql(table, filters);
      Run(sql, params, db, holds) == Done(db[table := Unlike(db[table], field, pattern, holds)])
  {
    hide Run, IsTable, IsName, ParseFilter, HoldsIn;
    FilterOf(filters, field, "like", String(pattern));
    DeleteMeans(table, filters, db, holds);
    UnlikeIsUnselected(db[table], field, pattern, holds);
  }

  lemma {:induction false} UnlikeIsUnselected(rows: seq<Row>, field: string, pattern: string, holds: Comparison)
    ensures Unselected(rows, Some(Filter(field, Like, String(pattern))), holds) == Unlike(rows, field, pattern, holds)
  {
    if rows != [] {
      UnlikeIsUnselected(rows[1..], field, pattern, holds);
    }
  }

  // ----- only with names -----

  ghost predicate NamedRows(rows: seq<Row>) {
    forall row <- rows, k <- row :: IsName(k)
  }

  lemma {:induction false} AssignKeys(row: Row, assignments: seq<Assignment>, params: seq<QueryParam>)
    ensures forall k :: k in Assign(row, assignments, params) <==>
      k in row || exists a <- assignments :: a.column == k
  {
    if assignments != [] {
      var (front, last) := (assignments[..|assignments| - 1], assignments[|assignments| - 1]);
      AssignKeys(row, front, params);
      assert assignments == front + [last];
    }
  }

  lemma {:induction false} KeptFrom(rows: seq<Row>, where: seq<Condition>, params: seq<QueryParam>, holds: Comparison)
    ensures forall row <- Kept(rows, where, params, holds) :: row in rows
  {
    if rows != [] {
      KeptFrom(rows[1..], where, params, holds);
    }
  }

  /** A text only ever works on a table that has a name, and gives its rows columns that have names. */
  lemma OnlyNames(sql: string, params: seq<QueryParam>, table: string, rows: seq<Row>, holds: Comparison, db: Database)
    requires Run(sql, params, map[table := rows], holds) == Done(db)
    ensures IsTable(table) && table in db
    ensures NamedRows(rows) ==> NamedRows(db[table])
  {
    hide Read, Fits, Placeholders, Assign, Kept, IsName, IsTable, DistinctColumns, WhereHolds;
    var statement := Read(sql).value;
    if NamedRows(rows) {
      match statement
      case InsertInto(_, values) => AssignKeys(map[], values, params);
      case Update(_, sets, where) =>
        forall row <- rows
          ensures forall k <- Assign(row, sets, params) :: IsName(k)
        {
          AssignKeys(row, sets, params);
        }
      case DeleteFrom(_, where) => KeptFrom(rows, where, params, holds);
    }
  }

  /** So it cannot tell rows apart by a column that has none. */
  lemma CannotTellApart(
      sql: string, params: seq<QueryParam>, table: string, f: string, x: QueryParam, holds: Comparison, db: Database)
    requires !IsName(f) && Run(sql, params, map[table := [map[], map[f := x]]], holds) == Done(db)
    ensures table in db && |db[table]| != 1
    ensures |db[table]| == 2 ==> db[table] == [map[], map[f := x]] || db[table][0] != map[]
  {
    hide Read, Fits, Placeholders, Assign, IsName, IsTable, DistinctColumns, WhereHolds;
    var statement := Read(sql).value;
    var rows: seq<Row> := [map[], map[f := x]];
    match statement
    case InsertInto(_, values) =>
    case Update(_, sets, where) =>
      SameCondition(where, params, f, x, holds);
      AssignKeys(map[], sets, params);
      assert sets[0].column in Assign(map[], sets, params);
    case DeleteFrom(_, where) =>
      SameCondition(where, params, f, x, holds);
      KeptPair(map[], map[f := x], where, params, holds);
  }

  lemma KeptPair(a: Row, b: Row, where: seq<Condition>, params: seq<QueryParam>, holds: Comparison)
    requires WhereHolds(where, params, a, holds) == WhereHolds(where, params, b, holds)
    ensures Kept([a, b], where, params, holds) == if WhereHolds(where, params, a, holds) then [] else [a, b]
  {
    hide WhereHolds;
    assert [a, b][1..] == [b] && [b][1..] == [];
    assert Kept([b], where, params, holds) == if WhereHolds(where, params, b, holds) then [] else [b];
    assert [a] + [b] == [a, b];
  }

  lemma SameCondition(where: seq<Condition>, params: seq<QueryParam>, f: string, x: QueryParam, holds: Comparison)
    requires NamedWhere(where) && !IsName(f)
    ensures WhereHolds(where, params, map[], holds) == WhereHolds(where, params, map[f := x], holds)
  {
    hide IsName;
    forall c <- where
      ensures OperandOf(c.left, params, map[]) == OperandOf(c.left, params, map[f := x])
      ensures OperandOf(c.right, params, map[]) == OperandOf(c.right, params, map[f := x])
    {
    }
  }

  function Always(operator: Operator, a: QueryParam, b: QueryParam): bool {
    true
  }

  function IsMarked(operator: Operator, a: QueryParam, b: QueryParam): bool {
    a == Text("x")
  }

  lemma Marked(filter: Option<Filter>)
    requires filter.Some?
    ensures !Selected(filter, map[], IsMarked)
    ensures Selected(filter, map[filter.value.field := Text("x")], IsMarked)
  {
  }

  lemma EmptySelected(filter: Option<Filter>)
    ensures Selected(filter, map[], Always)
  {
  }

  lemma EmptyNamed()
    ensures NamedRows([map[]])
  {
  }

  lemma OverwrittenMarked(m: Map<Value>, filter: Option<Filter>)
    requires m != [] && NamedKeys(m) && filter.Some? && !IsName(filter.value.field)
    ensures var rows := [map[], map[filter.value.field := Text("x")]];
      var after := Overwritten(rows, filter, Record(m), IsMarked);
      after[0] == map[] && after[1] != rows[1]
  {
    hide IsName, Selected;
    Marked(filter);
    RecordAt(m, 0);
    assert m[0] in m;
  }

  lemma UnselectedMarked(filter: Option<Filter>)
    requires filter.Some?
    ensures Unselected([map[], map[filter.value.field := Text("x")]], filter, IsMarked) == [map[]]
  {
    hide Selected;
    Marked(filter);
    var a, b: Row := map[], map[filter.value.field := Text("x")];
    assert [a, b][1..] == [b] && [b][1..] == [];
    assert Unselected([b], filter, IsMarked) == [];
  }

  /** No statement that is read from a text updates columns, or selects rows by a column, that have no name. */
  lemma NoTextUpdates(sql: string, params: seq<QueryParam>, table: string, m: Map<Value>, filter: Option<Filter>)
    requires m != [] && Read(sql).Some? && !(IsTable(table) && NamedKeys(m) && NamedFilter(filter))
    ensures exists db: Database, holds: Comparison ::
      Run(sql, params, db, holds) != Updated(table, m, filter, db, holds)
  {
    hide Run, IsName, IsTable, Record, Selected;
    if !IsTable(table) || !NamedKeys(m) {
      hide NamedRows;
      EmptySelected(filter);
      var db: Database := map[table := [map[]]];
      if Run(sql, params, db, Always) == Updated(table, m, filter, db, Always) {
        assert Overwritten([map[]], filter, Record(m), Always) == [map[] + Record(m)];
        EmptyNamed();
        OnlyNames(sql, params, table, [map[]], Always, db[table := [map[] + Record(m)]]);
        UnnamedRecord(m, [map[] + Record(m)]);
        assert false;
      }
    } else {
      var f := filter.value.field;
      var rows: seq<Row> := [map[], map[f := Text("x")]];
      var db: Database := map[table := rows];
      if Run(sql, params, db, IsMarked) == Updated(table, m, filter, db, IsMarked) {
        var after := Overwritten(rows, filter, Record(m), IsMarked);
        OverwrittenMarked(m, filter);
        CannotTellApart(sql, params, table, f, Text("x"), IsMarked, db[table := after]);
        assert false;
      }
    }
  }

  lemma UnnamedRecord(m: Map<Value>, rows: seq<Row>)
    requires Record(m) in rows || map[] + Record(m) in rows
    ensures NamedRows(rows) ==> NamedKeys(m)
  {
    hide IsName;
    forall e <- m
      ensures e.key in Record(m) && e.key in map[] + Record(m)
    {
      var i :| 0 <= i < |m| && m[i] == e;
      RecordAt(m, i);
    }
  }

  /** When table, columns and filter field are names, the built UPDATE is read as a statement; and whenever it is, it
      means what it says exactly when they are. */
  lemma UpdateMeansIff(table: string, input: Value, filters: Option<Value>)
    requires InputFields(input) != []
    ensures var m, filter := InputFields(input), ParseFilter(filters);
      var named := IsTable(table) && NamedKeys(m) && NamedFilter(filter);
      var (sql, params) := UpdateSql(table, input, filters);
      && (named ==> Read(sql).Some?)
      && (Read(sql).Some? ==>
            ((forall db: Database, holds: Comparison ::
                Run(sql, params, db, holds) == Updated(table, m, filter, db, holds)) <==> named))
  {
    hide *;
    var m, filter := InputFields(input), ParseFilter(filters);
    var (sql, params) := UpdateSql(table, input, filters);
    if IsTable(table) && NamedKeys(m) && NamedFilter(filter) {
      UpdateReads(table, input, filters);
      forall db: Database, holds: Comparison
        ensures Run(sql, params, db, holds) == Updated(table, m, filter, db, holds)
      {
        UpdateMeans(table, input, filters, db, holds);
      }
    } else if Read(sql).Some? {
      NoTextUpdates(sql, params, table, m, filter);
    }
  }

  lemma UpdateReads(table: string, input: Value, filters: Option<Value>)
    requires IsTable(table) && NamedKeys(InputFields(input)) && NamedFilter(ParseFilter(filters))
    ensures Read(UpdateSql(table, input, filters).0).Some?
  {
    hide Read, Render, IsName, IsTable;
    var m, filter := InputFields(input), ParseFilter(filters);
    NumberedDistinct(m);
    FilterNamed(filter, |m| + 1);
    ReadIff(Update(table, Numbered(m), WhereOf(filter, |m| + 1)));
  }

  lemma NoTextDeletes(sql: string, params: seq<QueryParam>, table: string, filter: Option<Filter>)
    requires Read(sql).Some? && !(IsTable(table) && NamedFilter(filter))
    ensures exists db: Database, holds: Comparison ::
      Run(sql, params, db, holds) != Deleted(table, filter, db, holds)
  {
    hide Run, IsName, IsTable, Selected;
    if !IsTable(table) {
      hide NamedRows;
      var db: Database := map[table := []];
      if Run(sql, params, db, Always) == Deleted(table, filter, db, Always) {
        OnlyNames(sql, params, table, [], Always, db[table := []]);
        assert false;
      }
    } else {
      var f := filter.value.field;
      var rows: seq<Row> := [map[], map[f := Text("x")]];
      var db: Database := map[table := rows];
      if Run(sql, params, db, IsMarked) == Deleted(table, filter, db, IsMarked) {
        UnselectedMarked(filter);
        CannotTellApart(sql, params, table, f, Text("x"), IsMarked, db[table := [map[]]]);
        assert false;
      }
    }
  }

  /** So with the built DELETE, its table and its filter field. */
  lemma DeleteMeansIff(table: string, filters: Option<Value>)
    ensures var filter := ParseFilter(filters);
      var named := IsTable(table) && NamedFilter(filter);
      var (sql, params) := DeleteSql(table, filters);
      && (named ==> Read(sql).Some?)
      && (Read(sql).Some? ==>
            ((forall db: Database, holds: Comparison ::
                Run(sql, params, db, holds) == Deleted(table, filter, db, holds)) <==> named))
  {
    hide *;
    var filter := ParseFilter(filters);
    var (sql, params) := DeleteSql(table, filters);
    if IsTable(table) && NamedFilter(filter) {
      DeleteReads(table, filters);
      forall db: Database, holds: Comparison
        ensures Run(sql, params, db, holds) == Deleted(table, filter, db, holds)
      {
        DeleteMeans(table, filters, db, holds);
      }
    } else if Read(sql).Some? {
      NoTextDeletes(sql, params, table, filter);
    }
  }

  lemma DeleteReads(table: string, filters: Option<Value>)
    requires IsTable(table) && NamedFilter(ParseFilter(filters))
    ensures Read(DeleteSql(table, filters).0).Some?
  {
    hide Read, Render, IsName, IsTable;
    FilterNamed(ParseFilter(filters), 1);
    ReadIff(DeleteFrom(table, WhereOf(ParseFilter(filters), 1)));
  }

  lemma NoTextInserts(sql: string, params: seq<QueryParam>, table: string, m: Map<Value>)
    requires m != [] && Read(sql).Some? && !(IsTable(table) && NamedKeys(m))
    ensures exists db: Database, holds: Comparison :: Run(sql, params, db, holds) != Inserted(table, m, db)
  {
    hide Run, IsName, IsTable;
    var db: Database := map[table := []];
    if Run(sql, params, db, Always) == Inserted(table, m, db) {
      assert [] + [Record(m)] == [Record(m)];
      OnlyNames(sql, params, table, [], Always, db[table := [Record(m)]]);
      UnnamedRecord(m, [Record(m)]);
      assert false;
    }
  }

  /** And with the built INSERT, its table and its columns. */
  lemma InsertMeansIff(table: string, input: Value)
    requires InputFields(input) != []
    ensures var m := InputFields(input);
      var named := IsTable(table) && NamedKeys(m);
      var (sql, params) := InsertSql(table, input);
      && (named ==> Read(sql).Some?)
      && (Read(sql).Some? ==>
            ((forall db: Database, holds: Comparison :: Run(sql, params, db, holds) == Inserted(table, m, db)) <==>
             named))
  {
    hide *;
    var m := InputFields(input);
    var (sql, params) := InsertSql(table, input);
    if IsTable(table) && NamedKeys(m) {
      InsertReads(table, input);
      forall db: Database, holds: Comparison
        ensures Run(sql, params, db, holds) == Inserted(table, m, db)
      {
        InsertMeans(table, input, db, holds);
      }
    } else if Read(sql).Some? {
      NoTextInserts(sql, params, table, m);
    }
  }

  lemma InsertReads(table: string, input: Value)
    requires IsTable(table) && NamedKeys(InputFields(input))
    ensures Read(InsertSql(table, input).0).Some?
  {
    hide Read, Render, IsName, IsTable;
    NumberedDistinct(InputFields(input));
    ReadIff(InsertInto(table, Numbered(InputFields(input))));
  }

  // ----- what happens otherwise -----

  /** A key that is no name can write two columns with one value. */
  lemma KeyWritesTwoColumns(
      table: string, input: Value, a: string, b: string, value: Value, db: Database, holds: Comparison)
    requires IsTable(table) && table in db && IsName(a) && IsName(b) && a != b
    requires input == Object([Entry(a + " = $1, " + b, value)])
    ensures var (sql, params) := UpdateSql(table, input, None);
      Run(sql, params, db, holds) ==
      Done(db[table := Overwritten(db[table], None, map[a := ValueToQueryParam(value), b := ValueToQueryParam(value)],
                                   holds)])
  {
    hide IsName, IsTable, Read, ValueToQueryParam;
    var m := InputFields(input);
    var sets := [Assignment(a, 1), Assignment(b, 1)];
    var params := Params(m);
    TwoSetsText(a, b);
    assert TextOf(Numbered(m), SetText) == [SetText(Assignment(a + " = $1, " + b, 1))];
    assert UpdateSql(table, input, None) == (Render(Update(table, Numbered(m), [])), params) by {
      assert params + [] == params;
    }
    assert Render(Update(table, Numbered(m), [])) == Render(Update(table, sets, []));
    ReadIff(Update(table, sets, []));
    assert AssignedPlaceholders(sets) == [1, 1];
    assert Placeholders(Update(table, sets, [])) == [1, 1];
    assert 1 in [1, 1] && Fits([1, 1], 1);
    forall row: Row
      ensures Assign(row, sets, params) == row + map[a := params[0], b := params[0]]
    {
      assert sets[..1] == [Assignment(a, 1)] && sets[..1][..0] == [];
      assert Assign(row, sets[..1], params) == row[a := params[0]];
    }
    assert Reassigned(db[table], sets, [], params, holds)
        == Overwritten(db[table], None, map[a := params[0], b := params[0]], holds);
  }

  lemma TwoSetsText(a: string, b: string)
    ensures Join(TextOf([Assignment(a, 1), Assignment(b, 1)], SetText), ", ") ==
            SetText(Assignment(a + " = $1, " + b, 1))
  {
    var sets := [Assignment(a, 1), Assignment(b, 1)];
    assert Placeholder(1) == "$1" && " = " + "$1" == " = $1";
    var texts := TextOf(sets, SetText);
    assert texts[0] == SetText(Assignment(a, 1)) == a + " = " + Placeholder(1) == a + " = $1";
    assert texts[1..] == [SetText(sets[1])];
    assert a + " = $1" + ", " + (b + " = " + "$1") == (a + " = $1, " + b) + " = " + "$1";
  }

  /** A filter field that is no name can select every row. */
  lemma FieldSelectsAll(table: string, filters: Option<Value>, name: string, db: Database, holds: Comparison)
    requires IsTable(table) && table in db && IsName(name) && holds(Eq, BigInt(1), BigInt(1))
    requires ParseFilter(filters).Some? && ParseFilter(filters).value.field == "1 = 1 OR " + name
    ensures var (sql, params) := DeleteSql(table, filters); Run(sql, params, db, holds) == Done(db[table := []])
  {
    hide IsName, IsTable, Read, ValueToQueryParam, ParseFilter;
    var filter := ParseFilter(filters);
    var operator := filter.value.operator;
    var where := [Condition(Literal(1), Eq, Literal(1)), Condition(Column(name), operator, Bound(1))];
    EitherText(name, operator);
    ReadIff(DeleteFrom(table, where));
    assert where[1..][1..] == [];
    assert WherePlaceholders(where[1..]) == [1];
    assert Placeholders(DeleteFrom(table, where)) == [1];
    assert 1 in [1];
    NoneKept(db[table], where, FilterParams(filter), holds);
  }

  lemma EitherText(name: string, operator: Operator)
    ensures WhereText([Condition(Literal(1), Eq, Literal(1)), Condition(Column(name), operator, Bound(1))]) ==
            WhereText([Condition(Column("1 = 1 OR " + name), operator, Bound(1))])
  {
    hide ConditionText;
    var first, second := Condition(Literal(1), Eq, Literal(1)), Condition(Column(name), operator, Bound(1));
    var other := Condition(Column("1 = 1 OR " + name), operator, Bound(1));
    OneIsOne();
    assert "1 = 1" + " OR " == "1 = 1 OR ";
    FieldFirst("1 = 1 OR ", name, operator);
    assert "1 = 1" + " OR " + ConditionText(second) == ConditionText(other);
    assert TextOf([first, second], ConditionText) == [ConditionText(first), ConditionText(second)];
    assert TextOf([other], ConditionText) == [ConditionText(other)];
    JoinTwo(ConditionText(first), ConditionText(second), " OR ");
  }

  lemma OneIsOne()
    ensures ConditionText(Condition(Literal(1), Eq, Literal(1))) == "1 = 1"
  {
    assert Decimal(1) == "1";
  }

  lemma FieldFirst(before: string, name: string, operator: Operator)
    ensures ConditionText(Condition(Column(before + name), operator, Bound(1))) ==
            before + ConditionText(Condition(Column(name), operator, Bound(1)))
  {
    var symbol, bound := operator.Symbol(), Placeholder(1);
    hide Operator.Symbol, Placeholder;
    assert before + name + " " + symbol + " " + bound == before + (name + " " + symbol + " " + bound);
  }

  lemma JoinTwo(a: string, b: string, separator: string)
    ensures Join([a, b], separator) == a + separator + b
  {
    assert [a, b][1..] == [b];
  }

  lemma {:induction false} NoneKept(rows: seq<Row>, where: seq<Condition>, params: seq<QueryParam>, holds: Comparison)
    requires Condition(Literal(1), Eq, Literal(1)) in where && holds(Eq, BigInt(1), BigInt(1))
    ensures Kept(rows, where, params, holds) == []
  {
    if rows != [] {
      NoneKept(rows[1..], where, params, holds);
    }
  }
}
