/**
 * The Oracle query grammar: it turns a query builder's state into Oracle SQL.
 * Oracle has no LIMIT/OFFSET, so a paginated select is wrapped in ROWNUM
 * subqueries; it has no multi-row VALUES list, so a batch insert is a chain
 * of `select ... from dual` joined by `union all`.
 *
 * The grammar extends the framework's generic grammar and calls five of its
 * helpers.  Their code is not part of this model; they are the fields of a
 * BaseGrammar value that every operation takes as a parameter.
 */
module OracleGrammar {
  import opened Wrappers
  import opened PhpStrings

  // ---------------------------------------------------------------------
  // Data model
  // ---------------------------------------------------------------------

  /** A value handed to an insert: a scalar, or (in a batch) a whole row. */
  datatype Cell = Scalar(literal: string) | Nested(entries: seq<Entry>)

  /** One key => value pair of a PHP array, in array order. */
  datatype Entry = Entry(key: string, value: Cell)

  type Row = seq<Entry>

  /**
   * What the grammar reads from a query builder: the table, the selected
   * columns (None for PHP null), limit and offset (a PHP null reads as 0),
   * and the remaining clauses, which only the base grammar looks at.
   */
  datatype QueryState = QueryState(
    from: string,
    columns: Option<seq<string>>,
    limit: int,
    offset: int,
    clauses: seq<string>)

  /** The helpers inherited from the generic grammar. */
  datatype BaseGrammar = BaseGrammar(
    wrapTable: string -> string,
    columnize: seq<string> -> string,
    parameterize: Row -> string,
    compileComponents: QueryState -> seq<string>,
    concatenate: seq<string> -> string)

  /** The lock argument: a literal clause, or a flag (true = exclusive). */
  datatype LockValue = LockLiteral(sql: string) | LockFlag(exclusive: bool)

  /** A query builder; compiling a select fills in its columns. */
  class Builder {
    var from: string
    var columns: Option<seq<string>>
    var limit: int
    var offset: int
    var clauses: seq<string>

    function State(): QueryState
      reads this
    {
      QueryState(from, columns, limit, offset, clauses)
    }
  }

  // ---------------------------------------------------------------------
  // Lock, limit, offset, truncate
  // ---------------------------------------------------------------------

  function CompileLock(query: QueryState, value: LockValue): (r: string)
    ensures value.LockLiteral? ==> r == value.sql
    ensures value == LockFlag(true) ==> r == "for update"
    ensures value == LockFlag(false) ==> r == "lock in share mode"
  {
    match value
    case LockLiteral(s) => s
    case LockFlag(exclusive) => if exclusive then "for update" else "lock in share mode"
  }

  /** Pagination is done on the whole statement, so there is no LIMIT clause. */
  function CompileLimit(query: QueryState, limit: int): (r: string)
    ensures r == ""
  {
    ""
  }

  /** Pagination is done on the whole statement, so there is no OFFSET clause. */
  function CompileOffset(query: QueryState, offset: int): (r: string)
    ensures r == ""
  {
    ""
  }

  /** One statement, the truncate of the wrapped table, with no bindings. */
  function CompileTruncate(g: BaseGrammar, query: QueryState): (r: map<string, seq<Cell>>)
    ensures |r| == 1
    ensures "truncate table " + g.wrapTable(query.from) in r
    ensures r["truncate table " + g.wrapTable(query.from)] == []
  {
    map["truncate table " + g.wrapTable(query.from) := []]
  }

  // ---------------------------------------------------------------------
  // Pagination: the row constraint
  // ---------------------------------------------------------------------

  /** The ROWNUM window a constraint selects, 1-based and inclusive. */
  datatype RowWindow = Between(first: int, last: int) | From(first: int)

  /**
   * The window a query asks for: rows offset+1 .. offset+limit, or every row
   * from offset+1 on when there is no positive limit.
   */
  function Window(query: QueryState): (w: RowWindow)
    ensures w.first == query.offset + 1
    ensures w.Between? <==> query.limit > 0
    ensures w.Between? ==> w.first <= w.last && w.last - w.first + 1 == query.limit
  {
    if query.limit > 0 then Between(query.offset + 1, query.offset + query.limit)
    else From(query.offset + 1)
  }

  function CompileRowConstraint(query: QueryState): (r: string)
    ensures '(' !in r && ')' !in r
  {
    var start := query.offset + 1;
    if query.limit > 0 then
      var finish := query.offset + query.limit;
      "between " + IntToString(start) + " and " + IntToString(finish)
    else
      ">= " + IntToString(start)
  }

  /** Reads a row constraint back into the window it selects. */
  function ParseRowConstraint(c: string): Option<RowWindow> {
    var w := Words(c);
    if |w| == 4 && w[0] == "between" && w[2] == "and" then
      var first, last := ParseInt(w[1]), ParseInt(w[3]);
      if first.Some? && last.Some? then Some(Between(first.value, last.value)) else None
    else if |w| == 2 && w[0] == ">=" then
      var first := ParseInt(w[1]);
      if first.Some? then Some(From(first.value)) else None
    else None
  }

  /** The constraint text says exactly which rows are kept. */
  lemma RowConstraintRoundTrip(query: QueryState)
    ensures ParseRowConstraint(CompileRowConstraint(query)) == Some(Window(query))
  {
    var start := query.offset + 1;
    IntToStringRoundTrip(start);
    if query.limit > 0 {
      var finish := query.offset + query.limit;
      IntToStringRoundTrip(finish);
      BetweenWords(IntToString(start), IntToString(finish));
    } else {
      FromWords(IntToString(start));
    }
  }

  lemma BetweenWords(a: string, b: string)
    requires ' ' !in a && ' ' !in b
    ensures Words("between " + a + " and " + b) == ["between", a, "and", b]
  {
    assert "between " + a + " and " + b == "between" + " " + (a + " " + ("and" + " " + b));
    WordsSplit("between", a + " " + ("and" + " " + b));
    WordsSplit(a, "and" + " " + b);
    WordsSplit("and", b);
    WordsOfWord(b);
  }

  lemma FromWords(a: string)
    requires ' ' !in a
    ensures Words(">= " + a) == [">=", a]
  {
    assert ">= " + a == ">=" + " " + a;
    WordsSplit(">=", a);
    WordsOfWord(a);
  }

  // ---------------------------------------------------------------------
  // Pagination: the table expression around the base statement
  // ---------------------------------------------------------------------

  /** Text before and after the base SQL when rows are numbered in a middle level. */
  const NumberedOpen := "select t2.* from ( " + "select rownum AS \"rn\", t1.* from ("
  const NumberedClose := ") t1 ) t2 where t2.\"rn\" "
  /** Text before and after the base SQL when ROWNUM is filtered directly. */
  const FlatOpen := "select * from ("
  const FlatClose := ") where rownum "

  /** The parts of a table expression: which shape, the base SQL, the constraint. */
  datatype TableExpression = TableExpression(numbered: bool, sql: string, constraint: string)

  /**
   * Splits body at the last ')' of close, which must sit at index `at` of
   * close and be followed by no other ')' in the body.
   */
  function SplitAtClose(body: string, close: string, at: nat): Option<(string, string)>
    requires at < |close|
  {
    var k := LastIndexOf(body, ')');
    if k.Some? && at <= k.value && StartsWith(body[k.value - at..], close) then
      Some((body[..k.value - at], body[k.value - at + |close|..]))
    else None
  }

  /** Reads a table expression back into its parts. */
  function ParseTableExpression(r: string): Option<TableExpression> {
    if StartsWith(r, NumberedOpen) then
      var p := SplitAtClose(r[|NumberedOpen|..], NumberedClose, 5);
      if p.Some? then Some(TableExpression(true, p.value.0, p.value.1)) else None
    else if StartsWith(r, FlatOpen) then
      var p := SplitAtClose(r[|FlatOpen|..], FlatClose, 0);
      if p.Some? then Some(TableExpression(false, p.value.0, p.value.1)) else None
    else None
  }

  lemma SplitAtCloseOf(sql: string, close: string, at: nat, c: string)
    requires at < |close| && close[at] == ')' && ')' !in close[at + 1..]
    requires ')' !in c
    ensures SplitAtClose(sql + close + c, close, at) == Some((sql, c))
  {
    var body := sql + close + c;
    var k := |sql| + at;
    assert body[k + 1..] == close[at + 1..] + c;
    LastIndexOfAt(body, ')', k);
    assert body[|sql|..] == close + c;
    assert body[..|sql|] == sql;
    assert body[|sql| + |close|..] == c;
  }

  lemma NumberedRoundTrip(sql: string, constraint: string)
    ensures ')' !in constraint ==>
      ParseTableExpression(NumberedOpen + sql + NumberedClose + constraint)
      == Some(TableExpression(true, sql, constraint))
  {
    if ')' !in constraint {
      var r := NumberedOpen + sql + NumberedClose + constraint;
      assert r[..|NumberedOpen|] == NumberedOpen;
      assert r[|NumberedOpen|..] == sql + NumberedClose + constraint;
      assert NumberedClose[5] == ')';
      assert NumberedClose[6..] == " t2 where t2.\"rn\" ";
      SplitAtCloseOf(sql, NumberedClose, 5, constraint);
    }
  }

  lemma FlatIsNotNumbered(rest: string)
    ensures !StartsWith(FlatOpen + rest, NumberedOpen)
  {
    assert NumberedOpen[7] == 't' && FlatOpen[7] == '*';
    assert (FlatOpen + rest)[7] == '*';
  }

  lemma FlatRoundTrip(sql: string, constraint: string)
    ensures ')' !in constraint ==>
      ParseTableExpression(FlatOpen + sql + FlatClose + constraint)
      == Some(TableExpression(false, sql, constraint))
  {
    if ')' !in constraint {
      var r := FlatOpen + sql + FlatClose + constraint;
      assert r == FlatOpen + (sql + FlatClose + constraint);
      FlatIsNotNumbered(sql + FlatClose + constraint);
      assert r[..|FlatOpen|] == FlatOpen;
      assert r[|FlatOpen|..] == sql + FlatClose + constraint;
      assert FlatClose[1..] == " where rownum ";
      SplitAtCloseOf(sql, FlatClose, 0, constraint);
    }
  }

  /**
   * The table expression around the base SQL. Whatever the base SQL, the
   * text holds it once, between the fixed opening and closing text, and the
   * constraint after it: when the constraint has no ')', both can be read
   * back, together with the shape the limit chose.
   */
  function CompileTableExpression(sql: string, constraint: string, query: QueryState): (r: string)
    ensures ')' !in constraint ==>
      ParseTableExpression(r) == Some(TableExpression(query.limit > 0, sql, constraint))
  {
    if query.limit > 0 then
      NumberedRoundTrip(sql, constraint);
      NumberedOpen + sql + NumberedClose + constraint
    else
      FlatRoundTrip(sql, constraint);
      FlatOpen + sql + FlatClose + constraint
  }

  // ---------------------------------------------------------------------
  // Select
  // ---------------------------------------------------------------------

  /**
   * The paginated statement holds the concatenated components, untrimmed,
   * in the shape the limit calls for, under a constraint that selects
   * exactly the query's window.
   */
  function CompileAnsiOffset(g: BaseGrammar, query: QueryState, components: seq<string>): (r: string)
    ensures var t := ParseTableExpression(r);
      && t.Some?
      && t.value.numbered == (query.limit > 0)
      && t.value.sql == g.concatenate(components)
      && ParseRowConstraint(t.value.constraint) == Some(Window(query))
  {
    var constraint := CompileRowConstraint(query);
    RowConstraintRoundTrip(query);
    CompileTableExpression(g.concatenate(components), constraint, query)
  }

  /** The builder state after the select has filled in the default column list. */
  function WithDefaultColumns(query: QueryState): (r: QueryState)
    ensures query.columns.None? ==> r.columns == Some(["*"])
    ensures query.columns.Some? ==> r.columns == query.columns
    ensures r.from == query.from && r.limit == query.limit && r.offset == query.offset
    ensures r.clauses == query.clauses
  {
    if query.columns.None? then query.(columns := Some(["*"])) else query
  }

  predicate Paginated(query: QueryState) {
    query.limit > 0 || query.offset > 0
  }

  /**
   * The SQL a select compiles to, from the builder state before the call.
   * Without pagination it is the trimmed concatenation of the components of
   * the defaulted query. With pagination that concatenation, untrimmed, sits
   * inside the ROWNUM wrapping, numbered in a middle level exactly when there
   * is a positive limit, under a constraint that selects the query's window.
   */
  function SelectSql(g: BaseGrammar, query: QueryState): (r: string)
    ensures !Paginated(query) ==>
      r == Trim(g.concatenate(g.compileComponents(WithDefaultColumns(query))))
    ensures Paginated(query) ==>
      var t := ParseTableExpression(r);
      && t.Some?
      && t.value.numbered == (query.limit > 0)
      && t.value.sql == g.concatenate(g.compileComponents(WithDefaultColumns(query)))
      && ParseRowConstraint(t.value.constraint) == Some(Window(query))
  {
    var q := WithDefaultColumns(query);
    var components := g.compileComponents(q);
    if Paginated(q) then
      assert Window(q) == Window(query);
      CompileAnsiOffset(g, q, components)
    else Trim(g.concatenate(components))
  }

  method CompileSelect(g: BaseGrammar, query: Builder) returns (sql: string)
    modifies query`columns
    ensures query.State() == WithDefaultColumns(old(query.State()))
    ensures sql == SelectSql(g, old(query.State()))
  {
    if query.columns.None? {
      query.columns := Some(["*"]);
    }
    var components := g.compileComponents(query.State());
    if query.limit > 0 || query.offset > 0 {
      return CompileAnsiOffset(g, query.State(), components);
    }
    sql := Trim(g.concatenate(components));
  }

  /** Compiling a select a second time, on the state the first call left, gives the same SQL. */
  lemma SelectRepeatable(g: BaseGrammar, query: QueryState)
    ensures WithDefaultColumns(WithDefaultColumns(query)) == WithDefaultColumns(query)
    ensures SelectSql(g, WithDefaultColumns(query)) == SelectSql(g, query)
  {
  }

  // ---------------------------------------------------------------------
  // Insert
  // ---------------------------------------------------------------------

  function Keys(row: Row): (keys: seq<string>)
    ensures |keys| == |row|
    ensures forall i :: 0 <= i < |row| ==> keys[i] == row[i].key
  {
    seq(|row|, i requires 0 <= i < |row| => row[i].key)
  }

  /**
   * The values as a batch: a flat row (its first value is not an array)
   * becomes a batch of one; otherwise each value is a row of the batch.  An
   * empty array has no first value (reset gives false), so it too becomes a
   * batch of one, holding the empty row.
   */
  function Batch(values: Row): (rows: seq<Cell>)
    ensures |rows| > 0 && rows[0].Nested?
    ensures (|values| == 0 || !values[0].value.Nested?) ==> rows == [Nested(values)]
    ensures |values| > 0 && values[0].value.Nested? ==> |rows| == |values| && rows[0] == values[0].value
  {
    if |values| > 0 && values[0].value.Nested? then
      seq(|values|, i requires 0 <= i < |values| => values[i].value)
    else [Nested(values)]
  }

  /** "insert into T (COLS)", the head shared by both insert forms. */
  function InsertHead(g: BaseGrammar, query: QueryState, values: Row): string
  {
    var first := Batch(values)[0].entries;
    "insert into " + g.wrapTable(query.from) + " (" + g.columnize(Keys(first)) + ")"
  }

  /** The select segment each row of a batch contributes. */
  function InsertSegment(g: BaseGrammar, values: Row): string
  {
    "select " + RemoveParens(g.parameterize(Batch(values)[0].entries)) + " from dual "
  }

  /**
   * What an insert compiles to: one row gives "values (P)"; n >= 2 rows give
   * n copies of the first row's segment joined by "union all ". Both forms
   * start with the same head, "insert into T (COLS) ".
   */
  function InsertSql(g: BaseGrammar, query: QueryState, values: Row): (r: string)
    ensures StartsWith(r, InsertHead(g, query, values) + " ")
  {
    var rows := Batch(values);
    var head := InsertHead(g, query, values) + " ";
    var r := if |rows| > 1 then
      head + Join("union all ", Repeat(|rows|, InsertSegment(g, values)))
    else
      head + "values (" + g.parameterize(rows[0].entries) + ")";
    assert r[..|head|] == head;
    r
  }

  method CompileInsert(g: BaseGrammar, query: QueryState, values: Row) returns (sql: string)
    ensures sql == InsertSql(g, query, values)
  {
    var table := g.wrapTable(query.from);
    var batch := Batch(values);
    var first := batch[0].entries;
    var columns := g.columnize(Keys(first));
    var parameters := g.parameterize(first);
    var value := Repeat(|batch|, "(" + parameters + ")");
    if |value| > 1 {
      ghost var segment := "select " + RemoveParens(parameters) + " from dual ";
      RemoveParensWrapped(parameters);
      var insertQueries: seq<string> := [];
      for i := 0 to |value|
        invariant |insertQueries| == i
        invariant forall k :: 0 <= k < i ==> insertQueries[k] == segment
      {
        var parameter := RemoveParens(value[i]);
        insertQueries := insertQueries + ["select " + parameter + " from dual "];
      }
      assert insertQueries == Repeat(|value|, segment);
      parameters := Join("union all ", insertQueries);
      return "insert into " + table + " (" + columns + ") " + parameters;
    }
    parameters := Join(", ", value);
    sql := "insert into " + table + " (" + columns + ") values " + parameters;
  }

  /**
   * A flat row is inserted with a single VALUES group built from its own keys
   * and values; so is the empty array, as an empty row.
   */
  lemma InsertSingleRow(g: BaseGrammar, query: QueryState, values: Row)
    requires |values| == 0 || !values[0].value.Nested?
    ensures InsertSql(g, query, values)
         == "insert into " + g.wrapTable(query.from) + " (" + g.columnize(Keys(values))
            + ") values (" + g.parameterize(values) + ")"
  {
  }

  /**
   * A batch of n >= 2 rows carries exactly n segments: its length is the
   * head, one space, n segments and n - 1 separators.
   */
  lemma InsertBatchLength(g: BaseGrammar, query: QueryState, values: Row)
    requires |values| > 1 && values[0].value.Nested?
    ensures |InsertSql(g, query, values)|
         == |InsertHead(g, query, values)| + 1
            + |values| * |InsertSegment(g, values)| + (|values| - 1) * |"union all "|
  {
    JoinRepeatLength("union all ", |values|, InsertSegment(g, values));
  }

  /** A batch of n >= 2 rows is the head, one space and n segments joined by "union all ". */
  lemma InsertBatchForm(g: BaseGrammar, query: QueryState, values: Row)
    requires |values| > 1 && values[0].value.Nested?
    ensures InsertSql(g, query, values)
         == InsertHead(g, query, values) + " "
            + Join("union all ", Repeat(|values|, InsertSegment(g, values)))
  {
    assert |Batch(values)| == |values|;
  }

  /** The joined segments of a batch hold no parenthesis. */
  lemma SegmentsParenFree(g: BaseGrammar, values: Row, n: nat)
    ensures var tail := Join("union all ", Repeat(n, InsertSegment(g, values)));
      '(' !in tail && ')' !in tail
  {
    var stripped := RemoveParens(g.parameterize(Batch(values)[0].entries));
    var segment := "select " + stripped + " from dual ";
    assert segment == InsertSegment(g, values);
    assert '(' !in "select " && ')' !in "select ";
    assert '(' !in " from dual " && ')' !in " from dual ";
    assert '(' !in segment && ')' !in segment;
    JoinAvoids("union all ", Repeat(n, segment), '(');
    JoinAvoids("union all ", Repeat(n, segment), ')');
  }

  /**
   * In a batch insert every parenthesis after the head is gone: the
   * placeholder groups have been stripped.
   */
  lemma InsertBatchParenFree(g: BaseGrammar, query: QueryState, values: Row)
    requires |values| > 1 && values[0].value.Nested?
    ensures var head := InsertHead(g, query, values);
      var sql := InsertSql(g, query, values);
      && StartsWith(sql, head + " ")
      && '(' !in sql[|head| + 1..] && ')' !in sql[|head| + 1..]
  {
    var head := InsertHead(g, query, values);
    var tail := Join("union all ", Repeat(|values|, InsertSegment(g, values)));
    InsertBatchForm(g, query, values);
    assert InsertSql(g, query, values)[|head| + 1..] == tail;
    SegmentsParenFree(g, values, |values|);
  }

  /** Only the first row and the number of rows decide a batch insert's text. */
  lemma InsertReadsFirstRowOnly(g: BaseGrammar, query: QueryState, values: Row, others: Row)
    requires |values| > 1 && |others| == |values|
    requires values[0].value.Nested? && others[0] == values[0]
    ensures InsertSql(g, query, others) == InsertSql(g, query, values)
  {
  }
}
