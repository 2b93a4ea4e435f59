# Oracle query grammar (laravel-oci8), modelled in Dafny

This project models `OracleGrammar`, the part of laravel-oci8 that turns a
Laravel query builder into Oracle SQL text. Oracle has no `LIMIT`/`OFFSET`,
no multi-row `VALUES` list and its own lock keywords, so the grammar
overrides the generic grammar in these places:

- **select**: fills in `*` when `columns` is null (an explicit empty list
  stays empty). When `limit > 0` or `offset > 0`, it wraps the base statement
  in `ROWNUM` subqueries. With a positive limit the rows are numbered in a
  middle level and filtered with `between offset+1 and offset+limit`.
  Otherwise the statement is filtered directly with `rownum >= offset+1`.
- **insert**: a flat row (or the empty array) becomes a batch of one. One row gives
  `insert into T (COLS) values (P)`. Several rows give one
  `select P' from dual ` segment per row, joined by `union all `, where `P'`
  is the placeholder group with its parentheses deleted.
- **lock, limit, offset, truncate**: small overrides.

Files:

- `wrappers.dfy`: the `Option` type.
- `php_strings.dfy` (module `PhpStrings`): the PHP built-ins the grammar
  uses: integer interpolation, with `ParseInt` to read it back; `implode`,
  `array_fill`, `str_replace` of `(` and `)`, and `trim`, each with lemmas
  about its result (lengths, characters it cannot contain, its ends).
- `oracle_grammar.dfy` (module `OracleGrammar`): the grammar itself.
  - The builder is a `class Builder`. `CompileSelect` changes its `columns`
    field in place.
  - `CompileInsert` keeps the source's `foreach` loop and is proved against
    the specification function `InsertSql`.
  - The other operations are functions.
  - Two parsers serve as the inverses of the select path. `ParseRowConstraint`
    reads the window back out of a constraint. `ParseTableExpression` reads
    the shape, the base SQL and the constraint back out of the wrapped text.
- `grammar_cases.dfy`: worked cases under a plain base grammar (unquoted
  identifiers, `?` placeholders).

The five helpers inherited from the generic Illuminate grammar are
`wrapTable`, `columnize`, `parameterize`, `compileComponents` and
`concatenate`. Their code is not part of this model. They are fields of a
`BaseGrammar` value that every operation calling one of them takes as a
parameter, so every property holds for every implementation of them.

Behaviour worth knowing, as the code does it:

- Every `select` segment of a batch insert uses the **first** row's
  placeholder group. Later rows only count; their values are never read
  (`InsertReadsFirstRowOnly`).
- Each segment ends in a space, so a batch insert ends in `from dual `.
- Only the unpaginated select is trimmed. The paginated one wraps the
  untrimmed concatenation.
- `false` as the lock value gives `lock in share mode`, which is MySQL
  syntax. It is kept as written.

## Model

| member | source | states |
|---|---|---|
| `OracleGrammar.CompileLock` | src/yajra/Oci8/Query/Grammars/OracleGrammar.php:21-26 | a string lock value comes back verbatim; `true` gives `for update`; `false` gives `lock in share mode` |
| `OracleGrammar.CompileLimit` | src/yajra/Oci8/Query/Grammars/OracleGrammar.php:117-120 | empty for every query and every limit: no LIMIT clause is emitted |
| `OracleGrammar.CompileOffset` | src/yajra/Oci8/Query/Grammars/OracleGrammar.php:129-132 | empty for every query and every offset: no OFFSET clause is emitted |
| `OracleGrammar.CompileTruncate` | src/yajra/Oci8/Query/Grammars/OracleGrammar.php:140-143 | a map with exactly one entry; its key is `truncate table ` followed by the wrapped table; its value is an empty binding list |
| `OracleGrammar.Window` | src/yajra/Oci8/Query/Grammars/OracleGrammar.php:80-92 | the window starts at offset+1; it has an upper end exactly when limit > 0, and then spans exactly `limit` rows, so start <= finish |
| `OracleGrammar.CompileRowConstraint` | src/yajra/Oci8/Query/Grammars/OracleGrammar.php:80-92 | the constraint text never contains a parenthesis |
| `OracleGrammar.RowConstraintRoundTrip` | src/yajra/Oci8/Query/Grammars/OracleGrammar.php:80-92 | reading the constraint back gives `between offset+1 and offset+limit` when limit > 0, otherwise `>= offset+1`, for every integer limit and offset |
| `OracleGrammar.NumberedRoundTrip` | src/yajra/Oci8/Query/Grammars/OracleGrammar.php:103-104 | for a constraint without `)`, the two-level `t2`/`t1` form holds the base SQL once, in parentheses, and both it and the constraint are recovered from the text |
| `OracleGrammar.FlatRoundTrip` | src/yajra/Oci8/Query/Grammars/OracleGrammar.php:105-107 | for a constraint without `)`, the one-level `where rownum` form holds the base SQL once, in parentheses, and both it and the constraint are recovered; it is never mistaken for the two-level form |
| `OracleGrammar.CompileTableExpression` | src/yajra/Oci8/Query/Grammars/OracleGrammar.php:101-108 | for any base SQL and any constraint without `)`, the text reads back as the shape chosen by `limit > 0`, the same SQL and the same constraint |
| `OracleGrammar.CompileAnsiOffset` | src/yajra/Oci8/Query/Grammars/OracleGrammar.php:58-72 | the paginated statement reads back as the untrimmed concatenation of the components, in the shape chosen by `limit > 0`, under a constraint that selects exactly the query's window |
| `OracleGrammar.WithDefaultColumns` | src/yajra/Oci8/Query/Grammars/OracleGrammar.php:36 | null columns become `["*"]`; non-null columns and every other field are unchanged |
| `OracleGrammar.CompileSelect` | src/yajra/Oci8/Query/Grammars/OracleGrammar.php:34-49 | the builder's columns are defaulted in place and nothing else changes; the result is `SelectSql` of the builder as it was before the call |
| `OracleGrammar.SelectSql` | src/yajra/Oci8/Query/Grammars/OracleGrammar.php:34-49 | when limit <= 0 and offset <= 0, the select is the trimmed concatenation of the components of the defaulted query; otherwise it reads back as that concatenation untrimmed, numbered in a middle level exactly when limit > 0, filtered to the query's window |
| `OracleGrammar.SelectRepeatable` | src/yajra/Oci8/Query/Grammars/OracleGrammar.php:36-48 | defaulting the columns is idempotent, so compiling again on the state the first call left gives the same SQL |
| `OracleGrammar.Batch` | src/yajra/Oci8/Query/Grammars/OracleGrammar.php:159-162 | an empty array, or one whose first value is not an array, becomes a batch of one holding it; otherwise the batch has one entry per value and starts with the first value |
| `OracleGrammar.InsertSql` | src/yajra/Oci8/Query/Grammars/OracleGrammar.php:152-187 | both insert forms start with the head `insert into T (COLS) ` built from the first row of the batch |
| `OracleGrammar.CompileInsert` | src/yajra/Oci8/Query/Grammars/OracleGrammar.php:152-187 | for every array, the empty one included, the `array_fill`/`foreach`/`implode` construction yields `InsertSql`: `values (P)` for one row, n first-row segments joined by `union all ` for n >= 2 |
| `OracleGrammar.InsertSingleRow` | src/yajra/Oci8/Query/Grammars/OracleGrammar.php:157-185 | a flat row, or the empty array, gives `insert into T (COLS) values (P)`, where COLS is the columnized keys of that row and P its parameterization |
| `OracleGrammar.InsertBatchLength` | src/yajra/Oci8/Query/Grammars/OracleGrammar.php:171-182 | a batch of n >= 2 rows is the head, one space, exactly n segments and n - 1 `union all ` separators, by length |
| `OracleGrammar.InsertBatchParenFree` | src/yajra/Oci8/Query/Grammars/OracleGrammar.php:174-182 | after the head `insert into T (COLS) `, a batch insert contains no parenthesis: every placeholder group was stripped |
| `OracleGrammar.InsertReadsFirstRowOnly` | src/yajra/Oci8/Query/Grammars/OracleGrammar.php:164-171 | two batches of the same size with the same first row compile to the same SQL |
| `PhpStrings.IntToString` | src/yajra/Oci8/Query/Grammars/OracleGrammar.php:88 | interpolation gives a minus sign exactly for negative integers, then decimal digits without leading zeros (`0` for zero), and no space or parenthesis |
| `PhpStrings.IntToStringRoundTrip` | src/yajra/Oci8/Query/Grammars/OracleGrammar.php:88 | interpolating an integer and reading it back gives the integer, negatives included |
| `OracleGrammar.Keys` | src/yajra/Oci8/Query/Grammars/OracleGrammar.php:164 | `array_keys`: the keys of the row, one per entry, in the row's order |
| `PhpStrings.Repeat` | src/yajra/Oci8/Query/Grammars/OracleGrammar.php:171 | `array_fill(0, n, s)`: exactly n entries, each equal to s |
| `PhpStrings.RemoveParens` | src/yajra/Oci8/Query/Grammars/OracleGrammar.php:176 | `str_replace(array('(', ')'), '', s)`: the result has no parenthesis and is no longer than s; what it keeps is fixed by `RemoveParensConcat`, `RemoveParensIdentity` and `RemoveParensWrapped` |
| `PhpStrings.RemoveParensWrapped` | src/yajra/Oci8/Query/Grammars/OracleGrammar.php:176 | stripping `(P)` gives the same as stripping P: the enclosing pair goes |
| `PhpStrings.RemoveParensConcat` | src/yajra/Oci8/Query/Grammars/OracleGrammar.php:176 | stripping parentheses works piecewise on a concatenation |
| `PhpStrings.RemoveParensIdentity` | src/yajra/Oci8/Query/Grammars/OracleGrammar.php:176 | text without parentheses is left unchanged |
| `PhpStrings.Join` | src/yajra/Oci8/Query/Grammars/OracleGrammar.php:179-184 | `implode(sep, parts)`: empty for no parts, otherwise it starts with the first part; its length over repeated parts is `JoinRepeatLength`, and the characters it cannot contain are `JoinAvoids` |
| `PhpStrings.JoinRepeatLength` | src/yajra/Oci8/Query/Grammars/OracleGrammar.php:179 | n copies joined by a separator take n copies of the part and n - 1 of the separator |
| `PhpStrings.JoinAvoids` | src/yajra/Oci8/Query/Grammars/OracleGrammar.php:179 | a character absent from every part and from the separator is absent from the join |
| `PhpStrings.Trim` | src/yajra/Oci8/Query/Grammars/OracleGrammar.php:48 | the result is the stretch of the text between its leading and its trailing run of PHP's default trim characters (` \t\n\r\0\x0B`), so it neither starts nor ends with one |
| `OracleGrammarCases.PageThree` | src/yajra/Oci8/Query/Grammars/OracleGrammar.php:82-88 | limit 10, offset 20 gives `between 21 and 30` |
| `OracleGrammarCases.PagedSelect` | src/yajra/Oci8/Query/Grammars/OracleGrammar.php:104 | limit 10, offset 20 over `select * from users` gives the two-level form with `t2."rn" between 21 and 30` |
| `OracleGrammarCases.OffsetOnlySelect` | src/yajra/Oci8/Query/Grammars/OracleGrammar.php:106 | offset 5 without a limit gives `select * from (select * from users) where rownum >= 6` |
| `OracleGrammarCases.UnpagedSelect` | src/yajra/Oci8/Query/Grammars/OracleGrammar.php:48 | no limit and no offset give the statement unchanged |
| `OracleGrammarCases.OneRowInsert` | src/yajra/Oci8/Query/Grammars/OracleGrammar.php:184-185 | the row `{a: 1, b: 2}` gives `insert into t (a, b) values (?, ?)` |
| `OracleGrammarCases.EmptyInsert` | src/yajra/Oci8/Query/Grammars/OracleGrammar.php:159-185 | an empty array is wrapped into a batch of one empty row and gives `insert into t () values ()` |
| `OracleGrammarCases.TwoRowInsert` | src/yajra/Oci8/Query/Grammars/OracleGrammar.php:173-182 | two rows give `insert into t (a, b) select ?, ? from dual union all select ?, ? from dual ` |
| `OracleGrammarCases.TruncateTable` | src/yajra/Oci8/Query/Grammars/OracleGrammar.php:142 | table `t` gives `{"truncate table t": []}` |

## Left out

- The generic Illuminate grammar is not part of this model: `wrapTable`, `columnize`, `parameterize`, `compileComponents` and `concatenate` are parameters. For the same reason the `'%s'` wrapper (line 12) only shows up in the worked cases, as unquoted identifiers.
- What the SQL does when Oracle runs it is not modelled; only the text is. For example, the one-level `rownum >= k` form returns no rows for k > 1.
- The query builder's other state, parameter bindings, statement execution and connections are left out. They belong to the framework, not to this grammar.
- `CompileRowConstraint`: the model's integers are unbounded. PHP's are 64-bit: when `offset + 1` or `offset + limit` passes PHP_INT_MAX it becomes a float and is interpolated in exponent form (offset PHP_INT_MAX gives `>= 9.2233720368548E+18`), whereas the model prints the exact integer. Float conversion is not modelled.
- PHP loose typing is left out. A null limit or offset is read as 0; limit and offset are otherwise integers; a lock value is a string or a boolean; array keys are strings.
- The rows of a batch are not checked to have the same keys. The source does not check this either.
- The local `$start` in `compileAnsiOffset` (line 60) is never used, so it has no counterpart.
- `CompileLock` takes the query only because the source's signature does. The result does not depend on it.
