/**
 * Worked cases of the Oracle grammar under a plain base grammar: identifiers
 * unquoted (the grammar's wrapper is '%s'), columns joined by ", ", one "?"
 * placeholder per value, and a fixed "select * from users" statement.
 */
module OracleGrammarCases {
  import opened Wrappers
  import opened PhpStrings
  import opened OracleGrammar

  function Placeholders(row: Row): string {
    Join(", ", seq(|row|, _ => "?"))
  }

  function Plain(): BaseGrammar {
    BaseGrammar(
      table => table,
      columns => Join(", ", columns),
      Placeholders,
      query => ["select *", "from users"],
      parts => Join(" ", parts))
  }

  const Row12 := [Entry("a", Scalar("1")), Entry("b", Scalar("2"))]
  const Row34 := [Entry("a", Scalar("3")), Entry("b", Scalar("4"))]
  const Table := QueryState("t", None, 0, 0, [])

  lemma UsersStatement(query: QueryState)
    ensures Plain().concatenate(Plain().compileComponents(query)) == "select * from users"
  {
    assert ["select *", "from users"][1..] == ["from users"];
  }

  /** Ten rows after the first twenty are rows 21 to 30. */
  lemma PageThree()
    ensures CompileRowConstraint(QueryState("users", Some(["*"]), 10, 20, [])) == "between 21 and 30"
  {
    assert NatToString(21) == "21";
    assert NatToString(30) == "30";
  }

  lemma PagedSelect()
    ensures SelectSql(Plain(), QueryState("users", None, 10, 20, []))
         == "select t2.* from ( " + "select rownum AS \"rn\", t1.* from (" + "select * from users"
            + ") t1 ) t2 where t2.\"rn\" " + "between 21 and 30"
  {
    UsersStatement(WithDefaultColumns(QueryState("users", None, 10, 20, [])));
    PageThree();
  }

  lemma OffsetOnlySelect()
    ensures SelectSql(Plain(), QueryState("users", None, 0, 5, []))
         == "select * from (" + "select * from users" + ") where rownum " + ">= 6"
  {
    UsersStatement(WithDefaultColumns(QueryState("users", None, 0, 5, [])));
  }

  lemma UnpagedSelect()
    ensures SelectSql(Plain(), QueryState("users", None, 0, 0, [])) == "select * from users"
  {
    UsersStatement(WithDefaultColumns(QueryState("users", None, 0, 0, [])));
    TrimOfTrimmed("select * from users");
  }

  lemma ColumnsAndPlaceholders(row: Row)
    requires |row| == 2 && row[0].key == "a" && row[1].key == "b"
    ensures Join(", ", Keys(row)) == "a, b"
    ensures Placeholders(row) == "?, ?"
  {
    assert Keys(row) == ["a", "b"];
    assert seq(|row|, _ => "?") == ["?", "?"];
    assert ["?", "?"][1..] == ["?"];
    assert ["a", "b"][1..] == ["b"];
  }

  lemma OneRowInsert()
    ensures InsertSql(Plain(), Table, Row12) == "insert into t (a, b) values (?, ?)"
  {
    assert Batch(Row12) == [Nested(Row12)];
    ColumnsAndPlaceholders(Row12);
  }

  /** An empty array is inserted as one empty row. */
  lemma EmptyInsert()
    ensures InsertSql(Plain(), Table, []) == "insert into t () values ()"
  {
    assert Keys([]) == [];
    assert seq(0, _ => "?") == [];
  }

  const TwoRows := [Entry("0", Nested(Row12)), Entry("1", Nested(Row34))]

  lemma TwoRowHead()
    ensures InsertHead(Plain(), Table, TwoRows) == "insert into t (a, b)"
  {
    assert Batch(TwoRows)[0].entries == Row12;
    ColumnsAndPlaceholders(Row12);
  }

  lemma TwoRowSegment()
    ensures InsertSegment(Plain(), TwoRows) == "select ?, ? from dual "
  {
    assert Batch(TwoRows)[0].entries == Row12;
    ColumnsAndPlaceholders(Row12);
    RemoveParensIdentity("?, ?");
  }

  /** Both segments carry the placeholders; the statement ends in "from dual ". */
  lemma TwoRowInsert()
    ensures InsertSql(Plain(), Table, TwoRows)
         == "insert into t (a, b) " + "select ?, ? from dual " + "union all " + "select ?, ? from dual "
  {
    var segment := "select ?, ? from dual ";
    TwoRowHead();
    TwoRowSegment();
    assert |Batch(TwoRows)| == 2;
    assert Repeat(2, segment) == [segment, segment];
    assert [segment, segment][1..] == [segment];
    assert Join("union all ", [segment, segment]) == segment + "union all " + segment;
  }

  lemma TruncateTable()
    ensures CompileTruncate(Plain(), Table) == map["truncate table t" := []]
  {
    assert "truncate table " + "t" == "truncate table t";
  }
}
