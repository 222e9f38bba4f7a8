/** The four SQL texts generated per table. Names are spliced in unquoted; values are
    bound to `?` placeholders, except the list filter (see Handlers). */
module Sql {
  import opened Schema
  import opened Text

  /** The select list as the generator writes it: `id,` then the joined columns. */
  function SelectListAsWritten(t: Table): string {
    "id," + Join(ColumnNames(t.columns), ",")
  }

  function SelectSqlAsWritten(t: Table): string {
    "SELECT " + SelectListAsWritten(t) + " FROM " + t.name
  }

  /** For a table with no column besides `id`, the list ends in a dangling comma,
      which the database rejects as a syntax error. */
  lemma SelectAsWrittenDanglingComma()
    ensures SelectSqlAsWritten(Table("t", [])) == "SELECT id, FROM t"
    ensures Split(SelectListAsWritten(Table("t", [])), ',') == ["id", ""]
  {
    assert SelectListAsWritten(Table("t", [])) == "id,";
    assert Split("", ',') == [""];
    assert ","[1..] == "" && Split(",", ',') == ["", ""];
    assert "d,"[0] == 'd' && "d,"[1..] == ",";
    assert ['d'] + "" == "d";
    assert Split("d,", ',') == ["d", ""];
    assert "id,"[0] == 'i' && "id,"[1..] == "d,";
    assert ['i'] + "d" == "id";
    assert Split("id,", ',') == ["id", ""];
  }

  /** The select list: `id` and then every column, comma separated. */
  function SelectList(t: Table): string {
    Join(["id"] + ColumnNames(t.columns), ",")
  }

  function SelectSql(t: Table): string {
    "SELECT " + SelectList(t) + " FROM " + t.name
  }

  /** Every item of the select list is a real name: `id`, then the columns in declared order. */
  lemma SelectListOrder(t: Table)
    requires IdentNames(t)
    ensures Split(SelectList(t), ',') == ["id"] + ColumnNames(t.columns)
  {
    var items := ["id"] + ColumnNames(t.columns);
    forall i | 0 <= i < |items| ensures ',' !in items[i] {
      if i == 0 {
        assert items[i] == "id";
      } else {
        assert items[i] == t.columns[i - 1].name;
        IdentExcludes(t.columns[i - 1].name, ',');
      }
    }
    assert "," == [','];
    SplitJoin(items, ',');
  }

  /** Wherever the generator's text is well formed, it is exactly the corrected text. */
  lemma SelectAsWrittenAgrees(t: Table)
    requires |t.columns| > 0
    ensures SelectSqlAsWritten(t) == SelectSql(t)
  {
    var items := ["id"] + ColumnNames(t.columns);
    assert items[1..] == ColumnNames(t.columns);
  }

  /** The insert's column list. */
  function InsertColumns(t: Table): string {
    Join(ColumnNames(t.columns), ",")
  }

  /** The insert names the columns in declared order. */
  lemma InsertColumnsOrder(t: Table)
    requires IdentNames(t) && |t.columns| > 0
    ensures Split(InsertColumns(t), ',') == ColumnNames(t.columns)
  {
    NamesFree(t, ',');
    assert "," == [','];
    SplitJoin(ColumnNames(t.columns), ',');
  }

  function QuestionMarks(n: nat): (r: seq<string>)
    ensures |r| == n && forall i :: 0 <= i < n ==> r[i] == "?"
  {
    seq(n, _ => "?")
  }

  function InsertSql(t: Table): string {
    "insert into " + t.name + "(" + InsertColumns(t) + ") values ("
      + Join(QuestionMarks(|t.columns|), ",") + ")"
  }

  lemma InsertColumnsFree(t: Table)
    requires IdentNames(t)
    ensures Count(InsertColumns(t), '?') == 0
  {
    NamesFree(t, '?');
    CountJoin(ColumnNames(t.columns), ",", '?');
    CountAllFree(ColumnNames(t.columns), '?');
  }

  lemma MarksCount(n: nat)
    ensures Count(Join(QuestionMarks(n), ","), '?') == n
  {
    CountJoin(QuestionMarks(n), ",", '?');
    CountAllMarks(n);
  }

  lemma InsertHeadFree(t: Table)
    requires IsIdent(t.name)
    ensures Count("insert into " + t.name + "(", '?') == 0
  {
    IdentExcludes(t.name, '?');
    CountAbsent(t.name, '?');
    CountAbsent("insert into ", '?');
    CountAbsent("(", '?');
    CountConcat("insert into " + t.name, "(", '?');
    CountConcat("insert into ", t.name, '?');
  }

  lemma ValuesFree()
    ensures Count(") values (", '?') == 0 && Count(")", '?') == 0
  {
    CountAbsent(") values (", '?');
    CountAbsent(")", '?');
  }

  /** The insert has one placeholder per column. */
  lemma InsertPlaceholders(t: Table)
    requires IdentNames(t)
    ensures Count(InsertSql(t), '?') == |t.columns|
  {
    InsertHeadFree(t);
    InsertColumnsFree(t);
    ValuesFree();
    MarksCount(|t.columns|);
    CountPieces5("insert into " + t.name + "(", InsertColumns(t), ") values (",
      Join(QuestionMarks(|t.columns|), ","), ")");
  }

  /** `c=?` for each column, in declared order. */
  function Assignments(names: seq<string>): (r: seq<string>)
    ensures |r| == |names| && forall i :: 0 <= i < |names| ==> r[i] == names[i] + "=?"
  {
    seq(|names|, i requires 0 <= i < |names| => names[i] + "=?")
  }

  function SetClause(t: Table): string {
    Join(Assignments(ColumnNames(t.columns)), ",")
  }

  function UpdateSql(t: Table): string {
    "update " + t.name + " set " + SetClause(t) + " where id=?"
  }

  /** The update assigns every column, in declared order. */
  lemma SetClauseOrder(t: Table)
    requires IdentNames(t) && |t.columns| > 0
    ensures Split(SetClause(t), ',') == Assignments(ColumnNames(t.columns))
  {
    var items := Assignments(ColumnNames(t.columns));
    forall i | 0 <= i < |items| ensures ',' !in items[i] {
      IdentExcludes(t.columns[i].name, ',');
      assert items[i] == t.columns[i].name + "=?";
    }
    assert "," == [','];
    SplitJoin(items, ',');
  }

  /** The update has one placeholder per column and then the id's. */
  lemma UpdatePlaceholders(t: Table)
    requires IdentNames(t)
    ensures Count(UpdateSql(t), '?') == |t.columns| + 1
  {
    var names := ColumnNames(t.columns);
    NamesFree(t, '?');
    CountJoin(Assignments(names), ",", '?');
    CountAllAssignments(names);
    IdentExcludes(t.name, '?');
    CountAbsent(t.name, '?');
    CountAbsent("update ", '?');
    CountAbsent(" set ", '?');
    CountWhereId();
    CountConcat("update " + t.name + " set " + SetClause(t), " where id=?", '?');
    CountConcat("update " + t.name + " set ", SetClause(t), '?');
    CountConcat("update " + t.name, " set ", '?');
    CountConcat("update ", t.name, '?');
  }

  function DeleteSql(t: Table): string {
    "delete from " + t.name + " where id=?"
  }

  /** The delete has exactly one placeholder, for the id. */
  lemma DeletePlaceholders(t: Table)
    requires IsIdent(t.name)
    ensures Count(DeleteSql(t), '?') == 1
  {
    IdentExcludes(t.name, '?');
    CountAbsent(t.name, '?');
    CountAbsent("delete from ", '?');
    CountWhereId();
    CountConcat("delete from " + t.name, " where id=?", '?');
    CountConcat("delete from ", t.name, '?');
  }

  lemma CountWhereId()
    ensures Count(" where id=?", '?') == 1
  {
    assert " where id=?" == " where id=" + "?";
    CountAbsent(" where id=", '?');
    CountConcat(" where id=", "?", '?');
    assert "?"[1..] == "";
  }

  lemma NamesFree(t: Table, c: char)
    requires IdentNames(t) && !IdentChar(c)
    ensures forall i :: 0 <= i < |t.columns| ==> c !in ColumnNames(t.columns)[i]
  {
    forall i | 0 <= i < |t.columns| ensures c !in ColumnNames(t.columns)[i] {
      IdentExcludes(t.columns[i].name, c);
    }
  }

  lemma {:induction false} CountAllFree(xs: seq<string>, c: char)
    requires forall i :: 0 <= i < |xs| ==> c !in xs[i]
    ensures CountAll(xs, c) == 0
  {
    if |xs| > 0 {
      CountAbsent(xs[0], c);
      CountAllFree(xs[1..], c);
    }
  }

  lemma {:induction false} CountAllMarks(n: nat)
    ensures CountAll(QuestionMarks(n), '?') == n
  {
    if n > 0 {
      assert QuestionMarks(n)[1..] == QuestionMarks(n - 1);
      CountAllMarks(n - 1);
    }
  }

  lemma {:induction false} CountAllAssignments(names: seq<string>)
    requires forall i :: 0 <= i < |names| ==> '?' !in names[i]
    ensures CountAll(Assignments(names), '?') == |names|
  {
    if |names| > 0 {
      assert Assignments(names)[1..] == Assignments(names[1..]);
      CountAllAssignments(names[1..]);
      CountConcat(names[0], "=?", '?');
      CountAbsent(names[0], '?');
    }
  }

  lemma CountPieces5(a: string, b: string, c: string, d: string, e: string)
    ensures Count(a + b + c + d + e, '?') ==
      Count(a, '?') + Count(b, '?') + Count(c, '?') + Count(d, '?') + Count(e, '?')
  {
    CountConcat(a + b + c + d, e, '?');
    CountConcat(a + b + c, d, '?');
    CountConcat(a + b, c, '?');
    CountConcat(a, b, '?');
  }
}
