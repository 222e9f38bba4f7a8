/** The logic of the three generated handlers of a table: the list handler's filter, the
    write handler's choice between insert and update, the delete handler, and the
    redirect both writers answer with. Query execution is not modelled: its outcome is
    a parameter. */
module Handlers {
  import opened Schema
  import opened Text
  import opened Decimal
  import opened Sql
  import opened Routes

  /** A query key the list handler accepts as a filter: `id` or one of the columns. */
  predicate Recognised(t: Table, k: string) {
    k == "id" || k in ColumnNames(t.columns)
  }

  /** The statement the list page runs, given the request's query pairs in the order the
      query map yields them: only the first pair is looked at, and its key and value are
      spliced into the text as they came. */
  function ListQuery(t: Table, pairs: seq<(string, string)>): string {
    if |pairs| > 0 && Recognised(t, pairs[0].0) then
      SelectSql(t) + " where " + pairs[0].0 + "=" + pairs[0].1
    else SelectSql(t)
  }

  /** The list handler's statement, grown from the select with `push_str`; the column test
      is the source's `any` over the column names. */
  method ListSql(t: Table, pairs: seq<(string, string)>) returns (sql: string)
    ensures sql == ListQuery(t, pairs)
  {
    var scolnames := ColumnNames(t.columns);
    sql := SelectSql(t);
    if |pairs| > 0 {
      var (k, v) := pairs[0];
      var found := false;
      var i := 0;
      while i < |scolnames| && !found
        invariant 0 <= i <= |scolnames|
        invariant found <==> k in scolnames[..i]
      {
        found := scolnames[i] == k;
        assert scolnames[..i + 1] == scolnames[..i] + [scolnames[i]];
        i := i + 1;
      }
      assert !found ==> scolnames[..i] == scolnames;
      if k == "id" || found {
        sql := sql + " where " + k + "=" + v;
      }
    }
  }

  /** Without a recognised first pair the list is unfiltered; later pairs never matter. */
  lemma ListFilterFirstPairOnly(t: Table, pairs: seq<(string, string)>)
    requires |pairs| > 0
    ensures ListQuery(t, pairs) == ListQuery(t, pairs[..1])
    ensures !Recognised(t, pairs[0].0) ==> ListQuery(t, pairs) == SelectSql(t)
  {
  }

  /** The list page's statement has no bound parameter: it holds exactly the `?` marks
      that the request's own key and value brought in, so the filter value reaches the
      database as SQL text, not as a value. */
  lemma ListQueryUnbound(t: Table, pairs: seq<(string, string)>)
    requires IdentNames(t)
    ensures Count(ListQuery(t, pairs), '?') ==
      if |pairs| > 0 && Recognised(t, pairs[0].0) then Count(pairs[0].0, '?') + Count(pairs[0].1, '?') else 0
  {
    SelectFree(t);
    if |pairs| > 0 && Recognised(t, pairs[0].0) {
      var (k, v) := pairs[0];
      CountAbsent(" where ", '?');
      CountAbsent("=", '?');
      CountPieces5(SelectSql(t), " where ", k, "=", v);
    }
  }

  lemma SelectFree(t: Table)
    requires IdentNames(t)
    ensures Count(SelectSql(t), '?') == 0
  {
    NamesFree(t, '?');
    var items := ["id"] + ColumnNames(t.columns);
    CountJoin(items, ",", '?');
    assert items[1..] == ColumnNames(t.columns);
    CountAbsent("id", '?');
    CountAllFree(ColumnNames(t.columns), '?');
    assert CountAll(items, '?') == 0;
    IdentExcludes(t.name, '?');
    CountAbsent(t.name, '?');
    CountAbsent("SELECT ", '?');
    CountAbsent(" FROM ", '?');
    CountConcat("SELECT " + SelectList(t) + " FROM ", t.name, '?');
    CountConcat("SELECT " + SelectList(t), " FROM ", '?');
    CountConcat("SELECT ", SelectList(t), '?');
  }

  /** What fills a placeholder: a column of the submitted record, or its id. */
  datatype Param = Column(name: string) | Id

  /** A statement and the parameters bound to its placeholders, in order. */
  datatype Statement = Statement(sql: string, params: seq<Param>)

  /** The id the footer row submits, and the value that makes a write an insert. */
  const NewRecordId: int := -1
  const FooterIdText: string := "-1"

  function ColumnParams(t: Table): seq<Param> {
    seq(|t.columns|, i requires 0 <= i < |t.columns| => Column(t.columns[i].name))
  }

  /** The write handler's statement for a submitted record with this id. */
  function WriteStatement(t: Table, id: int): Statement {
    if id == NewRecordId then Statement(InsertSql(t), ColumnParams(t))
    else Statement(UpdateSql(t), ColumnParams(t) + [Id])
  }

  /** The delete handler binds only the id. */
  function DeleteStatement(t: Table): Statement {
    Statement(DeleteSql(t), [Id])
  }

  /** Every statement a handler runs binds exactly as many parameters as its text has
      placeholders. */
  lemma ParamsMatchPlaceholders(t: Table, id: int)
    requires IdentNames(t)
    ensures Count(WriteStatement(t, id).sql, '?') == |WriteStatement(t, id).params|
    ensures Count(DeleteStatement(t).sql, '?') == |DeleteStatement(t).params|
  {
    InsertPlaceholders(t);
    UpdatePlaceholders(t);
    DeletePlaceholders(t);
  }

  /** The write is an insert exactly for the id -1. The insert binds column `i` to the
      `i`-th name of its column list; the update binds column `i` to its `i`-th
      assignment and the id to the trailing `where id=?`. */
  lemma WriteDispatch(t: Table, id: int)
    requires IdentNames(t) && |t.columns| > 0
    ensures WriteStatement(t, id).sql == InsertSql(t) <==> id == NewRecordId
    ensures id == NewRecordId ==>
      |Split(InsertColumns(t), ',')| == |WriteStatement(t, id).params|
      && forall i :: 0 <= i < |t.columns| ==>
        WriteStatement(t, id).params[i] == Column(Split(InsertColumns(t), ',')[i])
    ensures id != NewRecordId ==>
      (|WriteStatement(t, id).params| == |t.columns| + 1
      && WriteStatement(t, id).params[|t.columns|] == Id
      && |Split(SetClause(t), ',')| == |t.columns|
      && forall i :: 0 <= i < |t.columns| ==>
        Split(SetClause(t), ',')[i] == WriteStatement(t, id).params[i].name + "=?")
  {
    assert InsertSql(t)[0] == 'i' && UpdateSql(t)[0] == 'u';
    InsertColumnsOrder(t);
    SetClauseOrder(t);
  }

  /** A handler's reply: the redirect after a statement ran, the abort of a failed
      `unwrap`, or the form extractor's refusal of a body it cannot decode. */
  datatype Response = SeeOther(location: string) | Aborted | Rejected

  /** The write handler for a submitted record: its id text, whether the record's other
      fields decode into the record struct, and whether the database accepted the
      statement. The form extractor rejects the body unless the whole record decodes. */
  function WriteHandler(t: Table, idText: string, fieldsDecode: bool, ran: bool): (Option<Statement>, Response) {
    match ParseI64(idText)
    case None => (None, Rejected)
    case Some(id) =>
      if !fieldsDecode then (None, Rejected)
      else (Some(WriteStatement(t, id)), if ran then SeeOther(ListUrl(t.name)) else Aborted)
  }

  /** The delete handler for a submitted id text; its form holds only the id. */
  function DeleteHandler(t: Table, idText: string, ran: bool): (Option<Statement>, Response) {
    match ParseI64(idText)
    case None => (None, Rejected)
    case Some(_) => (Some(DeleteStatement(t)), if ran then SeeOther(ListUrl(t.name)) else Aborted)
  }

  /** The footer row's form inserts; a row's form, which posts the row's own id, updates
      that row. Only the id -1 makes a write an insert, whatever the sign of other ids. */
  lemma FormsDispatch(t: Table, id: int)
    requires id != NewRecordId && I64_MIN <= id <= I64_MAX
    ensures WriteHandler(t, FooterIdText, true, true).0 == Some(Statement(InsertSql(t), ColumnParams(t)))
    ensures WriteHandler(t, IntText(id), true, true).0 == Some(Statement(UpdateSql(t), ColumnParams(t) + [Id]))
  {
    assert FooterIdText[0] == '-' && FooterIdText[1..] == "1";
    assert NatValue("1") == 1 by {
      assert "1"[..0] == "";
    }
    ParseIntText(id);
  }

  /** After a write or a delete that ran, the browser is sent to the table's list page,
      a GET route of the admin bound to that table's list handler. */
  lemma RedirectLandsOnList(names: seq<string>, k: nat, t: Table, idText: string, fieldsDecode: bool)
    requires k < |names| && t.name == names[k]
    ensures WriteHandler(t, idText, fieldsDecode, true).1.SeeOther? ==>
      Route(WriteHandler(t, idText, fieldsDecode, true).1.location, Get, Callback(CbIdent(t.name, "get"))) in RouteTable(names)
    ensures DeleteHandler(t, idText, true).1.SeeOther? ==>
      Route(DeleteHandler(t, idText, true).1.location, Get, Callback(CbIdent(t.name, "get"))) in RouteTable(names)
    ensures ParseI64(idText).Some? && fieldsDecode <==> WriteHandler(t, idText, fieldsDecode, true).1.SeeOther?
    ensures ParseI64(idText).Some? <==> DeleteHandler(t, idText, true).1.SeeOther?
  {
    TableRoutesPresent(names, k);
  }
}
