/** `prepare`: from the catalog to the whole admin. The retained tables are indexed by
    inbound foreign keys, then each table in turn yields its record shape, its page's
    columns, its statements and its handler names; a table the generator cannot handle
    stops everything with the first error. */
module Generator {
  import opened Schema
  import opened Text
  import opened Decimal
  import opened Introspection
  import opened TypeMapper
  import opened ReverseIndex
  import opened Routes
  import opened Views
  import opened Sql
  import opened Handlers

  /** Everything generated for one table. `reverse` is the table's entry of the reverse
      index, `None` when nothing references it. */
  datatype TableView = TableView(
    name: string,
    structIdent: string,
    fields: seq<Field>,
    headers: seq<string>,
    cells: seq<Cell>,
    reverse: Option<seq<Link>>,
    selectSql: string,
    insertSql: string,
    updateSql: string,
    deleteSql: string,
    url: string,
    getIdent: string,
    postIdent: string,
    deleteIdent: string)

  /** One pass of the per-table loop. The field types are all computed before any cell,
      so an unsupported type is reported before an unconvertible cell. */
  function GenerateTable(t: Table, index: map<string, seq<Link>>): Result<TableView, GenError> {
    match RecordShape(t)
    case Err(e) => Err(e)
    case Ok(fields) =>
      match Cells(t)
      case Err(e) => Err(e)
      case Ok(cells) =>
        Ok(TableView(t.name, StructIdent(t.name), fields, HeaderLabels(t.columns), cells,
          if t.name in index then Some(index[t.name]) else None,
          SelectSql(t), InsertSql(t), UpdateSql(t), DeleteSql(t), ListUrl(t.name),
          CbIdent(t.name, "get"), CbIdent(t.name, "post"), CbIdent(t.name, "delete")))
  }

  /** A table is generated iff every column has a supported type and a cell; a failure is
      the type error of the first bad column if there is one, else the cell error of the
      first column without a cell. */
  lemma GenerateTableOutcome(t: Table, index: map<string, seq<Link>>)
    ensures GenerateTable(t, index).Ok? <==>
      forall i :: 0 <= i < |t.columns| ==> CType(t.columns[i]).Ok? && CellOf(t.columns[i]).Ok?
    ensures GenerateTable(t, index).Err? && (forall i :: 0 <= i < |t.columns| ==> CType(t.columns[i]).Ok?) ==>
      exists i :: 0 <= i < |t.columns| && CellOf(t.columns[i]) == Err(GenerateTable(t, index).error)
        && forall j :: 0 <= j < i ==> CellOf(t.columns[j]).Ok?
    ensures GenerateTable(t, index).Err? && (exists i :: 0 <= i < |t.columns| && CType(t.columns[i]).Err?) ==>
      exists i :: 0 <= i < |t.columns| && CType(t.columns[i]) == Err(GenerateTable(t, index).error)
        && forall j :: 0 <= j < i ==> CType(t.columns[j]).Ok?
  {
  }

  /** Every column of a supported type and a flag of 0 or 1 can be generated. */
  lemma GenerateTableTotal(t: Table, index: map<string, seq<Link>>)
    requires forall i :: 0 <= i < |t.columns| ==>
      t.columns[i].coltype in {"INTEGER", "TEXT", "FLOAT", "BLOB"} && t.columns[i].notnull in {0, 1}
    ensures GenerateTable(t, index).Ok?
  {
    GenerateTableOutcome(t, index);
  }

  /** A generated view shows one header and one cell per column and keeps a field per
      column, all in declared order. */
  lemma GeneratedViewShape(t: Table, index: map<string, seq<Link>>)
    requires GenerateTable(t, index).Ok?
    ensures var v := GenerateTable(t, index).value;
      |v.fields| == |v.headers| == |v.cells| == |t.columns|
      && forall i :: 0 <= i < |t.columns| ==>
        v.fields[i].name == t.columns[i].name
        && Ok(v.cells[i]) == CellOf(t.columns[i])
        && v.headers[i] == HeaderLabel(t.columns[i])
  {
  }

  /** The generated admin: the navigation bar, one view per table, the route table. */
  datatype Admin = Admin(nav: seq<NavLink>, views: seq<TableView>, routes: seq<Route>)

  /** The per-table step with the index fixed. */
  function GenerateWith(index: map<string, seq<Link>>): Table -> Result<TableView, GenError> {
    t => GenerateTable(t, index)
  }

  /** The views of the tables in order, or the error of the first table that fails. */
  function GenerateViews(tables: seq<Table>, index: map<string, seq<Link>>): Result<seq<TableView>, GenError> {
    TryMap(tables, GenerateWith(index))
  }

  /** The admin generated from a catalog: its user tables, indexed by inbound foreign
      keys, generated in order up to the first failure. */
  function Generate(catalog: seq<Table>): Result<Admin, GenError> {
    var tables := Retained(catalog);
    match GenerateViews(tables, ReverseFk(tables))
    case Err(e) => Err(e)
    case Ok(views) => Ok(Admin(NavLinks(Names(tables)), views, RouteTable(Names(tables))))
  }

  /** `prepare`: filter the catalog, index the foreign keys, then extend the output table
      by table; the first table that cannot be generated ends the run with its error. */
  method Prepare(catalog: seq<Table>) returns (r: Result<Admin, GenError>)
    ensures r == Generate(catalog)
  {
    var tables := Tables(catalog);
    var names := Names(tables);
    var nav := NavLinks(names);
    var reverseFk := BuildReverseFk(tables);
    var generate := GenerateWith(reverseFk);
    var code: seq<TableView> := [];
    for i := 0 to |tables|
      invariant TryMap(tables[..i], generate) == Ok(code)
    {
      TryMapStep(tables, i, generate, code);
      var view := generate(tables[i]);
      if view.Err? {
        return Err(view.error);
      }
      code := code + [view.value];
    }
    assert tables[..|tables|] == tables;
    r := Ok(Admin(nav, code, RouteTable(names)));
  }

  /** The tables are all generated iff each one is. */
  lemma ViewsOkIff(tables: seq<Table>, index: map<string, seq<Link>>)
    ensures GenerateViews(tables, index).Ok? <==> forall i :: 0 <= i < |tables| ==>
      GenerateTable(tables[i], index).Ok?
  {
    var g := GenerateWith(index);
    if forall i :: 0 <= i < |tables| ==> GenerateTable(tables[i], index).Ok? {
      forall i | 0 <= i < |tables| ensures g(tables[i]).Ok? {
        assert g(tables[i]) == GenerateTable(tables[i], index);
      }
    } else {
      var i :| 0 <= i < |tables| && GenerateTable(tables[i], index).Err?;
      assert g(tables[i]).Err?;
    }
  }

  /** Generated views come one per table, in table order. */
  lemma ViewsInOrder(tables: seq<Table>, index: map<string, seq<Link>>)
    requires GenerateViews(tables, index).Ok?
    ensures var views := GenerateViews(tables, index).value;
      |views| == |tables|
      && forall i :: 0 <= i < |tables| ==> Ok(views[i]) == GenerateTable(tables[i], index)
  {
    var g := GenerateWith(index);
    var views := TryMap(tables, g).value;
    forall i | 0 <= i < |tables| ensures Ok(views[i]) == GenerateTable(tables[i], index) {
      assert g(tables[i]).Ok?;
    }
  }

  /** A failure is the error of the first table that fails. */
  lemma ViewsErrFirst(tables: seq<Table>, index: map<string, seq<Link>>)
    requires GenerateViews(tables, index).Err?
    ensures exists i :: (0 <= i < |tables|
      && GenerateTable(tables[i], index) == Err(GenerateViews(tables, index).error)
      && forall j :: 0 <= j < i ==> GenerateTable(tables[j], index).Ok?)
  {
    var g := GenerateWith(index);
    var i :| 0 <= i < |tables| && g(tables[i]) == Err(TryMap(tables, g).error)
      && forall j :: 0 <= j < i ==> g(tables[j]).Ok?;
    assert forall j :: 0 <= j < i ==> GenerateTable(tables[j], index).Ok?;
  }

  /** Every link of a row's tooltip works: it names a table of the admin holding the
      referencing column, the page it opens is that table's list route, and the list
      handler, given the link's query, filters that column on the row's id. */
  lemma ReverseLinkLandsFiltered(catalog: seq<Table>, target: string, k: nat, id: int)
    requires target in ReverseFk(Retained(catalog)) && k < |ReverseFk(Retained(catalog))[target]|
    requires forall i :: 0 <= i < |Retained(catalog)| ==> IdentNames(Retained(catalog)[i])
    requires I64_MIN <= id <= I64_MAX
    ensures var l := ReverseFk(Retained(catalog))[target][k];
      exists i :: 0 <= i < |Retained(catalog)| && Retained(catalog)[i].name == l.source
        && Route(ListUrl(l.source), Get, Callback(CbIdent(l.source, "get"))) in RouteTable(Names(Retained(catalog)))
        && Split(ReverseLinkUrl(l, id), '?') == [ListUrl(l.source), l.column + "=" + IntText(id)]
        && ListQuery(Retained(catalog)[i], [(l.column, IntText(id))]) ==
             SelectSql(Retained(catalog)[i]) + " where " + l.column + "=" + IntText(id)
  {
    var tables := Retained(catalog);
    var l := ReverseFk(Retained(catalog))[target][k];
    IndexEntrySound(tables, target, l);
    var i, j :| 0 <= i < |tables| && 0 <= j < |tables[i].columns|
      && tables[i].name == l.source && tables[i].columns[j].name == l.column
      && tables[i].columns[j].fk == Some(target);
    assert ColumnNames(tables[i].columns)[j] == l.column;
    assert Recognised(tables[i], l.column);
    assert Names(tables)[i] == l.source;
    TableRoutesPresent(Names(tables), i);
    IdentExcludes(l.source, '?');
    ReverseLinkDecodes(l, id);
  }
}
