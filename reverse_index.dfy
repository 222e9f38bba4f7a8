/** The reverse foreign-key index: for each referenced table, the (table, column)
    pairs that point at it, so that a row can show who references it. */
module ReverseIndex {
  import opened Schema

  /** One forward foreign-key edge: column `column` of table `source` points at `target`. */
  datatype Edge = Edge(target: string, source: string, column: string)

  /** One entry of the index: the referencing table and column. */
  datatype Link = Link(source: string, column: string)

  /** The edges of the first columns of one table, in column order. */
  function ColumnEdges(table: string, cols: seq<Col>): seq<Edge> {
    if |cols| == 0 then []
    else
      var c := cols[|cols| - 1];
      ColumnEdges(table, cols[..|cols| - 1])
        + (if c.fk.Some? then [Edge(c.fk.value, table, c.name)] else [])
  }

  /** All edges, in table-then-column order. */
  function Edges(tables: seq<Table>): seq<Edge> {
    if |tables| == 0 then []
    else
      var t := tables[|tables| - 1];
      Edges(tables[..|tables| - 1]) + ColumnEdges(t.name, t.columns)
  }

  /** The links into `target`, in the order their edges occur. */
  function LinksTo(edges: seq<Edge>, target: string): seq<Link> {
    if |edges| == 0 then []
    else
      var e := edges[|edges| - 1];
      LinksTo(edges[..|edges| - 1], target)
        + (if e.target == target then [Link(e.source, e.column)] else [])
  }

  function Targets(edges: seq<Edge>): set<string> {
    set e | e in edges :: e.target
  }

  /** Reference definition: a key for every table that some edge points at, holding
      exactly the links into it in edge order. */
  function Invert(edges: seq<Edge>): map<string, seq<Link>> {
    map t | t in Targets(edges) :: LinksTo(edges, t)
  }

  function ReverseFk(tables: seq<Table>): map<string, seq<Link>> {
    Invert(Edges(tables))
  }

  /** Handling one more edge appends its link to the target's entry, creating the entry
      if there is none: the `get_mut`/`push` or `insert` step. */
  lemma InvertSnoc(edges: seq<Edge>, e: Edge)
    ensures Invert(edges + [e]) ==
      Invert(edges)[e.target := (if e.target in Invert(edges) then Invert(edges)[e.target] else [])
                                + [Link(e.source, e.column)]]
  {
    var es := edges + [e];
    assert es[..|es| - 1] == edges;
    assert Targets(es) == Targets(edges) + {e.target};
    var lhs := Invert(es);
    var rhs := Invert(edges)[e.target := (if e.target in Invert(edges) then Invert(edges)[e.target] else [])
                                         + [Link(e.source, e.column)]];
    assert lhs.Keys == rhs.Keys;
    forall t | t in lhs.Keys ensures lhs[t] == rhs[t] {
      if t != e.target {
        assert lhs[t] == LinksTo(edges, t);
      } else if e.target !in Targets(edges) {
        LinksToNone(edges, t);
      }
    }
  }

  lemma {:induction false} LinksToNone(edges: seq<Edge>, target: string)
    requires target !in Targets(edges)
    ensures LinksTo(edges, target) == []
  {
    if |edges| > 0 {
      var init := edges[..|edges| - 1];
      assert Targets(init) <= Targets(edges) by {
        forall t | t in Targets(init) ensures t in Targets(edges) {
          var e :| e in init && e.target == t;
          assert e in edges;
        }
      }
      LinksToNone(init, target);
      assert edges[|edges| - 1] in edges;
    }
  }

  lemma EdgesStep(tables: seq<Table>, i: nat)
    requires i < |tables|
    ensures Edges(tables[..i + 1]) == Edges(tables[..i]) + ColumnEdges(tables[i].name, tables[i].columns)
  {
    assert tables[..i + 1][..i] == tables[..i];
  }

  /** One column of the inner loop: a foreign key appends its link under its target. */
  lemma IndexColumnStep(done: seq<Edge>, name: string, cols: seq<Col>, j: nat)
    requires j < |cols|
    ensures var before := Invert(done + ColumnEdges(name, cols[..j]));
      Invert(done + ColumnEdges(name, cols[..j + 1])) ==
        if cols[j].fk.Some?
        then before[cols[j].fk.value := Entry(before, cols[j].fk.value) + [Link(name, cols[j].name)]]
        else before
  {
    assert cols[..j + 1][..j] == cols[..j];
    var c := cols[j];
    if c.fk.Some? {
      var e := Edge(c.fk.value, name, c.name);
      assert done + ColumnEdges(name, cols[..j + 1]) == done + ColumnEdges(name, cols[..j]) + [e];
      InvertSnoc(done + ColumnEdges(name, cols[..j]), e);
    } else {
      assert done + ColumnEdges(name, cols[..j + 1]) == done + ColumnEdges(name, cols[..j]);
    }
  }

  /** The nested loops of the generator, updating the map in place. */
  method BuildReverseFk(tables: seq<Table>) returns (reverseFk: map<string, seq<Link>>)
    ensures reverseFk == ReverseFk(tables)
  {
    reverseFk := map[];
    for i := 0 to |tables|
      invariant reverseFk == Invert(Edges(tables[..i]))
    {
      var table := tables[i];
      ghost var done := Edges(tables[..i]);
      assert done + ColumnEdges(table.name, table.columns[..0]) == done;
      for j := 0 to |table.columns|
        invariant reverseFk == Invert(done + ColumnEdges(table.name, table.columns[..j]))
      {
        var col := table.columns[j];
        IndexColumnStep(done, table.name, table.columns, j);
        ghost var before := reverseFk;
        if col.fk.Some? {
          var k := col.fk.value;
          var v := Link(table.name, col.name);
          if k in reverseFk {
            assert Entry(before, k) == reverseFk[k];
            reverseFk := reverseFk[k := reverseFk[k] + [v]];
          } else {
            assert Entry(before, k) + [v] == [v];
            reverseFk := reverseFk[k := [v]];
          }
          assert reverseFk == before[k := Entry(before, k) + [v]];
        }
        assert reverseFk == Invert(done + ColumnEdges(table.name, table.columns[..j + 1]));
      }
      assert table.columns[..|table.columns|] == table.columns;
      EdgesStep(tables, i);
    }
    assert tables[..|tables|] == tables;
  }

  lemma {:induction false} ColumnEdgesComplete(table: string, cols: seq<Col>, j: nat)
    requires j < |cols| && cols[j].fk.Some?
    ensures Edge(cols[j].fk.value, table, cols[j].name) in ColumnEdges(table, cols)
  {
    if j < |cols| - 1 {
      ColumnEdgesComplete(table, cols[..|cols| - 1], j);
    }
  }

  lemma {:induction false} EdgesComplete(tables: seq<Table>, i: nat, j: nat)
    requires i < |tables| && j < |tables[i].columns| && tables[i].columns[j].fk.Some?
    ensures Edge(tables[i].columns[j].fk.value, tables[i].name, tables[i].columns[j].name) in Edges(tables)
  {
    if i < |tables| - 1 {
      EdgesComplete(tables[..|tables| - 1], i, j);
    } else {
      ColumnEdgesComplete(tables[i].name, tables[i].columns, j);
    }
  }

  lemma {:induction false} LinksToComplete(edges: seq<Edge>, e: Edge)
    requires e in edges
    ensures Link(e.source, e.column) in LinksTo(edges, e.target)
  {
    var init := edges[..|edges| - 1];
    if edges[|edges| - 1] != e {
      assert edges == init + [edges[|edges| - 1]];
      LinksToComplete(init, e);
    }
  }

  /** Every forward foreign key is indexed under its target. */
  lemma ForwardEdgeIndexed(tables: seq<Table>, i: nat, j: nat)
    requires i < |tables| && j < |tables[i].columns| && tables[i].columns[j].fk.Some?
    ensures var target := tables[i].columns[j].fk.value;
      target in ReverseFk(tables)
      && Link(tables[i].name, tables[i].columns[j].name) in ReverseFk(tables)[target]
  {
    var e := Edge(tables[i].columns[j].fk.value, tables[i].name, tables[i].columns[j].name);
    EdgesComplete(tables, i, j);
    LinksToComplete(Edges(tables), e);
  }

  ghost predicate FromColumn(tables: seq<Table>, target: string, link: Link) {
    exists i, j :: 0 <= i < |tables| && 0 <= j < |tables[i].columns|
      && tables[i].name == link.source && tables[i].columns[j].name == link.column
      && tables[i].columns[j].fk == Some(target)
  }

  lemma {:induction false} ColumnEdgesSound(table: string, cols: seq<Col>, e: Edge)
    requires e in ColumnEdges(table, cols)
    ensures e.source == table
    ensures exists j :: 0 <= j < |cols| && cols[j].name == e.column && cols[j].fk == Some(e.target)
  {
    var init := cols[..|cols| - 1];
    if e in ColumnEdges(table, init) {
      ColumnEdgesSound(table, init, e);
      var j :| 0 <= j < |init| && init[j].name == e.column && init[j].fk == Some(e.target);
      assert cols[j] == init[j];
    } else {
      assert cols[|cols| - 1].name == e.column;
    }
  }

  lemma {:induction false} EdgesSound(tables: seq<Table>, e: Edge)
    requires e in Edges(tables)
    ensures FromColumn(tables, e.target, Link(e.source, e.column))
  {
    var init := tables[..|tables| - 1];
    var last := tables[|tables| - 1];
    if e in Edges(init) {
      EdgesSound(init, e);
      var i, j :| 0 <= i < |init| && 0 <= j < |init[i].columns|
        && init[i].name == e.source && init[i].columns[j].name == e.column
        && init[i].columns[j].fk == Some(e.target);
      assert tables[i] == init[i];
    } else {
      ColumnEdgesSound(last.name, last.columns, e);
      var j :| 0 <= j < |last.columns| && last.columns[j].name == e.column && last.columns[j].fk == Some(e.target);
      assert tables[|tables| - 1].columns[j] == last.columns[j];
    }
  }

  lemma {:induction false} LinksToSound(edges: seq<Edge>, target: string, link: Link)
    requires link in LinksTo(edges, target)
    ensures Edge(target, link.source, link.column) in edges
  {
    var init := edges[..|edges| - 1];
    if link in LinksTo(init, target) {
      LinksToSound(init, target, link);
      assert Edge(target, link.source, link.column) in init;
      assert init <= edges;
    } else {
      assert edges[|edges| - 1] == Edge(target, link.source, link.column);
    }
  }

  /** Every indexed link comes from a column of that table that points at the key. */
  lemma IndexEntrySound(tables: seq<Table>, target: string, link: Link)
    requires target in ReverseFk(tables) && link in ReverseFk(tables)[target]
    ensures FromColumn(tables, target, link)
  {
    LinksToSound(Edges(tables), target, link);
    EdgesSound(tables, Edge(target, link.source, link.column));
  }

  /** A table gets a key iff some column points at it; without inbound references there
      is no key at all (not an empty entry). */
  lemma KeyIffInbound(tables: seq<Table>, target: string)
    ensures target in ReverseFk(tables) <==>
      exists i, j :: 0 <= i < |tables| && 0 <= j < |tables[i].columns|
        && tables[i].columns[j].fk == Some(target)
    ensures target in ReverseFk(tables) ==> |ReverseFk(tables)[target]| > 0
  {
    if target in ReverseFk(tables) {
      var e :| e in Edges(tables) && e.target == target;
      EdgesSound(tables, e);
      LinksToComplete(Edges(tables), e);
    }
    if exists i, j :: 0 <= i < |tables| && 0 <= j < |tables[i].columns|
        && tables[i].columns[j].fk == Some(target) {
      var i, j :| 0 <= i < |tables| && 0 <= j < |tables[i].columns|
        && tables[i].columns[j].fk == Some(target);
      ForwardEdgeIndexed(tables, i, j);
    }
  }

  lemma {:induction false} EdgesAppend(a: seq<Table>, b: seq<Table>)
    ensures Edges(a + b) == Edges(a) + Edges(b)
  {
    if |b| > 0 {
      var init := b[..|b| - 1];
      EdgesAppend(a, init);
      assert (a + b)[..|a + b| - 1] == a + init;
      assert (a + b)[|a + b| - 1] == b[|b| - 1];
    } else {
      assert a + b == a;
    }
  }

  lemma {:induction false} LinksToAppend(a: seq<Edge>, b: seq<Edge>, target: string)
    ensures LinksTo(a + b, target) == LinksTo(a, target) + LinksTo(b, target)
  {
    if |b| > 0 {
      var init := b[..|b| - 1];
      LinksToAppend(a, init, target);
      assert (a + b)[..|a + b| - 1] == a + init;
      assert (a + b)[|a + b| - 1] == b[|b| - 1];
    } else {
      assert a + b == a;
    }
  }

  /** The entry of `target`, empty when there is no key. */
  function Entry(index: map<string, seq<Link>>, target: string): seq<Link> {
    if target in index then index[target] else []
  }

  lemma EntryIsLinksTo(edges: seq<Edge>, target: string)
    ensures Entry(Invert(edges), target) == LinksTo(edges, target)
  {
    if target !in Targets(edges) {
      LinksToNone(edges, target);
    }
  }

  /** Table order is kept: links from earlier tables come before links from later ones. */
  lemma ReverseFkTableOrder(a: seq<Table>, b: seq<Table>, target: string)
    ensures Entry(ReverseFk(a + b), target) == Entry(ReverseFk(a), target) + Entry(ReverseFk(b), target)
  {
    EdgesAppend(a, b);
    LinksToAppend(Edges(a), Edges(b), target);
    EntryIsLinksTo(Edges(a + b), target);
    EntryIsLinksTo(Edges(a), target);
    EntryIsLinksTo(Edges(b), target);
  }

  lemma {:induction false} ColumnEdgesAppend(table: string, a: seq<Col>, b: seq<Col>)
    ensures ColumnEdges(table, a + b) == ColumnEdges(table, a) + ColumnEdges(table, b)
  {
    if |b| > 0 {
      var init := b[..|b| - 1];
      ColumnEdgesAppend(table, a, init);
      assert (a + b)[..|a + b| - 1] == a + init;
      assert (a + b)[|a + b| - 1] == b[|b| - 1];
    } else {
      assert a + b == a;
    }
  }

  lemma SingleTableEdges(name: string, cols: seq<Col>)
    ensures Edges([Table(name, cols)]) == ColumnEdges(name, cols)
  {
    assert [Table(name, cols)][..0] == [];
  }

  /** Column order is kept within a table as well. */
  lemma ReverseFkColumnOrder(name: string, a: seq<Col>, b: seq<Col>, target: string)
    ensures Entry(ReverseFk([Table(name, a + b)]), target)
         == Entry(ReverseFk([Table(name, a)]), target) + Entry(ReverseFk([Table(name, b)]), target)
  {
    SingleTableEdges(name, a + b);
    SingleTableEdges(name, a);
    SingleTableEdges(name, b);
    ColumnEdgesAppend(name, a, b);
    LinksToAppend(ColumnEdges(name, a), ColumnEdges(name, b), target);
    EntryIsLinksTo(ColumnEdges(name, a + b), target);
    EntryIsLinksTo(ColumnEdges(name, a), target);
    EntryIsLinksTo(ColumnEdges(name, b), target);
  }
}
