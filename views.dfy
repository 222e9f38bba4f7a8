/** The per-column decisions of the list page: the header label, the kind of cell each
    row shows, the text an input starts with, the foreign-key link of a cell and the
    reverse links of a row. Markup itself is not modelled, only these decisions. */
module Views {
  import opened Schema
  import opened Text
  import opened Decimal
  import opened TypeMapper
  import opened ReverseIndex
  import opened Routes

  /** The second line of a column's header: `FK` for a foreign key, else the declared type. */
  function HeaderLabel(c: Col): string {
    if c.fk.Some? then "FK" else c.coltype
  }

  function HeaderLabels(cols: seq<Col>): seq<string> {
    seq(|cols|, i requires 0 <= i < |cols| => HeaderLabel(cols[i]))
  }

  /** For every column the record can hold, the label tells foreign keys apart from the
      other columns (no supported type is spelled `FK`), and otherwise names the declared
      type of the field's kind. */
  lemma HeaderShowsKind(c: Col)
    requires CType(c).Ok?
    ensures HeaderLabel(c) == "FK" <==> c.fk.Some?
    ensures c.fk.None? ==> HeaderLabel(c) == DeclaredType(CType(c).value.scalar)
  {
    var s := CType(c).value.scalar;
    assert DeclaredType(s) != "FK" by {
      assert "INTEGER"[0] != 'F' && "TEXT"[0] != 'F' && "BLOB"[0] != 'F';
      assert "FLOAT"[1] != "FK"[1];
    }
  }

  /** What a row shows in a column's cell. */
  datatype Cell =
    | FkLink(target: string)   // a link to the referenced row and a hidden input with the value
    | BlobImage                // a placeholder image, no input
    | TextInput                // a text input holding the value
    | NullableInput            // a text input holding the value, or the null sentinel

  /** The choice of cell, in the order the source tries them: a foreign key first (whatever
      its type), then a blob, then the not-null flag 1 or 0; any other flag fails. */
  function CellOf(c: Col): Result<Cell, GenError> {
    match c.fk
    case Some(target) => Ok(FkLink(target))
    case None =>
      if c.coltype == "BLOB" then Ok(BlobImage)
      else if c.notnull == 1 then Ok(TextInput)
      else if c.notnull == 0 then Ok(NullableInput)
      else Err(UnimplementedHtml(c.fk, c.notnull, c.coltype))
  }

  /** The cell choice fails exactly on a plain, non-blob column whose flag is neither 0
      nor 1, reporting the triple it could not convert. */
  lemma CellFailure(c: Col)
    ensures CellOf(c).Err? <==> c.fk.None? && c.coltype != "BLOB" && c.notnull != 0 && c.notnull != 1
    ensures CellOf(c).Err? ==> CellOf(c).error == UnimplementedHtml(c.fk, c.notnull, c.coltype)
  {
  }

  /** The cell agrees with the record field it shows: a link exactly for a foreign-key
      field, and, for the other non-blob columns, a nullable input exactly when the field
      is an `Option`. */
  lemma CellAgreesWithField(c: Col)
    requires FieldOf(c).Ok? && CellOf(c).Ok?
    ensures CellOf(c).value.FkLink? <==> FieldOf(c).value.isFk
    ensures CellOf(c).value.FkLink? ==> c.fk == Some(CellOf(c).value.target)
    ensures CellOf(c).value.BlobImage? ==> FieldOf(c).value.kind.scalar == Bytes
    ensures c.fk.None? && c.coltype != "BLOB" ==>
      (CellOf(c).value == NullableInput <==> FieldOf(c).value.kind.Nullable?)
    ensures c.fk.None? && c.coltype != "BLOB" ==>
      (CellOf(c).value == TextInput <==> FieldOf(c).value.kind.Bare?)
  {
    var k := CType(c).value;
    assert FieldOf(c).value.kind == k;
    if CellOf(c).value.BlobImage? {
      assert DeclaredType(k.scalar) == "BLOB";
    }
  }

  function Cells(t: Table): Result<seq<Cell>, GenError> {
    TryMap(t.columns, CellOf)
  }

  /** A value of the row being shown: its display text, or null for an `Option` that is
      `None`. */
  datatype FieldValue = Present(text: string) | Null

  const NullSentinel: string := "_AX_NULL"

  /** The value the cell's input starts with, `None` for a cell without input. A bare
      field always holds a value, and a foreign key is only rendered for one. */
  function InputValue(cell: Cell, v: FieldValue): Option<string>
    requires cell.FkLink? || cell.TextInput? ==> v.Present?
  {
    match cell
    case FkLink(_) => Some(v.text)
    case BlobImage => None
    case TextInput => Some(v.text)
    case NullableInput => Some(if v.Null? then NullSentinel else v.text)
  }

  /** Every cell but the blob placeholder submits an input; a present value is shown as
      it is; and a nullable input shows the sentinel exactly for a null, or for a text
      that happens to equal the sentinel, which the page cannot tell apart. */
  lemma InputValueShowsValue(cell: Cell, v: FieldValue)
    requires cell.FkLink? || cell.TextInput? ==> v.Present?
    ensures InputValue(cell, v).None? <==> cell.BlobImage?
    ensures !cell.BlobImage? && v.Present? ==> InputValue(cell, v) == Some(v.text)
    ensures cell.NullableInput? ==>
      (InputValue(cell, v) == Some(NullSentinel) <==> v == Null || v == Present(NullSentinel))
  {
  }

  /** The anchor a row carries, which a foreign-key link points at. */
  function RowAnchor(id: int): string {
    "id" + IntText(id)
  }

  /** The href of a foreign-key cell: the referenced table's name (a path relative to the
      current page) and the row anchor of the value. */
  function FkHref(target: string, text: string): string {
    target + "#id" + text
  }

  /** The directory part of a path: everything up to and including its last `/`. */
  function DirOf(path: string): string {
    if |path| == 0 then ""
    else if path[|path| - 1] == '/' then path
    else DirOf(path[..|path| - 1])
  }

  /** The first segment of a reference: everything before its first `/`, `?` or `#`. */
  function FirstSegment(r: string): string {
    if |r| == 0 || r[0] == '/' || r[0] == '?' || r[0] == '#' then ""
    else [r[0]] + FirstSegment(r[1..])
  }

  /** A relative-path reference (section 4.2 of RFC 3986): a non-empty first segment
      without a colon, so neither a scheme, nor an absolute path, nor a bare query or
      fragment. */
  predicate RelativePathRef(r: string) {
    |FirstSegment(r)| > 0 && ':' !in FirstSegment(r)
  }

  /** Resolving a relative-path reference against a base path (the merge of section 5.2.3
      of RFC 3986: the base's directory, then the reference). */
  function Resolve(base: string, reference: string): string
    requires RelativePathRef(reference)
  {
    DirOf(base) + reference
  }

  lemma {:induction false} FirstSegmentIdent(t: string, rest: string)
    requires forall i :: 0 <= i < |t| ==> IdentChar(t[i])
    requires |rest| > 0 && rest[0] == '#'
    ensures FirstSegment(t + rest) == t
    decreases |t|
  {
    if |t| == 0 {
      assert t + rest == rest;
    } else {
      assert (t + rest)[1..] == t[1..] + rest;
      FirstSegmentIdent(t[1..], rest);
      assert [t[0]] + t[1..] == t;
    }
  }

  /** The href of a foreign-key cell whose target is a table name is a relative-path
      reference, its first segment being that name. */
  lemma FkHrefRelative(target: string, text: string)
    requires IsIdent(target)
    ensures FirstSegment(FkHref(target, text)) == target
    ensures RelativePathRef(FkHref(target, text))
  {
    assert FkHref(target, text) == target + ("#id" + text);
    FirstSegmentIdent(target, "#id" + text);
    IdentExcludes(target, ':');
  }

  lemma {:induction false} DirOfNoSlash(dir: string, s: string)
    requires |dir| > 0 && dir[|dir| - 1] == '/' && '/' !in s
    ensures DirOf(dir + s) == dir
    decreases |s|
  {
    if |s| == 0 {
      assert dir + s == dir;
    } else {
      var p := dir + s;
      assert p[|p| - 1] == s[|s| - 1];
      assert p[..|p| - 1] == dir + s[..|s| - 1];
      DirOfNoSlash(dir, s[..|s| - 1]);
    }
  }

  /** Seen from any table's list page, the link of a foreign-key cell holding the id of a
      row lands on the referenced table's list page, at that row's anchor. */
  lemma FkLinkLandsOnRow(page: string, target: string, id: int)
    requires IsIdent(page) && IsIdent(target)
    ensures RelativePathRef(FkHref(target, IntText(id)))
    ensures Resolve(ListUrl(page), FkHref(target, IntText(id))) == ListUrl(target) + "#" + RowAnchor(id)
  {
    FkHrefRelative(target, IntText(id));
    IdentExcludes(page, '/');
    assert AdminPath(page) == "/admin/" + page;
    DirOfNoSlash("/admin/", page);
  }

  /** A reverse link of a row: the list page of the referencing table, filtered on the
      referencing column by the row's id. */
  function ReverseLinkUrl(l: Link, id: int): string {
    AdminPath(l.source) + "?" + l.column + "=" + IntText(id)
  }

  /** One link of the tooltip: its href and its text, the referencing table's name. */
  datatype Anchor = Anchor(href: string, text: string)

  /** The tooltip of a row: nothing when no column references the table; otherwise the
      word `reverse` and one link per entry of the reverse index, in its order. */
  function ReverseLinks(index: map<string, seq<Link>>, table: string, id: int): Option<seq<Anchor>> {
    if table in index then
      var ls := index[table];
      Some(seq(|ls|, i requires 0 <= i < |ls| => Anchor(ReverseLinkUrl(ls[i], id), ls[i].source)))
    else None
  }

  /** Built from the generator's reverse index, a row's tooltip is present exactly when
      some column points at its table, and then lists, in table-then-column order, one
      link per such column whose text is the referencing table. */
  lemma ReverseLinksFromIndex(tables: seq<Table>, table: string, id: int)
    ensures ReverseLinks(ReverseFk(tables), table, id).Some? <==>
      exists i, j :: 0 <= i < |tables| && 0 <= j < |tables[i].columns|
        && tables[i].columns[j].fk == Some(table)
    ensures ReverseLinks(ReverseFk(tables), table, id).Some? ==>
      var r := ReverseLinks(ReverseFk(tables), table, id).value;
      var ls := Entry(ReverseFk(tables), table);
      |r| > 0 && |r| == |ls| && forall k :: 0 <= k < |r| ==>
        r[k].text == ls[k].source && FromColumn(tables, table, ls[k])
  {
    KeyIffInbound(tables, table);
    var index := ReverseFk(tables);
    if table in index {
      forall k | 0 <= k < |index[table]| ensures FromColumn(tables, table, index[table][k]) {
        IndexEntrySound(tables, table, index[table][k]);
      }
    }
  }

  lemma IntTextChars(n: int)
    ensures forall i :: 0 <= i < |IntText(n)| ==> IsDigit(IntText(n)[i]) || IntText(n)[i] == '-'
  {
    if n < 0 {
      var s := IntText(n);
      assert s[1..] == NatText(-n);
      forall i | 1 <= i < |s| ensures IsDigit(s[i]) {
        assert s[i] == NatText(-n)[i - 1];
      }
    }
  }

  lemma IntTextFree(n: int, c: char)
    requires !IsDigit(c) && c != '-'
    ensures c !in IntText(n)
  {
    IntTextChars(n);
  }

  /** A reverse link splits back into the page it opens and its single query pair (the
      query component of section 3.4 of RFC 3986), whose value decodes to the row's id. */
  lemma ReverseLinkDecodes(l: Link, id: int)
    requires IsIdent(l.source) && IsIdent(l.column) && I64_MIN <= id <= I64_MAX
    ensures Split(ReverseLinkUrl(l, id), '?') == [ListUrl(l.source), l.column + "=" + IntText(id)]
    ensures Split(l.column + "=" + IntText(id), '=') == [l.column, IntText(id)]
    ensures ParseI64(IntText(id)) == Some(id)
  {
    var page, query := ListUrl(l.source), l.column + "=" + IntText(id);
    IdentExcludes(l.source, '?');
    IdentExcludes(l.column, '?');
    IdentExcludes(l.column, '=');
    IntTextFree(id, '?');
    IntTextFree(id, '=');
    assert '?' !in "/admin/";
    assert '?' !in page by {
      assert page == "/admin/" + l.source;
    }
    assert '?' !in query by {
      assert query == l.column + "=" + IntText(id);
      assert '?' !in "=";
    }
    assert Join([page, query], "?") == ReverseLinkUrl(l, id);
    SplitJoin([page, query], '?');
    assert Join([l.column, IntText(id)], "=") == query;
    SplitJoin([l.column, IntText(id)], '=');
    ParseIntText(id);
  }
}
