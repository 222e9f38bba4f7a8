# adminix: the schema-to-admin generator, modelled in Dafny

adminix is a procedural macro. At compile time it reads the catalog of a SQLite
database and generates a CRUD web admin for it: one record struct per table, a list
page with filter inputs, inline edit and delete forms, a footer row for inserting,
POST handlers for writes and deletes, and a route table for a web framework.

This project models the generator (`adminix_macro/src/lib.rs`) once the catalog has
been read. The catalog arrives as data: one `Table` per catalog row, in catalog
order, each holding the `Col { name, coltype, notnull, fk }` rows of the column query.
Everything after that is string and collection work, and it is modelled as follows.

- `Schema`: the catalog records, the two generation errors (the two kinds of panic in the per-table code),
  and `TryMap`, the in-order map that stops at the first failure. The per-column
  `map` closures that panic behave this way.
- `Text`: join, split at a character, and count occurrences of a character.
- `Decimal`: how an `i64` id is shown as text, and how it is decoded from a form field
  or a query value.
- `Introspection`: the table filter of `tables()`, as a loop and as its specification.
- `TypeMapper`: `ctype` and the record struct built from it.
- `ReverseIndex`: the reverse foreign-key index. It is built by the source's nested
  loops over a map, and proved equal to an independent definition, the exact inversion
  of the forward foreign-key edges.
- `Routes`: handler identifiers (`cb_ident`), the URLs of the pages, the route table
  of `configure_adminix`, and the navigation bar.
- `Sql`: the select, insert, update and delete texts.
- `Views`: header labels, the cell chosen for each column, the initial value of
  each input, foreign-key links and reverse links.
- `Handlers`: the list handler's filter (the `push_str` code as a method), and the
  write and delete handlers' statements, bound parameters and replies.
- `Generator`: `prepare`. It filters the catalog, builds the index, then extends
  the output table by table and stops at the first table that cannot be generated.

The FK cell link is modelled as the code writes it: `href = <fk table>#id<value>`.
This is a path relative to the list page plus a row anchor. It opens the referenced
table's page at the row whose `tr` carries `id<value>`. It is not a filtered list
URL (`Views.FkLinkLandsOnRow`).

## Model

| member | source | states |
|---|---|---|
| `Introspection.Tables` | adminix_macro/src/lib.rs:43-61 | The push loop returns exactly `Retained(catalog)`: the catalog's user tables, in order, with their column lists untouched. |
| `Introspection.RetainedMembers` | adminix_macro/src/lib.rs:45 | A table is kept iff it is in the catalog and its name starts with neither `sqlite_` nor `__`. |
| `Introspection.RetainedAppend` | adminix_macro/src/lib.rs:43-61 | Catalog order is kept: what is kept from an earlier stretch of the catalog comes first. |
| `TypeMapper.CType` | adminix_macro/src/lib.rs:65-83 | A result is given only for a declared type of INTEGER, TEXT, FLOAT or BLOB: that type's kind, bare iff `notnull == 1` and an `Option` for any other flag. Any other type fails with an error naming the type and the column. |
| `TypeMapper.CTypeOnto` | adminix_macro/src/lib.rs:65-83 | Every bare or optional kind is produced by its declared type and a flag. |
| `TypeMapper.RecordShape` | adminix_macro/src/lib.rs:227-232 | The record struct has one field per column, in declared order: name, kind, FK flag. It exists iff every column's type is supported. Otherwise the error is that of the first unsupported column. |
| `ReverseIndex.BuildReverseFk` | adminix_macro/src/lib.rs:140-155 | The nested loops with `get_mut`/`push` and `insert` build exactly `ReverseFk(tables)`: the inversion of all forward foreign-key edges. |
| `ReverseIndex.InvertSnoc` | adminix_macro/src/lib.rs:145-152 | Handling one more edge appends its link to the target's entry, or creates the entry holding only that link. |
| `ReverseIndex.ForwardEdgeIndexed` | adminix_macro/src/lib.rs:143-152 | Completeness: for every column of table S with `fk = Some(T)`, T is a key and its entry holds (S, column). |
| `ReverseIndex.IndexEntrySound` | adminix_macro/src/lib.rs:143-152 | Soundness: every indexed link comes from a column of that table pointing at the key. |
| `ReverseIndex.KeyIffInbound` | adminix_macro/src/lib.rs:145-152 | A table is a key iff some column references it. An entry is never empty. A table with no inbound reference has no key. |
| `ReverseIndex.ReverseFkTableOrder` | adminix_macro/src/lib.rs:143 | Links from earlier tables come before links from later tables. |
| `ReverseIndex.ReverseFkColumnOrder` | adminix_macro/src/lib.rs:144 | Within a table, links follow column order. |
| `Routes.CbIdentInjective` | adminix_macro/src/lib.rs:7-9 | `CbIdent` builds the handler identifier `__adminix_<method>_<table>`. Two such identifiers are equal only for equal (method, table) pairs, for the methods get, post and delete. |
| `Routes.CbIdentNotReserved` | adminix_macro/src/lib.rs:7-9 | No handler identifier equals `__adminix_home`, `__adminix_base` or a record struct's identifier. |
| `Routes.AdminPathInjective` | adminix_macro/src/lib.rs:108 | Two admin URLs are equal iff their segments are. |
| `Routes.RouteTable` | adminix_macro/src/lib.rs:403-430 | The route list has 3 + 3n routes. First come the three fixed GET resources `""`, `script.js` and `style.css`. Then each table in order gets GET and POST on its root and POST on `/delete`. |
| `Routes.RoutesUnique` | adminix_macro/src/lib.rs:403-430 | Table names that are distinct identifiers never register a (path, method) pair twice. |
| `Routes.HandlersUnique` | adminix_macro/src/lib.rs:416-428 | Distinct table names bind each generated handler to exactly one route. |
| `Routes.TableRoutesPresent` | adminix_macro/src/lib.rs:417-426 | Each table's list, write and delete handlers are reachable at their paths. |
| `Routes.NavLinks` | adminix_macro/src/lib.rs:106-127 | The navigation bar has one link per table, labelled with its name, that opens a GET route of that table's list handler. |
| `Sql.SelectAsWrittenDanglingComma` | adminix_macro/src/lib.rs:236 | As written (`SelectSqlAsWritten`): for a table with no column besides `id`, the select is `SELECT id, FROM t`, whose select list splits into `id` and an empty item. |
| `Sql.SelectListOrder` | adminix_macro/src/lib.rs:236 | Corrected select list (`SelectList`, inside `SelectSql`): it splits into exactly `id` followed by the columns, in declared order. |
| `Sql.SelectAsWrittenAgrees` | adminix_macro/src/lib.rs:236 | With at least one column, the select as written is the corrected one. |
| `Sql.InsertColumnsOrder` | adminix_macro/src/lib.rs:340-343 | The insert's column list splits into the columns in declared order. |
| `Sql.InsertPlaceholders` | adminix_macro/src/lib.rs:340-348 | `InsertSql`, the insert text, has exactly one `?` per column. |
| `Sql.SetClauseOrder` | adminix_macro/src/lib.rs:349-357 | The update's set clause splits into `c=?` for each column, in declared order. |
| `Sql.UpdatePlaceholders` | adminix_macro/src/lib.rs:349-357 | `UpdateSql`, the update text, has one `?` per column plus the id's: n + 1. |
| `Sql.DeletePlaceholders` | adminix_macro/src/lib.rs:358 | `DeleteSql`, the delete text, has exactly one `?`. |
| `Views.HeaderShowsKind` | adminix_macro/src/lib.rs:168-178 | `HeaderLabel` gives the second header line. For a column whose type is supported, the label is `FK` iff the column is a foreign key. Otherwise it is the declared type of the field's kind. |
| `Views.CellFailure` | adminix_macro/src/lib.rs:187-210 | `CellOf` chooses the cell in the order of the match: FK link, blob image, plain input for flag 1, nullable input for flag 0. Choosing a cell fails exactly for a non-FK, non-BLOB column whose flag is neither 0 nor 1. The error carries the (fk, notnull, type) triple. |
| `Views.CellAgreesWithField` | adminix_macro/src/lib.rs:179-210 | The cell matches the record field. It is a link exactly for an FK field, pointing at its table. A blob image is shown only for a `Vec<u8>` field. For other non-BLOB columns, a nullable input appears exactly for an `Option` field and a plain input exactly for a bare field. |
| `Views.InputValueShowsValue` | adminix_macro/src/lib.rs:188-205 | `InputValue` gives the value an input starts with. Every cell but the blob placeholder holds an input that starts with the value. A nullable input shows `_AX_NULL` exactly for a null, or for a stored text equal to `_AX_NULL`. |
| `Views.FkLinkLandsOnRow` | adminix_macro/src/lib.rs:190 | `FkHref` builds the link `<fk table>#id<value>`. For a table-name target it is a relative-path reference (section 4.2 of RFC 3986). `Resolve` accepts only such references. Resolved against a list page (RFC 3986 section 5.2.3), the link holding an id opens the referenced table's list page at the anchor of that id's row. |
| `Views.ReverseLinksFromIndex` | adminix_macro/src/lib.rs:214-225 | `ReverseLinks` builds a row's tooltip. The reverse links exist iff some column references its table. There is one link per reference, in index order, each labelled with the referencing table, and each from a real column. |
| `Views.ReverseLinkDecodes` | adminix_macro/src/lib.rs:216 | A reverse link (`ReverseLinkUrl`) splits back into the referencing table's list URL and one query pair `column=id`, whose value decodes to the row's id. |
| `Decimal.ParseIntText` | adminix_macro/src/lib.rs:293-299 | Every `i64` id decodes back from the text the page shows for it. |
| `Decimal.ParseI64` | adminix_macro/src/lib.rs:363-366 | A decoded id is within the `i64` range. |
| `Handlers.ListSql` | adminix_macro/src/lib.rs:242-250 | The `push_str` code yields `ListQuery`. Only the first query pair is used. ` where k=v` is appended iff k is `id` or a column name. |
| `Handlers.ListFilterFirstPairOnly` | adminix_macro/src/lib.rs:242-250 | Later pairs never matter. An unrecognised key leaves the base select unchanged. |
| `Handlers.ListQueryUnbound` | adminix_macro/src/lib.rs:248 | The list statement binds no parameter. Its only `?` marks are those of the request's own key and value, which are spliced in as SQL text. |
| `Handlers.ParamsMatchPlaceholders` | adminix_macro/src/lib.rs:366-391 | Each write or delete statement binds exactly as many parameters as its text has placeholders. |
| `Handlers.WriteDispatch` | adminix_macro/src/lib.rs:366-374 | `WriteStatement` picks the write's statement. It runs the insert iff the id is -1, binding the fields in column-list order. Otherwise it runs the update, binding field i to assignment i and the id last. |
| `Handlers.FormsDispatch` | adminix_macro/src/lib.rs:319-323 | The footer form's `-1` decodes to an insert. A row form, which posts its own id, decodes to an update for every id other than -1, whatever its sign. |
| `Handlers.RedirectLandsOnList` | adminix_macro/src/lib.rs:360-396 | `WriteHandler` and `DeleteHandler` model the write and delete handlers. After a write or delete that ran, the reply redirects to the table's list URL, a GET route of its list handler. A write is redirected iff its id decodes and the rest of the record decodes; a delete iff its id decodes. |
| `Generator.GenerateTableOutcome` | adminix_macro/src/lib.rs:168-212 | `GenerateTable` is one pass of the per-table loop. A table is generated iff every column has a supported type and a cell. Type errors are reported before cell errors, each for the first bad column. |
| `Generator.GenerateTableTotal` | adminix_macro/src/lib.rs:168-212 | Columns with supported types and flags of 0 or 1 always generate. |
| `Generator.GeneratedViewShape` | adminix_macro/src/lib.rs:160-212 | A view has one field, header and cell per column, in declared order. |
| `Generator.Prepare` | adminix_macro/src/lib.rs:87-433 | The run filters the catalog, indexes it and extends the output table by table. It returns `Generate(catalog)`. |
| `Generator.ViewsOkIff` | adminix_macro/src/lib.rs:157-397 | All tables are generated iff each one is. |
| `Generator.ViewsInOrder` | adminix_macro/src/lib.rs:157-397 | Views come one per table, in table order. |
| `Generator.ViewsErrFirst` | adminix_macro/src/lib.rs:157-397 | A failure is the error of the first table that fails. |
| `Generator.ReverseLinkLandsFiltered` | adminix_macro/src/lib.rs:214-250 | Each reverse link does four things: it names an admin table holding the referencing column; it opens that table's GET list route; it carries the query pair `column=id`; and the list handler filters that column on that id. |

## Left out

- Reading the catalog: the `DATABASE_URL` variable, the connection and the two catalog queries are not modelled. Their result is the input, and its column rows never include `id`.
- Token generation (`quote!`, `format_ident!`) and HTML rendering are not modelled. Only their decisions are modelled, as labels, cell kinds, URLs and texts.
- `format_ident!` panics on a name that is not an identifier. The model does not fail there. Instead, the lemmas that need identifier-like names (`IsIdent`) require them.
- The framework's routing, requests, form and query decoding, and query execution are not modelled. The order in which the query map yields pairs is a parameter. Whether a statement ran is a parameter. Form decoding is modelled only for the id (`ParseI64`); whether the rest of a written record decodes is a parameter.
- Actual `f32` and blob values, and the text of non-id field values, are not modelled. Only kind tags and display text are.
- Path normalisation by the framework (a `/admin` scope joined with `""` or a table scope) is not modelled. Paths are modelled as the generated links write them: `/admin/<segment>`.
- A nullable foreign key: the generated code renders `value.<fk>` directly, and that does not compile for an `Option`. `Views.InputValue` therefore requires a present value for an FK cell.
- Handlers.RedirectLandsOnList: whether the record's other fields decode is a parameter of `WriteHandler`. The per-field decoding is not modelled. In particular, the `_AX_NULL` text that a nullable input submits is never turned back into a null, so a non-TEXT nullable field holding it makes the form extractor reject the write.
- Handlers.ListQueryUnbound: states that the filter is unparameterised, not what the database does with an injected value.
- Decimal.ParseI64: its contract states only the range. The agreement with rendering is `Decimal.ParseIntText`.
- Routes.RoutesUnique: proved for distinct, identifier-like table names. The catalog guarantees distinct names; identifier-like names are what `format_ident!` demands.
- Generator.Prepare: the home page, the base layout, the two static assets and the markup of each page are not produced. The admin holds the navigation bar, the per-table views and the route table.
- A table whose only column is `id` also gets an insert `insert into t() values ()` and an update with an empty set clause. Both are modelled as written; only the select is corrected (see Findings). For such a table, Handlers.ListQuery, Handlers.ListSql, Generator.GenerateTable and, through it, Generator.Generate and Generator.Prepare build the corrected `SELECT id FROM t`, where the source builds `SELECT id, FROM t`.
- The panic messages' wording is not modelled; the errors carry the same data.
- `script.js` (client-side sorting), the tests, the fixture generator and the build script are not modelled.

## Findings

| source | as written | input that shows it | evidently intended | confidence | as-written member | corrected member |
|---|---|---|---|---|---|---|
| adminix_macro/src/lib.rs:236 | `format!("SELECT id,{} FROM {}", cols.join(","), t)` always writes the comma after `id` | a table whose only column is `id`: the text is `SELECT id, FROM t`, with an empty select item | `id` joined with the column names, so the comma appears only between items | medium, not executed | `Sql.SelectAsWrittenDanglingComma` | `Sql.SelectListOrder` |
