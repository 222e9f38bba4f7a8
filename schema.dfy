/** The catalog as the admin generator sees it once the database has been read:
    tables in catalog order, each with its column records in declaration order. */
module Schema {

  datatype Option<+T> = None | Some(value: T)

  datatype Result<+T, +E> = Ok(value: T) | Err(error: E)

  /** One row of the column query: name, declared type, the catalog's not-null flag
      (an i32, normally 0 or 1) and the table a foreign key points to.
      The query never returns the implicit `id` column. */
  datatype Col = Col(name: string, coltype: string, notnull: int, fk: Option<string>)

  datatype Table = Table(name: string, columns: seq<Col>)

  /** The two ways generation aborts (the macro panics, so nothing is generated). */
  datatype GenError =
    | UnsupportedType(coltype: string, column: string)
    | UnimplementedHtml(fk: Option<string>, notnull: int, coltype: string)

  function ColumnNames(cols: seq<Col>): (r: seq<string>)
    ensures |r| == |cols|
    ensures forall i :: 0 <= i < |cols| ==> r[i] == cols[i].name
  {
    seq(|cols|, i requires 0 <= i < |cols| => cols[i].name)
  }

  function Names(tables: seq<Table>): seq<string> {
    seq(|tables|, i requires 0 <= i < |tables| => tables[i].name)
  }

  predicate Distinct(names: seq<string>) {
    forall i, j :: 0 <= i < j < |names| ==> names[i] != names[j]
  }

  /** Characters of a plain identifier; names are spliced unescaped into Rust
      identifiers, SQL text and URL paths, so the lemmas that need it assume them. */
  predicate IdentChar(c: char) {
    'a' <= c <= 'z' || 'A' <= c <= 'Z' || '0' <= c <= '9' || c == '_'
  }

  predicate IsIdent(s: string) {
    |s| > 0 && forall i :: 0 <= i < |s| ==> IdentChar(s[i])
  }

  predicate IdentNames(t: Table) {
    IsIdent(t.name) && forall i :: 0 <= i < |t.columns| ==> IsIdent(t.columns[i].name)
  }

  lemma IdentExcludes(s: string, c: char)
    requires IsIdent(s) && !IdentChar(c)
    ensures c !in s
  {
    assert forall i :: 0 <= i < |s| ==> s[i] != c;
  }

  /** Applying a fallible per-column step to every element in order and stopping at
      the first failure, as a `map` whose closure panics does. */
  function TryMap<A, B, E>(xs: seq<A>, f: A -> Result<B, E>): (r: Result<seq<B>, E>)
    ensures r.Ok? <==> forall i :: 0 <= i < |xs| ==> f(xs[i]).Ok?
    ensures r.Ok? ==> |r.value| == |xs| && forall i :: 0 <= i < |xs| ==> r.value[i] == f(xs[i]).value
    ensures r.Err? ==> exists i :: 0 <= i < |xs| && f(xs[i]) == Err(r.error)
                                   && forall j :: 0 <= j < i ==> f(xs[j]).Ok?
  {
    if |xs| == 0 then Ok([])
    else
      match f(xs[0])
      case Err(e) => Err(e)
      case Ok(y) =>
        match TryMap(xs[1..], f)
        case Err(e) =>
          ShiftFirstFailure(xs, f, e);
          Err(e)
        case Ok(ys) => Ok([y] + ys)
  }

  lemma ShiftFirstFailure<A, B, E>(xs: seq<A>, f: A -> Result<B, E>, e: E)
    requires |xs| > 0 && f(xs[0]).Ok?
    requires exists i :: 0 <= i < |xs[1..]| && f(xs[1..][i]) == Err(e)
                         && forall j :: 0 <= j < i ==> f(xs[1..][j]).Ok?
    ensures exists i :: 0 <= i < |xs| && f(xs[i]) == Err(e)
                        && forall j :: 0 <= j < i ==> f(xs[j]).Ok?
  {
    var i :| 0 <= i < |xs[1..]| && f(xs[1..][i]) == Err(e)
             && forall j :: 0 <= j < i ==> f(xs[1..][j]).Ok?;
    assert f(xs[i + 1]) == Err(e);
    forall j | 0 <= j < i + 1 ensures f(xs[j]).Ok? {
      if j > 0 { assert xs[j] == xs[1..][j - 1]; }
    }
  }

  /** Running the map over one more element: it reaches the new element only if all
      earlier ones succeeded. */
  lemma {:induction false} TryMapSnoc<A, B, E>(xs: seq<A>, x: A, f: A -> Result<B, E>)
    ensures TryMap(xs + [x], f) ==
      match TryMap(xs, f)
      case Err(e) => Err(e)
      case Ok(ys) => (match f(x) case Err(e) => Err(e) case Ok(y) => Ok(ys + [y]))
  {
    var zs := xs + [x];
    if |xs| == 0 {
      assert zs[1..] == [] && zs == [x];
      if f(x).Ok? {
        assert [f(x).value] + [] == [] + [f(x).value];
      }
    } else {
      assert zs[0] == xs[0] && zs[1..] == xs[1..] + [x];
      TryMapSnoc(xs[1..], x, f);
      match f(xs[0])
      case Err(_) =>
      case Ok(y) =>
        match TryMap(xs[1..], f)
        case Err(_) =>
        case Ok(ys) =>
          if f(x).Ok? {
            assert [y] + (ys + [f(x).value]) == [y] + ys + [f(x).value];
          }
    }
  }

  /** Once a prefix has failed, the rest of the input changes nothing: the error is that
      of the first failing element. */
  lemma TryMapErrSticky<A, B, E>(xs: seq<A>, n: nat, f: A -> Result<B, E>)
    requires n <= |xs| && TryMap(xs[..n], f).Err?
    ensures TryMap(xs, f) == TryMap(xs[..n], f)
  {
    var pre := xs[..n];
    assert forall j :: 0 <= j < n ==> pre[j] == xs[j];
    var i :| 0 <= i < |pre| && f(pre[i]) == Err(TryMap(pre, f).error)
      && forall j :: 0 <= j < i ==> f(pre[j]).Ok?;
    var k :| 0 <= k < |xs| && f(xs[k]) == Err(TryMap(xs, f).error)
      && forall j :: 0 <= j < k ==> f(xs[j]).Ok?;
    assert i == k;
  }

  /** One step of a loop that maps the elements in order and stops at the first failure. */
  lemma TryMapStep<A, B, E>(xs: seq<A>, i: nat, f: A -> Result<B, E>, ys: seq<B>)
    requires i < |xs| && TryMap(xs[..i], f) == Ok(ys)
    ensures f(xs[i]).Err? ==> TryMap(xs, f) == Err(f(xs[i]).error)
    ensures f(xs[i]).Ok? ==> TryMap(xs[..i + 1], f) == Ok(ys + [f(xs[i]).value])
  {
    assert xs[..i + 1] == xs[..i] + [xs[i]];
    TryMapSnoc(xs[..i], xs[i], f);
    if f(xs[i]).Err? {
      TryMapErrSticky(xs, i + 1, f);
    }
  }
}
