/** The names of the generated handlers and the route table `configure_adminix`
    registers, as seen by a client under the `/admin` scope. */
module Routes {
  import opened Schema

  datatype Method = Get | Post

  /** What a route runs: the home page, one of the two fixed assets, or a generated handler. */
  datatype Handler = Home | ScriptJs | StyleCss | Callback(ident: string)

  datatype Route = Route(path: string, verb: Method, handler: Handler)

  /** `cb_ident`: the identifier of the handler for one method of one table. */
  function CbIdent(table: string, verb: string): string {
    "__adminix_" + verb + "_" + table
  }

  /** The identifier of a table's record struct. */
  function StructIdent(table: string): string {
    "__adminix_S" + table
  }

  const HomeIdent: string := "__adminix_home"
  const BaseIdent: string := "__adminix_base"

  predicate IsCallbackMethod(m: string) {
    m == "get" || m == "post" || m == "delete"
  }

  /** Distinct (table, method) pairs give distinct handler identifiers. */
  lemma CbIdentInjective(t1: string, m1: string, t2: string, m2: string)
    requires IsCallbackMethod(m1) && IsCallbackMethod(m2)
    requires CbIdent(t1, m1) == CbIdent(t2, m2)
    ensures t1 == t2 && m1 == m2
  {
    var s1, s2 := CbIdent(t1, m1), CbIdent(t2, m2);
    assert s1[10] == m1[0] && s2[10] == m2[0];
    assert m1 == m2;
    var n := 10 + |m1| + 1;
    assert s1[n..] == t1 && s2[n..] == t2;
  }

  /** No handler identifier clashes with the other generated items. */
  lemma CbIdentNotReserved(t: string, m: string, other: string)
    requires IsCallbackMethod(m)
    ensures CbIdent(t, m) != HomeIdent
    ensures CbIdent(t, m) != BaseIdent
    ensures CbIdent(t, m) != StructIdent(other)
  {
    var s := CbIdent(t, m);
    assert s[10] == m[0];
    assert HomeIdent[10] == 'h' && BaseIdent[10] == 'b' && StructIdent(other)[10] == 'S';
  }

  /** Every page of the admin lives under `/admin/`. */
  function AdminPath(segment: string): string {
    "/admin/" + segment
  }

  /** A table's list page; also the target of every redirect after a write or delete. */
  function ListUrl(table: string): string {
    AdminPath(table)
  }

  function DeleteUrl(table: string): string {
    AdminPath(table + "/delete")
  }

  lemma AdminPathInjective(a: string, b: string)
    ensures AdminPath(a) == AdminPath(b) <==> a == b
  {
    assert AdminPath(a)[7..] == a && AdminPath(b)[7..] == b;
  }

  function FixedRoutes(): seq<Route> {
    [ Route(AdminPath(""), Get, Home),
      Route(AdminPath("script.js"), Get, ScriptJs),
      Route(AdminPath("style.css"), Get, StyleCss) ]
  }

  /** The scope of one table: list and write on its root, delete below it. */
  function TableRoutes(table: string): seq<Route> {
    [ Route(ListUrl(table), Get, Callback(CbIdent(table, "get"))),
      Route(ListUrl(table), Post, Callback(CbIdent(table, "post"))),
      Route(DeleteUrl(table), Post, Callback(CbIdent(table, "delete"))) ]
  }

  /** The fixed routes first, then three routes per table in table order. */
  function RouteTable(names: seq<string>): (r: seq<Route>)
    ensures |r| == 3 + 3 * |names|
    ensures r[..3] == FixedRoutes()
    ensures forall i :: 0 <= i < |names| ==> r[3 + 3 * i..6 + 3 * i] == TableRoutes(names[i])
  {
    if |names| == 0 then FixedRoutes()
    else
      var init := RouteTable(names[..|names| - 1]);
      var r := init + TableRoutes(names[|names| - 1]);
      assert forall i :: 0 <= i < |names| - 1 ==> r[3 + 3 * i..6 + 3 * i] == init[3 + 3 * i..6 + 3 * i];
      r
  }

  /** The position of each route: the fixed ones, then table `i`'s three at 3 + 3i. */
  lemma RouteAt(names: seq<string>, k: nat)
    requires k < |RouteTable(names)|
    ensures k < 3 ==> RouteTable(names)[k] == FixedRoutes()[k]
    ensures k >= 3 ==> ((k - 3) / 3 < |names|
      && RouteTable(names)[k] == TableRoutes(names[(k - 3) / 3])[(k - 3) % 3])
  {
    var r := RouteTable(names);
    if k < 3 {
      assert r[k] == r[..3][k];
    } else {
      var i := (k - 3) / 3;
      assert r[k] == r[3 + 3 * i..6 + 3 * i][(k - 3) % 3];
    }
  }

  function Key(r: Route): (string, Method) {
    (r.path, r.verb)
  }

  /** The path segment and handler method name of a table's route number `a`. */
  function SegmentAt(table: string, a: nat): string {
    if a == 2 then table + "/delete" else table
  }

  function VerbAt(a: nat): Method {
    if a == 0 then Get else Post
  }

  function MethodAt(a: nat): string {
    if a == 0 then "get" else if a == 1 then "post" else "delete"
  }

  lemma TableRouteAt(table: string, a: nat)
    requires a < 3
    ensures TableRoutes(table)[a] ==
      Route(AdminPath(SegmentAt(table, a)), VerbAt(a), Callback(CbIdent(table, MethodAt(a))))
  {
  }

  /** An identifier is not empty, not an asset name, and no other table's delete segment. */
  lemma SegmentsDiffer(a: string, b: string)
    requires IsIdent(a)
    ensures a != ""
    ensures a != "script.js" && a != "style.css"
    ensures a != b + "/delete"
  {
    assert "script.js"[6] == '.' && "style.css"[5] == '.';
    assert (b + "/delete")[|b|] == '/';
    assert !IdentChar('.') && !IdentChar('/');
  }

  lemma SuffixCancel(x: string, y: string, s: string)
    ensures x + s == y + s ==> x == y
  {
    assert (x + s)[..|x|] == x && (y + s)[..|y|] == y;
  }

  /** Two routes of the per-table blocks share a key only if they are the same route. */
  lemma TableKeyInjective(x: string, y: string, a: nat, b: nat)
    requires IsIdent(x) && IsIdent(y) && a < 3 && b < 3
    ensures (AdminPath(SegmentAt(x, a)), VerbAt(a)) == (AdminPath(SegmentAt(y, b)), VerbAt(b))
      ==> x == y && a == b
  {
    AdminPathInjective(SegmentAt(x, a), SegmentAt(y, b));
    SegmentsDiffer(x, y);
    SegmentsDiffer(y, x);
    SuffixCancel(x, y, "/delete");
  }

  /** A per-table route never has the key of a fixed one. */
  lemma FixedKeyDiffers(x: string, k: nat, a: nat)
    requires IsIdent(x) && k < 3 && a < 3
    ensures Key(FixedRoutes()[k]) != (AdminPath(SegmentAt(x, a)), VerbAt(a))
  {
    SegmentsDiffer(x, x);
    AdminPathInjective("", SegmentAt(x, a));
    AdminPathInjective("script.js", SegmentAt(x, a));
    AdminPathInjective("style.css", SegmentAt(x, a));
  }

  lemma DistinctAt(names: seq<string>, i: nat, j: nat)
    requires Distinct(names) && i < |names| && j < |names|
    ensures names[i] == names[j] ==> i == j
  {
  }

  /** No (path, method) pair is registered twice, as long as table names are distinct
      identifiers (so they are non-empty, hold no `/` and are no asset name). */
  lemma RoutesUnique(names: seq<string>)
    requires Distinct(names)
    requires forall i :: 0 <= i < |names| ==> IsIdent(names[i])
    ensures forall p, q :: 0 <= p < q < |RouteTable(names)| ==>
      Key(RouteTable(names)[p]) != Key(RouteTable(names)[q])
  {
    var r := RouteTable(names);
    forall p, q | 0 <= p < q < |r| ensures Key(r[p]) != Key(r[q]) {
      RouteAt(names, p);
      RouteAt(names, q);
      if q < 3 {
        AdminPathInjective("", "script.js");
        AdminPathInjective("", "style.css");
        AdminPathInjective("script.js", "style.css");
      } else {
        var j, b := (q - 3) / 3, (q - 3) % 3;
        TableRouteAt(names[j], b);
        assert Key(r[q]) == (AdminPath(SegmentAt(names[j], b)), VerbAt(b));
        if p < 3 {
          FixedKeyDiffers(names[j], p, b);
        } else {
          var i, a := (p - 3) / 3, (p - 3) % 3;
          TableRouteAt(names[i], a);
          TableKeyInjective(names[i], names[j], a, b);
          DistinctAt(names, i, j);
          assert p == 3 + 3 * i + a && q == 3 + 3 * j + b;
        }
      }
    }
  }

  lemma MethodAtInjective(t1: string, a: nat, t2: string, b: nat)
    requires a < 3 && b < 3
    ensures CbIdent(t1, MethodAt(a)) == CbIdent(t2, MethodAt(b)) ==> t1 == t2 && a == b
  {
    if CbIdent(t1, MethodAt(a)) == CbIdent(t2, MethodAt(b)) {
      CbIdentInjective(t1, MethodAt(a), t2, MethodAt(b));
    }
  }

  /** Every generated handler is bound exactly once. */
  lemma HandlersUnique(names: seq<string>)
    requires Distinct(names)
    ensures forall p, q :: 0 <= p < q < |RouteTable(names)| ==>
      RouteTable(names)[p].handler != RouteTable(names)[q].handler
  {
    var r := RouteTable(names);
    forall p, q | 0 <= p < q < |r| ensures r[p].handler != r[q].handler {
      RouteAt(names, p);
      RouteAt(names, q);
      if 3 <= p {
        var i, a := (p - 3) / 3, (p - 3) % 3;
        var j, b := (q - 3) / 3, (q - 3) % 3;
        TableRouteAt(names[i], a);
        TableRouteAt(names[j], b);
        MethodAtInjective(names[i], a, names[j], b);
        DistinctAt(names, i, j);
      } else if 3 <= q {
        TableRouteAt(names[(q - 3) / 3], (q - 3) % 3);
      }
    }
  }

  /** Each table's three handlers are reachable at its paths. */
  lemma TableRoutesPresent(names: seq<string>, i: nat)
    requires i < |names|
    ensures Route(ListUrl(names[i]), Get, Callback(CbIdent(names[i], "get"))) in RouteTable(names)
    ensures Route(ListUrl(names[i]), Post, Callback(CbIdent(names[i], "post"))) in RouteTable(names)
    ensures Route(DeleteUrl(names[i]), Post, Callback(CbIdent(names[i], "delete"))) in RouteTable(names)
  {
    var r := RouteTable(names);
    var block := r[3 + 3 * i..6 + 3 * i];
    assert block == TableRoutes(names[i]);
    assert r[3 + 3 * i] == block[0] && r[4 + 3 * i] == block[1] && r[5 + 3 * i] == block[2];
  }

  /** A link of the navigation bar on every page: the table's list page, labelled with its name. */
  datatype NavLink = NavLink(href: string, text: string)

  function NavLinks(names: seq<string>): (r: seq<NavLink>)
    ensures |r| == |names|
    ensures forall i :: 0 <= i < |names| ==>
      r[i].text == names[i]
      && Route(r[i].href, Get, Callback(CbIdent(names[i], "get"))) in RouteTable(names)
  {
    var r := seq(|names|, i requires 0 <= i < |names| => NavLink(ListUrl(names[i]), names[i]));
    forall i | 0 <= i < |names|
      ensures Route(r[i].href, Get, Callback(CbIdent(names[i], "get"))) in RouteTable(names)
    {
      TableRoutesPresent(names, i);
    }
    r
  }
}
