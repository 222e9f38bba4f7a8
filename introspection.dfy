/** Which catalog tables get an admin page. The catalog listing and the per-table
    column query are read from the database; here they arrive as data, one `Table`
    per catalog row, in the order the catalog lists them. */
module Introspection {
  import opened Schema
  import opened Text

  /** Tables whose names carry the engine's or the generator's reserved prefix are skipped. */
  predicate IsUserTable(name: string) {
    !StartsWith(name, "sqlite_") && !StartsWith(name, "__")
  }

  /** The kept tables, in catalog order. */
  function Retained(catalog: seq<Table>): seq<Table> {
    if |catalog| == 0 then []
    else
      var t := catalog[|catalog| - 1];
      Retained(catalog[..|catalog| - 1]) + (if IsUserTable(t.name) then [t] else [])
  }

  /** The loop of `tables()`: push every user table onto the result. */
  method Tables(catalog: seq<Table>) returns (res: seq<Table>)
    ensures res == Retained(catalog)
  {
    res := [];
    for i := 0 to |catalog|
      invariant res == Retained(catalog[..i])
    {
      var dbtable := catalog[i];
      if IsUserTable(dbtable.name) {
        res := res + [dbtable];
      }
      assert catalog[..i + 1][..i] == catalog[..i];
    }
    assert catalog[..|catalog|] == catalog;
  }

  /** A table (with its column list untouched) is kept iff it is in the catalog and
      its name starts with neither reserved prefix. */
  lemma {:induction false} RetainedMembers(catalog: seq<Table>, t: Table)
    ensures t in Retained(catalog) <==> t in catalog && IsUserTable(t.name)
  {
    if |catalog| > 0 {
      var init := catalog[..|catalog| - 1];
      RetainedMembers(init, t);
      assert catalog == init + [catalog[|catalog| - 1]];
    }
  }

  /** Order is kept: what is retained from an earlier stretch of the catalog comes first. */
  lemma {:induction false} RetainedAppend(a: seq<Table>, b: seq<Table>)
    ensures Retained(a + b) == Retained(a) + Retained(b)
  {
    if |b| == 0 {
      assert a + b == a;
    } else {
      var init := b[..|b| - 1];
      RetainedAppend(a, init);
      assert (a + b)[..|a + b| - 1] == a + init;
      assert (a + b)[|a + b| - 1] == b[|b| - 1];
    }
  }
}
