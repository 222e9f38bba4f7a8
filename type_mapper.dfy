/** `ctype`: the field type of the generated record for each column, and the record
    shape (field name, kind, foreign-key flag) built from it in column order. */
module TypeMapper {
  import opened Schema

  /** The four value kinds: `i64`, `String`, `f32`, `Vec<u8>`. */
  datatype Scalar = I64 | Str | F32 | Bytes

  /** A bare kind, or the `Option` of one. */
  datatype ValueKind = Bare(scalar: Scalar) | Nullable(scalar: Scalar)

  /** The declared type that each scalar comes from. */
  function DeclaredType(s: Scalar): string {
    match s
    case I64 => "INTEGER"
    case Str => "TEXT"
    case F32 => "FLOAT"
    case Bytes => "BLOB"
  }

  /** Total or fail: a supported declared type gives the kind it declares, bare exactly
      when the not-null flag is 1; any other type aborts naming the column. */
  function CType(col: Col): (r: Result<ValueKind, GenError>)
    ensures r.Ok? ==> DeclaredType(r.value.scalar) == col.coltype
    ensures r.Ok? ==> (r.value.Bare? <==> col.notnull == 1)
    ensures r.Err? ==> r.error == UnsupportedType(col.coltype, col.name)
    ensures r.Err? ==> forall s: Scalar :: DeclaredType(s) != col.coltype
  {
    if col.notnull == 1 then
      if col.coltype == "INTEGER" then Ok(Bare(I64))
      else if col.coltype == "TEXT" then Ok(Bare(Str))
      else if col.coltype == "FLOAT" then Ok(Bare(F32))
      else if col.coltype == "BLOB" then Ok(Bare(Bytes))
      else Err(UnsupportedType(col.coltype, col.name))
    else
      if col.coltype == "INTEGER" then Ok(Nullable(I64))
      else if col.coltype == "TEXT" then Ok(Nullable(Str))
      else if col.coltype == "FLOAT" then Ok(Nullable(F32))
      else if col.coltype == "BLOB" then Ok(Nullable(Bytes))
      else Err(UnsupportedType(col.coltype, col.name))
  }

  /** The mapping is onto: every kind is produced by its declared type and a flag. */
  lemma CTypeOnto(k: ValueKind, name: string, fk: Option<string>)
    ensures CType(Col(name, DeclaredType(k.scalar), if k.Bare? then 1 else 0, fk)) == Ok(k)
  {
  }

  /** One field of the generated record struct. */
  datatype Field = Field(name: string, kind: ValueKind, isFk: bool)

  function FieldOf(c: Col): Result<Field, GenError> {
    match CType(c)
    case Ok(k) => Ok(Field(c.name, k, c.fk.Some?))
    case Err(e) => Err(e)
  }

  /** The record struct: one field per column in declared order, or the error of the
      first column whose type is unsupported. */
  function RecordShape(t: Table): (r: Result<seq<Field>, GenError>)
    ensures r.Ok? <==> forall i :: 0 <= i < |t.columns| ==> CType(t.columns[i]).Ok?
    ensures r.Ok? ==> |r.value| == |t.columns|
    ensures r.Ok? ==> forall i :: 0 <= i < |t.columns| ==>
      r.value[i] == Field(t.columns[i].name, CType(t.columns[i]).value, t.columns[i].fk.Some?)
    ensures r.Err? ==> exists i :: 0 <= i < |t.columns| && CType(t.columns[i]) == Err(r.error)
                                   && forall j :: 0 <= j < i ==> CType(t.columns[j]).Ok?
  {
    var r := TryMap(t.columns, FieldOf);
    assert forall i :: 0 <= i < |t.columns| ==> (FieldOf(t.columns[i]).Ok? <==> CType(t.columns[i]).Ok?);
    r
  }
}
