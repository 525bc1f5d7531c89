/** Table schemas and the checks a publishable schema must pass. */
module Schema {
  import opened Base

  datatype DataType = Int | Text | Bool

  datatype Column = Column(id: U64, name: string, ty: DataType, nullable: bool)

  /** One table at one schema version. The durable definition has the same fields. */
  datatype TableSchema = TableSchema(
    id: U64,
    name: string,
    columns: seq<Column>,
    primaryKey: seq<U64>,
    version: U64,
    tabletCount: U32)

  predicate ValidColumns(columns: seq<Column>) {
    && (forall i | 0 <= i < |columns| :: columns[i].id != 0 && !IsBlank(columns[i].name))
    && (forall i, j | 0 <= i < j < |columns| :: columns[i].name != columns[j].name)
    && (forall i, j | 0 <= i < j < |columns| :: columns[i].id != columns[j].id)
  }

  /** `id` names a declared column that is not nullable. */
  predicate IsKeyColumn(columns: seq<Column>, id: U64) {
    exists c :: c in columns && c.id == id && !c.nullable
  }

  predicate ValidPrimaryKey(columns: seq<Column>, primaryKey: seq<U64>) {
    && (forall i, j | 0 <= i < j < |primaryKey| :: primaryKey[i] != primaryKey[j])
    && (forall i | 0 <= i < |primaryKey| :: IsKeyColumn(columns, primaryKey[i]))
  }

  predicate ValidDefinition(name: string, columns: seq<Column>, primaryKey: seq<U64>) {
    && !IsBlank(name)
    && columns != []
    && primaryKey != []
    && ValidColumns(columns)
    && ValidPrimaryKey(columns, primaryKey)
  }

  predicate ValidSchema(t: TableSchema) {
    && t.id != 0
    && t.version != 0
    && t.tabletCount != 0
    && ValidDefinition(t.name, t.columns, t.primaryKey)
  }

  /** The first column with this identifier, as `iter().find` returns it. */
  method FindColumn(columns: seq<Column>, id: U64) returns (r: Option<Column>)
    ensures r.Some? ==> r.value in columns && r.value.id == id
    ensures r.None? ==> forall c | c in columns :: c.id != id
  {
    for i := 0 to |columns|
      invariant forall j | 0 <= j < i :: columns[j].id != id
    {
      if columns[i].id == id {
        return Some(columns[i]);
      }
    }
    return None;
  }

  method ValidateColumns(columns: seq<Column>) returns (ok: bool)
    ensures ok <==> ValidColumns(columns)
  {
    var names: set<string>, ids: set<U64> := {}, {};
    for i := 0 to |columns|
      invariant names == set j | 0 <= j < i :: columns[j].name
      invariant ids == set j | 0 <= j < i :: columns[j].id
      invariant ValidColumns(columns[..i])
    {
      var c := columns[i];
      assert columns[..i + 1] == columns[..i] + [c];
      if c.id == 0 || IsBlank(c.name) || c.name in names || c.id in ids {
        return false;
      }
      names, ids := names + {c.name}, ids + {c.id};
    }
    assert columns[..|columns|] == columns;
    return true;
  }

  method ValidatePrimaryKey(columns: seq<Column>, primaryKey: seq<U64>) returns (ok: bool)
    requires ValidColumns(columns)
    ensures ok <==> ValidPrimaryKey(columns, primaryKey)
  {
    var ids: set<U64> := {};
    for i := 0 to |primaryKey|
      invariant ids == set j | 0 <= j < i :: primaryKey[j]
      invariant ValidPrimaryKey(columns, primaryKey[..i])
    {
      var id := primaryKey[i];
      assert primaryKey[..i + 1] == primaryKey[..i] + [id];
      if id in ids {
        return false;
      }
      ids := ids + {id};
      var column := FindColumn(columns, id);
      if column.None? || column.value.nullable {
        assert !IsKeyColumn(columns, primaryKey[i]);
        return false;
      }
      assert IsKeyColumn(columns, id);
    }
    assert primaryKey[..|primaryKey|] == primaryKey;
    return true;
  }

  method ValidateDefinition(name: string, columns: seq<Column>, primaryKey: seq<U64>)
    returns (ok: bool)
    ensures ok <==> ValidDefinition(name, columns, primaryKey)
  {
    if IsBlank(name) || columns == [] || primaryKey == [] {
      return false;
    }
    ok := ValidateColumns(columns);
    if ok {
      ok := ValidatePrimaryKey(columns, primaryKey);
    }
  }

  method ValidateSchema(t: TableSchema) returns (ok: bool)
    ensures ok <==> ValidSchema(t)
  {
    if t.id == 0 || t.version == 0 || t.tabletCount == 0 {
      return false;
    }
    ok := ValidateDefinition(t.name, t.columns, t.primaryKey);
  }
}
