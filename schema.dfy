/** The read-only schema catalog (ObSchemaManagerV2) as the generator sees it. */
module Schema {
  import opened Common

  /** ObColumnSchemaV2: id, name, type, declared size and whether the column carries join info. */
  datatype ColumnSchema = ColumnSchema(id: nat, name: string, ty: ObjType, size: int, hasJoinInfo: bool)

  /** One entry of ObRowkeyInfo: the rowkey column's id, type and maximum length. */
  datatype RowkeyColumn = RowkeyColumn(columnId: nat, ty: ObjType, length: int)

  /** ObTableSchema with its column array and its rowkey columns in declared order. */
  datatype TableSchema = TableSchema(id: nat, name: string, columns: seq<ColumnSchema>, rowkey: seq<RowkeyColumn>)

  /** The tables in the order table_begin()..table_end() visits them. */
  datatype Catalog = Catalog(tables: seq<TableSchema>)

  /** ObRowkeyInfo::is_rowkey_column. */
  predicate IsRowkeyColumn(rowkey: seq<RowkeyColumn>, columnId: nat) {
    exists k :: 0 <= k < |rowkey| && rowkey[k].columnId == columnId
  }

  /** Every table has at least one column (the column sampler divides by the column count). */
  predicate HasColumns(cat: Catalog) {
    forall t :: t in cat.tables ==> |t.columns| > 0
  }

  /** A catalog whose ids identify tables and columns, and whose rowkey entries describe columns of the table. */
  predicate WellFormed(cat: Catalog) {
    HasColumns(cat) &&
    (forall i, j :: 0 <= i < j < |cat.tables| ==> cat.tables[i].id != cat.tables[j].id) &&
    (forall t :: t in cat.tables ==> t.id != InvalidId) &&
    (forall t :: t in cat.tables ==> WellFormedTable(t))
  }

  predicate WellFormedTable(t: TableSchema) {
    (forall i, j :: 0 <= i < j < |t.columns| ==> t.columns[i].id != t.columns[j].id) &&
    (forall k :: 0 <= k < |t.rowkey| ==>
       exists c :: c in t.columns && c.id == t.rowkey[k].columnId && c.ty == t.rowkey[k].ty)
  }

  /** get_table_schema(name): the first table with that name. */
  function TableByName(cat: Catalog, name: string): (r: Option<TableSchema>)
    ensures r.Some? ==> r.value in cat.tables && r.value.name == name
    ensures r.None? <==> forall t :: t in cat.tables ==> t.name != name
  {
    FirstNamed(cat.tables, name)
  }

  function FirstNamed(ts: seq<TableSchema>, name: string): (r: Option<TableSchema>)
    ensures r.Some? ==> r.value in ts && r.value.name == name
    ensures r.None? <==> forall t :: t in ts ==> t.name != name
  {
    if ts == [] then None
    else if ts[0].name == name then Some(ts[0])
    else FirstNamed(ts[1..], name)
  }

  /** get_table_schema(table_id): the first table with that id. */
  function TableById(cat: Catalog, id: nat): (r: Option<TableSchema>)
    ensures r.Some? ==> r.value in cat.tables && r.value.id == id
    ensures r.None? <==> forall t :: t in cat.tables ==> t.id != id
  {
    FirstWithId(cat.tables, id)
  }

  function FirstWithId(ts: seq<TableSchema>, id: nat): (r: Option<TableSchema>)
    ensures r.Some? ==> r.value in ts && r.value.id == id
    ensures r.None? <==> forall t :: t in ts ==> t.id != id
  {
    if ts == [] then None
    else if ts[0].id == id then Some(ts[0])
    else FirstWithId(ts[1..], id)
  }

  /** The first column of `cols` with the given name. */
  function ColumnNamed(cols: seq<ColumnSchema>, name: string): (r: Option<ColumnSchema>)
    ensures r.Some? ==> r.value in cols && r.value.name == name
    ensures r.None? <==> forall c :: c in cols ==> c.name != name
  {
    if cols == [] then None
    else if cols[0].name == name then Some(cols[0])
    else ColumnNamed(cols[1..], name)
  }

  /** The first column of `cols` with the given id. */
  function ColumnWithId(cols: seq<ColumnSchema>, id: nat): (r: Option<ColumnSchema>)
    ensures r.Some? ==> r.value in cols && r.value.id == id
    ensures r.None? <==> forall c :: c in cols ==> c.id != id
  {
    if cols == [] then None
    else if cols[0].id == id then Some(cols[0])
    else ColumnWithId(cols[1..], id)
  }

  /** get_column_schema(table_name, column_name). */
  function ColumnByName(cat: Catalog, tableName: string, columnName: string): Option<ColumnSchema> {
    match TableByName(cat, tableName)
    case None => None
    case Some(t) => ColumnNamed(t.columns, columnName)
  }

  /** get_column_schema(table_id, column_id). */
  function ColumnById(cat: Catalog, tableId: nat, columnId: nat): Option<ColumnSchema> {
    match TableById(cat, tableId)
    case None => None
    case Some(t) => ColumnWithId(t.columns, columnId)
  }

  /** get_table_id: the id of the named table, or OB_SCHEMA_ERROR. */
  function GetTableId(cat: Catalog, tableName: string): (r: Result<nat>)
    ensures r.Ok? <==> exists t :: t in cat.tables && t.name == tableName
    ensures r.Ok? ==> exists t :: t in cat.tables && t.name == tableName && t.id == r.value
    ensures r.Fail? ==> r.error == SchemaError
  {
    match TableByName(cat, tableName)
    case None => Fail(SchemaError)
    case Some(t) => Ok(t.id)
  }

  /** get_column_id: the id of the named column of the named table, or OB_SCHEMA_ERROR. */
  function GetColumnId(cat: Catalog, tableName: string, columnName: string): (r: Result<nat>)
    ensures r.Ok? ==> exists t, c :: t in cat.tables && t.name == tableName && c in t.columns &&
                                     c.name == columnName && c.id == r.value
    ensures r.Fail? ==> r.error == SchemaError
    ensures ((exists t :: t in cat.tables && t.name == tableName) &&
             (forall t :: t in cat.tables && t.name == tableName ==>
                exists c :: c in t.columns && c.name == columnName)) ==> r.Ok?
  {
    match ColumnByName(cat, tableName, columnName)
    case None => Fail(SchemaError)
    case Some(c) => Ok(c.id)
  }

  /** In a well-formed catalog, looking up a table by its own id gives the table back. */
  lemma TableByOwnId(cat: Catalog, t: TableSchema)
    requires WellFormed(cat) && t in cat.tables
    ensures TableById(cat, t.id) == Some(t)
  {
    FirstWithOwnId(cat.tables, t);
  }

  lemma {:induction false} FirstWithOwnId(ts: seq<TableSchema>, t: TableSchema)
    requires forall i, j :: 0 <= i < j < |ts| ==> ts[i].id != ts[j].id
    requires t in ts
    ensures FirstWithId(ts, t.id) == Some(t)
  {
    if ts[0] != t {
      var i :| 0 <= i < |ts| && ts[i] == t;
      assert ts[0].id != ts[i].id;
      assert t in ts[1..];
      FirstWithOwnId(ts[1..], t);
    }
  }

  /** In a well-formed table, looking up a column by its own id gives the column back. */
  lemma {:induction false} ColumnByOwnId(cols: seq<ColumnSchema>, c: ColumnSchema)
    requires forall i, j :: 0 <= i < j < |cols| ==> cols[i].id != cols[j].id
    requires c in cols
    ensures ColumnWithId(cols, c.id) == Some(c)
  {
    if cols[0] != c {
      var i :| 0 <= i < |cols| && cols[i] == c;
      assert cols[0].id != cols[i].id;
      assert c in cols[1..];
      ColumnByOwnId(cols[1..], c);
    }
  }
}
