/** The seeded selectors: rand_choose_column, choose_column, choose_rowkey, choose_value and choose_table. */
module Selector {
  import opened Common
  import opened Schema
  import opened Externals

  /** A column rand_choose_column keeps: no join info, not a rowkey column when those are excluded, type Int or Varchar. */
  predicate Acceptable(rowkey: seq<RowkeyColumn>, col: ColumnSchema, excludeRowkey: bool) {
    !col.hasJoinInfo && !(excludeRowkey && IsRowkeyColumn(rowkey, col.id)) &&
    (col.ty == IntType || col.ty == VarcharType)
  }

  /** The column index drawn at attempt k (counting from 0): the seed stepped k + 1 times, modulo n. */
  function DrawAt(rand2: int -> nat, seed: int, n: nat, k: nat): (d: nat)
    requires n > 0
    ensures d < n
  {
    Walk(rand2, seed, k + 1) % n
  }

  /** The first acceptable draw among attempts k .. MaxRetry - 1, or -1. */
  function ColumnChoiceFrom(rand2: int -> nat, rowkey: seq<RowkeyColumn>, cols: seq<ColumnSchema>,
                            seed: int, excludeRowkey: bool, k: nat): (r: int)
    requires |cols| > 0
    ensures -1 <= r < |cols|
    ensures r >= 0 ==> Acceptable(rowkey, cols[r], excludeRowkey)
    decreases MaxRetry - k
  {
    if k >= MaxRetry then -1
    else
      var d := DrawAt(rand2, seed, |cols|, k);
      if Acceptable(rowkey, cols[d], excludeRowkey) then d
      else ColumnChoiceFrom(rand2, rowkey, cols, seed, excludeRowkey, k + 1)
  }

  /** What rand_choose_column returns: the first acceptable one of the first MaxRetry draws, or -1. */
  function ColumnChoice(rand2: int -> nat, rowkey: seq<RowkeyColumn>, cols: seq<ColumnSchema>,
                        seed: int, excludeRowkey: bool): int
    requires |cols| > 0
  {
    ColumnChoiceFrom(rand2, rowkey, cols, seed, excludeRowkey, 0)
  }

  /**
   * rand_choose_column: a rejection sampler that steps the seed with rand2 at most MaxRetry times
   * and keeps the first drawn column that is acceptable.
   */
  method RandChooseColumn(rand2: int -> nat, rowkey: seq<RowkeyColumn>, cols: seq<ColumnSchema>,
                          seed: int, excludeRowkey: bool) returns (columnId: int)
    requires |cols| > 0
    ensures columnId == ColumnChoice(rand2, rowkey, cols, seed, excludeRowkey)
    ensures -1 <= columnId < |cols|
    ensures columnId >= 0 ==> Acceptable(rowkey, cols[columnId], excludeRowkey)
  {
    columnId := -1;
    var s := seed;
    var i := 0;
    while i < MaxRetry && columnId < 0
      invariant 0 <= i <= MaxRetry
      invariant s == Walk(rand2, seed, i)
      invariant columnId < 0 ==>
        (columnId == -1 &&
         ColumnChoice(rand2, rowkey, cols, seed, excludeRowkey) ==
         ColumnChoiceFrom(rand2, rowkey, cols, seed, excludeRowkey, i))
      invariant columnId >= 0 ==> columnId == ColumnChoice(rand2, rowkey, cols, seed, excludeRowkey)
    {
      s := rand2(s);
      columnId := s % |cols|;
      if cols[columnId].hasJoinInfo {
        columnId := -1;
      } else if excludeRowkey && IsRowkeyColumn(rowkey, cols[columnId].id) {
        columnId := -1;
      } else {
        match cols[columnId].ty
        case IntType =>
        case VarcharType =>
        case _ => columnId := -1;
      }
      i := i + 1;
    }
  }

  /** The draws from attempt k on: the choice is found by some attempt iff some draw is acceptable, and it is the first such. */
  lemma {:induction false} ColumnChoiceFromCharacterized(rand2: int -> nat, rowkey: seq<RowkeyColumn>,
                                                         cols: seq<ColumnSchema>, seed: int,
                                                         excludeRowkey: bool, k: nat)
    requires |cols| > 0 && k <= MaxRetry
    ensures var r := ColumnChoiceFrom(rand2, rowkey, cols, seed, excludeRowkey, k);
      (r >= 0 <==> exists j :: k <= j < MaxRetry &&
                     Acceptable(rowkey, cols[DrawAt(rand2, seed, |cols|, j)], excludeRowkey)) &&
      (r >= 0 ==> exists j :: k <= j < MaxRetry && r == DrawAt(rand2, seed, |cols|, j) &&
                     forall i :: k <= i < j ==> !Acceptable(rowkey, cols[DrawAt(rand2, seed, |cols|, i)], excludeRowkey))
    decreases MaxRetry - k
  {
    if k < MaxRetry {
      ColumnChoiceFromCharacterized(rand2, rowkey, cols, seed, excludeRowkey, k + 1);
    }
  }

  /**
   * rand_choose_column returns a column index or -1; it returns an index exactly when one of the
   * first MaxRetry draws is acceptable, and then it is the first acceptable draw.
   */
  lemma ColumnChoiceCharacterized(rand2: int -> nat, rowkey: seq<RowkeyColumn>, cols: seq<ColumnSchema>,
                                  seed: int, excludeRowkey: bool)
    requires |cols| > 0
    ensures var r := ColumnChoice(rand2, rowkey, cols, seed, excludeRowkey);
      (r >= 0 <==> exists j :: 0 <= j < MaxRetry &&
                     Acceptable(rowkey, cols[DrawAt(rand2, seed, |cols|, j)], excludeRowkey)) &&
      (r >= 0 ==> exists j :: 0 <= j < MaxRetry && r == DrawAt(rand2, seed, |cols|, j) &&
                     forall i :: 0 <= i < j ==> !Acceptable(rowkey, cols[DrawAt(rand2, seed, |cols|, i)], excludeRowkey))
  {
    ColumnChoiceFromCharacterized(rand2, rowkey, cols, seed, excludeRowkey, 0);
  }

  /**
   * choose_column: the name of the column rand_choose_column draws for the named table; the
   * rowkey information comes from the table found by name, the column array from the table found
   * by its id. A missing table is OB_SCHEMA_ERROR, an exhausted sampler OB_ERR_UNEXPECTED.
   */
  function ChooseColumn(env: Env, cat: Catalog, tableName: string, seed: int, excludeRowkey: bool): (r: Result<string>)
    requires HasColumns(cat)
    ensures r.Fail? ==> r.error == SchemaError || r.error == ErrUnexpected
    ensures (r.Fail? && r.error == SchemaError) <==>
      (TableByName(cat, tableName).None? || TableById(cat, TableByName(cat, tableName).value.id).None?)
    ensures r.Ok? ==> exists t, c :: t in cat.tables && c in t.columns && c.name == r.value &&
                                     Acceptable(TableByName(cat, tableName).value.rowkey, c, excludeRowkey)
  {
    match TableByName(cat, tableName)
    case None => Fail(SchemaError)
    case Some(t) =>
      match TableById(cat, t.id)
      case None => Fail(SchemaError)
      case Some(byId) =>
        var idx := ColumnChoice(env.rand2, t.rowkey, byId.columns, seed, excludeRowkey);
        if idx < 0 then Fail(ErrUnexpected) else Ok(byId.columns[idx].name)
  }

  /**
   * In a well-formed catalog, choose_column names an acceptable column of the named table, and it
   * fails with OB_ERR_UNEXPECTED exactly when all MaxRetry draws were rejected.
   */
  lemma ChooseColumnInWellFormedCatalog(env: Env, cat: Catalog, tableName: string, seed: int, excludeRowkey: bool)
    requires WellFormed(cat) && TableByName(cat, tableName).Some?
    ensures var t := TableByName(cat, tableName).value;
      var r := ChooseColumn(env, cat, tableName, seed, excludeRowkey);
      (r.Ok? ==> exists c :: c in t.columns && c.name == r.value && Acceptable(t.rowkey, c, excludeRowkey)) &&
      (r == Fail(ErrUnexpected) <==>
         forall j :: 0 <= j < MaxRetry ==>
           !Acceptable(t.rowkey, t.columns[DrawAt(env.rand2, seed, |t.columns|, j)], excludeRowkey))
  {
    var t := TableByName(cat, tableName).value;
    TableByOwnId(cat, t);
    ColumnChoiceCharacterized(env.rand2, t.rowkey, t.columns, seed, excludeRowkey);
    var idx := ColumnChoice(env.rand2, t.rowkey, t.columns, seed, excludeRowkey);
    if idx >= 0 {
      assert t.columns[idx] in t.columns;
    }
  }

  /** choose_rowkey: a random rowkey shaped by the named table's rowkey columns, or OB_SCHEMA_ERROR. */
  function ChooseRowkey(env: Env, cat: Catalog, tableName: string, seed: int): (r: Result<Rowkey>)
    ensures TableByName(cat, tableName).None? ==> r == Fail(SchemaError)
    ensures TableByName(cat, tableName).Some? ==>
      r == env.randRowkey(TableByName(cat, tableName).value.rowkey, seed)
  {
    match TableByName(cat, tableName)
    case None => Fail(SchemaError)
    case Some(t) => env.randRowkey(t.rowkey, seed)
  }

  /** choose_value: a random value of the named column's type and size, or OB_SCHEMA_ERROR. */
  function ChooseValue(env: Env, cat: Catalog, tableName: string, columnName: string, seed: int): (r: Result<Obj>)
    ensures ColumnByName(cat, tableName, columnName).None? ==> r == Fail(SchemaError)
    ensures ColumnByName(cat, tableName, columnName).Some? ==>
      var c := ColumnByName(cat, tableName, columnName).value;
      r == env.randObj(c.ty, c.size, seed)
  {
    match ColumnByName(cat, tableName, columnName)
    case None => Fail(SchemaError)
    case Some(c) => env.randObj(c.ty, c.size, seed)
  }

  /** A table whose id lies in the application window [OB_APP_MIN_TABLE_ID, OB_APP_MIN_TABLE_ID + 10000). */
  predicate IsAppTable(t: TableSchema) {
    AppMinTableId <= t.id < AppMinTableId + AppTableWindow
  }

  /** The application tables of `ts`, in catalog order. */
  function AppTables(ts: seq<TableSchema>): seq<TableSchema> {
    if ts == [] then []
    else AppTables(ts[..|ts| - 1]) + (if IsAppTable(ts[|ts| - 1]) then [ts[|ts| - 1]] else [])
  }

  /** The application tables are exactly the tables whose id lies in the application window. */
  lemma {:induction false} AppTablesMembers(ts: seq<TableSchema>)
    ensures forall t :: t in AppTables(ts) <==> t in ts && IsAppTable(t)
  {
    if ts != [] {
      var last := ts[|ts| - 1];
      assert ts == ts[..|ts| - 1] + [last];
      AppTablesMembers(ts[..|ts| - 1]);
    }
  }

  /** The weight choose_table gives the j-th application table it visits (counting from 0). */
  function Weight(rand2: int -> nat, seed: int, j: nat): nat {
    rand2(Walk(rand2, seed, j))
  }

  /**
   * The index of the table that the running maximum keeps after visiting n application tables:
   * the last one whose weight strictly exceeded the maximum so far; -1 when n == 0.
   */
  function Keeper(rand2: int -> nat, seed: int, n: nat): (k: int)
    ensures -1 <= k < n
    ensures n > 0 ==> k >= 0
  {
    if n == 0 then -1
    else
      var k := Keeper(rand2, seed, n - 1);
      if Weight(rand2, seed, n - 1) > (if k < 0 then -1 else Weight(rand2, seed, k)) then n - 1 else k
  }

  /** The kept table has the largest weight, and every table visited before it a strictly smaller one. */
  lemma {:induction false} KeeperIsFirstMaximum(rand2: int -> nat, seed: int, n: nat)
    requires n > 0
    ensures var k := Keeper(rand2, seed, n);
      (forall j :: 0 <= j < n ==> Weight(rand2, seed, j) <= Weight(rand2, seed, k)) &&
      (forall j :: 0 <= j < k ==> Weight(rand2, seed, j) < Weight(rand2, seed, k))
  {
    if n > 1 {
      KeeperIsFirstMaximum(rand2, seed, n - 1);
    }
  }

  /** What choose_table yields for a table name: null, an expandable name pattern, or "any". */
  function ChosenTable(env: Env, cat: Catalog, tableName: Option<string>, seed: int): Result<string> {
    match tableName
    case None => Fail(InvalidArgument)
    case Some(spec) =>
      if spec != "any" then
        match env.expand(spec)
        case Fail(e) => Fail(e)
        case Ok(expanded) =>
          match env.choose(expanded, seed)
          case None => Fail(EntryNotExist)
          case Some(s) => Ok(s)
      else
        var apps := AppTables(cat.tables);
        var k := Keeper(env.rand2, seed, |apps|);
        if k < 0 then Fail(EntryNotExist) else Ok(apps[k].name)
  }

  /**
   * For "any", choose_table fails with OB_ENTRY_NOT_EXIST exactly when the catalog has no
   * application table; otherwise it picks the first application table of largest weight, where the
   * j-th application table in catalog order weighs rand2 applied j + 1 times to the seed.
   */
  lemma ChooseAnyTable(env: Env, cat: Catalog, seed: int)
    ensures var r := ChosenTable(env, cat, Some("any"), seed);
      var apps := AppTables(cat.tables);
      (r == Fail(EntryNotExist) <==> forall t :: t in cat.tables ==> !IsAppTable(t)) &&
      (r.Ok? ==> exists k :: 0 <= k < |apps| && r.value == apps[k].name &&
                   (forall j :: 0 <= j < |apps| ==> Weight(env.rand2, seed, j) <= Weight(env.rand2, seed, k)) &&
                   (forall j :: 0 <= j < k ==> Weight(env.rand2, seed, j) < Weight(env.rand2, seed, k)))
  {
    var apps := AppTables(cat.tables);
    AppTablesMembers(cat.tables);
    if |apps| > 0 {
      KeeperIsFirstMaximum(env.rand2, seed, |apps|);
      assert apps[0] in apps;
    }
  }

  /**
   * choose_table: null is OB_INVALID_ARGUMENT; a name other than "any" is expanded and one of the
   * expansions chosen by seed; "any" walks the catalog, stepping the weight with rand2 on each
   * application table and keeping a table whenever its weight strictly exceeds the maximum so far.
   */
  method ChooseTable(env: Env, cat: Catalog, tableName: Option<string>, seed: int) returns (err: Err, name: string)
    ensures ChosenTable(env, cat, tableName, seed) == if err == Success then Ok(name) else Fail(err)
  {
    name := "";
    if tableName.None? {
      err := InvalidArgument;
      return;
    }
    if tableName.value != "any" {
      match env.expand(tableName.value) {
        case Fail(e) =>
          err := e;
        case Ok(expanded) =>
          match env.choose(expanded, seed) {
            case None =>
              err := EntryNotExist;
            case Some(s) =>
              err, name := Success, s;
          }
      }
      return;
    }
    var chosen := ChooseAppTable(env, cat, seed);
    if chosen.None? {
      err := EntryNotExist;
    } else {
      err, name := Success, chosen.value.name;
    }
  }

  /**
   * choose_table's loop for "any": walk the catalog, drawing the next weight for each application
   * table and keeping the first table of largest weight.
   */
  method ChooseAppTable(env: Env, cat: Catalog, seed: int) returns (chosen: Option<TableSchema>)
    ensures var apps := AppTables(cat.tables);
      (|apps| == 0 ==> chosen.None?) &&
      (|apps| > 0 ==> chosen == Some(apps[Keeper(env.rand2, seed, |apps|)]))
  {
    var w := seed;
    var maxWeight := -1;
    chosen := None;
    ghost var visited := 0;
    for i := 0 to |cat.tables|
      invariant visited == |AppTables(cat.tables[..i])|
      invariant w == Walk(env.rand2, seed, visited)
      invariant visited == 0 ==> chosen.None? && maxWeight == -1
      invariant visited > 0 ==>
        var k := Keeper(env.rand2, seed, visited);
        0 <= k < visited &&
        chosen == Some(AppTables(cat.tables[..i])[k]) && maxWeight == Weight(env.rand2, seed, k)
    {
      var t := cat.tables[i];
      assert cat.tables[..i + 1][..i] == cat.tables[..i];
      if AppMinTableId <= t.id && t.id < AppMinTableId + AppTableWindow {
        w := env.rand2(w);
        visited := visited + 1;
        if w > maxWeight {
          maxWeight := w;
          chosen := Some(t);
        }
      }
    }
    assert cat.tables[..|cat.tables|] == cat.tables;
  }
}
