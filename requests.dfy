/** Random read requests: add_cell_to_get_param, build_rand_get_param, build_rand_mget_param, build_rand_scan_param. */
module Requests {
  import opened Common
  import opened Schema
  import opened Externals
  import opened Range
  import opened Selector

  /** ObCellInfo, restricted to the fields the generator reads or writes. */
  datatype CellInfo = CellInfo(tableId: nat, tableName: string, rowkey: Rowkey, columnId: nat, columnName: string, value: Obj)

  /** A cell addressed by table and column name; both ids are OB_INVALID_ID. */
  function NamedCell(tableName: string, rowkey: Rowkey, columnName: string): (c: CellInfo)
    ensures c.tableId == InvalidId && c.columnId == InvalidId && c.value == NullObj
    ensures c.tableName == tableName && c.rowkey == rowkey && c.columnName == columnName
  {
    CellInfo(InvalidId, tableName, rowkey, InvalidId, columnName, NullObj)
  }

  /** A cell addressed by table and column id; both names are empty. */
  function IdCell(tableId: nat, rowkey: Rowkey, columnId: nat): (c: CellInfo)
    ensures c.tableName == [] && c.columnName == [] && c.value == NullObj
    ensures c.tableId == tableId && c.rowkey == rowkey && c.columnId == columnId
  {
    CellInfo(tableId, [], rowkey, columnId, [], NullObj)
  }

  /** ObGetParam: the cells to read, the version range and the read-consistency flag. */
  class GetParam {
    var cells: seq<CellInfo>
    var versionRange: VersionRange
    var readConsistency: bool

    constructor()
      ensures cells == [] && versionRange == DefaultVersionRange && readConsistency
    {
      cells := [];
      versionRange := DefaultVersionRange;
      readConsistency := true;
    }

    /** add_cell: appends one cell. */
    method AddCell(c: CellInfo) returns (err: Err)
      modifies this
      ensures err == Success
      ensures cells == old(cells) + [c]
      ensures versionRange == old(versionRange) && readConsistency == old(readConsistency)
    {
      cells := cells + [c];
      err := Success;
    }

    method SetVersionRange(vr: VersionRange)
      modifies this
      ensures versionRange == vr
      ensures cells == old(cells) && readConsistency == old(readConsistency)
    {
      versionRange := vr;
    }

    method SetIsReadConsistency(consistent: bool)
      modifies this
      ensures readConsistency == consistent
      ensures cells == old(cells) && versionRange == old(versionRange)
    {
      readConsistency := consistent;
    }
  }

  /** add_cell_to_get_param by name: appends a cell naming the table, the rowkey and the column. */
  method AddNamedCellToGetParam(gp: GetParam, tableName: string, rowkey: Rowkey, columnName: string) returns (err: Err)
    modifies gp
    ensures err == Success
    ensures gp.cells == old(gp.cells) + [NamedCell(tableName, rowkey, columnName)]
    ensures gp.versionRange == old(gp.versionRange) && gp.readConsistency == old(gp.readConsistency)
  {
    err := gp.AddCell(NamedCell(tableName, rowkey, columnName));
  }

  /** add_cell_to_get_param by id: appends a cell giving the table id, the rowkey and the column id. */
  method AddIdCellToGetParam(gp: GetParam, tableId: nat, rowkey: Rowkey, columnId: nat) returns (err: Err)
    modifies gp
    ensures err == Success
    ensures gp.cells == old(gp.cells) + [IdCell(tableId, rowkey, columnId)]
    ensures gp.versionRange == old(gp.versionRange) && gp.readConsistency == old(gp.readConsistency)
  {
    err := gp.AddCell(IdCell(tableId, rowkey, columnId));
  }

  /**
   * The cell build_rand_get_param adds for one seed: the table chosen with the seed, a rowkey and
   * a column (rowkey columns included) of that table drawn with the same seed; or the first failure.
   */
  function RandGetCell(env: Env, cat: Catalog, tableName: Option<string>, seed: int): Result<CellInfo>
    requires HasColumns(cat)
  {
    match ChosenTable(env, cat, tableName, seed)
    case Fail(e) => Fail(e)
    case Ok(name) =>
      match ChooseRowkey(env, cat, name, seed)
      case Fail(e) => Fail(e)
      case Ok(rowkey) =>
        match ChooseColumn(env, cat, name, seed, false)
        case Fail(e) => Fail(e)
        case Ok(column) => Ok(NamedCell(name, rowkey, column))
  }

  /**
   * A generated get cell names its table and column by name only, with a rowkey drawn for that
   * table with the same seed; a failed table choice is reported as is.
   */
  lemma RandGetCellShape(env: Env, cat: Catalog, tableName: Option<string>, seed: int)
    requires HasColumns(cat)
    ensures var r := RandGetCell(env, cat, tableName, seed);
      r.Ok? ==> TableByName(cat, r.value.tableName).Some? &&
                env.randRowkey(TableByName(cat, r.value.tableName).value.rowkey, seed) == Ok(r.value.rowkey)
    ensures var r := RandGetCell(env, cat, tableName, seed);
      r.Ok? ==> r.value.tableId == InvalidId && r.value.columnId == InvalidId
    ensures ChosenTable(env, cat, tableName, seed).Fail? ==>
      RandGetCell(env, cat, tableName, seed) == Fail(ChosenTable(env, cat, tableName, seed).error)
  {
  }

  /**
   * In a well-formed catalog a generated get cell names a table of the catalog and one of its
   * Int or Varchar columns without join info.
   */
  lemma RandGetCellInWellFormedCatalog(env: Env, cat: Catalog, tableName: Option<string>, seed: int)
    requires WellFormed(cat)
    ensures var r := RandGetCell(env, cat, tableName, seed);
      r.Ok? ==> exists t, c :: t in cat.tables && c in t.columns && t.name == r.value.tableName &&
                               c.name == r.value.columnName && Acceptable(t.rowkey, c, false)
  {
    var chosen := ChosenTable(env, cat, tableName, seed);
    if chosen.Ok? && TableByName(cat, chosen.value).Some? {
      ChooseColumnInWellFormedCatalog(env, cat, chosen.value, seed, false);
    }
  }

  /** With "any", the table of a generated get cell is an application table of the catalog. */
  lemma RandGetCellAnyIsAppTable(env: Env, cat: Catalog, seed: int)
    requires HasColumns(cat)
    ensures var r := RandGetCell(env, cat, Some("any"), seed);
      r.Ok? ==> exists a :: a in cat.tables && a.name == r.value.tableName && IsAppTable(a)
  {
    var chosen := ChosenTable(env, cat, Some("any"), seed);
    if chosen.Ok? {
      ChooseAnyTable(env, cat, seed);
      AppTablesMembers(cat.tables);
      var apps := AppTables(cat.tables);
      var k :| 0 <= k < |apps| && chosen.value == apps[k].name;
      assert apps[k] in apps;
    }
  }

  /**
   * build_rand_get_param: choose a table, a rowkey and a column with one seed and add that cell to
   * the get param; the first failure is returned and nothing is added then.
   */
  method BuildRandGetParam(env: Env, cat: Catalog, gp: GetParam, seed: int, tableName: Option<string>) returns (err: Err)
    requires HasColumns(cat)
    modifies gp
    ensures var r := RandGetCell(env, cat, tableName, seed);
      err == r.Status() && gp.cells == old(gp.cells) + (if r.Ok? then [r.value] else [])
    ensures gp.versionRange == old(gp.versionRange) && gp.readConsistency == old(gp.readConsistency)
  {
    var name;
    err, name := ChooseTable(env, cat, tableName, seed);
    if err != Success {
      return;
    }
    match ChooseRowkey(env, cat, name, seed) {
      case Fail(e) =>
        err := e;
      case Ok(rowkey) =>
        match ChooseColumn(env, cat, name, seed, false) {
          case Fail(e) =>
            err := e;
          case Ok(column) =>
            err := AddNamedCellToGetParam(gp, name, rowkey, column);
        }
    }
  }

  /** The outcome of build_rand_get_param for each of the seeds start .. start + n - 1. */
  function GetCellResults(env: Env, cat: Catalog, tableName: Option<string>, start: int, n: nat): (rs: seq<Result<CellInfo>>)
    requires HasColumns(cat)
    ensures |rs| == n
  {
    if n == 0 then [] else GetCellResults(env, cat, tableName, start, n - 1) + [RandGetCell(env, cat, tableName, start + n - 1)]
  }

  /** The outcome recorded for seed s of the window is that of s. */
  lemma GetCellResultOfSeed(env: Env, cat: Catalog, tableName: Option<string>, start: int, n: nat, s: int)
    requires HasColumns(cat) && start <= s < start + n
    ensures GetCellResults(env, cat, tableName, start, n)[s - start] == RandGetCell(env, cat, tableName, s)
  {
    GetCellResultsAt(env, cat, tableName, start, n, s - start);
  }

  /** The outcome recorded for the j-th seed is that of seed start + j. */
  lemma {:induction false} GetCellResultsAt(env: Env, cat: Catalog, tableName: Option<string>, start: int, n: nat, j: nat)
    requires HasColumns(cat) && j < n
    ensures GetCellResults(env, cat, tableName, start, n)[j] == RandGetCell(env, cat, tableName, start + j)
  {
    if j < n - 1 {
      GetCellResultsAt(env, cat, tableName, start, n - 1, j);
    }
  }

  /**
   * The cells build_rand_mget_param adds for the seeds start .. start + n - 1, stopping at the first
   * seed that fails, with that seed's status.
   */
  function RandGetCells(env: Env, cat: Catalog, tableName: Option<string>, start: int, n: nat): (Err, seq<CellInfo>)
    requires HasColumns(cat)
  {
    UntilFailure(GetCellResults(env, cat, tableName, start, n))
  }

  /**
   * The multi-get holds, in seed order, the cell of each seed before the first failing one, and
   * reports that seed's failure.
   */
  lemma RandGetCellsStopsAtFirstFailure(env: Env, cat: Catalog, tableName: Option<string>, start: int, n: nat)
    requires HasColumns(cat)
    ensures var r := RandGetCells(env, cat, tableName, start, n);
      (r.0 == Success ==> |r.1| == n) &&
      (forall j :: 0 <= j < |r.1| ==> RandGetCell(env, cat, tableName, start + j) == Ok(r.1[j])) &&
      (r.0 != Success ==> |r.1| < n && RandGetCell(env, cat, tableName, start + |r.1|) == Fail(r.0))
  {
    var r := RandGetCells(env, cat, tableName, start, n);
    UntilFailureStops(GetCellResults(env, cat, tableName, start, n));
    forall j | 0 <= j < |r.1|
      ensures RandGetCell(env, cat, tableName, start + j) == Ok(r.1[j])
    {
      GetCellResultsAt(env, cat, tableName, start, n, j);
    }
    if r.0 != Success {
      GetCellResultsAt(env, cat, tableName, start, n, |r.1|);
    }
  }

  /** The multi-get succeeds exactly when every seed in the window does. */
  lemma RandGetCellsSucceedsIffEverySeedDoes(env: Env, cat: Catalog, tableName: Option<string>, start: int, n: nat)
    requires HasColumns(cat)
    ensures RandGetCells(env, cat, tableName, start, n).0 == Success <==>
      forall s :: start <= s < start + n ==> RandGetCell(env, cat, tableName, s).Ok?
  {
    var rs := GetCellResults(env, cat, tableName, start, n);
    UntilFailureStops(rs);
    if RandGetCells(env, cat, tableName, start, n).0 == Success {
      forall s | start <= s < start + n
        ensures RandGetCell(env, cat, tableName, s).Ok?
      {
        GetCellResultOfSeed(env, cat, tableName, start, n, s);
      }
    } else {
      var j :| 0 <= j < n && !rs[j].Ok?;
      GetCellResultsAt(env, cat, tableName, start, n, j);
    }
  }

  /** One iteration of build_rand_mget_param: the cell of seed start + k, which is result k of the window. */
  method MgetStep(env: Env, cat: Catalog, gp: GetParam, start: int, n: nat, k: nat, tableName: Option<string>,
                  ghost all: seq<Result<CellInfo>>, ghost added: seq<CellInfo>) returns (err: Err, ghost appended: seq<CellInfo>)
    requires HasColumns(cat) && k < n && all == GetCellResults(env, cat, tableName, start, n)
    requires (Success, added) == UntilFailure(all[..k])
    modifies gp
    ensures gp.cells == old(gp.cells) + appended
    ensures gp.versionRange == old(gp.versionRange) && gp.readConsistency == old(gp.readConsistency)
    ensures (err, added + appended) == UntilFailure(all[..k + 1])
  {
    GetCellResultsAt(env, cat, tableName, start, n, k);
    err := BuildRandGetParam(env, cat, gp, start + k, tableName);
    UntilFailureStep(all, k);
    appended := if all[k].Ok? then [all[k].value] else [];
  }

  /**
   * build_rand_mget_param: a positive start version sets the version floor first; then one random
   * cell per seed in [start, end) is added until a seed fails; on success the request is marked
   * as not needing read consistency.
   */
  method BuildRandMgetParam(env: Env, cat: Catalog, gp: GetParam, start: int, end: int,
                            tableName: Option<string>, startVersion: int) returns (err: Err)
    requires HasColumns(cat)
    modifies gp
    ensures var r := RandGetCells(env, cat, tableName, start, if end > start then end - start else 0);
      err == r.0 && gp.cells == old(gp.cells) + r.1
    ensures gp.versionRange == if startVersion > 0 then MakeVersionRange(DefaultVersionRange, startVersion).1
                               else old(gp.versionRange)
    ensures gp.readConsistency == if err == Success then false else old(gp.readConsistency)
  {
    err := Success;
    if startVersion > 0 {
      var made := MakeVersionRange(DefaultVersionRange, startVersion);
      err := made.0;
      if err == Success {
        gp.SetVersionRange(made.1);
      }
    }
    var n := if end > start then end - start else 0;
    ghost var all := GetCellResults(env, cat, tableName, start, n);
    ghost var added: seq<CellInfo> := [];
    var k := 0;
    assert all[..0] == [];
    while err == Success && k < n
      invariant 0 <= k <= n
      invariant gp.cells == old(gp.cells) + added
      invariant (err, added) == UntilFailure(all[..k])
      invariant gp.versionRange == if startVersion > 0 then MakeVersionRange(DefaultVersionRange, startVersion).1
                                   else old(gp.versionRange)
      invariant gp.readConsistency == old(gp.readConsistency)
    {
      ghost var appended;
      err, appended := MgetStep(env, cat, gp, start, n, k, tableName, all, added);
      added := added + appended;
      k := k + 1;
    }
    if err != Success {
      UntilFailureFrozen(all, k);
    } else {
      assert all[..k] == all;
    }
    if err == Success {
      gp.SetIsReadConsistency(false);
    }
  }

  /**
   * build_rand_scan_param: the table is chosen with seed `start`, the start and end rowkeys are drawn
   * with seeds `start` and `end`; on success the scan covers the closed range between them, by
   * table name, with the version floor, at most 200 rows from offset 0 and no read consistency;
   * on failure the scan param is left as it was.
   */
  method BuildRandScanParam(env: Env, cat: Catalog, param: ScanParam, start: int, end: int,
                            tableName: Option<string>, startVersion: int) returns (err: Err, p: ScanParam)
    ensures err != Success ==> p == param
    ensures ChosenTable(env, cat, tableName, start).Fail? ==> err == ChosenTable(env, cat, tableName, start).error
    ensures err == Success <==>
      ChosenTable(env, cat, tableName, start).Ok? &&
      ChooseRowkey(env, cat, ChosenTable(env, cat, tableName, start).value, start).Ok? &&
      ChooseRowkey(env, cat, ChosenTable(env, cat, tableName, start).value, end).Ok?
    ensures err == Success ==>
      var name := ChosenTable(env, cat, tableName, start).value;
      p.tableId == InvalidId && p.tableName == name &&
      p.range.startKey == ChooseRowkey(env, cat, name, start).value &&
      p.range.endKey == ChooseRowkey(env, cat, name, end).value &&
      p.range.border.inclusiveStart && p.range.border.inclusiveEnd &&
      !p.range.border.minValue && !p.range.border.maxValue &&
      (startVersion > 0 ==> forall v :: Admits(p.versionRange, v) <==> v >= startVersion) &&
      p.limitOffset == 0 && p.limitCount == ScanLimit && !p.readConsistency &&
      (startVersion <= 0 ==> p.versionRange == DefaultVersionRange) &&
      p == SetRange2(param, name, startVersion, ChooseRowkey(env, cat, name, start).value,
                     ChooseRowkey(env, cat, name, end).value).1.(limitOffset := 0, limitCount := ScanLimit, readConsistency := false)
  {
    p := param;
    var name;
    err, name := ChooseTable(env, cat, tableName, start);
    if err != Success {
      return;
    }
    var startKey := ChooseRowkey(env, cat, name, start);
    if startKey.Fail? {
      err := startKey.error;
      return;
    }
    var endKey := ChooseRowkey(env, cat, name, end);
    if endKey.Fail? {
      err := endKey.error;
      return;
    }
    var ranged := SetRange2(p, name, startVersion, startKey.value, endKey.value);
    err := ranged.0;
    if err == Success {
      p := ranged.1.(limitOffset := 0, limitCount := ScanLimit);
      p := p.(readConsistency := false);
    }
  }
}
