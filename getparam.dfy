/** Turning generated rows into a multi-get request: add_row and build_get_param. */
module GetParams {
  import opened Common
  import opened Range
  import opened Requests
  import opened Rows

  /** An ObRow as the row store hands it out: one cell per descriptor entry. */
  predicate WellShaped(row: Row) {
    |row.desc| == |row.cells|
  }

  /** The rowkey length fits the row: add_row copies that many leading cells into the rowkey. */
  predicate RowkeyFits(row: Row, rowkeySize: int) {
    WellShaped(row) && 0 <= rowkeySize && (|row.cells| > 0 ==> rowkeySize <= |row.cells|)
  }

  /** The rowkey add_row reads off a row: its first rowkeySize values. */
  function RowRowkey(row: Row, rowkeySize: nat): Rowkey
    requires rowkeySize <= |row.cells|
  {
    Key(row.cells[..rowkeySize])
  }

  /** The cells add_row adds for a row: one per cell, with the cell's table and column id and the row's rowkey. */
  function RowReadCells(row: Row, rowkeySize: nat): seq<CellInfo>
    requires rowkeySize <= |row.cells|
  {
    seq(|row.desc|, i requires 0 <= i < |row.desc| => IdCell(row.desc[i].tableId, RowRowkey(row, rowkeySize), row.desc[i].columnId))
  }

  /**
   * What add_row reports and appends: OB_INVALID_ARGUMENT and nothing without an allocator or for a
   * row without cells (whose first cell cannot be read), otherwise one read cell per cell.
   */
  function AddRowOutcome(hasAllocator: bool, row: Row, rowkeySize: int): (Err, seq<CellInfo>)
    requires RowkeyFits(row, rowkeySize)
  {
    if !hasAllocator || |row.cells| == 0 then (InvalidArgument, [])
    else (Success, RowReadCells(row, rowkeySize))
  }

  /**
   * add_row splits a row into its rowkey and its cells: every cell it adds carries the row's first
   * rowkeySize values as rowkey and no names or value, and reading back the (table id, column id)
   * of the added cells gives the row's descriptor, in order.
   */
  lemma AddRowSplitsRowkey(hasAllocator: bool, row: Row, rowkeySize: int)
    requires RowkeyFits(row, rowkeySize)
    ensures var o := AddRowOutcome(hasAllocator, row, rowkeySize);
      (o.0 == Success <==> hasAllocator && |row.cells| > 0) &&
      (o.0 != Success ==> o == (InvalidArgument, [])) &&
      (o.0 == Success ==>
         |o.1| == |row.cells| &&
         (forall i :: 0 <= i < |o.1| ==>
            o.1[i].rowkey == Key(row.cells[..rowkeySize]) && o.1[i].tableName == [] && o.1[i].columnName == [] &&
            o.1[i].value == NullObj) &&
         seq(|o.1|, i requires 0 <= i < |o.1| => ColumnRef(o.1[i].tableId, o.1[i].columnId)) == row.desc)
  {
  }

  /**
   * add_row: with an allocator and a non-empty row, appends one cell per cell of the row, each
   * carrying the (table id, column id) from the row's descriptor and a copy of the rowkey made of
   * the row's first rowkeySize values.
   */
  method AddRow(hasAllocator: bool, gp: GetParam, row: Row, rowkeySize: int) returns (err: Err)
    requires RowkeyFits(row, rowkeySize)
    modifies gp
    ensures var o := AddRowOutcome(hasAllocator, row, rowkeySize);
      err == o.0 && gp.cells == old(gp.cells) + o.1
    ensures gp.versionRange == old(gp.versionRange) && gp.readConsistency == old(gp.readConsistency)
  {
    var rowkey := Key([]);
    if !hasAllocator {
      err := InvalidArgument;
    } else if |row.cells| == 0 {
      err := InvalidArgument;
    } else {
      err := Success;
      rowkey := Key(row.cells[..rowkeySize]);
    }
    ghost var added: seq<CellInfo> := [];
    var i := 0;
    while err == Success && i < |row.desc|
      invariant 0 <= i <= |row.desc|
      invariant err == Success ==> hasAllocator && |row.cells| > 0 && rowkey == RowRowkey(row, rowkeySize)
      invariant err == Success ==> added == RowReadCells(row, rowkeySize)[..i]
      invariant err != Success ==> err == InvalidArgument && added == [] && (!hasAllocator || |row.cells| == 0)
      invariant gp.cells == old(gp.cells) + added
      invariant gp.versionRange == old(gp.versionRange) && gp.readConsistency == old(gp.readConsistency)
    {
      var c := IdCell(row.desc[i].tableId, rowkey, row.desc[i].columnId);
      assert RowReadCells(row, rowkeySize)[..i + 1] == added + [c];
      err := gp.AddCell(c);
      added := added + [c];
      i := i + 1;
    }
    if err == Success {
      assert RowReadCells(row, rowkeySize)[..i] == RowReadCells(row, rowkeySize);
    }
  }

  /** Every row of the set is well shaped and wide enough for the rowkey. */
  predicate RowsFit(rows: seq<Row>, rowkeySize: int) {
    forall k :: 0 <= k < |rows| ==> RowkeyFits(rows[k], rowkeySize)
  }

  /** add_row's outcome for each row of the set, in order. */
  function RowOutcomes(hasAllocator: bool, rows: seq<Row>, rowkeySize: int): seq<(Err, seq<CellInfo>)>
    requires RowsFit(rows, rowkeySize)
  {
    seq(|rows|, k requires 0 <= k < |rows| => AddRowOutcome(hasAllocator, rows[k], rowkeySize))
  }

  /**
   * build_get_param succeeds exactly when every row can be added: there is an allocator or no row
   * at all, and no row is empty. It then holds the read cells of every row, row after row.
   */
  lemma GetParamSucceedsIffEveryRowFits(hasAllocator: bool, rows: seq<Row>, rowkeySize: int)
    requires RowsFit(rows, rowkeySize)
    ensures var r := AppendedUntilFailure(RowOutcomes(hasAllocator, rows, rowkeySize));
      (r.0 == Success <==> (rows == [] || hasAllocator) && forall k :: 0 <= k < |rows| ==> |rows[k].cells| > 0) &&
      (r.0 != Success ==> r.0 == InvalidArgument) &&
      (r.0 == Success ==> r == AllAppended(RowOutcomes(hasAllocator, rows, rowkeySize)))
  {
    var os := RowOutcomes(hasAllocator, rows, rowkeySize);
    AppendedUntilFailureCharacterized(os);
    assert forall k :: 0 <= k < |rows| ==> os[k] == AddRowOutcome(hasAllocator, rows[k], rowkeySize);
    if rows != [] && !hasAllocator {
      assert os[0].0 != Success;
    }
  }

  /**
   * build_get_param: reads the row set from the start and adds each row until one fails; running
   * out of rows is success. On success the request gets the version floor START_MAJOR_VERSION;
   * on failure its version range stays as it was. The cells of every row up to a failing one stay
   * in the request.
   */
  method BuildGetParam(hasAllocator: bool, vals: Values, gp: GetParam, rowkeySize: int) returns (err: Err)
    requires RowsFit(vals.rows, rowkeySize)
    modifies vals, gp
    ensures vals.rows == old(vals.rows) && vals.rowDesc == old(vals.rowDesc) && vals.cursor <= |vals.rows|
    ensures var r := AppendedUntilFailure(RowOutcomes(hasAllocator, vals.rows, rowkeySize));
      err == r.0 && gp.cells == old(gp.cells) + r.1 &&
      gp.versionRange == (if err == Success then MakeVersionRange(DefaultVersionRange, StartMajorVersion).1
                          else old(gp.versionRange))
    ensures gp.readConsistency == old(gp.readConsistency)
    ensures err == Success ==> vals.cursor == |vals.rows|
  {
    ghost var os := RowOutcomes(hasAllocator, vals.rows, rowkeySize);
    ghost var added: seq<CellInfo> := [];
    err := vals.Open();
    while err == Success
      invariant vals.rows == old(vals.rows) && vals.rowDesc == old(vals.rowDesc) && vals.cursor <= |vals.rows|
      invariant gp.cells == old(gp.cells) + added
      invariant gp.versionRange == old(gp.versionRange) && gp.readConsistency == old(gp.readConsistency)
      invariant err == Success ==> (Success, added) == AppendedUntilFailure(os[..vals.cursor])
      invariant err == IterEnd ==> vals.cursor == |vals.rows| && (Success, added) == AppendedUntilFailure(os[..vals.cursor])
      invariant err != Success && err != IterEnd ==>
        0 < vals.cursor && (err, added) == AppendedUntilFailure(os[..vals.cursor])
      decreases |vals.rows| - vals.cursor, if err == Success then 1 else 0
    {
      var row;
      err, row := vals.GetNextRow();
      if err == Success {
        var k := vals.cursor - 1;
        assert row == vals.rows[k];
        AppendedUntilFailureStep(os, k);
        assert os[k] == AddRowOutcome(hasAllocator, row, rowkeySize);
        err := AddRow(hasAllocator, gp, row, rowkeySize);
        added := added + os[k].1;
      }
    }
    if err == IterEnd {
      err := Success;
      assert os[..vals.cursor] == os;
    } else {
      AppendedUntilFailureFrozen(os, vals.cursor);
    }
    if err == Success {
      var vr := MakeVersionRange(DefaultVersionRange, StartMajorVersion).1;
      gp.SetVersionRange(vr);
    }
  }
}
