/** RowBuilder: a table's two descriptors, built once from a seed, and the row, value and request builders over them. */
module RowBuilders {
  import opened Common
  import opened Schema
  import opened Externals
  import opened Selector
  import opened Range
  import opened Requests
  import opened Rows
  import opened GetParams
  import opened Exprs

  /**
   * What get_rowkey_size reports for a descriptor: the rowkey size of the table that owns the
   * first entry, or 0 when the descriptor is empty or that table is not in the catalog.
   */
  function RowkeySize(cat: Catalog, cols: seq<ColumnRef>): nat {
    if cols == [] then 0
    else
      match TableById(cat, cols[0].tableId)
      case None => 0
      case Some(t) => |t.rowkey|
  }

  /** The entries a descriptor holds after set_row_desc on an empty one: the plan's, or none on failure. */
  function PlannedEntries(plan: Result<(nat, seq<DescEntry>)>): seq<DescEntry> {
    if plan.Ok? then plan.value.1 else []
  }

  /** The rowkey cell count after set_row_desc on an empty descriptor: the plan's, or still 0 on failure. */
  function PlannedRowkeyCount(plan: Result<(nat, seq<DescEntry>)>): nat {
    if plan.Ok? then plan.value.0 else 0
  }

  /** The number of rows build_values generates for a requested count. */
  function RowCount(rowCount: int): nat {
    if rowCount > 0 then rowCount else 0
  }

  class RowBuilder {
    const env: Env
    const cat: Catalog
    const tableName: Option<string>
    const seed: int
    const rowkeyDesc: RowDesc
    const rowkeyDescExt: RowDescExt
    const rowDesc: RowDesc
    const rowDescExt: RowDescExt

    /** The rowkey descriptors and the row descriptors are separate objects. */
    predicate Distinct() {
      rowkeyDesc != rowDesc && rowkeyDescExt != rowDescExt
    }

    /**
     * The descriptors hold what the constructor's two set_row_desc calls build: the rowkey pair
     * with no payload column, the row pair with at most one.
     */
    ghost predicate Built()
      reads rowkeyDesc, rowkeyDescExt, rowDesc, rowDescExt
    {
      PayloadDrawsSucceed(env, cat, tableName, seed, 0) && PayloadDrawsSucceed(env, cat, tableName, seed, 1) &&
      var p0 := RowDescPlan(env, cat, tableName, seed, 0);
      var p1 := RowDescPlan(env, cat, tableName, seed, 1);
      rowkeyDescExt.entries == PlannedEntries(p0) && rowkeyDesc.cols == Refs(PlannedEntries(p0)) &&
      rowkeyDesc.rowkeyCount == PlannedRowkeyCount(p0) &&
      rowDescExt.entries == PlannedEntries(p1) && rowDesc.cols == Refs(PlannedEntries(p1)) &&
      rowDesc.rowkeyCount == PlannedRowkeyCount(p1)
    }

    /**
     * The constructor: set_row_desc on the rowkey pair with no payload column, then on the row pair
     * with the default of one; a failure of either is only logged and leaves that pair empty.
     */
    constructor(env: Env, cat: Catalog, tableName: Option<string>, seed: int)
      requires PayloadDrawsSucceed(env, cat, tableName, seed, 1)
      ensures this.env == env && this.cat == cat && this.tableName == tableName && this.seed == seed
      ensures Distinct() && fresh(rowkeyDesc) && fresh(rowkeyDescExt) && fresh(rowDesc) && fresh(rowDescExt)
      ensures Built()
    {
      this.env, this.cat, this.tableName, this.seed := env, cat, tableName, seed;
      rowkeyDesc := new RowDesc();
      rowkeyDescExt := new RowDescExt();
      rowDesc := new RowDesc();
      rowDescExt := new RowDescExt();
      new;
      RowDescPlanRowkeyPrefix(env, cat, tableName, seed, 1);
      var _ := SetRowDesc(env, cat, tableName, rowkeyDescExt, rowkeyDesc, seed, 0);
      var _ := SetRowDesc(env, cat, tableName, rowDescExt, rowDesc, seed, 1);
    }

    /** build_row over the row descriptor. */
    method BuildRow(rowSeed: int) returns (row: Row)
      ensures row == RowOf(env, cat, rowDesc.cols, rowSeed)
    {
      row := Rows.BuildRow(env, cat, rowDesc, rowSeed);
    }

    /** build_values: the value set takes the row descriptor and gets the rows generated from the builder's seed. */
    method BuildValues(vals: Values, rowCount: int) returns (err: Err)
      modifies vals
      ensures err == Success
      ensures vals.rowDesc == rowDesc.cols && vals.cursor == old(vals.cursor)
      ensures vals.rows == old(vals.rows) + RowsOf(env, cat, rowDesc.cols, seed, RowCount(rowCount))
    {
      vals.SetRowDesc(rowDesc.cols);
      err := Rows.BuildValues(env, cat, rowDesc, vals, rowCount, seed);
    }

    /** build_rowkey_values: the same over the rowkey descriptor. */
    method BuildRowkeyValues(vals: Values, rowCount: int) returns (err: Err)
      modifies vals
      ensures err == Success
      ensures vals.rowDesc == rowkeyDesc.cols && vals.cursor == old(vals.cursor)
      ensures vals.rows == old(vals.rows) + RowsOf(env, cat, rowkeyDesc.cols, seed, RowCount(rowCount))
    {
      vals.SetRowDesc(rowkeyDesc.cols);
      err := Rows.BuildValues(env, cat, rowkeyDesc, vals, rowCount, seed);
    }

    /** get_rowkey_size: read the first entry of the row descriptor and look its table up by id. */
    method GetRowkeySize() returns (size: nat)
      ensures size == RowkeySize(cat, rowDesc.cols)
    {
      size := 0;
      var err, ref := rowDesc.GetTidCid(0);
      if err == Success {
        var t := TableById(cat, ref.tableId);
        if t.Some? {
          size := |t.value.rowkey|;
        }
      }
    }

    /** build_get_param: the request built from the value set with this builder's rowkey size (the builder is the allocator). */
    method BuildGetParam(vals: Values, gp: GetParam) returns (err: Err)
      requires RowsFit(vals.rows, RowkeySize(cat, rowDesc.cols))
      modifies vals, gp
      ensures vals.rows == old(vals.rows) && vals.rowDesc == old(vals.rowDesc)
      ensures var r := AppendedUntilFailure(RowOutcomes(true, vals.rows, RowkeySize(cat, rowDesc.cols)));
        err == r.0 && gp.cells == old(gp.cells) + r.1 &&
        gp.versionRange == (if err == Success then MakeVersionRange(DefaultVersionRange, StartMajorVersion).1
                            else old(gp.versionRange))
      ensures gp.readConsistency == old(gp.readConsistency)
    {
      var size := GetRowkeySize();
      err := GetParams.BuildGetParam(true, vals, gp, size);
    }

    /** build_expr_values: the expression set takes the row descriptors and gets the value set's constants. */
    method BuildExprValues(vals: Values, ev: ExprValues) returns (err: Err)
      requires forall k :: 0 <= k < |vals.rows| ==> |vals.rows[k].desc| == |vals.rows[k].cells|
      modifies vals, ev
      ensures vals.rows == old(vals.rows) && vals.rowDesc == old(vals.rowDesc)
      ensures ev.rowDesc == rowDesc.cols && ev.rowDescExt == rowDescExt.entries
      ensures err == RowsExprs(vals.rows).0 && ev.exprs == old(ev.exprs) + RowsExprs(vals.rows).1
    {
      ev.SetRowDesc(rowDesc.cols, rowDescExt.entries);
      err := Exprs.BuildExprValues(vals, ev);
    }

    /** build_rowkey_expr_values: the same with the rowkey descriptors. */
    method BuildRowkeyExprValues(vals: Values, ev: ExprValues) returns (err: Err)
      requires forall k :: 0 <= k < |vals.rows| ==> |vals.rows[k].desc| == |vals.rows[k].cells|
      modifies vals, ev
      ensures vals.rows == old(vals.rows) && vals.rowDesc == old(vals.rowDesc)
      ensures ev.rowDesc == rowkeyDesc.cols && ev.rowDescExt == rowkeyDescExt.entries
      ensures err == RowsExprs(vals.rows).0 && ev.exprs == old(ev.exprs) + RowsExprs(vals.rows).1
    {
      ev.SetRowDesc(rowkeyDesc.cols, rowkeyDescExt.entries);
      err := Exprs.BuildExprValues(vals, ev);
    }

    /**
     * The rowkey pair is the prefix of the row pair: the same rowkey cell count, and the rowkey
     * descriptor's entries are the row descriptor's first entries.
     */
    lemma RowkeyDescIsPrefix()
      requires Built()
      ensures rowkeyDesc.rowkeyCount == rowDesc.rowkeyCount
      ensures |rowkeyDescExt.entries| <= |rowDescExt.entries| &&
              rowkeyDescExt.entries == rowDescExt.entries[..|rowkeyDescExt.entries|]
      ensures |rowkeyDesc.cols| == rowkeyDesc.rowkeyCount && rowDesc.rowkeyCount <= |rowDesc.cols|
    {
      RowDescPlanRowkeyPrefix(env, cat, tableName, seed, 1);
      var p0 := RowDescPlan(env, cat, tableName, seed, 0);
      if p0.Ok? {
        RowDescPlanShape(env, cat, tableName, seed, 0);
      }
    }

    /**
     * In a well-formed catalog get_rowkey_size agrees with the descriptors: it is the rowkey cell
     * count both descriptors were given (0 when set_row_desc failed).
     */
    lemma RowkeySizeOfBuilt()
      requires Built() && WellFormed(cat)
      ensures RowkeySize(cat, rowDesc.cols) == rowDesc.rowkeyCount
      ensures RowkeySize(cat, rowkeyDesc.cols) == rowkeyDesc.rowkeyCount
    {
      RowDescPlanRowkeyPrefix(env, cat, tableName, seed, 1);
      var p1 := RowDescPlan(env, cat, tableName, seed, 1);
      if p1.Ok? {
        RowDescPlanShape(env, cat, tableName, seed, 1);
        RowDescPlanShape(env, cat, tableName, seed, 0);
        var t := TableByName(cat, ChosenTable(env, cat, tableName, seed).value).value;
        TableByOwnId(cat, t);
        var es := p1.value.1;
        assert |es| > 0 && es[0].tableId == t.id by {
          if |t.rowkey| == 0 {
            assert PayloadCount(1, |t.columns|, 0) == 1;
            assert es[0] == es[|t.rowkey| + 0];
          }
        }
        assert Refs(es)[0].tableId == t.id;
        var es0 := RowDescPlan(env, cat, tableName, seed, 0).value.1;
        if es0 != [] {
          assert Refs(es0)[0].tableId == es0[0].tableId == t.id;
        }
      }
    }

    /**
     * Rows generated over the row descriptor fit build_get_param's rowkey size: every row has one
     * cell per descriptor entry, and the rowkey size is at most that.
     */
    lemma BuiltRowsFit(rowSeed: int, n: nat)
      requires Built() && WellFormed(cat)
      ensures RowsFit(RowsOf(env, cat, rowDesc.cols, rowSeed, n), RowkeySize(cat, rowDesc.cols))
    {
      RowkeySizeOfBuilt();
      RowkeyDescIsPrefix();
      var size := RowkeySize(cat, rowDesc.cols);
      var rows := RowsOf(env, cat, rowDesc.cols, rowSeed, n);
      forall k | 0 <= k < |rows|
        ensures RowkeyFits(rows[k], size)
      {
        assert rows[k] == RowOf(env, cat, rowDesc.cols, rowSeed + k);
      }
    }

    /**
     * update_ifgt0 searches the row descriptor for an Int column from the first entry after the
     * rowkey. That search sees only the single payload entry (the row descriptor has at most one):
     * it succeeds exactly when there is one and then returns its ids whatever its type, and reports
     * OB_ENTRY_NOT_EXIST when the table yielded no payload column.
     */
    lemma FirstIntColIsPayload()
      requires Built()
      ensures var fic := FirstIntCol(rowDescExt.entries, |rowkeyDesc.cols|, 0, 0);
        (fic.0 == Success <==> |rowDescExt.entries| > |rowkeyDesc.cols|) &&
        (fic.0 != Success ==> fic == (EntryNotExist, 0, 0)) &&
        (fic.0 == Success ==>
           |rowDescExt.entries| == |rowkeyDesc.cols| + 1 &&
           fic.1 == rowDescExt.entries[|rowkeyDesc.cols|].tableId && fic.2 == rowDescExt.entries[|rowkeyDesc.cols|].columnId)
    {
      RowkeyDescIsPrefix();
      var p1 := RowDescPlan(env, cat, tableName, seed, 1);
      if p1.Ok? {
        RowDescPlanShape(env, cat, tableName, seed, 1);
      }
    }
  }
}
