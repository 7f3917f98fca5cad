/**
 * PhyPlanBuilder: the physical plans insert and update_ifgt0 assemble from generated rows. The
 * operators are only wired and configured here; what they do when the plan runs is not modelled.
 */
module Plans {
  import opened Common
  import opened Schema
  import opened Externals
  import opened Selector
  import opened Rows
  import opened Exprs
  import opened RowBuilders

  /** The builder's operator members. */
  datatype Operator =
    | UpsModify        // ups_modify_, the root
    | InsertSemFilter  // insert_sem_filter_
    | Gt0Filter        // gt0_filter_
    | Merger           // merger_
    | MemSSTableScan   // mem_sstable_scan_
    | IncScan          // inc_scan_
    | GetParamValues   // get_param_values_

  /** The scan type the incremental scan is given (only multi-get is used). */
  datatype ScanType = Mget

  /** The value set the snapshot scan reads as its temporary table. */
  datatype TmpTable = EmptyValuesTable | ValuesTable

  /** The tree of operators below a root. */
  datatype PlanTree = Node(op: Operator, kids: seq<PlanTree>)

  /** The version get_frozen_version reports. */
  const FrozenVersion: int := 1

  /** The operators insert attaches to the plan. */
  const InsertOperators: set<Operator> := {UpsModify, InsertSemFilter, Merger, MemSSTableScan, IncScan, GetParamValues}

  /** The operators update_ifgt0 attaches to the plan. */
  const Gt0Operators: set<Operator> := {UpsModify, Gt0Filter, Merger, MemSSTableScan, IncScan, GetParamValues}

  /**
   * The tree below op as the child slots describe it, down to the given depth: a node's children
   * are read from slot 0 and, when that is set, slot 1 (no operator here has more than two).
   */
  function TreeOf(children: map<(Operator, nat), Operator>, op: Operator, depth: nat): PlanTree
    decreases depth
  {
    if depth == 0 then Node(op, [])
    else
      var first := if (op, 0) in children then [TreeOf(children, children[(op, 0)], depth - 1)] else [];
      var second := if (op, 0) in children && (op, 1) in children then [TreeOf(children, children[(op, 1)], depth - 1)] else [];
      Node(op, first + second)
  }

  /** Only the merge operator has two children; modify and the filters have one; the scans none. */
  predicate ScansAreLeaves(children: map<(Operator, nat), Operator>) {
    forall slot :: slot in children ==>
      slot == (Merger, 1) || (slot.1 == 0 && (slot.0 == UpsModify || slot.0 == InsertSemFilter || slot.0 == Gt0Filter || slot.0 == Merger))
  }

  /** The four set_child calls: modify over the filter, the filter over the merger, the merger over both scans. */
  function Wired(children: map<(Operator, nat), Operator>, filter: Operator): map<(Operator, nat), Operator> {
    children[(UpsModify, 0) := filter][(filter, 0) := Merger][(Merger, 0) := MemSSTableScan][(Merger, 1) := IncScan]
  }

  /** The plan shape both builders produce: modify, then the filter, then a merge of the snapshot and incremental scans. */
  function ExpectedTree(filter: Operator): PlanTree {
    Node(UpsModify, [Node(filter, [Node(Merger, [Node(MemSSTableScan, []), Node(IncScan, [])])])])
  }

  /**
   * Whatever was wired before, the tree below the root after the four set_child calls is modify →
   * filter → merge(snapshot scan, incremental scan), and only modify, filter and merge have children.
   */
  lemma WiredPlanTree(children: map<(Operator, nat), Operator>, filter: Operator, depth: nat)
    requires ScansAreLeaves(children) && (filter == InsertSemFilter || filter == Gt0Filter) && depth >= 3
    ensures ScansAreLeaves(Wired(children, filter))
    ensures TreeOf(Wired(children, filter), UpsModify, depth) == ExpectedTree(filter)
  {
    var w := Wired(children, filter);
    assert (MemSSTableScan, 0) !in w && (IncScan, 0) !in w;
    assert TreeOf(w, MemSSTableScan, depth - 3) == Node(MemSSTableScan, []);
    assert TreeOf(w, IncScan, depth - 3) == Node(IncScan, []);
    assert TreeOf(w, Merger, depth - 2) == Node(Merger, [Node(MemSSTableScan, []), Node(IncScan, [])]);
    assert (filter, 1) !in w && (UpsModify, 1) !in w;
    assert TreeOf(w, filter, depth - 1) == Node(filter, [Node(Merger, [Node(MemSSTableScan, []), Node(IncScan, [])])]);
  }

  /** Every row of the set has one cell per descriptor entry. */
  predicate WellShapedRows(rows: seq<Row>) {
    forall k :: 0 <= k < |rows| ==> |rows[k].desc| == |rows[k].cells|
  }

  /** Generated rows are well shaped, and appending them keeps a set well shaped. */
  lemma AppendedRowsWellShaped(rows: seq<Row>, env: Env, cat: Catalog, refs: seq<ColumnRef>, seed: int, n: nat)
    requires WellShapedRows(rows)
    ensures WellShapedRows(rows + RowsOf(env, cat, refs, seed, n))
  {
    var more := RowsOf(env, cat, refs, seed, n);
    forall k | 0 <= k < |rows + more|
      ensures |(rows + more)[k].desc| == |(rows + more)[k].cells|
    {
      if k >= |rows| {
        assert (rows + more)[k] == RowOf(env, cat, refs, seed + (k - |rows|));
      }
    }
  }

  class PhyPlanBuilder {
    const rb: RowBuilder
    const values: Values
    const rowkeyValues: Values
    const emptyValues: Values
    const insertSemFilterValues: ExprValues
    const getParamValues: ExprValues
    var gt0Filters: seq<Expr>
    var children: map<(Operator, nat), Operator>
    var planOf: map<Operator, nat>
    var mergerIsUpsRow: Option<bool>
    var incScanType: Option<ScanType>
    var incScanValues: Option<Operator>
    var incScanWriteLock: bool
    var tmpTable: Option<TmpTable>

    /** The value sets are distinct objects, their rows well shaped, and only modify, filter and merge have children. */
    ghost predicate Valid()
      reads this, values, rowkeyValues
    {
      values != rowkeyValues && values != emptyValues && rowkeyValues != emptyValues &&
      insertSemFilterValues != getParamValues &&
      WellShapedRows(values.rows) && WellShapedRows(rowkeyValues.rows) && ScansAreLeaves(children)
    }

    /** The constructor: the row builder's descriptors for the table and seed, and empty members. */
    constructor(env: Env, cat: Catalog, tableName: Option<string>, seed: int)
      requires PayloadDrawsSucceed(env, cat, tableName, seed, 1)
      ensures fresh(rb) && rb.env == env && rb.cat == cat && rb.tableName == tableName && rb.seed == seed
      ensures rb.Distinct() && rb.Built()
      ensures fresh(values) && fresh(rowkeyValues) && fresh(emptyValues) && fresh(insertSemFilterValues) && fresh(getParamValues)
      ensures Valid()
      ensures values.rows == [] && rowkeyValues.rows == [] && emptyValues.rows == []
      ensures insertSemFilterValues.exprs == [] && getParamValues.exprs == [] && gt0Filters == []
      ensures children == map[] && planOf == map[] && mergerIsUpsRow.None? && incScanType.None? &&
              incScanValues.None? && !incScanWriteLock && tmpTable.None?
    {
      rb := new RowBuilder(env, cat, tableName, seed);
      values := new Values();
      rowkeyValues := new Values();
      emptyValues := new Values();
      insertSemFilterValues := new ExprValues();
      getParamValues := new ExprValues();
      gt0Filters, children, planOf := [], map[], map[];
      mergerIsUpsRow, incScanType, incScanValues, incScanWriteLock, tmpTable := None, None, None, false, None;
    }

    /**
     * The common start of insert and update_ifgt0: the empty value set takes the rowkey descriptor,
     * the merger is told its rows are not update rows, and the operators are attached to the plan.
     */
    method Prepare(planId: nat, ops: set<Operator>)
      modifies this, emptyValues
      ensures emptyValues.rowDesc == rb.rowkeyDesc.cols && emptyValues.rows == old(emptyValues.rows)
      ensures mergerIsUpsRow == Some(false) && planOf == old(planOf) + map o | o in ops :: planId
      ensures gt0Filters == old(gt0Filters) && children == old(children) && incScanType == old(incScanType) &&
              incScanValues == old(incScanValues) && incScanWriteLock == old(incScanWriteLock) && tmpTable == old(tmpTable)
    {
      emptyValues.SetRowDesc(rb.rowkeyDesc.cols);
      mergerIsUpsRow := Some(false);
      planOf := planOf + map o | o in ops :: planId;
    }

    /**
     * The tail of insert and update_ifgt0 once every value is built: the incremental scan becomes a
     * write-locking multi-get over the rowkey expressions, the snapshot scan reads the given value
     * set, and the four set_child calls wire the tree.
     */
    method Finish(table: TmpTable, filter: Operator)
      requires ScansAreLeaves(children) && (filter == InsertSemFilter || filter == Gt0Filter)
      modifies this
      ensures incScanType == Some(Mget) && incScanValues == Some(GetParamValues) && incScanWriteLock && tmpTable == Some(table)
      ensures children == Wired(old(children), filter) && ScansAreLeaves(children)
      ensures TreeOf(children, UpsModify, 3) == ExpectedTree(filter)
      ensures gt0Filters == old(gt0Filters) && planOf == old(planOf) && mergerIsUpsRow == old(mergerIsUpsRow)
    {
      incScanType, incScanValues, incScanWriteLock, tmpTable := Some(Mget), Some(GetParamValues), true, Some(table);
      WiredPlanTree(children, filter, 3);
      children := Wired(children, filter);
    }

    /**
     * insert: generate the rows and their constant expressions for the insert filter, then the
     * rowkey rows and their expressions for the multi-get, stopping at the first failure; when all
     * of it succeeds, configure the scans and wire modify → insert filter → merge(snapshot over the
     * empty rowkey set, incremental multi-get) and hand back the root.
     */
    method Insert(planId: nat, rowCount: int) returns (err: Err, op: Option<Operator>)
      requires Valid()
      modifies this, values, rowkeyValues, emptyValues, insertSemFilterValues, getParamValues
      ensures Valid()
      ensures emptyValues.rowDesc == rb.rowkeyDesc.cols && emptyValues.rows == old(emptyValues.rows)
      ensures mergerIsUpsRow == Some(false) && planOf == old(planOf) + map o | o in InsertOperators :: planId
      ensures values.rowDesc == rb.rowDesc.cols &&
              values.rows == old(values.rows) + RowsOf(rb.env, rb.cat, rb.rowDesc.cols, rb.seed, RowCount(rowCount))
      ensures var e := RowsExprs(values.rows);
        insertSemFilterValues.exprs == old(insertSemFilterValues.exprs) + e.1 &&
        (e.0 != Success ==> err == e.0 && rowkeyValues.rows == old(rowkeyValues.rows) &&
                            getParamValues.exprs == old(getParamValues.exprs)) &&
        (e.0 == Success ==>
           rowkeyValues.rows == old(rowkeyValues.rows) + RowsOf(rb.env, rb.cat, rb.rowkeyDesc.cols, rb.seed, RowCount(rowCount)) &&
           err == RowsExprs(rowkeyValues.rows).0 &&
           getParamValues.exprs == old(getParamValues.exprs) + RowsExprs(rowkeyValues.rows).1)
      ensures insertSemFilterValues.rowDesc == rb.rowDesc.cols && insertSemFilterValues.rowDescExt == rb.rowDescExt.entries
      ensures RowsExprs(values.rows).0 == Success ==>
        rowkeyValues.rowDesc == rb.rowkeyDesc.cols &&
        getParamValues.rowDesc == rb.rowkeyDesc.cols && getParamValues.rowDescExt == rb.rowkeyDescExt.entries
      ensures RowsExprs(values.rows).0 != Success ==>
        rowkeyValues.rowDesc == old(rowkeyValues.rowDesc) &&
        getParamValues.rowDesc == old(getParamValues.rowDesc) && getParamValues.rowDescExt == old(getParamValues.rowDescExt)
      ensures gt0Filters == old(gt0Filters)
      ensures err == Success ==>
        op == Some(UpsModify) && children == Wired(old(children), InsertSemFilter) &&
        TreeOf(children, UpsModify, 3) == ExpectedTree(InsertSemFilter) &&
        incScanType == Some(Mget) && incScanValues == Some(GetParamValues) && incScanWriteLock &&
        tmpTable == Some(EmptyValuesTable)
      ensures err != Success ==>
        op == None && children == old(children) && incScanType == old(incScanType) &&
        incScanValues == old(incScanValues) && incScanWriteLock == old(incScanWriteLock) && tmpTable == old(tmpTable)
    {
      Prepare(planId, InsertOperators);
      AppendedRowsWellShaped(values.rows, rb.env, rb.cat, rb.rowDesc.cols, rb.seed, RowCount(rowCount));
      err := rb.BuildValues(values, rowCount);
      err := rb.BuildExprValues(values, insertSemFilterValues);
      if err == Success {
        AppendedRowsWellShaped(rowkeyValues.rows, rb.env, rb.cat, rb.rowkeyDesc.cols, rb.seed, RowCount(rowCount));
        err := rb.BuildRowkeyValues(rowkeyValues, rowCount);
        err := rb.BuildRowkeyExprValues(rowkeyValues, getParamValues);
      }
      op := None;
      if err == Success {
        Finish(EmptyValuesTable, InsertSemFilter);
        op := Some(UpsModify);
      }
    }

    /**
     * update_ifgt0: generate the rows, find the first Int column after the rowkey, add a filter over
     * it, generate the rowkey rows and their expressions for the multi-get, and generate the rows a
     * second time, stopping at the first failure; when all of it succeeds, configure the scans and
     * wire modify → filter → merge(snapshot over the generated rows, incremental multi-get) and hand
     * back the root. The snapshot's value set therefore holds every generated row twice.
     */
    method UpdateIfGt0(planId: nat, rowCount: int) returns (err: Err, op: Option<Operator>)
      requires Valid()
      modifies this, values, rowkeyValues, emptyValues, getParamValues
      ensures Valid()
      ensures emptyValues.rowDesc == rb.rowkeyDesc.cols && emptyValues.rows == old(emptyValues.rows)
      ensures mergerIsUpsRow == Some(false) && planOf == old(planOf) + map o | o in Gt0Operators :: planId
      ensures values.rowDesc == rb.rowDesc.cols
      ensures var batch := RowsOf(rb.env, rb.cat, rb.rowDesc.cols, rb.seed, RowCount(rowCount));
        var fic := FirstIntCol(rb.rowDescExt.entries, |rb.rowkeyDesc.cols|, 0, 0);
        (fic.0 != Success ==>
           err == fic.0 && values.rows == old(values.rows) + batch && gt0Filters == old(gt0Filters) &&
           rowkeyValues.rows == old(rowkeyValues.rows) && getParamValues.exprs == old(getParamValues.exprs)) &&
        (fic.0 == Success ==>
           gt0Filters == old(gt0Filters) + [Gt0Expr(fic.1, fic.2)] &&
           rowkeyValues.rows == old(rowkeyValues.rows) + RowsOf(rb.env, rb.cat, rb.rowkeyDesc.cols, rb.seed, RowCount(rowCount)) &&
           err == RowsExprs(rowkeyValues.rows).0 &&
           getParamValues.exprs == old(getParamValues.exprs) + RowsExprs(rowkeyValues.rows).1 &&
           values.rows == old(values.rows) + batch + (if err == Success then batch else []))
      ensures var fic := FirstIntCol(rb.rowDescExt.entries, |rb.rowkeyDesc.cols|, 0, 0);
        (fic.0 == Success ==>
           rowkeyValues.rowDesc == rb.rowkeyDesc.cols &&
           getParamValues.rowDesc == rb.rowkeyDesc.cols && getParamValues.rowDescExt == rb.rowkeyDescExt.entries) &&
        (fic.0 != Success ==>
           rowkeyValues.rowDesc == old(rowkeyValues.rowDesc) &&
           getParamValues.rowDesc == old(getParamValues.rowDesc) && getParamValues.rowDescExt == old(getParamValues.rowDescExt))
      ensures err == Success ==>
        op == Some(UpsModify) && children == Wired(old(children), Gt0Filter) &&
        TreeOf(children, UpsModify, 3) == ExpectedTree(Gt0Filter) &&
        incScanType == Some(Mget) && incScanValues == Some(GetParamValues) && incScanWriteLock &&
        tmpTable == Some(ValuesTable)
      ensures err != Success ==>
        op == None && children == old(children) && incScanType == old(incScanType) &&
        incScanValues == old(incScanValues) && incScanWriteLock == old(incScanWriteLock) && tmpTable == old(tmpTable)
    {
      Prepare(planId, Gt0Operators);
      var n := RowCount(rowCount);
      ghost var batch := RowsOf(rb.env, rb.cat, rb.rowDesc.cols, rb.seed, n);
      AppendedRowsWellShaped(values.rows, rb.env, rb.cat, rb.rowDesc.cols, rb.seed, n);
      err := rb.BuildValues(values, rowCount);
      var tableId, columnId;
      err, tableId, columnId := GetFirstIntCol(rb.rowDescExt, |rb.rowkeyDesc.cols|, 0, 0);
      if err == Success {
        gt0Filters := gt0Filters + [Gt0Expr(tableId, columnId)];
        AppendedRowsWellShaped(rowkeyValues.rows, rb.env, rb.cat, rb.rowkeyDesc.cols, rb.seed, n);
        err := rb.BuildRowkeyValues(rowkeyValues, rowCount);
        err := rb.BuildRowkeyExprValues(rowkeyValues, getParamValues);
        if err == Success {
          AppendedRowsWellShaped(values.rows, rb.env, rb.cat, rb.rowDesc.cols, rb.seed, n);
          err := rb.BuildValues(values, rowCount);
        }
      }
      op := None;
      if err == Success {
        Finish(ValuesTable, Gt0Filter);
        op := Some(UpsModify);
      }
    }
  }
}
