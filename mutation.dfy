/**
 * Mutators: name resolution (cell_info_resolve_table_name, cell_info_resolve_column_name,
 * ob_mutator_resolve_name), merging (mutator_add_, mutator_add) and random generation
 * (build_rand_mutator, build_rand_batch_mutator).
 */
module Mutation {
  import opened Common
  import opened Schema
  import opened Externals
  import opened Selector
  import opened Requests

  /** The operation of a mutator cell. */
  datatype CellOp = Update | Insert | DelRow | UseOb | UseDb

  /** ObMutatorCellInfo: an operation and the cell it applies to. */
  datatype MutatorCell = MutatorCell(op: CellOp, info: CellInfo)

  /** The cell ObMutator::update appends. */
  function UpdateCell(tableName: string, rowkey: Rowkey, columnName: string, value: Obj): (m: MutatorCell)
    ensures m.op == Update && m.info.value == value
    ensures m.info.tableName == tableName && m.info.rowkey == rowkey && m.info.columnName == columnName
    ensures m.info.tableId == InvalidId && m.info.columnId == InvalidId
  {
    MutatorCell(Update, NamedCell(tableName, rowkey, columnName).(value := value))
  }

  /** The cell ObMutator::del_row appends: no column. */
  function DelRowCell(tableName: string, rowkey: Rowkey): (m: MutatorCell)
    ensures m.op == DelRow && m.info.columnName == [] && m.info.columnId == InvalidId
    ensures m.info.tableName == tableName && m.info.rowkey == rowkey && m.info.tableId == InvalidId
  {
    MutatorCell(DelRow, NamedCell(tableName, rowkey, []))
  }

  /**
   * ObMutator: the cells in insertion order, and the iteration cursor, which counts the cells
   * next_cell has stepped over since the last reset_iter; get_cell yields cells[cursor - 1].
   */
  class Mutator {
    var cells: seq<MutatorCell>
    var cursor: nat

    constructor()
      ensures cells == [] && cursor == 0
    {
      cells := [];
      cursor := 0;
    }

    /** update: appends an update of one column of one row. */
    method Update(tableName: string, rowkey: Rowkey, columnName: string, value: Obj) returns (err: Err)
      modifies this
      ensures err == Success
      ensures cells == old(cells) + [UpdateCell(tableName, rowkey, columnName, value)]
      ensures cursor == old(cursor)
    {
      cells := cells + [UpdateCell(tableName, rowkey, columnName, value)];
      err := Success;
    }

    /** del_row: appends the deletion of one row. */
    method DelRow(tableName: string, rowkey: Rowkey) returns (err: Err)
      modifies this
      ensures err == Success
      ensures cells == old(cells) + [DelRowCell(tableName, rowkey)]
      ensures cursor == old(cursor)
    {
      cells := cells + [DelRowCell(tableName, rowkey)];
      err := Success;
    }

    /** add_cell: appends a copy of a cell. */
    method AddCell(c: MutatorCell) returns (err: Err)
      modifies this
      ensures err == Success
      ensures cells == old(cells) + [c]
      ensures cursor == old(cursor)
    {
      cells := cells + [c];
      err := Success;
    }

    method ResetIter()
      modifies this
      ensures cells == old(cells) && cursor == 0
    {
      cursor := 0;
    }

    /** next_cell: steps to the next cell, or reports OB_ITER_END when there is none. */
    method NextCell() returns (err: Err)
      modifies this
      ensures cells == old(cells)
      ensures old(cursor) < |cells| ==> err == Success && cursor == old(cursor) + 1
      ensures old(cursor) >= |cells| ==> err == IterEnd && cursor == old(cursor)
    {
      if cursor < |cells| {
        cursor := cursor + 1;
        err := Success;
      } else {
        err := IterEnd;
      }
    }

    /** get_cell: the cell next_cell stepped to. */
    function Current(): MutatorCell
      reads this
      requires 0 < cursor <= |cells|
    {
      cells[cursor - 1]
    }

    /** Writing through the pointer get_cell hands out: replaces the current cell's ObCellInfo. */
    method SetCurrentInfo(info: CellInfo)
      modifies this
      requires 0 < cursor <= |cells|
      ensures cursor == old(cursor)
      ensures cells == old(cells)[old(cursor) - 1 := old(cells)[old(cursor) - 1].(info := info)]
    {
      cells := cells[cursor - 1 := cells[cursor - 1].(info := info)];
    }
  }

  /**
   * cell_info_resolve_table_name: a cell with a table id gets that table's name; a cell without
   * one (OB_USE_OB, OB_USE_DB) is left alone; an unknown id is OB_SCHEMA_ERROR.
   */
  function ResolveTableName(cat: Catalog, c: CellInfo): (r: Result<CellInfo>)
    ensures c.tableId == InvalidId ==> r == Ok(c)
    ensures c.tableId != InvalidId ==> (r.Ok? <==> exists t :: t in cat.tables && t.id == c.tableId)
    ensures r.Fail? ==> r.error == SchemaError
    ensures r.Ok? ==> r.value == c.(tableName := r.value.tableName)
    ensures r.Ok? && c.tableId != InvalidId ==>
      exists t :: t in cat.tables && t.id == c.tableId && t.name == r.value.tableName
  {
    if c.tableId == InvalidId then Ok(c)
    else
      match TableById(cat, c.tableId)
      case None => Fail(SchemaError)
      case Some(t) => Ok(c.(tableName := t.name))
  }

  /**
   * cell_info_resolve_column_name: a cell with both a table id and a column id gets that
   * column's name; a cell missing either (OB_USE_OB, OB_USE_DB, OB_DEL_ROW) is left alone; an
   * unknown column is OB_SCHEMA_ERROR.
   */
  function ResolveColumnName(cat: Catalog, c: CellInfo): (r: Result<CellInfo>)
    ensures c.tableId == InvalidId || c.columnId == InvalidId ==> r == Ok(c)
    ensures r.Fail? ==> r.error == SchemaError
    ensures r.Ok? ==> r.value == c.(columnName := r.value.columnName)
    ensures c.tableId != InvalidId && c.columnId != InvalidId ==>
      (r.Ok? <==> TableById(cat, c.tableId).Some? &&
                  exists col :: col in TableById(cat, c.tableId).value.columns && col.id == c.columnId)
    ensures r.Ok? && c.tableId != InvalidId && c.columnId != InvalidId ==>
      exists t, col :: t in cat.tables && t.id == c.tableId && col in t.columns &&
                       col.id == c.columnId && col.name == r.value.columnName
  {
    if c.tableId == InvalidId || c.columnId == InvalidId then Ok(c)
    else
      match ColumnById(cat, c.tableId, c.columnId)
      case None => Fail(SchemaError)
      case Some(col) => Ok(c.(columnName := col.name))
  }

  /** One step of ob_mutator_resolve_name: the column name first, then the table name. */
  function ResolveCell(cat: Catalog, c: CellInfo): (r: (Err, CellInfo))
    ensures r.0 == Success || r.0 == SchemaError
    ensures r.1 == c.(tableName := r.1.tableName, columnName := r.1.columnName)
  {
    match ResolveColumnName(cat, c)
    case Fail(e) => (e, c)
    case Ok(withColumn) =>
      match ResolveTableName(cat, withColumn)
      case Fail(e) => (e, withColumn)
      case Ok(resolved) => (Success, resolved)
  }

  /**
   * A failed resolution leaves the cell as it was: the column lookup goes through the table, so
   * when the column name was written the table name is found as well.
   */
  lemma ResolveCellFailsCleanly(cat: Catalog, c: CellInfo)
    ensures ResolveCell(cat, c).0 != Success ==> ResolveCell(cat, c).1 == c
  {
    if c.tableId != InvalidId && c.columnId != InvalidId && ResolveColumnName(cat, c).Ok? {
      var t := TableById(cat, c.tableId).value;
      assert t in cat.tables && t.id == c.tableId;
    }
  }

  /** Resolving an already resolved cell changes nothing. */
  lemma ResolveCellIdempotent(cat: Catalog, c: CellInfo)
    requires ResolveCell(cat, c).0 == Success
    ensures ResolveCell(cat, ResolveCell(cat, c).1) == ResolveCell(cat, c)
  {
  }

  /**
   * ob_mutator_resolve_name applied to the cells it visits: each is resolved in turn until one
   * fails; the failing cell and the cells after it are left as they were.
   */
  function ResolveRun(cat: Catalog, cs: seq<MutatorCell>): (r: (Err, seq<MutatorCell>))
    ensures r.0 == Success || r.0 == SchemaError
    ensures |r.1| == |cs|
  {
    if cs == [] then (Success, [])
    else
      var last := cs[|cs| - 1];
      var prev := ResolveRun(cat, cs[..|cs| - 1]);
      if prev.0 != Success then (prev.0, prev.1 + [last])
      else
        var step := ResolveCell(cat, last.info);
        (step.0, prev.1 + [last.(info := step.1)])
  }

  /** Extending the visited cells by one. */
  lemma ResolveRunStep(cat: Catalog, cs: seq<MutatorCell>, k: nat)
    requires k < |cs|
    ensures var prev := ResolveRun(cat, cs[..k]);
      ResolveRun(cat, cs[..k + 1]) ==
        if prev.0 != Success then (prev.0, prev.1 + [cs[k]])
        else (ResolveCell(cat, cs[k].info).0, prev.1 + [cs[k].(info := ResolveCell(cat, cs[k].info).1)])
  {
    assert cs[..k + 1][..k] == cs[..k];
  }

  /** Resolution changes only the table and column names of the cells, never their operation, ids, rowkey or value. */
  lemma {:induction false} ResolveRunChangesOnlyNames(cat: Catalog, cs: seq<MutatorCell>)
    ensures var out := ResolveRun(cat, cs).1;
      forall i :: 0 <= i < |cs| ==>
        out[i] == cs[i].(info := cs[i].info.(tableName := out[i].info.tableName, columnName := out[i].info.columnName))
  {
    if cs != [] {
      var init := cs[..|cs| - 1];
      ResolveRunChangesOnlyNames(cat, init);
      ResolveRunStep(cat, cs, |init|);
      assert cs[..|init| + 1] == cs && cs[..|init|] == init;
      var out := ResolveRun(cat, cs).1;
      assert forall i :: 0 <= i < |init| ==> out[i] == ResolveRun(cat, init).1[i] && cs[i] == init[i];
    }
  }

  /** The run succeeds exactly when every visited cell resolves. */
  lemma {:induction false} ResolveRunSucceedsIffEveryCellResolves(cat: Catalog, cs: seq<MutatorCell>)
    ensures ResolveRun(cat, cs).0 == Success <==> forall i :: 0 <= i < |cs| ==> ResolveCell(cat, cs[i].info).0 == Success
  {
    if cs != [] {
      var init := cs[..|cs| - 1];
      ResolveRunSucceedsIffEveryCellResolves(cat, init);
      ResolveRunStep(cat, cs, |init|);
      assert cs[..|init| + 1] == cs && cs[..|init|] == init;
      if ResolveRun(cat, init).0 != Success {
        var i :| 0 <= i < |init| && ResolveCell(cat, init[i].info).0 != Success;
        assert cs[i] == init[i];
      } else {
        assert forall i :: 0 <= i < |init| ==> cs[i] == init[i];
      }
    }
  }

  /** After a successful run each cell holds the names its own resolution gives. */
  lemma {:induction false} ResolveRunResolvesEachCell(cat: Catalog, cs: seq<MutatorCell>)
    requires ResolveRun(cat, cs).0 == Success
    ensures forall i :: 0 <= i < |cs| ==> ResolveRun(cat, cs).1[i].info == ResolveCell(cat, cs[i].info).1
  {
    if cs != [] {
      var init := cs[..|cs| - 1];
      ResolveRunStep(cat, cs, |init|);
      assert cs[..|init| + 1] == cs && cs[..|init|] == init;
      var prev := ResolveRun(cat, init);
      var r := ResolveRun(cat, cs);
      assert prev.0 == Success;
      ResolveRunResolvesEachCell(cat, init);
      assert forall i :: 0 <= i < |init| ==> cs[i] == init[i] && r.1[i] == prev.1[i];
    }
  }

  /** A run that had already failed at cell f still fails there after one more cell. */
  lemma ResolveRunFailureExtends(cat: Catalog, cs: seq<MutatorCell>, f: nat)
    requires f < |cs| - 1
    requires var init := cs[..|cs| - 1]; var prev := ResolveRun(cat, init);
      prev.0 != Success && ResolveCell(cat, init[f].info).0 == prev.0 && ResolveRun(cat, init[..f]).0 == Success &&
      forall i :: f <= i < |init| ==> prev.1[i] == init[i]
    ensures var r := ResolveRun(cat, cs);
      ResolveCell(cat, cs[f].info).0 == r.0 && ResolveRun(cat, cs[..f]).0 == Success &&
      forall i :: f <= i < |cs| ==> r.1[i] == cs[i]
  {
    var init := cs[..|cs| - 1];
    ResolveRunStep(cat, cs, |init|);
    assert cs[..|cs|] == cs;
    assert init[..f] == cs[..f] && init[f] == cs[f];
  }

  /** A run that fails at its last cell leaves that cell as it was. */
  lemma ResolveRunFailsAtLast(cat: Catalog, cs: seq<MutatorCell>)
    requires cs != [] && ResolveRun(cat, cs[..|cs| - 1]).0 == Success && ResolveRun(cat, cs).0 != Success
    ensures ResolveCell(cat, cs[|cs| - 1].info).0 == ResolveRun(cat, cs).0
    ensures ResolveRun(cat, cs).1[|cs| - 1] == cs[|cs| - 1]
  {
    ResolveRunStep(cat, cs, |cs| - 1);
    assert cs[..|cs|] == cs;
    ResolveCellFailsCleanly(cat, cs[|cs| - 1].info);
  }

  /** On failure, the failing cell and every cell after it are left as they were. */
  lemma {:induction false} ResolveRunFailureLeavesRest(cat: Catalog, cs: seq<MutatorCell>)
    ensures var r := ResolveRun(cat, cs);
      r.0 != Success ==>
        exists f :: 0 <= f < |cs| && ResolveCell(cat, cs[f].info).0 == r.0 &&
                    ResolveRun(cat, cs[..f]).0 == Success &&
                    forall i :: f <= i < |cs| ==> r.1[i] == cs[i]
  {
    if cs != [] && ResolveRun(cat, cs).0 != Success {
      var init := cs[..|cs| - 1];
      if ResolveRun(cat, init).0 != Success {
        ResolveRunFailureLeavesRest(cat, init);
        var f :| 0 <= f < |init| && ResolveCell(cat, init[f].info).0 == ResolveRun(cat, init).0 &&
                 ResolveRun(cat, init[..f]).0 == Success &&
                 forall i :: f <= i < |init| ==> ResolveRun(cat, init).1[i] == init[i];
        ResolveRunFailureExtends(cat, cs, f);
      } else {
        ResolveRunFailsAtLast(cat, cs);
        assert cs[..|init|] == init;
      }
    }
  }

  /** Cells after a failure are untouched by the rest of the run. */
  lemma {:induction false} ResolveRunFrozen(cat: Catalog, cs: seq<MutatorCell>, m: nat)
    requires m <= |cs| && ResolveRun(cat, cs[..m]).0 != Success
    ensures ResolveRun(cat, cs) == (ResolveRun(cat, cs[..m]).0, ResolveRun(cat, cs[..m]).1 + cs[m..])
    decreases |cs|
  {
    if |cs| > m {
      var init := cs[..|cs| - 1];
      assert init[..m] == cs[..m];
      ResolveRunFrozen(cat, init, m);
      assert init[m..] + [cs[|cs| - 1]] == cs[m..];
      ResolveRunStep(cat, cs, |init|);
      assert cs[..|init|] == init && cs[..|init| + 1] == cs;
      assert ResolveRun(cat, cs[..m]).1 + init[m..] + [cs[|cs| - 1]] == ResolveRun(cat, cs[..m]).1 + cs[m..];
    } else {
      assert cs[..m] == cs && cs[m..] == [];
      assert ResolveRun(cat, cs[..m]).1 + [] == ResolveRun(cat, cs[..m]).1;
    }
  }

  /** A run over cells that each resolve to themselves is the identity. */
  lemma {:induction false} ResolveRunFixedPoint(cat: Catalog, cs: seq<MutatorCell>)
    requires forall i :: 0 <= i < |cs| ==> ResolveCell(cat, cs[i].info) == (Success, cs[i].info)
    ensures ResolveRun(cat, cs) == (Success, cs)
  {
    if cs != [] {
      var init := cs[..|cs| - 1];
      ResolveRunFixedPoint(cat, init);
      assert init + [cs[|cs| - 1]] == cs;
    }
  }

  /** A fully resolved run resolves to itself. */
  lemma ResolveRunIdempotent(cat: Catalog, cs: seq<MutatorCell>)
    requires ResolveRun(cat, cs).0 == Success
    ensures ResolveRun(cat, ResolveRun(cat, cs).1) == ResolveRun(cat, cs)
  {
    var out := ResolveRun(cat, cs).1;
    ResolveRunSucceedsIffEveryCellResolves(cat, cs);
    ResolveRunResolvesEachCell(cat, cs);
    ResolveRunChangesOnlyNames(cat, cs);
    forall i | 0 <= i < |cs|
      ensures ResolveCell(cat, out[i].info) == (Success, out[i].info)
    {
      ResolveCellIdempotent(cat, cs[i].info);
    }
    ResolveRunFixedPoint(cat, out);
  }

  /**
   * ob_mutator_resolve_name: from the current iteration position (the iterator is not reset),
   * resolve the column name and then the table name of each cell in place, stopping at the first
   * failure; reaching the end (OB_ITER_END) is success.
   */
  method ObMutatorResolveName(cat: Catalog, mut: Mutator) returns (err: Err)
    requires mut.cursor <= |mut.cells|
    modifies mut
    ensures var r := ResolveRun(cat, old(mut.cells)[old(mut.cursor)..]);
      err == r.0 && mut.cells == old(mut.cells)[..old(mut.cursor)] + r.1
    ensures err == Success ==> mut.cursor == |mut.cells|
    ensures old(mut.cursor) <= mut.cursor <= |mut.cells|
  {
    ghost var start := mut.cursor;
    ghost var orig := mut.cells;
    ghost var tail := orig[start..];
    ghost var k := 0;
    err := Success;
    assert tail[..0] == [] && orig[start..] == tail;
    while err == Success
      invariant 0 <= k <= |tail| && mut.cursor == start + k && |mut.cells| == |orig|
      invariant err == Success || err == IterEnd || err == SchemaError
      invariant err != IterEnd ==> err == ResolveRun(cat, tail[..k]).0
      invariant err == IterEnd ==> k == |tail| && ResolveRun(cat, tail[..k]).0 == Success
      invariant mut.cells == orig[..start] + ResolveRun(cat, tail[..k]).1 + tail[k..]
      decreases |tail| - k, if err == Success then 1 else 0
    {
      err := mut.NextCell();
      if err == Success {
        err := ResolveCurrent(cat, mut, orig[..start], tail, k);
        k := k + 1;
      }
    }
    if err == IterEnd {
      err := Success;
      assert tail[..k] == tail;
    } else {
      ResolveRunFrozen(cat, tail, k);
    }
    assert mut.cells == orig[..start] + ResolveRun(cat, tail).1 by {
      assert tail[..k] == tail || ResolveRun(cat, tail).1 == ResolveRun(cat, tail[..k]).1 + tail[k..];
    }
  }

  /** The body of ob_mutator_resolve_name's loop: resolve the cell the iterator has just moved to, which is cell k of the visited part. */
  method ResolveCurrent(cat: Catalog, mut: Mutator, ghost head: seq<MutatorCell>, ghost tail: seq<MutatorCell>, ghost k: nat)
    returns (err: Err)
    requires k < |tail| && ResolveRun(cat, tail[..k]).0 == Success
    requires mut.cells == head + ResolveRun(cat, tail[..k]).1 + tail[k..] && mut.cursor == |head| + k + 1
    modifies mut
    ensures mut.cursor == old(mut.cursor)
    ensures err == ResolveRun(cat, tail[..k + 1]).0
    ensures mut.cells == head + ResolveRun(cat, tail[..k + 1]).1 + tail[k + 1..]
  {
    var cell := mut.Current();
    ResolveStepInPlace(cat, head, tail, k, mut.cells);
    var step := ResolveCell(cat, cell.info);
    mut.SetCurrentInfo(step.1);
    err := step.0;
  }

  /** The in-place update of cell `k` of the visited part extends the resolved prefix by one cell. */
  lemma ResolveStepInPlace(cat: Catalog, head: seq<MutatorCell>, tail: seq<MutatorCell>, k: nat, cells: seq<MutatorCell>)
    requires k < |tail| && ResolveRun(cat, tail[..k]).0 == Success
    requires cells == head + ResolveRun(cat, tail[..k]).1 + tail[k..]
    ensures cells[|head| + k] == tail[k]
    ensures var step := ResolveCell(cat, tail[k].info);
      cells[|head| + k := cells[|head| + k].(info := step.1)] == head + ResolveRun(cat, tail[..k + 1]).1 + tail[k + 1..]
    ensures ResolveRun(cat, tail[..k + 1]).0 == ResolveCell(cat, tail[k].info).0
  {
    ResolveRunStep(cat, tail, k);
    var step := ResolveCell(cat, tail[k].info);
    var lhs := cells[|head| + k := cells[|head| + k].(info := step.1)];
    var rhs := head + ResolveRun(cat, tail[..k + 1]).1 + tail[k + 1..];
    assert |lhs| == |rhs|;
    forall i | 0 <= i < |lhs|
      ensures lhs[i] == rhs[i]
    {
      if i < |head| + k {
      } else if i == |head| + k {
      } else {
        assert lhs[i] == tail[k..][i - |head| - k];
      }
    }
  }

  /**
   * In a well-formed catalog a successful resolution gives every cell with a table id the name
   * of that table, and every cell with both ids the name of that column.
   */
  lemma ResolvedNamesMatchSchema(cat: Catalog, cs: seq<MutatorCell>)
    requires WellFormed(cat) && ResolveRun(cat, cs).0 == Success
    ensures var out := ResolveRun(cat, cs).1;
      forall i :: 0 <= i < |cs| && cs[i].info.tableId != InvalidId ==>
        exists t :: t in cat.tables && t.id == cs[i].info.tableId && t.name == out[i].info.tableName
    ensures var out := ResolveRun(cat, cs).1;
      forall i :: 0 <= i < |cs| && cs[i].info.tableId != InvalidId && cs[i].info.columnId != InvalidId ==>
        exists t, col :: t in cat.tables && t.id == cs[i].info.tableId && col in t.columns &&
                         col.id == cs[i].info.columnId && col.name == out[i].info.columnName
  {
    ResolveRunSucceedsIffEveryCellResolves(cat, cs);
    ResolveRunResolvesEachCell(cat, cs);
    var out := ResolveRun(cat, cs).1;
    forall i | 0 <= i < |cs| && cs[i].info.tableId != InvalidId
      ensures exists t :: t in cat.tables && t.id == cs[i].info.tableId && t.name == out[i].info.tableName
    {
      var c := cs[i].info;
      var withColumn := ResolveColumnName(cat, c).value;
      assert ResolveTableName(cat, withColumn).Ok?;
    }
  }

  /**
   * mutator_add_: rewind `src` and append each of its cells to `dst`, in order; the end of `src`
   * is success. `dst` and `src` must be different mutators.
   */
  method MutatorAddCells(dst: Mutator, src: Mutator) returns (err: Err)
    requires dst != src
    modifies dst, src
    ensures err == Success
    ensures dst.cells == old(dst.cells) + old(src.cells) && dst.cursor == old(dst.cursor)
    ensures src.cells == old(src.cells) && src.cursor == |src.cells|
  {
    src.ResetIter();
    err := Success;
    while err == Success
      invariant src.cells == old(src.cells) && src.cursor <= |src.cells|
      invariant dst.cells == old(dst.cells) + src.cells[..src.cursor] && dst.cursor == old(dst.cursor)
      invariant err == Success || err == IterEnd
      invariant err == IterEnd ==> src.cursor == |src.cells|
      decreases |src.cells| - src.cursor, if err == Success then 1 else 0
    {
      err := src.NextCell();
      if err == Success {
        var c := src.Current();
        err := dst.AddCell(c);
        assert src.cells[..src.cursor] == src.cells[..src.cursor - 1] + [c];
      }
    }
    assert src.cells[..src.cursor] == src.cells;
    err := Success;
  }

  /**
   * mutator_add: when the serialized sizes of both mutators together exceed `sizeLimit` nothing is
   * added and the status is OB_SIZE_OVERFLOW; otherwise every cell of `src` is appended to `dst`.
   * `serializedSize` stands for ObMutator::get_serialize_size.
   */
  method MutatorAdd(dst: Mutator, src: Mutator, sizeLimit: int, serializedSize: seq<MutatorCell> -> nat) returns (err: Err)
    requires dst != src
    modifies dst, src
    ensures var over := serializedSize(old(dst.cells)) + serializedSize(old(src.cells)) > sizeLimit;
      (err == SizeOverflow <==> over) && (err == Success <==> !over)
    ensures err == SizeOverflow ==> dst.cells == old(dst.cells) && src.cells == old(src.cells) && src.cursor == old(src.cursor)
    ensures err == Success ==> dst.cells == old(dst.cells) + old(src.cells) && src.cells == old(src.cells)
    ensures dst.cursor == old(dst.cursor)
  {
    if serializedSize(dst.cells) + serializedSize(src.cells) > sizeLimit {
      err := SizeOverflow;
    } else {
      err := MutatorAddCells(dst, src);
    }
  }

  /** The columns of `cols` that are not rowkey columns, in order. */
  function NonRowkey(rowkey: seq<RowkeyColumn>, cols: seq<ColumnSchema>): (r: seq<ColumnSchema>)
    ensures |r| <= |cols|
  {
    if cols == [] then []
    else
      var last := cols[|cols| - 1];
      NonRowkey(rowkey, cols[..|cols| - 1]) + (if IsRowkeyColumn(rowkey, last.id) then [] else [last])
  }

  /** The non-rowkey columns are exactly the columns that are not rowkey columns. */
  lemma {:induction false} NonRowkeyMembers(rowkey: seq<RowkeyColumn>, cols: seq<ColumnSchema>)
    ensures forall c :: c in NonRowkey(rowkey, cols) <==> c in cols && !IsRowkeyColumn(rowkey, c.id)
  {
    if cols != [] {
      var last := cols[|cols| - 1];
      assert cols == cols[..|cols| - 1] + [last];
      NonRowkeyMembers(rowkey, cols[..|cols| - 1]);
    }
  }

  /** Visiting one more column. */
  lemma NonRowkeySnoc(rowkey: seq<RowkeyColumn>, cols: seq<ColumnSchema>, i: nat)
    requires i < |cols|
    ensures NonRowkey(rowkey, cols[..i + 1]) ==
      NonRowkey(rowkey, cols[..i]) + (if IsRowkeyColumn(rowkey, cols[i].id) then [] else [cols[i]])
  {
    assert cols[..i + 1][..i] == cols[..i];
  }

  /** The non-rowkey columns of a prefix are a prefix of the non-rowkey columns. */
  lemma {:induction false} NonRowkeyPrefix(rowkey: seq<RowkeyColumn>, cols: seq<ColumnSchema>, i: nat)
    requires i <= |cols|
    ensures NonRowkey(rowkey, cols[..i]) <= NonRowkey(rowkey, cols)
    decreases |cols|
  {
    if i < |cols| {
      assert cols[..|cols| - 1][..i] == cols[..i];
      NonRowkeyPrefix(rowkey, cols[..|cols| - 1], i);
    } else {
      assert cols[..i] == cols;
    }
  }

  /** The update build_rand_mutator adds for one column: a random value of the column's type, or the failure. */
  function UpdateResult(env: Env, cat: Catalog, tableName: string, rowkey: Rowkey, c: ColumnSchema, seed: int): (r: Result<MutatorCell>)
    ensures r.Ok? ==> ChooseValue(env, cat, tableName, c.name, seed) == Ok(r.value.info.value) &&
                      r.value == UpdateCell(tableName, rowkey, c.name, r.value.info.value)
    ensures r.Fail? ==> ChooseValue(env, cat, tableName, c.name, seed) == Fail(r.error)
  {
    match ChooseValue(env, cat, tableName, c.name, seed)
    case Fail(e) => Fail(e)
    case Ok(v) => Ok(UpdateCell(tableName, rowkey, c.name, v))
  }

  /** The updates for a sequence of columns. */
  function UpdateResults(env: Env, cat: Catalog, tableName: string, rowkey: Rowkey, cols: seq<ColumnSchema>, seed: int): (rs: seq<Result<MutatorCell>>)
    ensures |rs| == |cols|
  {
    if cols == [] then []
    else
      UpdateResults(env, cat, tableName, rowkey, cols[..|cols| - 1], seed) +
      [UpdateResult(env, cat, tableName, rowkey, cols[|cols| - 1], seed)]
  }

  lemma UpdateResultsSnoc(env: Env, cat: Catalog, tableName: string, rowkey: Rowkey, cols: seq<ColumnSchema>, c: ColumnSchema, seed: int)
    ensures UpdateResults(env, cat, tableName, rowkey, cols + [c], seed) ==
      UpdateResults(env, cat, tableName, rowkey, cols, seed) + [UpdateResult(env, cat, tableName, rowkey, c, seed)]
  {
    assert (cols + [c])[..|cols|] == cols;
  }

  lemma {:induction false} UpdateResultsAt(env: Env, cat: Catalog, tableName: string, rowkey: Rowkey, cols: seq<ColumnSchema>, seed: int, j: nat)
    requires j < |cols|
    ensures UpdateResults(env, cat, tableName, rowkey, cols, seed)[j] == UpdateResult(env, cat, tableName, rowkey, cols[j], seed)
  {
    if j < |cols| - 1 {
      UpdateResultsAt(env, cat, tableName, rowkey, cols[..|cols| - 1], seed, j);
    }
  }

  /** The updates for a prefix of the columns are a prefix of the updates. */
  lemma {:induction false} UpdateResultsPrefix(env: Env, cat: Catalog, tableName: string, rowkey: Rowkey, cols: seq<ColumnSchema>, seed: int, m: nat)
    requires m <= |cols|
    ensures UpdateResults(env, cat, tableName, rowkey, cols, seed)[..m] == UpdateResults(env, cat, tableName, rowkey, cols[..m], seed)
    decreases |cols|
  {
    if m < |cols| {
      assert cols[..|cols| - 1][..m] == cols[..m];
      UpdateResultsPrefix(env, cat, tableName, rowkey, cols[..|cols| - 1], seed, m);
    } else {
      assert cols[..m] == cols;
    }
  }

  /** The updates build_rand_mutator appends for the non-rowkey columns of a table, stopping at the first failure. */
  function Updates(env: Env, cat: Catalog, tableName: string, rowkey: Rowkey, rk: seq<RowkeyColumn>,
                   cols: seq<ColumnSchema>, seed: int): (Err, seq<MutatorCell>)
  {
    UntilFailure(UpdateResults(env, cat, tableName, rowkey, NonRowkey(rk, cols), seed))
  }

  /**
   * The updates are one per non-rowkey column, in column order, each with the value drawn for its
   * column; they stop at the first column whose value cannot be drawn, and succeed exactly when
   * every value can be drawn.
   */
  lemma UpdatesShape(env: Env, cat: Catalog, tableName: string, rowkey: Rowkey, rk: seq<RowkeyColumn>,
                     cols: seq<ColumnSchema>, seed: int)
    ensures var r := Updates(env, cat, tableName, rowkey, rk, cols, seed);
      var updated := NonRowkey(rk, cols);
      (r.0 == Success <==> forall j :: 0 <= j < |updated| ==> ChooseValue(env, cat, tableName, updated[j].name, seed).Ok?) &&
      (r.0 == Success ==> |r.1| == |updated|) &&
      (r.0 != Success ==> |r.1| < |updated| && ChooseValue(env, cat, tableName, updated[|r.1|].name, seed) == Fail(r.0)) &&
      (forall j :: 0 <= j < |r.1| ==>
         r.1[j] == UpdateCell(tableName, rowkey, updated[j].name, r.1[j].info.value) &&
         ChooseValue(env, cat, tableName, updated[j].name, seed) == Ok(r.1[j].info.value))
  {
    var updated := NonRowkey(rk, cols);
    var rs := UpdateResults(env, cat, tableName, rowkey, updated, seed);
    UntilFailureStops(rs);
    var r := Updates(env, cat, tableName, rowkey, rk, cols, seed);
    forall j | 0 <= j < |r.1|
      ensures r.1[j] == UpdateCell(tableName, rowkey, updated[j].name, r.1[j].info.value) &&
              ChooseValue(env, cat, tableName, updated[j].name, seed) == Ok(r.1[j].info.value)
    {
      UpdateResultsAt(env, cat, tableName, rowkey, updated, seed, j);
    }
    if r.0 == Success {
      forall j | 0 <= j < |updated|
        ensures ChooseValue(env, cat, tableName, updated[j].name, seed).Ok?
      {
        UpdateResultsAt(env, cat, tableName, rowkey, updated, seed, j);
        assert rs[j].Ok?;
      }
    } else {
      UpdateResultsAt(env, cat, tableName, rowkey, updated, seed, |r.1|);
      assert !rs[|r.1|].Ok?;
    }
  }

  /** Every update names a non-rowkey column of the table. */
  lemma UpdatesAvoidRowkey(env: Env, cat: Catalog, tableName: string, rowkey: Rowkey, rk: seq<RowkeyColumn>,
                           cols: seq<ColumnSchema>, seed: int)
    ensures var r := Updates(env, cat, tableName, rowkey, rk, cols, seed);
      forall j :: 0 <= j < |r.1| ==>
        exists c :: c in cols && !IsRowkeyColumn(rk, c.id) && c.name == r.1[j].info.columnName
  {
    UpdatesShape(env, cat, tableName, rowkey, rk, cols, seed);
    NonRowkeyMembers(rk, cols);
    var updated := NonRowkey(rk, cols);
    var r := Updates(env, cat, tableName, rowkey, rk, cols, seed);
    forall j | 0 <= j < |r.1|
      ensures exists c :: c in cols && !IsRowkeyColumn(rk, c.id) && c.name == r.1[j].info.columnName
    {
      assert updated[j] in updated;
    }
  }

  /**
   * What build_rand_mutator appends once the table is chosen, and its status: the rowkey, the table
   * found by name and its columns found by id; then either the deletion of that row or the updates.
   */
  function TableMutation(env: Env, cat: Catalog, name: string, seed: int, delete: bool): (Err, seq<MutatorCell>) {
    match ChooseRowkey(env, cat, name, seed)
    case Fail(e) => (e, [])
    case Ok(rowkey) =>
      match TableByName(cat, name)
      case None => (SchemaError, [])
      case Some(t) =>
        match TableById(cat, t.id)
        case None => (SchemaError, [])
        case Some(byId) =>
          if delete then (Success, [DelRowCell(name, rowkey)])
          else Updates(env, cat, name, rowkey, t.rowkey, byId.columns, seed)
  }

  /** What build_rand_mutator appends for one seed, and its status. */
  function RandMutation(env: Env, cat: Catalog, tableName: Option<string>, seed: int, delete: bool): (Err, seq<MutatorCell>) {
    match ChosenTable(env, cat, tableName, seed)
    case Fail(e) => (e, [])
    case Ok(name) => TableMutation(env, cat, name, seed, delete)
  }

  /**
   * In a well-formed catalog: a failed table choice appends nothing; in delete mode a drawn rowkey
   * gives exactly the deletion of that row; otherwise the updates are those of the table found by
   * name, over its own columns.
   */
  lemma RandMutationCases(env: Env, cat: Catalog, tableName: Option<string>, seed: int, delete: bool)
    requires WellFormed(cat)
    ensures ChosenTable(env, cat, tableName, seed).Fail? ==>
      RandMutation(env, cat, tableName, seed, delete) == (ChosenTable(env, cat, tableName, seed).error, [])
    ensures ChosenTable(env, cat, tableName, seed).Ok? ==>
      var name := ChosenTable(env, cat, tableName, seed).value;
      var r := RandMutation(env, cat, tableName, seed, delete);
      (ChooseRowkey(env, cat, name, seed).Fail? ==> r == (ChooseRowkey(env, cat, name, seed).error, [])) &&
      (ChooseRowkey(env, cat, name, seed).Ok? && delete ==>
         r == (Success, [DelRowCell(name, ChooseRowkey(env, cat, name, seed).value)])) &&
      (ChooseRowkey(env, cat, name, seed).Ok? && !delete ==>
         var t := TableByName(cat, name).value;
         r == Updates(env, cat, name, ChooseRowkey(env, cat, name, seed).value, t.rowkey, t.columns, seed))
  {
    if ChosenTable(env, cat, tableName, seed).Ok? {
      var name := ChosenTable(env, cat, tableName, seed).value;
      if ChooseRowkey(env, cat, name, seed).Ok? {
        TableByOwnId(cat, TableByName(cat, name).value);
      }
    }
  }

  /** The updates for the columns before `i`, stopping at the first failure. */
  function UpdatesUpTo(env: Env, cat: Catalog, tableName: string, rowkey: Rowkey, rk: seq<RowkeyColumn>,
                       cols: seq<ColumnSchema>, seed: int, i: nat): (Err, seq<MutatorCell>)
    requires i <= |cols|
  {
    UntilFailure(UpdateResults(env, cat, tableName, rowkey, NonRowkey(rk, cols[..i]), seed))
  }

  /** Column `i` adds nothing when it is a rowkey column, and otherwise its update or its failure. */
  lemma UpdatesUpToStep(env: Env, cat: Catalog, tableName: string, rowkey: Rowkey, rk: seq<RowkeyColumn>,
                        cols: seq<ColumnSchema>, seed: int, i: nat)
    requires i < |cols| && UpdatesUpTo(env, cat, tableName, rowkey, rk, cols, seed, i).0 == Success
    ensures var prev := UpdatesUpTo(env, cat, tableName, rowkey, rk, cols, seed, i);
      var c := cols[i];
      var v := ChooseValue(env, cat, tableName, c.name, seed);
      UpdatesUpTo(env, cat, tableName, rowkey, rk, cols, seed, i + 1) ==
        if IsRowkeyColumn(rk, c.id) then prev
        else if v.Fail? then (v.error, prev.1)
        else (Success, prev.1 + [UpdateCell(tableName, rowkey, c.name, v.value)])
  {
    var c := cols[i];
    NonRowkeySnoc(rk, cols, i);
    var done := NonRowkey(rk, cols[..i]);
    if !IsRowkeyColumn(rk, c.id) {
      var x := UpdateResult(env, cat, tableName, rowkey, c, seed);
      UpdateResultsSnoc(env, cat, tableName, rowkey, done, c, seed);
      var before := UpdateResults(env, cat, tableName, rowkey, done, seed);
      UntilFailureSnoc(before, x);
      assert UpdatesUpTo(env, cat, tableName, rowkey, rk, cols, seed, i + 1) == UntilFailure(before + [x]);
    } else {
      assert NonRowkey(rk, cols[..i + 1]) == done + [] == done;
    }
  }

  /** UpdatesUpToStep phrased for the loop: the outcome of one UpdateColumn call extends the accumulated updates. */
  lemma UpdatesUpToAdvance(env: Env, cat: Catalog, tableName: string, rowkey: Rowkey, rk: seq<RowkeyColumn>,
                           cols: seq<ColumnSchema>, seed: int, i: nat, added: seq<MutatorCell>, err: Err, appended: seq<MutatorCell>)
    requires i < |cols| && (Success, added) == UpdatesUpTo(env, cat, tableName, rowkey, rk, cols, seed, i)
    requires var v := ChooseValue(env, cat, tableName, cols[i].name, seed);
      (err, appended) ==
        if IsRowkeyColumn(rk, cols[i].id) then (Success, [])
        else if v.Fail? then (v.error, [])
        else (Success, [UpdateCell(tableName, rowkey, cols[i].name, v.value)])
    ensures (err, added + appended) == UpdatesUpTo(env, cat, tableName, rowkey, rk, cols, seed, i + 1)
  {
    UpdatesUpToStep(env, cat, tableName, rowkey, rk, cols, seed, i);
    var v := ChooseValue(env, cat, tableName, cols[i].name, seed);
    if IsRowkeyColumn(rk, cols[i].id) || v.Fail? {
      assert appended == [];
      assert added + appended == added;
    }
  }

  /** Once every column is visited, or a value failed, the updates are complete. */
  lemma UpdatesUpToDone(env: Env, cat: Catalog, tableName: string, rowkey: Rowkey, rk: seq<RowkeyColumn>,
                        cols: seq<ColumnSchema>, seed: int, i: nat)
    requires i <= |cols|
    requires i == |cols| || UpdatesUpTo(env, cat, tableName, rowkey, rk, cols, seed, i).0 != Success
    ensures Updates(env, cat, tableName, rowkey, rk, cols, seed) == UpdatesUpTo(env, cat, tableName, rowkey, rk, cols, seed, i)
  {
    if i == |cols| {
      assert cols[..i] == cols;
    } else {
      var all := NonRowkey(rk, cols);
      var done := NonRowkey(rk, cols[..i]);
      NonRowkeyPrefix(rk, cols, i);
      assert all[..|done|] == done;
      UpdateResultsPrefix(env, cat, tableName, rowkey, all, seed, |done|);
      UntilFailureFrozen(UpdateResults(env, cat, tableName, rowkey, all, seed), |done|);
    }
  }

  /** One iteration of build_rand_mutator's column loop: rowkey columns are skipped, any other column is updated with a drawn value. */
  method UpdateColumn(env: Env, cat: Catalog, mut: Mutator, name: string, rowkey: Rowkey, rk: seq<RowkeyColumn>,
                      c: ColumnSchema, seed: int) returns (err: Err, ghost appended: seq<MutatorCell>)
    modifies mut
    ensures mut.cells == old(mut.cells) + appended && mut.cursor == old(mut.cursor)
    ensures var v := ChooseValue(env, cat, name, c.name, seed);
      (err, appended) ==
        if IsRowkeyColumn(rk, c.id) then (Success, [])
        else if v.Fail? then (v.error, [])
        else (Success, [UpdateCell(name, rowkey, c.name, v.value)])
  {
    err, appended := Success, [];
    if IsRowkeyColumn(rk, c.id) {
      assert mut.cells == old(mut.cells) + [];
      return;
    }
    var value := ChooseValue(env, cat, name, c.name, seed);
    if value.Fail? {
      err := value.error;
      assert mut.cells == old(mut.cells) + [];
    } else {
      err := mut.Update(name, rowkey, c.name, value.value);
      appended := [UpdateCell(name, rowkey, c.name, value.value)];
    }
  }

  /** Column i of build_rand_mutator's loop, in terms of the updates accumulated over the columns before it. */
  method UpdateColumnAt(env: Env, cat: Catalog, mut: Mutator, name: string, rowkey: Rowkey, rk: seq<RowkeyColumn>,
                        cols: seq<ColumnSchema>, seed: int, i: nat, ghost added: seq<MutatorCell>)
    returns (err: Err, ghost appended: seq<MutatorCell>)
    requires i < |cols| && (Success, added) == UpdatesUpTo(env, cat, name, rowkey, rk, cols, seed, i)
    modifies mut
    ensures mut.cells == old(mut.cells) + appended && mut.cursor == old(mut.cursor)
    ensures (err, added + appended) == UpdatesUpTo(env, cat, name, rowkey, rk, cols, seed, i + 1)
  {
    err, appended := UpdateColumn(env, cat, mut, name, rowkey, rk, cols[i], seed);
    UpdatesUpToAdvance(env, cat, name, rowkey, rk, cols, seed, i, added, err, appended);
  }

  /** Appends the updates of the non-rowkey columns of `cols`, stopping at the first value that cannot be drawn. */
  method AppendUpdates(env: Env, cat: Catalog, mut: Mutator, name: string, rowkey: Rowkey, rk: seq<RowkeyColumn>,
                       cols: seq<ColumnSchema>, seed: int) returns (err: Err)
    modifies mut
    ensures var r := Updates(env, cat, name, rowkey, rk, cols, seed);
      err == r.0 && mut.cells == old(mut.cells) + r.1
    ensures mut.cursor == old(mut.cursor)
  {
    err := Success;
    ghost var added: seq<MutatorCell> := [];
    var i := 0;
    assert cols[..0] == [];
    while err == Success && i < |cols|
      invariant 0 <= i <= |cols|
      invariant mut.cells == old(mut.cells) + added && mut.cursor == old(mut.cursor)
      invariant (err, added) == UpdatesUpTo(env, cat, name, rowkey, rk, cols, seed, i)
    {
      ghost var appended;
      err, appended := UpdateColumnAt(env, cat, mut, name, rowkey, rk, cols, seed, i, added);
      added := added + appended;
      i := i + 1;
    }
    UpdatesUpToDone(env, cat, name, rowkey, rk, cols, seed, i);
  }

  /**
   * build_rand_mutator: choose a table and a rowkey with the seed; then delete the row when
   * write_type is "delete", and otherwise update each non-rowkey column with a random value,
   * stopping at the first failure. `writeType` stands for the configuration lookup.
   */
  method BuildRandMutator(env: Env, cat: Catalog, mut: Mutator, seed: int, tableName: Option<string>, writeType: string)
    returns (err: Err)
    modifies mut
    ensures var r := RandMutation(env, cat, tableName, seed, writeType == "delete");
      err == r.0 && mut.cells == old(mut.cells) + r.1
    ensures mut.cursor == old(mut.cursor)
  {
    var name;
    err, name := ChooseTable(env, cat, tableName, seed);
    if err != Success {
      assert mut.cells == old(mut.cells) + [];
      return;
    }
    err := BuildTableMutation(env, cat, mut, seed, name, writeType);
  }

  /** The part of build_rand_mutator after the table is chosen. */
  method BuildTableMutation(env: Env, cat: Catalog, mut: Mutator, seed: int, name: string, writeType: string)
    returns (err: Err)
    modifies mut
    ensures var r := TableMutation(env, cat, name, seed, writeType == "delete");
      err == r.0 && mut.cells == old(mut.cells) + r.1
    ensures mut.cursor == old(mut.cursor)
  {
    var rowkey := ChooseRowkey(env, cat, name, seed);
    if rowkey.Fail? {
      err := rowkey.error;
      assert mut.cells == old(mut.cells) + [];
      return;
    }
    var t := TableByName(cat, name);
    if t.None? {
      err := SchemaError;
      return;
    }
    var byId := TableById(cat, t.value.id);
    if byId.None? {
      err := SchemaError;
      return;
    }
    if writeType == "delete" {
      err := mut.DelRow(name, rowkey.value);
    } else {
      err := AppendUpdates(env, cat, mut, name, rowkey.value, t.value.rowkey, byId.value.columns, seed);
    }
  }

  /** The outcome of build_rand_mutator for each of the seeds start .. start + n - 1. */
  function MutationOutcomes(env: Env, cat: Catalog, tableName: Option<string>, start: int, n: nat, delete: bool): (os: seq<(Err, seq<MutatorCell>)>)
    ensures |os| == n
  {
    if n == 0 then []
    else MutationOutcomes(env, cat, tableName, start, n - 1, delete) + [RandMutation(env, cat, tableName, start + n - 1, delete)]
  }

  lemma {:induction false} MutationOutcomesAt(env: Env, cat: Catalog, tableName: Option<string>, start: int, n: nat, delete: bool, j: nat)
    requires j < n
    ensures MutationOutcomes(env, cat, tableName, start, n, delete)[j] == RandMutation(env, cat, tableName, start + j, delete)
  {
    if j < n - 1 {
      MutationOutcomesAt(env, cat, tableName, start, n - 1, delete, j);
    }
  }

  /** The outcome of seed s of the window is the mutation built for s. */
  lemma MutationOutcomeOfSeed(env: Env, cat: Catalog, tableName: Option<string>, start: int, n: nat, delete: bool, s: int)
    requires start <= s < start + n
    ensures MutationOutcomes(env, cat, tableName, start, n, delete)[s - start] == RandMutation(env, cat, tableName, s, delete)
  {
    MutationOutcomesAt(env, cat, tableName, start, n, delete, s - start);
  }

  /**
   * build_rand_batch_mutator as written: one random mutation per seed in [start, start + n), all
   * appended; the status is overwritten on every iteration, so only the last seed's status is
   * returned.
   */
  function BatchAsWritten(env: Env, cat: Catalog, tableName: Option<string>, start: int, n: nat, delete: bool): (Err, seq<MutatorCell>) {
    AllAppended(MutationOutcomes(env, cat, tableName, start, n, delete))
  }

  /**
   * build_rand_batch_mutator with the evident intent: stop at the first seed whose mutation fails
   * and report that failure.
   */
  function BatchChecked(env: Env, cat: Catalog, tableName: Option<string>, start: int, n: nat, delete: bool): (Err, seq<MutatorCell>) {
    AppendedUntilFailure(MutationOutcomes(env, cat, tableName, start, n, delete))
  }

  /**
   * The batch as written reports the status of the last seed only: it reports success although an
   * earlier seed failed whenever the last seed succeeds, where the corrected batch reports the failure.
   */
  lemma BatchAsWrittenMasksFailure(env: Env, cat: Catalog, tableName: Option<string>, start: int, n: nat, delete: bool, f: nat)
    requires f < n - 1
    requires RandMutation(env, cat, tableName, start + f, delete).0 != Success
    requires RandMutation(env, cat, tableName, start + n - 1, delete).0 == Success
    ensures BatchAsWritten(env, cat, tableName, start, n, delete).0 == Success
    ensures BatchChecked(env, cat, tableName, start, n, delete).0 != Success
  {
    BatchAsWrittenReportsLastSeed(env, cat, tableName, start, n, delete);
    BatchCheckedSucceedsIffEverySeedDoes(env, cat, tableName, start, n, delete);
  }

  /** The batch as written reports the status of the mutation of its last seed, whatever came before. */
  lemma BatchAsWrittenReportsLastSeed(env: Env, cat: Catalog, tableName: Option<string>, start: int, n: nat, delete: bool)
    requires n > 0
    ensures BatchAsWritten(env, cat, tableName, start, n, delete).0 == RandMutation(env, cat, tableName, start + n - 1, delete).0
  {
    MutationOutcomesAt(env, cat, tableName, start, n, delete, n - 1);
  }

  /**
   * The corrected batch succeeds exactly when the mutation of every seed in the window does; then
   * it appends what the batch as written appends.
   */
  lemma BatchCheckedSucceedsIffEverySeedDoes(env: Env, cat: Catalog, tableName: Option<string>, start: int, n: nat, delete: bool)
    ensures BatchChecked(env, cat, tableName, start, n, delete).0 == Success <==>
      forall s :: start <= s < start + n ==> RandMutation(env, cat, tableName, s, delete).0 == Success
    ensures BatchChecked(env, cat, tableName, start, n, delete).0 == Success ==>
      BatchChecked(env, cat, tableName, start, n, delete) == BatchAsWritten(env, cat, tableName, start, n, delete)
  {
    var os := MutationOutcomes(env, cat, tableName, start, n, delete);
    AppendedUntilFailureSucceeds(os);
    MutationOutcomesSucceed(env, cat, tableName, start, n, delete);
    if AppendedUntilFailure(os).0 == Success {
      assert forall j :: 0 <= j < n ==> os[j].0 == Success;
    } else {
      var j :| 0 <= j < |os| && os[j].0 != Success;
      MutationOutcomesAt(env, cat, tableName, start, n, delete, j);
      assert RandMutation(env, cat, tableName, start + j, delete).0 != Success;
    }
  }

  /** Every outcome of the window succeeds exactly when the mutation of every seed in it does. */
  lemma MutationOutcomesSucceed(env: Env, cat: Catalog, tableName: Option<string>, start: int, n: nat, delete: bool)
    ensures (forall j :: 0 <= j < n ==> MutationOutcomes(env, cat, tableName, start, n, delete)[j].0 == Success) <==>
            (forall s :: start <= s < start + n ==> RandMutation(env, cat, tableName, s, delete).0 == Success)
  {
    var os := MutationOutcomes(env, cat, tableName, start, n, delete);
    if forall j :: 0 <= j < n ==> os[j].0 == Success {
      forall s | start <= s < start + n
        ensures RandMutation(env, cat, tableName, s, delete).0 == Success
      {
        MutationOutcomeOfSeed(env, cat, tableName, start, n, delete, s);
        assert os[s - start].0 == Success;
      }
    } else {
      var j :| 0 <= j < n && os[j].0 != Success;
      MutationOutcomesAt(env, cat, tableName, start, n, delete, j);
      assert RandMutation(env, cat, tableName, start + j, delete).0 != Success;
    }
  }

  /** One iteration of build_rand_batch_mutator: the mutation of seed start + k, which is outcome k of the window. */
  method BatchStep(env: Env, cat: Catalog, mut: Mutator, start: int, n: nat, k: nat,
                   tableName: Option<string>, writeType: string, ghost os: seq<(Err, seq<MutatorCell>)>) returns (err: Err)
    requires k < n && os == MutationOutcomes(env, cat, tableName, start, n, writeType == "delete")
    modifies mut
    ensures err == os[k].0 && mut.cells == old(mut.cells) + os[k].1
    ensures mut.cursor == old(mut.cursor)
  {
    MutationOutcomesAt(env, cat, tableName, start, n, writeType == "delete", k);
    err := BuildRandMutator(env, cat, mut, start + k, tableName, writeType);
  }

  /** build_rand_batch_mutator as written. */
  method BuildRandBatchMutator(env: Env, cat: Catalog, mut: Mutator, start: int, end: int,
                               tableName: Option<string>, writeType: string) returns (err: Err)
    modifies mut
    ensures var r := BatchAsWritten(env, cat, tableName, start, if end > start then end - start else 0, writeType == "delete");
      err == r.0 && mut.cells == old(mut.cells) + r.1
    ensures mut.cursor == old(mut.cursor)
  {
    err := Success;
    var n := if end > start then end - start else 0;
    ghost var os := MutationOutcomes(env, cat, tableName, start, n, writeType == "delete");
    ghost var added: seq<MutatorCell> := [];
    assert os[..0] == [];
    for k := 0 to n
      invariant mut.cells == old(mut.cells) + added && mut.cursor == old(mut.cursor)
      invariant (err, added) == AllAppended(os[..k])
    {
      AllAppendedStep(os, k);
      err := BatchStep(env, cat, mut, start, n, k, tableName, writeType, os);
      added := added + os[k].1;
    }
    assert os[..n] == os;
  }

  /** build_rand_batch_mutator, stopping at the first failing seed. */
  method BuildRandBatchMutatorChecked(env: Env, cat: Catalog, mut: Mutator, start: int, end: int,
                                      tableName: Option<string>, writeType: string) returns (err: Err)
    modifies mut
    ensures var r := BatchChecked(env, cat, tableName, start, if end > start then end - start else 0, writeType == "delete");
      err == r.0 && mut.cells == old(mut.cells) + r.1
    ensures mut.cursor == old(mut.cursor)
  {
    err := Success;
    var n := if end > start then end - start else 0;
    ghost var os := MutationOutcomes(env, cat, tableName, start, n, writeType == "delete");
    ghost var added: seq<MutatorCell> := [];
    var k := 0;
    assert os[..0] == [];
    while err == Success && k < n
      invariant 0 <= k <= n
      invariant mut.cells == old(mut.cells) + added && mut.cursor == old(mut.cursor)
      invariant (err, added) == AppendedUntilFailure(os[..k])
    {
      AppendedUntilFailureStep(os, k);
      err := BatchStep(env, cat, mut, start, n, k, tableName, writeType, os);
      added := added + os[k].1;
      k := k + 1;
    }
    if err != Success {
      AppendedUntilFailureFrozen(os, k);
    } else {
      assert os[..k] == os;
    }
  }
}
