/**
 * Expression items and the generator's expression builders: obj2item, build_expr_values,
 * get_first_int_col and build_gt0_expr.
 */
module Exprs {
  import opened Common
  import opened Rows

  /**
   * ExprItem, as the generator fills it: an integer or string constant, a column reference, the OR
   * operator with its operand count, or the end marker add_expr_item_end appends.
   */
  datatype ExprItem =
    | IntConst(intValue: int)               // T_INT
    | StrConst(strValue: string)            // T_STRING
    | ColumnItem(tableId: nat, columnId: nat) // T_REF_COLUMN
    | OrOp(operands: int)                   // T_OP_OR
    | End                                   // the item add_expr_item_end adds

  /** An ObSqlExpression: its items in postfix order. */
  type Expr = seq<ExprItem>

  /** obj2item: an Int value becomes an integer constant, a Varchar one a string constant; any other type is OB_NOT_SUPPORTED. */
  function Obj2Item(o: Obj): Result<ExprItem> {
    match o.ty
    case IntType => Ok(IntConst(o.intValue))
    case VarcharType => Ok(StrConst(o.strValue))
    case _ => Fail(NotSupported)
  }

  /** The value a constant item stands for. */
  function ItemObj(item: ExprItem): (o: Obj)
    requires item.IntConst? || item.StrConst?
  {
    if item.IntConst? then Obj(IntType, item.intValue, "") else Obj(VarcharType, 0, item.strValue)
  }

  /**
   * obj2item accepts exactly the Int and Varchar values, rejects every other type with
   * OB_NOT_SUPPORTED, and keeps the value: the item stands for a value of the same type and payload,
   * and turning a constant's value back into an item gives the constant.
   */
  lemma Obj2ItemRoundTrip(o: Obj, item: ExprItem)
    ensures Obj2Item(o).Ok? <==> o.ty == IntType || o.ty == VarcharType
    ensures Obj2Item(o).Fail? ==> Obj2Item(o).error == NotSupported
    ensures Obj2Item(o).Ok? ==>
      var back := ItemObj(Obj2Item(o).value);
      back.ty == o.ty && (o.ty == IntType ==> back.intValue == o.intValue) && (o.ty == VarcharType ==> back.strValue == o.strValue)
    ensures item.IntConst? || item.StrConst? ==> Obj2Item(ItemObj(item)) == Ok(item)
  {
  }

  /** ObExprValues: the descriptors it was given and the expressions added to it, in order. */
  class ExprValues {
    var rowDesc: seq<ColumnRef>
    var rowDescExt: seq<DescEntry>
    var exprs: seq<Expr>

    constructor()
      ensures rowDesc == [] && rowDescExt == [] && exprs == []
    {
      rowDesc := [];
      rowDescExt := [];
      exprs := [];
    }

    method SetRowDesc(desc: seq<ColumnRef>, ext: seq<DescEntry>)
      modifies this
      ensures rowDesc == desc && rowDescExt == ext && exprs == old(exprs)
    {
      rowDesc, rowDescExt := desc, ext;
    }

    /** add_value: appends one expression. */
    method AddValue(e: Expr) returns (err: Err)
      modifies this
      ensures err == Success
      ensures exprs == old(exprs) + [e] && rowDesc == old(rowDesc) && rowDescExt == old(rowDescExt)
    {
      exprs := exprs + [e];
      err := Success;
    }
  }

  /**
   * What build_expr_values does with cell i of a row: nothing for a cell without a table
   * (OB_INVALID_ID), OB_NOT_SUPPORTED for a value obj2item rejects, otherwise one expression made of
   * the value's constant and the end marker.
   */
  function CellOutcome(ref: ColumnRef, cell: Obj): (Err, seq<Expr>) {
    if ref.tableId == InvalidId then (Success, [])
    else
      match Obj2Item(cell)
      case Fail(e) => (e, [])
      case Ok(item) => (Success, [[item, End]])
  }

  function CellOutcomes(row: Row): seq<(Err, seq<Expr>)>
    requires |row.desc| == |row.cells|
  {
    seq(|row.desc|, i requires 0 <= i < |row.desc| => CellOutcome(row.desc[i], row.cells[i]))
  }

  /** The inner loop of build_expr_values over one row: the cells' expressions until the first rejected value. */
  function RowExprs(row: Row): (Err, seq<Expr>)
    requires |row.desc| == |row.cells|
  {
    AppendedUntilFailure(CellOutcomes(row))
  }

  /** Whether obj2item accepts the value of every cell that belongs to a table. */
  predicate ConvertibleRow(row: Row)
    requires |row.desc| == |row.cells|
  {
    forall i :: 0 <= i < |row.desc| && row.desc[i].tableId != InvalidId ==>
      row.cells[i].ty == IntType || row.cells[i].ty == VarcharType
  }

  /**
   * An independent statement of the expressions of a row: one expression [constant, end] per cell
   * that belongs to a table, in cell order; cells without a table contribute nothing.
   */
  function ConstantExprs(refs: seq<ColumnRef>, cells: seq<Obj>): seq<Expr>
    requires |refs| == |cells|
    requires forall i :: 0 <= i < |refs| && refs[i].tableId != InvalidId ==> Obj2Item(cells[i]).Ok?
  {
    if refs == [] then []
    else
      var n := |refs| - 1;
      ConstantExprs(refs[..n], cells[..n]) +
      (if refs[n].tableId == InvalidId then [] else [[Obj2Item(cells[n]).value, End]])
  }

  /** A row's status: success exactly when the row is convertible, OB_NOT_SUPPORTED otherwise. */
  lemma RowExprsStatus(row: Row)
    requires |row.desc| == |row.cells|
    ensures RowExprs(row).0 == Success <==> ConvertibleRow(row)
    ensures RowExprs(row).0 != Success ==> RowExprs(row).0 == NotSupported
  {
    var os := CellOutcomes(row);
    AppendedUntilFailureCharacterized(os);
    forall i | 0 <= i < |os|
      ensures os[i].0 == Success <==> row.desc[i].tableId == InvalidId || row.cells[i].ty == IntType || row.cells[i].ty == VarcharType
      ensures os[i].0 == Success || os[i].0 == NotSupported
    {
      assert os[i] == CellOutcome(row.desc[i], row.cells[i]);
    }
  }

  /** Appending the outcomes of a convertible row's cells gives its constant expressions. */
  lemma {:induction false} CellOutcomesAppendConstants(row: Row)
    requires |row.desc| == |row.cells| && ConvertibleRow(row)
    ensures AllAppended(CellOutcomes(row)).1 == ConstantExprs(row.desc, row.cells)
    decreases |row.desc|
  {
    if row.desc != [] {
      var os := CellOutcomes(row);
      var n := |row.desc| - 1;
      var init := Row(row.desc[..n], row.cells[..n]);
      assert CellOutcomes(init) == os[..n];
      CellOutcomesAppendConstants(init);
      AllAppendedStep(os, n);
      assert os[..n + 1] == os;
      assert os[n] == CellOutcome(row.desc[n], row.cells[n]);
    }
  }

  /**
   * A row's expressions are built exactly when every cell that belongs to a table holds an Int or
   * Varchar value (otherwise the status is OB_NOT_SUPPORTED), and then they are one [constant, end]
   * per such cell, in order.
   */
  lemma RowExprsCharacterized(row: Row)
    requires |row.desc| == |row.cells|
    ensures RowExprs(row).0 == Success <==> ConvertibleRow(row)
    ensures RowExprs(row).0 != Success ==> RowExprs(row).0 == NotSupported
    ensures ConvertibleRow(row) ==> RowExprs(row).1 == ConstantExprs(row.desc, row.cells)
  {
    RowExprsStatus(row);
    if ConvertibleRow(row) {
      AppendedUntilFailureSucceeds(CellOutcomes(row));
      CellOutcomesAppendConstants(row);
    }
  }

  /** Each row's expressions, row after row, until a row fails. */
  function RowsExprs(rows: seq<Row>): (Err, seq<Expr>)
    requires forall k :: 0 <= k < |rows| ==> |rows[k].desc| == |rows[k].cells|
  {
    AppendedUntilFailure(RowExprOutcomes(rows))
  }

  /** The inner loop's outcome for each row of the set, in order. */
  function RowExprOutcomes(rows: seq<Row>): seq<(Err, seq<Expr>)>
    requires forall k :: 0 <= k < |rows| ==> |rows[k].desc| == |rows[k].cells|
  {
    seq(|rows|, k requires 0 <= k < |rows| => RowExprs(rows[k]))
  }

  /**
   * build_expr_values succeeds exactly when every row is convertible, and then holds each row's
   * constant expressions, row after row; otherwise it reports OB_NOT_SUPPORTED.
   */
  lemma RowsExprsCharacterized(rows: seq<Row>)
    requires forall k :: 0 <= k < |rows| ==> |rows[k].desc| == |rows[k].cells|
    ensures RowsExprs(rows).0 == Success <==> forall k :: 0 <= k < |rows| ==> ConvertibleRow(rows[k])
    ensures RowsExprs(rows).0 != Success ==> RowsExprs(rows).0 == NotSupported
    ensures RowsExprs(rows).0 == Success ==>
      RowsExprs(rows) == AllAppended(seq(|rows|, k requires 0 <= k < |rows| => (Success, ConstantExprs(rows[k].desc, rows[k].cells))))
  {
    var os := RowExprOutcomes(rows);
    AppendedUntilFailureCharacterized(os);
    forall k | 0 <= k < |rows|
      ensures os[k].0 == Success <==> ConvertibleRow(rows[k])
      ensures os[k].0 != Success ==> os[k].0 == NotSupported
      ensures ConvertibleRow(rows[k]) ==> os[k] == (Success, ConstantExprs(rows[k].desc, rows[k].cells))
    {
      RowExprsCharacterized(rows[k]);
    }
    if RowsExprs(rows).0 == Success {
      var cs := seq(|rows|, k requires 0 <= k < |rows| => (Success, ConstantExprs(rows[k].desc, rows[k].cells)));
      assert os == cs;
    }
  }

  /**
   * The inner loop of build_expr_values: each cell of the row that belongs to a table becomes an
   * expression of its value's constant followed by the end marker, until a value is rejected.
   */
  method AddRowExprs(row: Row, ev: ExprValues) returns (err: Err)
    requires |row.desc| == |row.cells|
    modifies ev
    ensures err == RowExprs(row).0 && ev.exprs == old(ev.exprs) + RowExprs(row).1
    ensures err == Success || err == NotSupported
    ensures ev.rowDesc == old(ev.rowDesc) && ev.rowDescExt == old(ev.rowDescExt)
  {
    ghost var os := CellOutcomes(row);
    ghost var added: seq<Expr> := [];
    err := Success;
    var i := 0;
    while err == Success && i < |row.desc|
      invariant 0 <= i <= |row.desc|
      invariant (err, added) == AppendedUntilFailure(os[..i])
      invariant err == Success || err == NotSupported
      invariant ev.exprs == old(ev.exprs) + added
      invariant ev.rowDesc == old(ev.rowDesc) && ev.rowDescExt == old(ev.rowDescExt)
    {
      AppendedUntilFailureStep(os, i);
      assert os[i] == CellOutcome(row.desc[i], row.cells[i]);
      if row.desc[i].tableId != InvalidId {
        match Obj2Item(row.cells[i]) {
          case Fail(e) =>
            err := e;
            assert added + [] == added;
          case Ok(item) =>
            err := ev.AddValue([item, End]);
            added := added + [[item, End]];
        }
      } else {
        assert added + [] == added;
      }
      i := i + 1;
    }
    if err != Success {
      AppendedUntilFailureFrozen(os, i);
    } else {
      assert os[..i] == os;
    }
  }

  /**
   * build_expr_values: reads the row set from the start and turns the cells of each row into
   * expressions until a value is rejected; running out of rows is success.
   */
  method BuildExprValues(vals: Values, ev: ExprValues) returns (err: Err)
    requires forall k :: 0 <= k < |vals.rows| ==> |vals.rows[k].desc| == |vals.rows[k].cells|
    modifies vals, ev
    ensures vals.rows == old(vals.rows) && vals.rowDesc == old(vals.rowDesc) && vals.cursor <= |vals.rows|
    ensures err == RowsExprs(vals.rows).0 && ev.exprs == old(ev.exprs) + RowsExprs(vals.rows).1
    ensures ev.rowDesc == old(ev.rowDesc) && ev.rowDescExt == old(ev.rowDescExt)
    ensures err == Success ==> vals.cursor == |vals.rows|
  {
    ghost var os := RowExprOutcomes(vals.rows);
    ghost var added: seq<Expr> := [];
    err := vals.Open();
    while err == Success
      invariant vals.rows == old(vals.rows) && vals.rowDesc == old(vals.rowDesc) && vals.cursor <= |vals.rows|
      invariant ev.exprs == old(ev.exprs) + added
      invariant ev.rowDesc == old(ev.rowDesc) && ev.rowDescExt == old(ev.rowDescExt)
      invariant err == Success ==> (Success, added) == AppendedUntilFailure(os[..vals.cursor])
      invariant err == IterEnd ==> vals.cursor == |vals.rows| && (Success, added) == AppendedUntilFailure(os[..vals.cursor])
      invariant err != Success && err != IterEnd ==>
        0 < vals.cursor && (err, added) == AppendedUntilFailure(os[..vals.cursor])
      decreases |vals.rows| - vals.cursor, if err == Success then 1 else 0
    {
      var row;
      err, row := vals.GetNextRow();
      if err == Success {
        var k := vals.cursor - 1;
        assert row == vals.rows[k];
        AppendedUntilFailureStep(os, k);
        assert os[k] == RowExprs(row);
        err := AddRowExprs(row, ev);
        added := added + os[k].1;
      }
    }
    if err == IterEnd {
      err := Success;
      assert os[..vals.cursor] == os;
    } else {
      AppendedUntilFailureFrozen(os, vals.cursor);
    }
  }

  /**
   * What get_first_int_col reports, as written: OB_ENTRY_NOT_EXIST with the caller's ids untouched
   * when there is no entry from start on; otherwise success with the ids of the first Int entry from
   * start on, or, when none of them is Int, of the last entry. A negative start fails in get_by_idx.
   */
  function FirstIntCol(es: seq<DescEntry>, start: int, tableId: nat, columnId: nat): (Err, nat, nat) {
    if start < 0 then (InvalidArgument, tableId, columnId)
    else if start >= |es| then (EntryNotExist, tableId, columnId)
    else
      var k := FirstIntFrom(es, start);
      var e := if k >= 0 then es[k] else es[|es| - 1];
      (Success, e.tableId, e.columnId)
  }

  /** The index of the first Int entry at or after start, or -1. */
  function FirstIntFrom(es: seq<DescEntry>, start: nat): (k: int)
    ensures k == -1 || start <= k < |es|
    decreases |es| - start
  {
    if start >= |es| then -1
    else if es[start].ty == IntType then start
    else FirstIntFrom(es, start + 1)
  }

  /** FirstIntFrom finds an entry exactly when there is an Int entry from start on, and then the first one. */
  lemma {:induction false} FirstIntFromCharacterized(es: seq<DescEntry>, start: nat)
    ensures var k := FirstIntFrom(es, start);
      (k >= 0 ==> start <= k < |es| && es[k].ty == IntType && forall j :: start <= j < k ==> es[j].ty != IntType) &&
      (k < 0 <==> forall j :: start <= j < |es| ==> es[j].ty != IntType)
    decreases |es| - start
  {
    if start < |es| && es[start].ty != IntType {
      FirstIntFromCharacterized(es, start + 1);
    }
  }

  /**
   * get_first_int_col: OB_ENTRY_NOT_EXIST exactly when start is at or past the last entry; otherwise
   * success, with the ids of the first Int entry from start on when there is one.
   */
  lemma FirstIntColResult(es: seq<DescEntry>, start: nat, tableId: nat, columnId: nat)
    ensures var r := FirstIntCol(es, start, tableId, columnId);
      (r.0 == EntryNotExist <==> start >= |es|) &&
      (r.0 != EntryNotExist ==> r.0 == Success) &&
      (start >= |es| ==> r.1 == tableId && r.2 == columnId)
    ensures var r := FirstIntCol(es, start, tableId, columnId);
      (exists j :: start <= j < |es| && es[j].ty == IntType) ==>
        (exists k :: start <= k < |es| && es[k].ty == IntType && (forall j :: start <= j < k ==> es[j].ty != IntType) &&
                     r == (Success, es[k].tableId, es[k].columnId))
    ensures var r := FirstIntCol(es, start, tableId, columnId);
      start < |es| && (forall j :: start <= j < |es| ==> es[j].ty != IntType) ==>
        r == (Success, es[|es| - 1].tableId, es[|es| - 1].columnId)
  {
    FirstIntFromCharacterized(es, start);
  }

  /**
   * get_first_int_col's loop: from start, read each entry, stop at the first Int one; a failing
   * read stops it too. The status starts as OB_ENTRY_NOT_EXIST and becomes that of the last read.
   */
  method GetFirstIntCol(desc: RowDescExt, start: int, tableId0: nat, columnId0: nat)
    returns (err: Err, tableId: nat, columnId: nat)
    ensures (err, tableId, columnId) == FirstIntCol(desc.entries, start, tableId0, columnId0)
  {
    err, tableId, columnId := EntryNotExist, tableId0, columnId0;
    var i := start;
    while i < |desc.entries|
      invariant start <= i && (start < |desc.entries| ==> i <= |desc.entries|)
      invariant i == start ==> err == EntryNotExist && tableId == tableId0 && columnId == columnId0
      invariant i > start ==> (0 <= start < i <= |desc.entries| && err == Success &&
        tableId == desc.entries[i - 1].tableId && columnId == desc.entries[i - 1].columnId &&
        FirstIntFrom(desc.entries, start) == FirstIntFrom(desc.entries, i))
      decreases |desc.entries| - i
    {
      var e;
      err, e := desc.GetByIdx(i);
      if err != Success {
        return;
      }
      tableId, columnId := e.tableId, e.columnId;
      if e.ty == IntType {
        return;
      }
      i := i + 1;
    }
  }

  /** A descriptor whose only entry from index 0 on is a Varchar column. */
  const VarcharOnly: seq<DescEntry> := [DescEntry(3001, 16, VarcharType)]

  /**
   * get_first_int_col as written reports success for a descriptor with no Int entry, handing back
   * the ids of a Varchar column; update_ifgt0 then builds its filter on that column.
   */
  lemma FirstIntColAcceptsNoInt()
    ensures FirstIntCol(VarcharOnly, 0, 0, 0) == (Success, 3001, 16)
    ensures forall j :: 0 <= j < |VarcharOnly| ==> VarcharOnly[j].ty != IntType
  {
    assert FirstIntFrom(VarcharOnly, 1) == -1;
  }

  /**
   * get_first_int_col as evidently intended: OB_ENTRY_NOT_EXIST unless an Int entry exists from
   * start on, and then the ids of the first one.
   */
  function FirstIntColChecked(es: seq<DescEntry>, start: nat, tableId: nat, columnId: nat): (Err, nat, nat) {
    var k := FirstIntFrom(es, start);
    if k < 0 then (EntryNotExist, tableId, columnId) else (Success, es[k].tableId, es[k].columnId)
  }

  /** The corrected search succeeds exactly when an Int entry exists from start on, and returns the first one. */
  lemma FirstIntColCheckedFindsInt(es: seq<DescEntry>, start: nat, tableId: nat, columnId: nat)
    ensures var r := FirstIntColChecked(es, start, tableId, columnId);
      (r.0 == Success <==> exists j :: start <= j < |es| && es[j].ty == IntType) &&
      (r.0 != Success ==> r == (EntryNotExist, tableId, columnId))
    ensures var r := FirstIntColChecked(es, start, tableId, columnId);
      r.0 == Success ==>
        (exists k :: start <= k < |es| && es[k].ty == IntType && (forall j :: start <= j < k ==> es[j].ty != IntType) &&
                     r == (Success, es[k].tableId, es[k].columnId))
  {
    FirstIntFromCharacterized(es, start);
  }

  /**
   * build_gt0_expr: the column reference, the integer constant 1 and a two-operand OR, then the end
   * marker, in postfix order.
   */
  function Gt0Expr(tableId: nat, columnId: nat): Expr {
    [ColumnItem(tableId, columnId), IntConst(1), OrOp(2), End]
  }

  /**
   * The operand-stack depth after reading a postfix item sequence from a stack of the given depth,
   * or -1 once an operator lacks operands or an item follows the end marker: constants and column
   * references push one operand, an operator of n operands pops n and pushes its result.
   */
  function PostfixDepth(items: Expr, depth: int): int {
    if items == [] || depth < 0 then depth
    else
      match items[0]
      case OrOp(n) => if n < 1 || depth < n then -1 else PostfixDepth(items[1..], depth - n + 1)
      case End => if |items| > 1 then -1 else depth
      case _ => PostfixDepth(items[1..], depth + 1)
  }

  /** A postfix expression that ends with the end marker and leaves exactly one value. */
  predicate SingleValued(items: Expr) {
    |items| > 0 && items[|items| - 1] == End && PostfixDepth(items, 0) == 1
  }

  /** The columns a postfix expression refers to, in order. */
  function ReferencedColumns(items: Expr): seq<ColumnRef> {
    if items == [] then []
    else
      (match items[0] case ColumnItem(t, c) => [ColumnRef(t, c)] case _ => []) + ReferencedColumns(items[1..])
  }

  /**
   * The filter update_ifgt0 installs is a single-valued postfix expression over exactly the chosen
   * column; the expressions build_expr_values makes from cell values are single-valued constants.
   */
  lemma Gt0ExprWellFormed(tableId: nat, columnId: nat, item: ExprItem)
    ensures SingleValued(Gt0Expr(tableId, columnId))
    ensures ReferencedColumns(Gt0Expr(tableId, columnId)) == [ColumnRef(tableId, columnId)]
    ensures item.IntConst? || item.StrConst? ==> SingleValued([item, End]) && ReferencedColumns([item, End]) == []
  {
    var g := Gt0Expr(tableId, columnId);
    assert g[1..] == [IntConst(1), OrOp(2), End];
    assert g[1..][1..] == [OrOp(2), End];
    assert g[1..][1..][1..] == [End];
    assert [End][1..] == [];
    assert PostfixDepth([End], 1) == 1;
    assert PostfixDepth([OrOp(2), End], 2) == 1;
    assert PostfixDepth(g[1..], 1) == 1;
    assert ReferencedColumns([End]) == [];
    assert ReferencedColumns([OrOp(2), End]) == [];
    assert ReferencedColumns(g[1..]) == [];
    assert [item, End][1..] == [End];
  }
}
