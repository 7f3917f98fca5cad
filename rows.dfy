/**
 * Row descriptors (ObRowDesc, ObRowDescExt), rows (ObRow) and row sets (ObValues), and how the
 * generator fills them: set_row_desc, build_row_desc, build_row and build_values.
 */
module Rows {
  import opened Common
  import opened Schema
  import opened Externals
  import opened Selector

  /** One ObRowDesc entry: the table id and column id a cell of the row belongs to. */
  datatype ColumnRef = ColumnRef(tableId: nat, columnId: nat)

  /** One ObRowDescExt entry: the pair plus the column's data type. */
  datatype DescEntry = DescEntry(tableId: nat, columnId: nat, ty: ObjType)

  /** The plain descriptor entries of extended entries, in the same order. */
  function Refs(es: seq<DescEntry>): seq<ColumnRef> {
    seq(|es|, i requires 0 <= i < |es| => ColumnRef(es[i].tableId, es[i].columnId))
  }

  /** ObRowDesc: the (table id, column id) of every cell, and how many leading cells form the rowkey. */
  class RowDesc {
    var cols: seq<ColumnRef>
    var rowkeyCount: nat

    constructor()
      ensures cols == [] && rowkeyCount == 0
    {
      cols := [];
      rowkeyCount := 0;
    }

    /** add_column_desc: appends one entry. */
    method AddColumnDesc(tableId: nat, columnId: nat) returns (err: Err)
      modifies this
      ensures err == Success
      ensures cols == old(cols) + [ColumnRef(tableId, columnId)] && rowkeyCount == old(rowkeyCount)
    {
      cols := cols + [ColumnRef(tableId, columnId)];
      err := Success;
    }

    method SetRowkeyCellCount(n: nat)
      modifies this
      ensures rowkeyCount == n && cols == old(cols)
    {
      rowkeyCount := n;
    }

    /** get_tid_cid: the pair at index j, or OB_INVALID_ARGUMENT for an index outside the descriptor. */
    method GetTidCid(j: int) returns (err: Err, ref: ColumnRef)
      ensures 0 <= j < |cols| ==> err == Success && ref == cols[j]
      ensures !(0 <= j < |cols|) ==> err == InvalidArgument
    {
      if 0 <= j < |cols| {
        err, ref := Success, cols[j];
      } else {
        err, ref := InvalidArgument, ColumnRef(0, 0);
      }
    }
  }

  /** ObRowDescExt: descriptor entries that also carry each column's data type. */
  class RowDescExt {
    var entries: seq<DescEntry>

    constructor()
      ensures entries == []
    {
      entries := [];
    }

    /** add_column_desc: appends one entry. */
    method AddColumnDesc(tableId: nat, columnId: nat, ty: ObjType) returns (err: Err)
      modifies this
      ensures err == Success
      ensures entries == old(entries) + [DescEntry(tableId, columnId, ty)]
    {
      entries := entries + [DescEntry(tableId, columnId, ty)];
      err := Success;
    }

    /** get_by_idx: the entry at index i, or OB_INVALID_ARGUMENT for an index outside the descriptor. */
    method GetByIdx(i: int) returns (err: Err, e: DescEntry)
      ensures 0 <= i < |entries| ==> err == Success && e == entries[i]
      ensures !(0 <= i < |entries|) ==> err == InvalidArgument
    {
      if 0 <= i < |entries| {
        err, e := Success, entries[i];
      } else {
        err, e := InvalidArgument, DescEntry(0, 0, NullType);
      }
    }
  }

  /** The rowkey part of a descriptor: each rowkey column of the table in declared order, with the rowkey column's type. */
  function RowkeyEntries(tableId: nat, rowkey: seq<RowkeyColumn>): seq<DescEntry> {
    seq(|rowkey|, k requires 0 <= k < |rowkey| => DescEntry(tableId, rowkey[k].columnId, rowkey[k].ty))
  }

  /** min(max_column_num, n_column - rowkey size), as a loop bound: no payload column when it is not positive. */
  function PayloadCount(maxColumns: int, nColumn: nat, rowkeySize: nat): (n: nat)
    ensures n <= nColumn - rowkeySize || n == 0
    ensures n <= maxColumns || n == 0
    ensures maxColumns > 0 && nColumn > rowkeySize ==> n > 0
  {
    var m := if maxColumns < nColumn - rowkeySize then maxColumns else nColumn - rowkeySize;
    if m <= 0 then 0 else m
  }

  /**
   * Each of the n payload draws, with seeds seed .. seed + n - 1, finds a column. The source indexes
   * the column array with the sampler's result unchecked, so this is what it relies on.
   */
  predicate DrawsSucceed(rand2: int -> nat, rowkey: seq<RowkeyColumn>, cols: seq<ColumnSchema>, seed: int, n: nat) {
    n == 0 || (|cols| > 0 && forall i :: 0 <= i < n ==> PayloadChoice(rand2, rowkey, cols, seed, i) >= 0)
  }

  /** The column index of payload draw i: the sampler run with seed + i, rowkey columns excluded. */
  function PayloadChoice(rand2: int -> nat, rowkey: seq<RowkeyColumn>, cols: seq<ColumnSchema>, seed: int, i: int): int
    requires |cols| > 0
  {
    ColumnChoice(rand2, rowkey, cols, seed + i, true)
  }

  /** Payload entry i: the drawn column's id and type. */
  function PayloadEntry(rand2: int -> nat, tableId: nat, rowkey: seq<RowkeyColumn>, cols: seq<ColumnSchema>,
                        seed: int, i: int): DescEntry
    requires |cols| > 0 && PayloadChoice(rand2, rowkey, cols, seed, i) >= 0
  {
    var c := cols[PayloadChoice(rand2, rowkey, cols, seed, i)];
    DescEntry(tableId, c.id, c.ty)
  }

  /** The payload part of a descriptor: entry i is drawn with seed + i, rowkey columns excluded. */
  function PayloadEntries(rand2: int -> nat, tableId: nat, rowkey: seq<RowkeyColumn>, cols: seq<ColumnSchema>,
                          seed: int, n: nat): seq<DescEntry>
    requires DrawsSucceed(rand2, rowkey, cols, seed, n)
  {
    seq(n, i requires 0 <= i < n => PayloadEntry(rand2, tableId, rowkey, cols, seed, i))
  }

  /** The plain entries of two runs of extended entries are those of each run, in order. */
  lemma RefsAppend(a: seq<DescEntry>, b: seq<DescEntry>)
    ensures Refs(a + b) == Refs(a) + Refs(b)
  {
    assert forall i :: 0 <= i < |a + b| ==> Refs(a + b)[i] == (Refs(a) + Refs(b))[i];
  }

  /** One more rowkey column adds its entry. */
  lemma RowkeyEntriesStep(tableId: nat, rowkey: seq<RowkeyColumn>, k: nat)
    requires k < |rowkey|
    ensures RowkeyEntries(tableId, rowkey[..k + 1]) ==
            RowkeyEntries(tableId, rowkey[..k]) + [DescEntry(tableId, rowkey[k].columnId, rowkey[k].ty)]
  {
    var a := RowkeyEntries(tableId, rowkey[..k + 1]);
    var b := RowkeyEntries(tableId, rowkey[..k]) + [DescEntry(tableId, rowkey[k].columnId, rowkey[k].ty)];
    assert forall j :: 0 <= j < |a| ==> a[j] == b[j];
  }

  /** One more payload draw adds its entry; the draws before it succeed as well. */
  lemma PayloadEntriesStep(rand2: int -> nat, tableId: nat, rowkey: seq<RowkeyColumn>, cols: seq<ColumnSchema>,
                           seed: int, n: nat, i: nat)
    requires DrawsSucceed(rand2, rowkey, cols, seed, n) && i < n
    ensures |cols| > 0 && PayloadChoice(rand2, rowkey, cols, seed, i) >= 0
    ensures DrawsSucceed(rand2, rowkey, cols, seed, i) && DrawsSucceed(rand2, rowkey, cols, seed, i + 1)
    ensures PayloadEntries(rand2, tableId, rowkey, cols, seed, i + 1) ==
            PayloadEntries(rand2, tableId, rowkey, cols, seed, i) + [PayloadEntry(rand2, tableId, rowkey, cols, seed, i)]
  {
    var a := PayloadEntries(rand2, tableId, rowkey, cols, seed, i + 1);
    var b := PayloadEntries(rand2, tableId, rowkey, cols, seed, i) + [PayloadEntry(rand2, tableId, rowkey, cols, seed, i)];
    assert forall j :: 0 <= j < |a| ==> a[j] == b[j];
  }

  /** The payload draws for the named table succeed (vacuous when a schema lookup fails). */
  predicate DrawsSucceedFor(env: Env, cat: Catalog, name: string, seed: int, maxColumns: int) {
    match TableByName(cat, name)
    case None => true
    case Some(t) =>
      match TableById(cat, t.id)
      case None => true
      case Some(byId) =>
        DrawsSucceed(env.rand2, t.rowkey, byId.columns, seed,
                     PayloadCount(maxColumns, |byId.columns|, |t.rowkey|))
  }

  /**
   * What set_row_desc adds for a chosen table name: the rowkey size and the entries, or
   * OB_SCHEMA_ERROR when the table is not found by name or then by its id. As in choose_column, the
   * rowkey comes from the table found by name and the column array from the table found by id.
   */
  function DescEntriesFor(env: Env, cat: Catalog, name: string, seed: int, maxColumns: int): Result<(nat, seq<DescEntry>)>
    requires DrawsSucceedFor(env, cat, name, seed, maxColumns)
  {
    match TableByName(cat, name)
    case None => Fail(SchemaError)
    case Some(t) =>
      match TableById(cat, t.id)
      case None => Fail(SchemaError)
      case Some(byId) =>
        var n := PayloadCount(maxColumns, |byId.columns|, |t.rowkey|);
        Ok((|t.rowkey|, RowkeyEntries(t.id, t.rowkey) + PayloadEntries(env.rand2, t.id, t.rowkey, byId.columns, seed, n)))
  }

  /** The payload draws of set_row_desc succeed for the table choose_table picks with this seed. */
  predicate PayloadDrawsSucceed(env: Env, cat: Catalog, tableName: Option<string>, seed: int, maxColumns: int) {
    var chosen := ChosenTable(env, cat, tableName, seed);
    chosen.Ok? ==> DrawsSucceedFor(env, cat, chosen.value, seed, maxColumns)
  }

  /** What set_row_desc computes: choose_table's failure, a schema failure, or the rowkey size and the entries. */
  function RowDescPlan(env: Env, cat: Catalog, tableName: Option<string>, seed: int, maxColumns: int): Result<(nat, seq<DescEntry>)>
    requires PayloadDrawsSucceed(env, cat, tableName, seed, maxColumns)
  {
    match ChosenTable(env, cat, tableName, seed)
    case Fail(e) => Fail(e)
    case Ok(name) => DescEntriesFor(env, cat, name, seed, maxColumns)
  }

  /** The plan once choose_table and both schema lookups have succeeded. */
  lemma RowDescPlanOfTable(env: Env, cat: Catalog, tableName: Option<string>, seed: int, maxColumns: int,
                           t: TableSchema, byId: TableSchema)
    requires PayloadDrawsSucceed(env, cat, tableName, seed, maxColumns)
    requires ChosenTable(env, cat, tableName, seed).Ok?
    requires TableByName(cat, ChosenTable(env, cat, tableName, seed).value) == Some(t) && TableById(cat, t.id) == Some(byId)
    ensures DrawsSucceed(env.rand2, t.rowkey, byId.columns, seed, PayloadCount(maxColumns, |byId.columns|, |t.rowkey|))
    ensures RowDescPlan(env, cat, tableName, seed, maxColumns) ==
      Ok((|t.rowkey|, RowkeyEntries(t.id, t.rowkey) +
                      PayloadEntries(env.rand2, t.id, t.rowkey, byId.columns, seed, PayloadCount(maxColumns, |byId.columns|, |t.rowkey|))))
  {
  }

  /**
   * A successful plan is the chosen table's rowkey columns in declared order, each with its rowkey
   * type, followed by exactly min(maxColumns, column count - rowkey size) payload entries (none when
   * that is not positive); payload entry i is the column the sampler draws with seed + i, which has
   * no join info, type Int or Varchar, and is not a rowkey column.
   */
  lemma RowDescPlanShape(env: Env, cat: Catalog, tableName: Option<string>, seed: int, maxColumns: int)
    requires PayloadDrawsSucceed(env, cat, tableName, seed, maxColumns)
    ensures var plan := RowDescPlan(env, cat, tableName, seed, maxColumns);
      plan.Ok? ==>
        var t := TableByName(cat, ChosenTable(env, cat, tableName, seed).value).value;
        var cols := TableById(cat, t.id).value.columns;
        var n := PayloadCount(maxColumns, |cols|, |t.rowkey|);
        var es := plan.value.1;
        t in cat.tables && t.name == ChosenTable(env, cat, tableName, seed).value &&
        plan.value.0 == |t.rowkey| && |es| == |t.rowkey| + n &&
        (forall k :: 0 <= k < |t.rowkey| ==> es[k] == DescEntry(t.id, t.rowkey[k].columnId, t.rowkey[k].ty)) &&
        (forall i :: 0 <= i < n ==>
           var c := cols[PayloadChoice(env.rand2, t.rowkey, cols, seed, i)];
           es[|t.rowkey| + i] == DescEntry(t.id, c.id, c.ty) && Acceptable(t.rowkey, c, true))
  {
    var plan := RowDescPlan(env, cat, tableName, seed, maxColumns);
    if plan.Ok? {
      var t := TableByName(cat, ChosenTable(env, cat, tableName, seed).value).value;
      var cols := TableById(cat, t.id).value.columns;
      var n := PayloadCount(maxColumns, |cols|, |t.rowkey|);
      var rk := RowkeyEntries(t.id, t.rowkey);
      var pl := PayloadEntries(env.rand2, t.id, t.rowkey, cols, seed, n);
      assert plan.value.1 == rk + pl;
      forall i | 0 <= i < n
        ensures var c := cols[PayloadChoice(env.rand2, t.rowkey, cols, seed, i)];
          plan.value.1[|t.rowkey| + i] == DescEntry(t.id, c.id, c.ty) && Acceptable(t.rowkey, c, true)
      {
        assert plan.value.1[|t.rowkey| + i] == pl[i];
      }
    }
  }

  /**
   * set_row_desc fails exactly when choose_table fails (with its status) or the chosen table is
   * missing by name or by id (OB_SCHEMA_ERROR).
   */
  lemma RowDescPlanFailure(env: Env, cat: Catalog, tableName: Option<string>, seed: int, maxColumns: int)
    requires PayloadDrawsSucceed(env, cat, tableName, seed, maxColumns)
    ensures var plan := RowDescPlan(env, cat, tableName, seed, maxColumns);
      var chosen := ChosenTable(env, cat, tableName, seed);
      (chosen.Fail? ==> plan == Fail(chosen.error)) &&
      (chosen.Ok? ==>
         (plan == Fail(SchemaError) <==>
            TableByName(cat, chosen.value).None? || TableById(cat, TableByName(cat, chosen.value).value.id).None?) &&
         (plan.Fail? ==> plan.error == SchemaError))
  {
  }

  /**
   * With the same table name and seed, the descriptor built with no payload column is the rowkey
   * prefix of the one built with any maximum: both choose the same table and succeed or fail together.
   */
  lemma RowDescPlanRowkeyPrefix(env: Env, cat: Catalog, tableName: Option<string>, seed: int, maxColumns: int)
    requires PayloadDrawsSucceed(env, cat, tableName, seed, maxColumns)
    ensures PayloadDrawsSucceed(env, cat, tableName, seed, 0)
    ensures var p0 := RowDescPlan(env, cat, tableName, seed, 0);
      var pm := RowDescPlan(env, cat, tableName, seed, maxColumns);
      (p0.Ok? <==> pm.Ok?) &&
      (p0.Fail? ==> p0 == pm) &&
      (p0.Ok? ==> p0.value.0 == pm.value.0 && p0.value.0 <= |pm.value.1| &&
                   p0.value.1 == pm.value.1[..p0.value.0])
  {
    var chosen := ChosenTable(env, cat, tableName, seed);
    if chosen.Ok? && TableByName(cat, chosen.value).Some? {
      var t := TableByName(cat, chosen.value).value;
      if TableById(cat, t.id).Some? {
        var cols := TableById(cat, t.id).value.columns;
        var rk := RowkeyEntries(t.id, t.rowkey);
        var pm := RowDescPlan(env, cat, tableName, seed, maxColumns);
        assert PayloadCount(0, |cols|, |t.rowkey|) == 0;
        assert RowDescPlan(env, cat, tableName, seed, 0).value.1 == rk + [];
        assert pm.value.1[..|rk|] == rk;
      }
    }
  }

  /** One payload draw of set_row_desc: rand_choose_column with seed + i, rowkey columns excluded. */
  method DrawPayloadEntry(rand2: int -> nat, tableId: nat, rowkey: seq<RowkeyColumn>, cols: seq<ColumnSchema>,
                          seed: int, i: int) returns (e: DescEntry)
    requires |cols| > 0 && PayloadChoice(rand2, rowkey, cols, seed, i) >= 0
    ensures e == PayloadEntry(rand2, tableId, rowkey, cols, seed, i)
  {
    var idx := RandChooseColumn(rand2, rowkey, cols, seed + i, true);
    e := DescEntry(tableId, cols[idx].id, cols[idx].ty);
  }

  /** The rowkey loop of set_row_desc for an ObRowDescExt. */
  method AddRowkeyEntries(desc: RowDescExt, tableId: nat, rowkey: seq<RowkeyColumn>)
    modifies desc
    ensures desc.entries == old(desc.entries) + RowkeyEntries(tableId, rowkey)
  {
    for k := 0 to |rowkey|
      invariant desc.entries == old(desc.entries) + RowkeyEntries(tableId, rowkey[..k])
    {
      RowkeyEntriesStep(tableId, rowkey, k);
      var _ := desc.AddColumnDesc(tableId, rowkey[k].columnId, rowkey[k].ty);
    }
    assert rowkey[..|rowkey|] == rowkey;
  }

  /** The payload loop of set_row_desc for an ObRowDescExt: draw i uses seed + i and excludes rowkey columns. */
  method AddPayloadEntries(desc: RowDescExt, rand2: int -> nat, tableId: nat, rowkey: seq<RowkeyColumn>,
                           cols: seq<ColumnSchema>, seed: int, n: nat)
    requires DrawsSucceed(rand2, rowkey, cols, seed, n)
    modifies desc
    ensures desc.entries == old(desc.entries) + PayloadEntries(rand2, tableId, rowkey, cols, seed, n)
  {
    for i := 0 to n
      invariant DrawsSucceed(rand2, rowkey, cols, seed, i)
      invariant desc.entries == old(desc.entries) + PayloadEntries(rand2, tableId, rowkey, cols, seed, i)
    {
      PayloadEntriesStep(rand2, tableId, rowkey, cols, seed, n, i);
      var e := DrawPayloadEntry(rand2, tableId, rowkey, cols, seed, i);
      var _ := desc.AddColumnDesc(e.tableId, e.columnId, e.ty);
    }
  }

  /** build_row_desc: appends the (table id, column id) of every extended entry, in order, to a plain descriptor. */
  method BuildRowDesc(desc: RowDesc, ext: RowDescExt) returns (err: Err)
    modifies desc
    ensures err == Success
    ensures desc.cols == old(desc.cols) + Refs(ext.entries) && desc.rowkeyCount == old(desc.rowkeyCount)
  {
    err := Success;
    for i := 0 to |ext.entries|
      invariant err == Success
      invariant desc.cols == old(desc.cols) + Refs(ext.entries[..i]) && desc.rowkeyCount == old(desc.rowkeyCount)
    {
      var e;
      err, e := ext.GetByIdx(i);
      assert ext.entries[..i + 1] == ext.entries[..i] + [e];
      RefsAppend(ext.entries[..i], [e]);
      err := desc.AddColumnDesc(e.tableId, e.columnId);
    }
    assert ext.entries[..|ext.entries|] == ext.entries;
  }

  /**
   * set_row_desc for an ObRowDescExt and its plain twin: on success the extended descriptor gains
   * the planned entries, the plain one its rowkey cell count and then a copy of every entry the
   * extended one holds (earlier ones included); on failure nothing changes.
   */
  method SetRowDesc(env: Env, cat: Catalog, tableName: Option<string>, desc: RowDescExt, desc2: RowDesc,
                    seed: int, maxColumns: int) returns (err: Err)
    requires PayloadDrawsSucceed(env, cat, tableName, seed, maxColumns)
    modifies desc, desc2
    ensures var plan := RowDescPlan(env, cat, tableName, seed, maxColumns);
      err == plan.Status() &&
      (plan.Ok? ==>
         desc.entries == old(desc.entries) + plan.value.1 &&
         desc2.cols == old(desc2.cols) + Refs(desc.entries) && desc2.rowkeyCount == plan.value.0) &&
      (plan.Fail? ==>
         desc.entries == old(desc.entries) && desc2.cols == old(desc2.cols) && desc2.rowkeyCount == old(desc2.rowkeyCount))
  {
    var name;
    err, name := ChooseTable(env, cat, tableName, seed);
    if err != Success {
      return;
    }
    var t := TableByName(cat, name);
    if t.None? {
      err := SchemaError;
      return;
    }
    var byId := TableById(cat, t.value.id);
    if byId.None? {
      err := SchemaError;
      return;
    }
    RowDescPlanOfTable(env, cat, tableName, seed, maxColumns, t.value, byId.value);
    var cols := byId.value.columns;
    err := FillRowDesc(desc, desc2, env.rand2, t.value.id, t.value.rowkey, cols, seed,
                       PayloadCount(maxColumns, |cols|, |t.value.rowkey|));
  }

  /** The part of set_row_desc after the table is found: rowkey cell count, rowkey entries, payload entries, copy. */
  method FillRowDesc(desc: RowDescExt, desc2: RowDesc, rand2: int -> nat, tableId: nat, rowkey: seq<RowkeyColumn>,
                     cols: seq<ColumnSchema>, seed: int, n: nat) returns (err: Err)
    requires DrawsSucceed(rand2, rowkey, cols, seed, n)
    modifies desc, desc2
    ensures err == Success
    ensures desc.entries == old(desc.entries) + (RowkeyEntries(tableId, rowkey) + PayloadEntries(rand2, tableId, rowkey, cols, seed, n))
    ensures desc2.cols == old(desc2.cols) + Refs(desc.entries) && desc2.rowkeyCount == |rowkey|
  {
    desc2.SetRowkeyCellCount(|rowkey|);
    AddRowkeyEntries(desc, tableId, rowkey);
    AddPayloadEntries(desc, rand2, tableId, rowkey, cols, seed, n);
    err := BuildRowDesc(desc2, desc);
  }

  /** The rowkey loop of set_row_desc for a plain ObRowDesc. */
  method AddRowkeyRefs(desc: RowDesc, tableId: nat, rowkey: seq<RowkeyColumn>)
    modifies desc
    ensures desc.cols == old(desc.cols) + Refs(RowkeyEntries(tableId, rowkey)) && desc.rowkeyCount == old(desc.rowkeyCount)
  {
    for k := 0 to |rowkey|
      invariant desc.cols == old(desc.cols) + Refs(RowkeyEntries(tableId, rowkey[..k]))
      invariant desc.rowkeyCount == old(desc.rowkeyCount)
    {
      RowkeyEntriesStep(tableId, rowkey, k);
      RefsAppend(RowkeyEntries(tableId, rowkey[..k]), [DescEntry(tableId, rowkey[k].columnId, rowkey[k].ty)]);
      var _ := desc.AddColumnDesc(tableId, rowkey[k].columnId);
    }
    assert rowkey[..|rowkey|] == rowkey;
  }

  /** The payload loop of set_row_desc for a plain ObRowDesc. */
  method AddPayloadRefs(desc: RowDesc, rand2: int -> nat, tableId: nat, rowkey: seq<RowkeyColumn>,
                        cols: seq<ColumnSchema>, seed: int, n: nat)
    requires DrawsSucceed(rand2, rowkey, cols, seed, n)
    modifies desc
    ensures desc.cols == old(desc.cols) + Refs(PayloadEntries(rand2, tableId, rowkey, cols, seed, n))
    ensures desc.rowkeyCount == old(desc.rowkeyCount)
  {
    for i := 0 to n
      invariant DrawsSucceed(rand2, rowkey, cols, seed, i)
      invariant desc.cols == old(desc.cols) + Refs(PayloadEntries(rand2, tableId, rowkey, cols, seed, i))
      invariant desc.rowkeyCount == old(desc.rowkeyCount)
    {
      PayloadEntriesStep(rand2, tableId, rowkey, cols, seed, n, i);
      var e := DrawPayloadEntry(rand2, tableId, rowkey, cols, seed, i);
      RefsAppend(PayloadEntries(rand2, tableId, rowkey, cols, seed, i), [e]);
      var _ := desc.AddColumnDesc(e.tableId, e.columnId);
    }
  }

  /**
   * set_row_desc for a plain ObRowDesc: the same table choice, lookups and draws as the extended
   * overload with at most one payload column, appending only the (table id, column id) pairs and
   * leaving the rowkey cell count alone; on failure nothing changes.
   */
  method SetPlainRowDesc(env: Env, cat: Catalog, tableName: Option<string>, desc: RowDesc, seed: int) returns (err: Err)
    requires PayloadDrawsSucceed(env, cat, tableName, seed, 1)
    modifies desc
    ensures var plan := RowDescPlan(env, cat, tableName, seed, 1);
      err == plan.Status() &&
      desc.cols == old(desc.cols) + (if plan.Ok? then Refs(plan.value.1) else []) &&
      desc.rowkeyCount == old(desc.rowkeyCount)
  {
    var name;
    err, name := ChooseTable(env, cat, tableName, seed);
    if err != Success {
      return;
    }
    var t := TableByName(cat, name);
    if t.None? {
      err := SchemaError;
      return;
    }
    var byId := TableById(cat, t.value.id);
    if byId.None? {
      err := SchemaError;
      return;
    }
    RowDescPlanOfTable(env, cat, tableName, seed, 1, t.value, byId.value);
    var tableId := t.value.id;
    var rowkey := t.value.rowkey;
    var cols := byId.value.columns;
    var n := PayloadCount(1, |cols|, |rowkey|);
    AddRowkeyRefs(desc, tableId, rowkey);
    AddPayloadRefs(desc, env.rand2, tableId, rowkey, cols, seed, n);
    RefsAppend(RowkeyEntries(tableId, rowkey), PayloadEntries(env.rand2, tableId, rowkey, cols, seed, n));
  }

  /** ObRow: its descriptor and one value per descriptor entry. */
  datatype Row = Row(desc: seq<ColumnRef>, cells: seq<Obj>)

  /**
   * What build_row does for one descriptor entry: nothing for an entry without a table
   * (OB_INVALID_ID), OB_SCHEMA_ERROR for a column the catalog lacks, otherwise a value drawn for the
   * column's type with the row's seed (or the generator's failure).
   */
  function CellValue(env: Env, cat: Catalog, ref: ColumnRef, seed: int): Result<Option<Obj>> {
    if ref.tableId == InvalidId then Ok(None)
    else
      match ColumnById(cat, ref.tableId, ref.columnId)
      case None => Fail(SchemaError)
      case Some(c) =>
        match env.randTypedObj(c.ty, seed)
        case Fail(e) => Fail(e)
        case Ok(v) => Ok(Some(v))
  }

  function CellValues(env: Env, cat: Catalog, refs: seq<ColumnRef>, seed: int): seq<Result<Option<Obj>>> {
    seq(|refs|, j requires 0 <= j < |refs| => CellValue(env, cat, refs[j], seed))
  }

  /** A row of n cells holding the values set so far; every other cell keeps its default (null) value. */
  function Filled(n: nat, done: seq<Option<Obj>>): seq<Obj> {
    seq(n, j requires 0 <= j < n => if j < |done| && done[j].Some? then done[j].value else NullObj)
  }

  /** Setting the next cell of a partly filled row. */
  lemma FilledStep(n: nat, done: seq<Option<Obj>>, x: Option<Obj>)
    requires |done| < n
    ensures Filled(n, done + [x]) == if x.Some? then Filled(n, done)[|done| := x.value] else Filled(n, done)
  {
    var a := Filled(n, done + [x]);
    var b := if x.Some? then Filled(n, done)[|done| := x.value] else Filled(n, done);
    assert forall j :: 0 <= j < n ==> a[j] == b[j];
  }

  /**
   * The row build_row returns for a descriptor and a seed: the entries are processed in order until
   * the first failure, which is only logged; the row is returned either way.
   */
  function RowOf(env: Env, cat: Catalog, refs: seq<ColumnRef>, seed: int): Row {
    Row(refs, Filled(|refs|, UntilFailure(CellValues(env, cat, refs, seed)).1))
  }

  /**
   * build_row's cells: the row has one cell per descriptor entry. Up to the first failing entry, an
   * entry without a table keeps a null cell and any other holds the value drawn for its column's
   * type with the row's seed; from the failing entry on every cell is null. When every entry
   * succeeds, no cell is left out.
   */
  lemma RowOfCells(env: Env, cat: Catalog, refs: seq<ColumnRef>, seed: int)
    ensures var row := RowOf(env, cat, refs, seed);
      var r := UntilFailure(CellValues(env, cat, refs, seed));
      row.desc == refs && |row.cells| == |refs| &&
      (forall j :: 0 <= j < |r.1| ==>
         CellValue(env, cat, refs[j], seed).Ok? &&
         row.cells[j] == (if refs[j].tableId == InvalidId then NullObj
                          else env.randTypedObj(ColumnById(cat, refs[j].tableId, refs[j].columnId).value.ty, seed).value)) &&
      (forall j :: |r.1| <= j < |refs| ==> row.cells[j] == NullObj) &&
      (r.0 != Success ==> CellValue(env, cat, refs[|r.1|], seed) == Fail(r.0)) &&
      (r.0 == Success <==> forall j :: 0 <= j < |refs| ==> CellValue(env, cat, refs[j], seed).Ok?)
  {
    var vs := CellValues(env, cat, refs, seed);
    var r := UntilFailure(vs);
    UntilFailureStops(vs);
    forall j | 0 <= j < |r.1|
      ensures CellValue(env, cat, refs[j], seed) == Ok(r.1[j])
    {
      assert vs[j] == CellValue(env, cat, refs[j], seed);
    }
    if r.0 != Success {
      assert vs[|r.1|] == CellValue(env, cat, refs[|r.1|], seed);
    }
    assert forall j :: 0 <= j < |refs| ==> vs[j] == CellValue(env, cat, refs[j], seed);
  }

  /**
   * When the value generator honours the requested type, every non-null cell of a built row has
   * the type its column declares in the catalog.
   */
  lemma RowOfConformsToSchema(env: Env, cat: Catalog, refs: seq<ColumnRef>, seed: int)
    requires TypedValues(env)
    ensures var row := RowOf(env, cat, refs, seed);
      forall j :: 0 <= j < |refs| && row.cells[j] != NullObj ==>
        refs[j].tableId != InvalidId && ColumnById(cat, refs[j].tableId, refs[j].columnId).Some? &&
        row.cells[j].ty == ColumnById(cat, refs[j].tableId, refs[j].columnId).value.ty
  {
    RowOfCells(env, cat, refs, seed);
  }

  /** build_row: a fresh row over the descriptor, its cells set entry by entry until the first failure. */
  method BuildRow(env: Env, cat: Catalog, desc: RowDesc, seed: int) returns (row: Row)
    ensures row == RowOf(env, cat, desc.cols, seed)
  {
    var refs := desc.cols;
    ghost var vs := CellValues(env, cat, refs, seed);
    var cells := seq(|refs|, _ => NullObj);
    assert cells == Filled(|refs|, []);
    var err := Success;
    ghost var done: seq<Option<Obj>> := [];
    var j := 0;
    while err == Success && j < |refs|
      invariant 0 <= j <= |refs|
      invariant (err, done) == UntilFailure(vs[..j])
      invariant cells == Filled(|refs|, done)
    {
      UntilFailureStep(vs, j);
      var ref := refs[j];
      assert vs[j] == CellValue(env, cat, ref, seed);
      assert done + [] == done;
      if ref.tableId == InvalidId {
        FilledStep(|refs|, done, None);
        done := done + [None];
      } else {
        var c := ColumnById(cat, ref.tableId, ref.columnId);
        if c.None? {
          err := SchemaError;
        } else {
          match env.randTypedObj(c.value.ty, seed) {
            case Fail(e) =>
              err := e;
            case Ok(v) =>
              FilledStep(|refs|, done, Some(v));
              cells := cells[j := v];
              done := done + [Some(v)];
          }
        }
      }
      j := j + 1;
    }
    if err != Success {
      UntilFailureFrozen(vs, j);
    } else {
      assert vs[..j] == vs;
    }
    row := Row(refs, cells);
  }

  /** ObValues: a row set with its descriptor and a read cursor. */
  class Values {
    var rowDesc: seq<ColumnRef>
    var rows: seq<Row>
    var cursor: nat

    constructor()
      ensures rowDesc == [] && rows == [] && cursor == 0
    {
      rowDesc := [];
      rows := [];
      cursor := 0;
    }

    method SetRowDesc(desc: seq<ColumnRef>)
      modifies this
      ensures rowDesc == desc && rows == old(rows) && cursor == old(cursor)
    {
      rowDesc := desc;
    }

    /** add_values: appends a copy of the row. */
    method AddValues(row: Row) returns (err: Err)
      modifies this
      ensures err == Success
      ensures rows == old(rows) + [row] && rowDesc == old(rowDesc) && cursor == old(cursor)
    {
      rows := rows + [row];
      err := Success;
    }

    /** open: starts reading from the first row. */
    method Open() returns (err: Err)
      modifies this
      ensures err == Success
      ensures cursor == 0 && rows == old(rows) && rowDesc == old(rowDesc)
    {
      cursor := 0;
      err := Success;
    }

    /** get_next_row: the row under the cursor, or OB_ITER_END once every row has been read. */
    method GetNextRow() returns (err: Err, row: Row)
      modifies this
      ensures rows == old(rows) && rowDesc == old(rowDesc)
      ensures old(cursor) < |rows| ==> err == Success && row == rows[old(cursor)] && cursor == old(cursor) + 1
      ensures old(cursor) >= |rows| ==> err == IterEnd && cursor == old(cursor)
    {
      if cursor < |rows| {
        err, row := Success, rows[cursor];
        cursor := cursor + 1;
      } else {
        err, row := IterEnd, Row([], []);
      }
    }
  }

  /** The rows build_values generates: row i is built with seed + i. */
  function RowsOf(env: Env, cat: Catalog, refs: seq<ColumnRef>, seed: int, n: nat): seq<Row> {
    seq(n, i requires 0 <= i < n => RowOf(env, cat, refs, seed + i))
  }

  /**
   * Rows are seeded by position, so a batch of n rows from seed s is a batch of k rows from s
   * followed by a batch of n - k rows from s + k; in particular a shorter batch is a prefix.
   */
  lemma RowsOfSplit(env: Env, cat: Catalog, refs: seq<ColumnRef>, seed: int, n: nat, k: nat)
    requires k <= n
    ensures RowsOf(env, cat, refs, seed, n) == RowsOf(env, cat, refs, seed, k) + RowsOf(env, cat, refs, seed + k, n - k)
  {
    var whole := RowsOf(env, cat, refs, seed, n);
    var parts := RowsOf(env, cat, refs, seed, k) + RowsOf(env, cat, refs, seed + k, n - k);
    forall i | 0 <= i < n
      ensures whole[i] == parts[i]
    {
      if i >= k {
        assert seed + k + (i - k) == seed + i;
      }
    }
  }

  /**
   * build_values: appends row_count rows built over the descriptor, row i with seed + i. Adding a
   * row cannot fail and build_row's own failures are only logged, so the status is always success.
   */
  method BuildValues(env: Env, cat: Catalog, desc: RowDesc, vals: Values, rowCount: int, seed: int) returns (err: Err)
    modifies vals
    ensures err == Success
    ensures vals.rows == old(vals.rows) + RowsOf(env, cat, desc.cols, seed, if rowCount > 0 then rowCount else 0)
    ensures vals.rowDesc == old(vals.rowDesc) && vals.cursor == old(vals.cursor)
  {
    err := Success;
    ghost var n := if rowCount > 0 then rowCount else 0;
    var i := 0;
    while err == Success && i < rowCount
      invariant 0 <= i <= n && err == Success
      invariant vals.rows == old(vals.rows) + RowsOf(env, cat, desc.cols, seed, i)
      invariant vals.rowDesc == old(vals.rowDesc) && vals.cursor == old(vals.cursor)
    {
      var row := BuildRow(env, cat, desc, seed + i);
      RowsOfSplit(env, cat, desc.cols, seed, i + 1, i);
      assert RowsOf(env, cat, desc.cols, seed + i, 1) == [row];
      err := vals.AddValues(row);
      i := i + 1;
    }
  }
}
