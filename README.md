# Seeded request and plan builder for the log tool

This project models the request generator in `tools/log_tool/builder.h`, using the code path for
object rowkeys. The generator is deterministic: every choice is driven by a seed stepped with
`rand2`. The model covers the following parts:

- **Seeded selectors.**
  - `rand_choose_column` is a rejection sampler with a bounded number of draws.
  - `choose_table` keeps a running maximum over application tables.
  - `choose_column`, `choose_rowkey` and `choose_value` are schema lookups around them.
- **Request assemblers.**
  - `make_version_range`, `set_range` and `set_range2`.
  - Random get, multi-get and scan parameters.
  - Random single and batch mutators.
- **Mutator list operations.**
  - The size-guarded `mutator_add`.
  - Name resolution of mutator cells: `cell_info_resolve_*` and `ob_mutator_resolve_name`.
- **Rows.**
  - Row descriptors (`set_row_desc`, `build_row_desc`).
  - Row and value-set materialisation (`build_row`, `build_values`, row `i` seeded `seed + i`).
  - Turning rows into get requests (`add_row`, `build_get_param`).
  - Turning rows into constant expressions (`obj2item`, `build_expr_values`).
- **`RowBuilder`:** the two descriptor pairs of a table and the builders over them.
- **`PhyPlanBuilder`:** how `insert` and `update_ifgt0` fill their value sets and wire the fixed tree
  modify → filter → merge(snapshot scan, incremental scan). This part includes `get_first_int_col`
  and `build_gt0_expr`.

## How it is modelled

- **Schema catalog.** `Schema.Catalog` holds the table records in iteration order. Each table has
  its columns and its rowkey columns.
- **Helpers outside the model.** The helpers the file calls but does not define are total functions
  held in `Externals.Env`:
  - `rand2`;
  - `rand_rowkey`;
  - `rand_obj`, plus the typed value generator `build_row` uses;
  - `expand` and `choose`, for table-name patterns;
  - `parse_rowkey`.

  Determinism therefore holds by construction.
- **Error codes.** Status codes are the symbolic `Common.Err`. Their numeric values are defined in
  `ob_define.h`, which is not part of this model.
- **Engine containers.** The containers the generator fills are classes with sequence fields that
  their methods reassign:
  - `Requests.GetParam`;
  - `Mutation.Mutator`;
  - `Rows.RowDesc` and `Rows.RowDescExt`;
  - `Rows.Values`;
  - `Exprs.ExprValues`.

  Scan parameters and version ranges are values.
- **Loops.** Every loop of the source is a `while` or `for` loop in a method. The method is proved against a
  specification function: a fold that stops at the first failure
  (`Common.UntilFailure`, `Common.AppendedUntilFailure`) or one that does not (`Common.AllAppended`).
  Lemmas then characterise that function.
- **Class inheritance.** `PhyPlanBuilder` derives from `RowBuilder` in the source. Here it holds its
  `RowBuilder` in a field, `rb`.
- **Plan wiring.** The operator wiring is a map from (operator, child slot) to operator.
  `Plans.TreeOf` reads the tree back from that map.

## Model

| member | source | states |
|---|---|---|
| Range.MakeVersionRange | tools/log_tool/builder.h:28-40 | always success; a start version ≤ 0 leaves the range as it was; a positive one gives inclusive start, exclusive end, unbounded above, end version 0, and then admits exactly the versions ≥ the start version |
| Range.SetRange2 | tools/log_tool/builder.h:76-90 | success; the scan names the table by name with OB_INVALID_ID; it covers the closed range between the two keys; the version range is the floor from make_version_range; limit and consistency fields are untouched |
| Range.SetRange | tools/log_tool/builder.h:43-74 | "min"/"max" select the bound markers; the range is closed; the status is the end-key parse's unless the end key is "max", in which case it is the start-key parse's; the version range is make_version_range's over a fresh range; the param built is the same as the corrected set_range's, which on success is set_range2 over the parsed keys |
| Range.SetRangeLosesStartKeyError | tools/log_tool/builder.h:43-74 | a start key that fails to parse followed by an end key that parses yields success |
| Range.SetRangeChecked | tools/log_tool/builder.h:43-74 | corrected set_range: success iff both keys are sentinels or parse; a failed start key is reported; on success the result equals set_range2 over the parsed keys |
| Schema.GetTableId | tools/log_tool/builder.h:298-312 | Ok iff a table of that name exists, with that table's id; otherwise OB_SCHEMA_ERROR |
| Schema.GetColumnId | tools/log_tool/builder.h:314-328 | Ok iff the named table and its named column exist, with the column's id; otherwise OB_SCHEMA_ERROR |
| Schema.TableByName | tools/log_tool/builder.h:298-312 | a found table is in the catalog with that name; none is found iff no table has the name |
| Schema.TableById | tools/log_tool/builder.h:1224-1243 | a found table is in the catalog with that id; none is found iff no table has the id |
| Schema.TableByOwnId | tools/log_tool/builder.h:1224-1243 | in a well-formed catalog, looking a table up by its own id returns that table |
| Selector.RandChooseColumn | tools/log_tool/builder.h:109-140 | the loop returns ColumnChoice: -1 or an index into the column array, and an index returned names an acceptable column (no join info, Int or Varchar, not rowkey when excluded) |
| Selector.ColumnChoiceCharacterized | tools/log_tool/builder.h:109-140 | an index is returned iff one of the first 1000 draws, the seed stepped by rand2 each time, is acceptable, and then it is the first acceptable draw |
| Selector.ChooseColumn | tools/log_tool/builder.h:142-170 | fails only with OB_SCHEMA_ERROR (iff the table is missing by name or by id) or OB_ERR_UNEXPECTED; a returned name is an acceptable column of a catalog table |
| Selector.ChooseColumnInWellFormedCatalog | tools/log_tool/builder.h:142-170 | in a well-formed catalog the name is an acceptable column of the named table, and OB_ERR_UNEXPECTED occurs iff all 1000 draws were rejected |
| Selector.ChooseRowkey | tools/log_tool/builder.h:92-107 | OB_SCHEMA_ERROR for a missing table, otherwise the rowkey generator applied to that table's rowkey columns |
| Selector.ChooseValue | tools/log_tool/builder.h:393-408 | OB_SCHEMA_ERROR for a missing column, otherwise a value generated for the column's type and size |
| Selector.AppTablesMembers | tools/log_tool/builder.h:330-390 | the tables the "any" walk considers are exactly the catalog tables whose id lies in [OB_APP_MIN_TABLE_ID, OB_APP_MIN_TABLE_ID + 10000) |
| Selector.KeeperIsFirstMaximum | tools/log_tool/builder.h:330-390 | the running maximum with strict improvement keeps a table of largest weight, and every earlier table weighs strictly less |
| Selector.ChooseAnyTable | tools/log_tool/builder.h:330-390 | "any" fails with OB_ENTRY_NOT_EXIST iff no application table exists; otherwise it picks the first application table of largest weight, the j-th weighing rand2 applied j + 1 times |
| Selector.ChooseTable | tools/log_tool/builder.h:330-390 | the loop's status and name equal ChosenTable: null is OB_INVALID_ARGUMENT, a pattern goes through expand/choose, "any" goes through the weighted walk |
| Selector.ChooseAppTable | tools/log_tool/builder.h:330-390 | the walk keeps the table Keeper selects among the application tables, or none when there is none |
| Requests.NamedCell | tools/log_tool/builder.h:410-419 | a cell addressed by table and column name, both ids OB_INVALID_ID |
| Requests.IdCell | tools/log_tool/builder.h:421-430 | a cell addressed by table and column id, both names empty |
| Requests.GetParam.AddCell | tools/log_tool/builder.h:410-419 | success; the cell is appended; version range and consistency are unchanged |
| Requests.AddNamedCellToGetParam | tools/log_tool/builder.h:410-419 | success, and exactly the named cell is appended |
| Requests.AddIdCellToGetParam | tools/log_tool/builder.h:421-430 | success, and exactly the id cell is appended |
| Requests.RandGetCellShape | tools/log_tool/builder.h:432-456 | a generated cell is addressed by name, with the rowkey drawn for its table with the same seed; a failed table choice is passed on unchanged |
| Requests.RandGetCellInWellFormedCatalog | tools/log_tool/builder.h:432-456 | in a well-formed catalog the cell names a catalog table and one of its acceptable columns, rowkey columns included |
| Requests.RandGetCellAnyIsAppTable | tools/log_tool/builder.h:432-456 | with "any" the cell's table is an application table |
| Requests.BuildRandGetParam | tools/log_tool/builder.h:432-456 | status is that of the generated cell; exactly that cell is appended on success and nothing on failure; other fields unchanged |
| Requests.RandGetCellsStopsAtFirstFailure | tools/log_tool/builder.h:458-484 | the multi-get holds the cells of the seeds before the first failing one, in seed order, and reports that seed's failure; all n cells on success |
| Requests.RandGetCellsSucceedsIffEverySeedDoes | tools/log_tool/builder.h:458-484 | the multi-get succeeds iff every seed in [start, end) yields a cell |
| Requests.BuildRandMgetParam | tools/log_tool/builder.h:458-484 | cells and status follow RandGetCells; a positive start version sets the floor; read consistency is cleared only on success |
| Requests.BuildRandScanParam | tools/log_tool/builder.h:486-521 | success iff the table choice (seed start) and both rowkey draws (seeds start and end) succeed; then a closed range by table name, version floor, offset 0, limit 200, no read consistency; the result is set_range2's param with those limits, so a start version ≤ 0 leaves a fresh version range with no floor; on failure the param is unchanged |
| Mutation.UpdateCell | tools/log_tool/builder.h:553-586 | an update cell addressed by names with OB_INVALID_ID ids and the given value |
| Mutation.DelRowCell | tools/log_tool/builder.h:553-586 | a delete-row cell with no column |
| Mutation.Mutator.Update | tools/log_tool/builder.h:553-586 | success; appends exactly one update cell; the iterator is unchanged |
| Mutation.Mutator.DelRow | tools/log_tool/builder.h:553-586 | success; appends exactly one delete-row cell; the iterator is unchanged |
| Mutation.Mutator.AddCell | tools/log_tool/builder.h:721-742 | success; appends the cell |
| Mutation.Mutator.NextCell | tools/log_tool/builder.h:695-720 | steps to the next cell, or OB_ITER_END at the end with the cursor unchanged |
| Mutation.Mutator.SetCurrentInfo | tools/log_tool/builder.h:695-720 | replaces only the current cell's info |
| Mutation.ResolveTableName | tools/log_tool/builder.h:601-627 | an OB_INVALID_ID table is left alone; otherwise success iff the id is in the catalog, when the name becomes that table's; only the table name changes; failure is OB_SCHEMA_ERROR |
| Mutation.ResolveColumnName | tools/log_tool/builder.h:629-658 | a cell whose table or column id is OB_INVALID_ID is left alone; otherwise success iff the column exists, when the name becomes the column's; only the column name changes |
| Mutation.ResolveCell | tools/log_tool/builder.h:695-720 | a step reports success or OB_SCHEMA_ERROR and changes only the two names |
| Mutation.ResolveCellFailsCleanly | tools/log_tool/builder.h:695-720 | a cell that fails to resolve is left as it was |
| Mutation.ResolveCellIdempotent | tools/log_tool/builder.h:601-658 | resolving a resolved cell changes nothing |
| Mutation.ResolveRunChangesOnlyNames | tools/log_tool/builder.h:695-720 | resolution never changes a cell's operation, ids, rowkey or value |
| Mutation.ResolveRunSucceedsIffEveryCellResolves | tools/log_tool/builder.h:695-720 | the run succeeds iff every visited cell resolves |
| Mutation.ResolveRunResolvesEachCell | tools/log_tool/builder.h:695-720 | after success each cell holds the names its own resolution gives |
| Mutation.ResolveRunFailureLeavesRest | tools/log_tool/builder.h:695-720 | on failure the failing cell and all later cells are untouched |
| Mutation.ResolveRunIdempotent | tools/log_tool/builder.h:695-720 | resolving a fully resolved mutator again changes nothing |
| Mutation.ObMutatorResolveName | tools/log_tool/builder.h:695-720 | cells from the iterator on are rewritten as ResolveRun gives; OB_ITER_END maps to success; the first failure stops the loop |
| Mutation.ResolvedNamesMatchSchema | tools/log_tool/builder.h:601-658 | in a well-formed catalog resolved names are those of the catalog table and column with the cell's ids |
| Mutation.MutatorAddCells | tools/log_tool/builder.h:721-742 | success; dst becomes old dst followed by every src cell in order; the src iterator ends at its end |
| Mutation.MutatorAdd | tools/log_tool/builder.h:744-757 | OB_SIZE_OVERFLOW iff the two serialized sizes exceed the limit, with both mutators unchanged; otherwise success with the cells of src appended in order |
| Mutation.UpdatesShape | tools/log_tool/builder.h:553-586 | the updates appended follow the non-rowkey columns in schema order, one each, until the first value that cannot be drawn, whose status is reported |
| Mutation.UpdatesAvoidRowkey | tools/log_tool/builder.h:553-586 | no update names a rowkey column |
| Mutation.NonRowkeyMembers | tools/log_tool/builder.h:553-586 | the columns updated are exactly the columns that are not rowkey columns |
| Mutation.RandMutationCases | tools/log_tool/builder.h:523-588 | a failed table choice or rowkey draw adds nothing and reports its status; "delete" appends exactly one delete-row and no update; otherwise the updates of UpdatesShape over the table's own columns |
| Mutation.BuildRandMutator | tools/log_tool/builder.h:523-588 | status and appended cells equal RandMutation for the seed and write type |
| Mutation.BatchAsWrittenReportsLastSeed | tools/log_tool/builder.h:590-599 | the batch reports the status of the last seed's mutation |
| Mutation.BatchAsWrittenMasksFailure | tools/log_tool/builder.h:590-599 | an earlier failing seed followed by a succeeding last seed yields success, where the checked batch fails |
| Mutation.BatchCheckedSucceedsIffEverySeedDoes | tools/log_tool/builder.h:590-599 | corrected batch: success iff every seed's mutation succeeds, and then the mutator holds every seed's cells in seed order |
| Mutation.BuildRandBatchMutator | tools/log_tool/builder.h:590-599 | the loop runs every seed, appending each one's cells, and returns the last status |
| Mutation.BuildRandBatchMutatorChecked | tools/log_tool/builder.h:590-599 | the corrected loop stops at the first failing seed |
| Rows.RowDesc.AddColumnDesc | tools/log_tool/builder.h:760-808 | success; appends the pair |
| Rows.RowDesc.GetTidCid | tools/log_tool/builder.h:1224-1243 | the pair at an index inside the descriptor, otherwise OB_INVALID_ARGUMENT |
| Rows.RowDescExt.AddColumnDesc | tools/log_tool/builder.h:830-897 | success; appends the typed entry |
| Rows.RowDescExt.GetByIdx | tools/log_tool/builder.h:1253-1271 | the entry at an index inside the descriptor, otherwise OB_INVALID_ARGUMENT |
| Rows.PayloadCount | tools/log_tool/builder.h:860-889 | min(max columns, column count − rowkey size), and 0 when that is not positive |
| Rows.RowDescPlanShape | tools/log_tool/builder.h:860-889 | a successful descriptor is the chosen table's rowkey columns in declared order with their rowkey types, then exactly PayloadCount payload entries; entry i is drawn with seed + i and is an acceptable non-rowkey column |
| Rows.RowDescPlanFailure | tools/log_tool/builder.h:830-897 | fails with choose_table's status, or OB_SCHEMA_ERROR iff the table is missing by name or by id |
| Rows.RowDescPlanRowkeyPrefix | tools/log_tool/builder.h:830-897 | with the same table and seed, the descriptor without payload is the rowkey prefix of the one with payload, and both succeed or fail together |
| Rows.SetRowDesc | tools/log_tool/builder.h:830-897 | on success the extended descriptor gains the planned entries, the plain one the rowkey count and a copy of every extended entry; on failure neither changes |
| Rows.SetPlainRowDesc | tools/log_tool/builder.h:760-808 | the plain overload appends the pairs of the plan with at most one payload column, and nothing on failure |
| Rows.BuildRowDesc | tools/log_tool/builder.h:810-828 | success; appends the pair of every extended entry, in order |
| Rows.RowOfCells | tools/log_tool/builder.h:899-928 | one cell per entry; before the first failing entry, OB_INVALID_ID entries are null and others hold the value drawn for the column's type; later cells are null; the row is complete iff no entry fails |
| Rows.RowOfConformsToSchema | tools/log_tool/builder.h:899-928 | with a type-honouring generator every non-null cell has its column's declared type |
| Rows.BuildRow | tools/log_tool/builder.h:899-928 | the loop builds RowOf for the descriptor and seed |
| Rows.Values.GetNextRow | tools/log_tool/builder.h:1012-1040 | the row under the cursor, or OB_ITER_END once all rows are read |
| Rows.RowsOfSplit | tools/log_tool/builder.h:948-959 | the rows of n seeds are the rows of the first k followed by those of seeds from seed + k |
| Rows.BuildValues | tools/log_tool/builder.h:948-959 | success; appends max(row count, 0) rows, row i built with seed + i |
| GetParams.AddRowSplitsRowkey | tools/log_tool/builder.h:975-1010 | success iff there is an allocator and the row has cells, otherwise OB_INVALID_ARGUMENT and nothing added; on success one cell per row cell, with the row's first rowkey-size values as rowkey and the descriptor's ids in order |
| GetParams.AddRow | tools/log_tool/builder.h:975-1010 | status and appended cells are AddRowOutcome's |
| GetParams.GetParamSucceedsIffEveryRowFits | tools/log_tool/builder.h:1012-1040 | the request succeeds iff an allocator is given (or there are no rows) and no row is empty, failing only with OB_INVALID_ARGUMENT; on success it holds every row's cells, row after row |
| GetParams.BuildGetParam | tools/log_tool/builder.h:1012-1040 | opens the values, adds rows until the first failure; OB_ITER_END maps to success; the row set is unchanged |
| Exprs.Obj2ItemRoundTrip | tools/log_tool/builder.h:1042-1060 | Int and Varchar convert, and back conversion gives the same type and payload; any other type is OB_NOT_SUPPORTED; converting an item's object gives the item back |
| Exprs.ExprValues.AddValue | tools/log_tool/builder.h:1062-1113 | success; appends the expression |
| Exprs.RowExprsCharacterized | tools/log_tool/builder.h:1062-1113 | a row converts iff each cell with a table is Int or Varchar (otherwise OB_NOT_SUPPORTED); on success it yields constant-then-end expressions of those cells in order |
| Exprs.RowsExprsCharacterized | tools/log_tool/builder.h:1062-1113 | the value set converts iff every row does, failing only with OB_NOT_SUPPORTED; on success it yields each row's constants in row order |
| Exprs.AddRowExprs | tools/log_tool/builder.h:1062-1113 | the cell loop appends RowExprs and reports success or OB_NOT_SUPPORTED |
| Exprs.BuildExprValues | tools/log_tool/builder.h:1062-1113 | the row loop appends RowsExprs and leaves the rows unchanged; OB_ITER_END maps to success |
| Exprs.FirstIntColResult | tools/log_tool/builder.h:1253-1271 | OB_ENTRY_NOT_EXIST iff start ≥ entry count, with ids unchanged; otherwise the ids of the first Int entry at or after start, or of the last entry when none is Int |
| Exprs.GetFirstIntCol | tools/log_tool/builder.h:1253-1271 | the loop computes FirstIntCol; a negative start is OB_INVALID_ARGUMENT from get_by_idx |
| Exprs.FirstIntColAcceptsNoInt | tools/log_tool/builder.h:1253-1271 | a descriptor with only a Varchar entry yields success with that entry's ids |
| Exprs.FirstIntColCheckedFindsInt | tools/log_tool/builder.h:1253-1271 | corrected search: success iff an Int entry exists at or after start, and then its ids; otherwise OB_ENTRY_NOT_EXIST |
| Exprs.Gt0ExprWellFormed | tools/log_tool/builder.h:1273-1302 | the postfix expression column, 1, OR, end evaluates to a single value and references exactly the given column |
| RowBuilders.RowBuilder.constructor | tools/log_tool/builder.h:1189-1199 | the rowkey pair holds set_row_desc without payload, the row pair with at most one payload column; the four descriptors are distinct and fresh |
| RowBuilders.RowBuilder.RowkeyDescIsPrefix | tools/log_tool/builder.h:1189-1199 | the rowkey descriptors are the prefix of the row descriptors with the same rowkey count |
| RowBuilders.RowBuilder.BuildRow | tools/log_tool/builder.h:1202-1204 | build_row over the row descriptor |
| RowBuilders.RowBuilder.BuildValues | tools/log_tool/builder.h:1205-1208 | the value set takes the row descriptor and gains the rows of the builder's seed |
| RowBuilders.RowBuilder.BuildRowkeyValues | tools/log_tool/builder.h:1209-1212 | the same over the rowkey descriptor |
| RowBuilders.RowBuilder.GetRowkeySize | tools/log_tool/builder.h:1224-1243 | the rowkey size of the table owning the first descriptor entry, or 0 |
| RowBuilders.RowBuilder.RowkeySizeOfBuilt | tools/log_tool/builder.h:1224-1243 | in a well-formed catalog get_rowkey_size equals the rowkey cell count given to both descriptors |
| RowBuilders.RowBuilder.BuiltRowsFit | tools/log_tool/builder.h:1213-1215 | generated rows are wide enough for get_rowkey_size, so build_get_param's precondition holds for them |
| RowBuilders.RowBuilder.BuildGetParam | tools/log_tool/builder.h:1213-1215 | build_get_param with the builder as allocator and get_rowkey_size |
| RowBuilders.RowBuilder.BuildExprValues | tools/log_tool/builder.h:1216-1219 | the expression set takes the row descriptors and gains the rows' constants |
| RowBuilders.RowBuilder.BuildRowkeyExprValues | tools/log_tool/builder.h:1220-1223 | the same with the rowkey descriptors |
| RowBuilders.RowBuilder.FirstIntColIsPayload | tools/log_tool/builder.h:1433-1436 | the search after the rowkey succeeds iff the table yielded a payload column, and then returns its ids whatever its type |
| Plans.WiredPlanTree | tools/log_tool/builder.h:1393-1414 | after the four set_child calls the tree below modify is modify → filter → merge(snapshot, incremental), and only those three have children |
| Plans.PhyPlanBuilder.constructor | tools/log_tool/builder.h:1307 | a built row builder, empty value sets and expressions, and no wiring |
| Plans.PhyPlanBuilder.Prepare | tools/log_tool/builder.h:1353-1360 | the empty set takes the rowkey descriptor, the merger's rows are not update rows, and the operators join the plan |
| Plans.PhyPlanBuilder.Finish | tools/log_tool/builder.h:1385-1414 | a write-locking multi-get over the rowkey expressions, the snapshot's table set, and the expected tree |
| Plans.PhyPlanBuilder.Insert | tools/log_tool/builder.h:1351-1416 | values, their expressions, then rowkey values and expressions until the first failure; on success the tree with the insert filter, the snapshot over the empty rowkey set, and root modify; otherwise no root and no wiring; the filter's expression set takes the row descriptors, and, once reached, the rowkey value set and the multi-get's expression set take the rowkey descriptors; sets not reached keep theirs |
| Plans.PhyPlanBuilder.UpdateIfGt0 | tools/log_tool/builder.h:1417-1492 | values, the Int-column search, the filter, the rowkey values and expressions, values again; on success the tree with the filter, the snapshot over the values (each row twice), and root modify; once the search succeeds, the rowkey value set and the multi-get's expression set take the rowkey descriptors, otherwise they keep theirs |

## Left out

- **Logging.**
  - `TBSYS_LOG` calls are not modelled.
  - `dump_ob_mutator` and `dump_ob_mutator_cell` (lines 660-693) only log.
- **Memory management.**
  - `SimpleAllocator` (lines 1171-1184) and `ObDataBuffer` copies become value assignment.
  - An allocator is only present or absent (the `hasAllocator` flag of `GetParams.AddRow`).
- **The other rowkey path.** The code path for non-object rowkeys (lines 172-296) is not modelled.
- **`test_values` and `build_rne_values`** (lines 930-946 and 1115-1169) are not modelled. The first only drains a value set; the calls to the second are commented out.
- **`build_insert` and `build_upcond`** (lines 1310-1349) are not modelled. Around `insert` and `update_ifgt0` they only set up the session and result set and register the root with the physical plan. These are engine internals.
- **Operator behaviour.** What the operators do when a plan runs is not modelled: the update-modify, insert filter, filter, merge, memory table scan and incremental scan operators, and expression evaluation. Only the configuration and the child-slot wiring are.
- **Plan attachment.**
  - `set_phy_plan` is recorded in a map from operator to plan id.
  - `PhyPlanBuilder::get_frozen_version` is the constant `Plans.FrozenVersion`.
  - `RowBuilder::get_row_desc` is a field read.
- **Infallible engine calls.** These calls are assumed always to succeed:
  - appending to a get param, mutator, descriptor, value set or expression set;
  - `set_child`;
  - `add_filter`;
  - `ObScanParam::set_limit_info` (line 512);
  - `ObRow::set_cell` in `build_row` (line 918). The model sets the cell at the entry's position; the source looks up the same (table id, column id) pair in the row's own descriptor.

  Their failure paths (allocation failure inside the engine) are not modelled.
- **Error codes of engine look-ups.** These engine calls are not part of this model. The model has each return `OB_INVALID_ARGUMENT` for an index outside the descriptor or row:
  - `ObRowDesc::get_tid_cid`;
  - `ObRowDescExt::get_by_idx`;
  - `ObRow::raw_get_cell(0)`, which `add_row` calls (line 989). On a row without cells, `GetParams.AddRowOutcome` reports `OB_INVALID_ARGUMENT`.
- **`ObValues::close`.** The calls at lines 1038 and 1111 are not modelled. `close` is assumed to keep the rows and the descriptor of the value set. `GetParams.BuildGetParam` and `Exprs.BuildExprValues` promise that the rows are unchanged afterwards, and the plan methods build on that.
- **Columns in every table.** `Schema.HasColumns` requires every table of the catalog to have at least one column. It is needed by `Selector.ChooseColumn` and by the get and multi-get builders of `Requests`. The source needs this only of the table it samples: `% n_column` at line 116 divides by that table's column count, which is undefined when it is 0. The model does not describe catalogs in which some other table has no columns.
- **Aliasing in `mutator_add`.** `Mutation.MutatorAddCells` and `Mutation.MutatorAdd` require `dst != src`. The source does not forbid passing the same mutator twice. That call would append to the mutator while its own iterator walks it, and the model does not describe it.
- **Helpers without a body here.** Their results are parameters in `Externals.Env`:
  - `rand2`, `rand_str`, `rand_obj`, `rand_rowkey`, `expand`, `choose`, `parse_rowkey`, `hex2bin`;
  - `get_serialize_size`, an argument of `Mutation.MutatorAdd`.

  `rand2` is taken to return non-negative values, so `% n_column` always picks an index.
- **The `write_type` lookup.** The configuration lookup of `write_type` is a parameter of `Mutation.BuildRandMutator`.
- **Integer width.** The 64-bit integers are unbounded here. Seed arithmetic (`seed + i`, `start + n`) cannot overflow in the model.
- Rows.SetRowDesc: requires that the payload draws for the chosen table succeed. The source does not check `rand_choose_column`'s -1 at lines 801 and 882, and would index the column array with it.
- Plans.PhyPlanBuilder.UpdateIfGt0: the filter is built by `build_gt0_expr` as written. It is "column OR 1", not a comparison with zero. The model records the expression and proves its shape, but not what it filters.
- Plans.PhyPlanBuilder.UpdateIfGt0: uses `get_first_int_col` as written (see Findings), so the filter may reference a Varchar column.
- Plans.PhyPlanBuilder.UpdateIfGt0: the value set is built twice (lines 1429 and 1453), so the snapshot holds every row twice. Modelled as written.
- Selector.ChooseColumn: `build_rand_get_param` passes the default `exclude_rowkey = false`. Its column may therefore be a rowkey column, which the model keeps.

## Findings

| source | as written | input that shows it | evidently intended | confidence | as-written member | corrected member |
|---|---|---|---|---|---|---|
| tools/log_tool/builder.h:43-74 | the end-key parse overwrites `err`, so a failed start-key parse is reported only when the end key is "max" | a start key that fails to parse and an end key that parses | report the first failed parse | not executed | Range.SetRangeLosesStartKeyError | Range.SetRangeChecked |
| tools/log_tool/builder.h:590-599 | the loop has no error check: every seed runs and only the last status is returned | a window of two seeds whose first mutation fails and whose second succeeds | stop at the first failing seed and report it | not executed | Mutation.BatchAsWrittenMasksFailure | Mutation.BatchCheckedSucceedsIffEverySeedDoes |
| tools/log_tool/builder.h:1253-1271 | when no entry at or after the start index is Int, the loop ends with `err` = success and the last entry's ids | a descriptor with one Varchar entry (3001, 16), start index 0 | report OB_ENTRY_NOT_EXIST when there is no Int column | not executed | Exprs.FirstIntColAcceptsNoInt | Exprs.FirstIntColCheckedFindsInt |

`Mutation.BuildRandBatchMutator` follows the source as written. `Mutation.BuildRandBatchMutatorChecked`
is the corrected loop. `Plans.PhyPlanBuilder.UpdateIfGt0` keeps the as-written search, because its
effect on the plan is what the source produces.
