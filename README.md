# Structured query to MDX, and the small-table helpers around it

This project models the part of TaskWeaver_ZH_CN's natural-language data query that turns
a structured query into an MDX statement for the SmartBI cube server, and the helpers
around that step:

- **The MDX compiler** (`taskweaver/api/gen_mdx.py`). A `sql_json` query holds
  `row`, `col`, `measure`, `conds` and `order_by`. It is compiled against the metadata index
  (`id2content`) into `SELECT {measures} ON COLUMNS, NON EMPTY {rows} ON ROWS FROM [cube]`.
  - Conditions on time-bearing identifiers (those with a non-empty `timeLevel`) become one
    date fragment. It is either an `order(...)` over a member list, a `filter(...)` over
    range predicates, or a member set. When the last time-bearing row/column identifier
    (`min_time_date`) has no date condition of its own, the member list inside `order(...)` is wrapped in `Descendants(...)`
    at the condition's own level; the filter and the member set are wrapped as a whole at
    the level of `min_time_date`.
  - Every other condition becomes one member (or member set) on the row axis.
  - Every row or column identifier not consumed by a condition becomes `[name].[name].Members`.
  - The converter is a class (`GenMdx.Converter`), because the source mutates the query's
    `order_by` in place. Its methods follow the source's loops and are proved to compute
    the specification functions of `MdxSpec`. `MdxProperties` proves what those functions mean.
- **The small-table text** (`taskweaver/api/table_info.py`):
  - the `is_number` regular expression;
  - the `drop_nan_str` row filter;
  - the grouping of dimension lines by dimension (`build_dimension`);
  - the summary text of `get_small_table`.
- **Cellset conversion** (`taskweaver/api/smartbi_utils.py`): the column headers with the
  value grid (a 2-D array filled in place), and the row headers with the row members.
- **The metadata index** (`project/plugins/natural_language_query_data.py`): `build_id2content`.

Python exceptions are modelled as `Err` values of `Wrappers.Result`:
- `KeyError(key)` is a missing dict key;
- `NoneSubscripted(key)` is subscripting the `None` that `dict.get` returns for an unknown id;
- `IndexError` is list indexing out of range.

Each identifier's metadata line is a `Metadata.Line`. The keys the code reads with a
default or a truthiness test (`objectName`, `is_level`) are `Option`s.

The model follows the code. Behaviours worth knowing:
- `min_time_date` is the **last** time-bearing row/column identifier,
  because the scanning loop at gen_mdx.py:82-85 has no `break` (`MdxProperties.MinTimeDateIsLast`).
- The `is_where` flag is computed, but the date fragment always goes on the row axis.
  The slicer list stays empty, so no `WHERE` clause is ever emitted
  (`MdxProperties.StatementEndsWithFrom`).
- A condition whose identifier is missing from the index is not an error for the date
  step (`.get(id, {})`). In the member step it is an error (`None["is_level"]`).
- Time-bearing row/column identifiers are marked as used only when there is at least
  one date condition (gen_mdx.py:78-85). Without one, they are enumerated as `.Members`
  like any other axis identifier.
- Row/column identifiers left unused are enumerated once per occurrence, so a repeated
  identifier gives repeated `.Members` entries. Only condition identifiers are emitted
  at most once.
- `",\n"` precedes the row set even when there are no measures and so no `SELECT` part.

## Model

| member | source | states |
|---|---|---|
| QueryData.BuildId2Content | project/plugins/natural_language_query_data.py:8-12 | the loop builds exactly the index of writing `dimension + measure` in order |
| QueryData.Id2ContentKeys | project/plugins/natural_language_query_data.py:9-11 | the index's keys are exactly the ids of the lines |
| QueryData.Id2ContentLastWins | project/plugins/natural_language_query_data.py:10-11 | a key maps to the last line carrying that id |
| QueryData.Id2ContentIds | project/plugins/natural_language_query_data.py:11 | every value of the index carries its own key as `id` |
| QueryData.MeasureOverridesDimension | project/plugins/natural_language_query_data.py:10 | a measure replaces a dimension line with the same id |
| SmartbiUtils.PyIndex | taskweaver/api/smartbi_utils.py:60 | a Python list index is valid exactly when `-n <= i < n`, and then addresses `i` or `i + n` |
| SmartbiUtils.ColumnName | taskweaver/api/smartbi_utils.py:49-52 | a column header is the `"\|"`-join of its members' names; an empty column row is an IndexError |
| SmartbiUtils.GetColumnFrame | taskweaver/api/smartbi_utils.py:44-62 | fails (IndexError) exactly when some column row is empty or some data item addresses no cell; otherwise one header per column row, a grid of max(1, rows) by columns, each cell holding `CellAt` |
| SmartbiUtils.CellAtLastWriter | taskweaver/api/smartbi_utils.py:59-60 | a cell holds the value of the last data item addressing it |
| SmartbiUtils.CellAtUnwritten | taskweaver/api/smartbi_utils.py:58 | a cell no data item addresses stays None |
| SmartbiUtils.RowFrame | taskweaver/api/smartbi_utils.py:65-74 | None exactly when there are no row fields; otherwise the field names as headers and each row's member names, cell by cell |
| TableInfo.DigitRunSpec | taskweaver/api/table_info.py:15 | the greedy `\d+` run is all digits and is followed by a non-digit or the end |
| TableInfo.IsNumber | taskweaver/api/table_info.py:14-15 | accepts a string exactly when it renders a well-formed sign/digits/fraction/percent/final-newline shape |
| TableInfo.IsNumberSound | taskweaver/api/table_info.py:14-15 | every sign/digits/fraction/percent/newline shape is matched by the regular expression |
| TableInfo.IsNumberComplete | taskweaver/api/table_info.py:14-15 | every string the regular expression matches is such a shape |
| TableInfo.FullMatchShapes | taskweaver/api/table_info.py:14-15 | the two directions together: the regular expression matches exactly the renderings of the shapes |
| TableInfo.MatchedBodyShape | taskweaver/api/table_info.py:15 | a string matching `-?\d+(\.\d+)?%?` in full is the rendering of a shape without newline |
| TableInfo.NumericKeeps | taskweaver/api/table_info.py:20-22 | a numeric string with no missing value before it precedes every missing value of the row |
| TableInfo.DropNanStr | taskweaver/api/table_info.py:18-24 | the row is kept exactly when every NA value is preceded by a numeric string |
| TableInfo.GroupKeys | taskweaver/api/table_info.py:103-109 | the dimension keys carry no duplicates, and a key is present exactly when some entry is grouped under it |
| TableInfo.GroupLines | taskweaver/api/table_info.py:107-109 | a key no entry is grouped under has no lines |
| TableInfo.GroupedStep | taskweaver/api/table_info.py:98-108 | one `setdefault(key, []).append(line)` keeps the dict equal to the grouping of the entries seen so far, with a new key inserted last |
| TableInfo.GroupByDimension | taskweaver/api/table_info.py:96-108 | the first loop leaves the dict's keys in `GroupKeys` order, each holding that dimension's level lines |
| TableInfo.BuildDimension | taskweaver/api/table_info.py:96-113 | the two loops produce `DimensionText`: one block per dimension, each with its level lines |
| TableInfo.GroupKeysFirstAppearance | taskweaver/api/table_info.py:109-110 | dimensions are listed in order of first appearance (insertion-ordered dict) |
| TableInfo.LevelLineInGroup | taskweaver/api/table_info.py:107-109 | every entry's level line lands in its own dimension's group |
| TableInfo.GroupLinesAppend | taskweaver/api/table_info.py:99-109 | within a group, entries keep input order: grouping a concatenation concatenates the groups |
| TableInfo.DimensionTextEmpty | taskweaver/api/table_info.py:98-113 | no dimension lines give the empty text |
| TableInfo.SmallTableText | taskweaver/api/table_info.py:118-120 | the summary opens with the dimensions block and the measures heading, and ends with the last measure's line (or the heading when there are none) |
| MdxSpec.HasDateInRowAndCol | taskweaver/api/gen_mdx.py:19-22 | true exactly when some row/col id is time-bearing |
| MdxSpec.IsDateNamedSet | taskweaver/api/gen_mdx.py:3-9 | true exactly when `min_time_date` is non-empty and no date condition has that id |
| MdxSpec.FirstMulti | taskweaver/api/gen_mdx.py:88-97 | the index of the first list-valued date condition, if any, with none before it |
| MdxProperties.FirstMultiIs | taskweaver/api/gen_mdx.py:88-91 | a list-valued date condition with none before it is the one `FirstMulti` finds |
| MdxSpec.CondRowsErrSticky | taskweaver/api/gen_mdx.py:38-51 | once a condition raises, the remaining conditions do not change the outcome |
| MdxSpec.RowMembersErrSticky | taskweaver/api/gen_mdx.py:119-127 | once a row/col id raises, the remaining ids do not change the outcome |
| GenMdx.SqlJson.constructor | taskweaver/api/gen_mdx.py:14-17 | the query's parts and its `order_by` as given |
| GenMdx.Converter.constructor | taskweaver/api/gen_mdx.py:14-17 | `row_and_col` is `row + col` |
| GenMdx.Converter.HasDateInRowAndCol | taskweaver/api/gen_mdx.py:19-22 | the early-return loop computes `MdxSpec.HasDateInRowAndCol` |
| GenMdx.Converter.CollectDateConditions | taskweaver/api/gen_mdx.py:61-75 | the first loop collects the date conditions, leaves `is_where` as the last of them sets it, and appends their ids to `used_dim` |
| GenMdx.Converter.BuildDateMdx | taskweaver/api/gen_mdx.py:60-115 | computes `DateMdx` and clears `order_by` exactly when `DateClearsOrder`, leaving it unchanged otherwise |
| GenMdx.Converter.RenderDateConditions | taskweaver/api/gen_mdx.py:86-115 | the rendering loop and its tail compute `RenderDates` and clear `order_by` exactly when `RenderClearsOrder` |
| GenMdx.Converter.ConditionMember | taskweaver/api/gen_mdx.py:40-49 | succeeds exactly when the id is known, has `is_level`, and has `objectName` when it is a level; the entry is then the member (or member set) at `objectName` for a level and at `name` otherwise |
| GenMdx.Converter.BuildCondition | taskweaver/api/gen_mdx.py:30-52 | computes `Condition`, including its errors and the `order_by` update of the date step |
| GenMdx.Converter.BuildRow | taskweaver/api/gen_mdx.py:117-128 | appends `RowMembers` to the given rows, or raises its error |
| GenMdx.Converter.ToConverter | taskweaver/api/gen_mdx.py:130-151 | computes `Compile` and clears `order_by` exactly when the date step does |
| GenMdx.Assemble | taskweaver/api/gen_mdx.py:135-150 | the `+=` assembly yields `Statement`: the column clause if any, the row clause if any, then FROM |
| GenMdx.ConvertTwice | taskweaver/api/gen_mdx.py:96-114 | converting twice gives the same statement: clearing `order_by` never changes the output |
| MdxProperties.DateCondsEmpty | taskweaver/api/gen_mdx.py:63-79 | there is no date condition exactly when no condition is on a time-bearing id |
| MdxProperties.DateCondsAppend | taskweaver/api/gen_mdx.py:63-75 | collecting date conditions distributes over concatenation of the conditions |
| MdxProperties.DateCondsOrigin | taskweaver/api/gen_mdx.py:63-74 | every date condition is built from a condition on a time-bearing id, with its name and objectName |
| MdxProperties.DateCondsSplit | taskweaver/api/gen_mdx.py:65-74 | a condition on a time-bearing id is collected, after those of its prefix |
| MdxProperties.NoDateConditionIsNoOp | taskweaver/api/gen_mdx.py:78-79 | without a date condition the fragment is empty, `is_where` is True, `used_dim` is unchanged and `order_by` is kept |
| MdxProperties.FirstMultiAt | taskweaver/api/gen_mdx.py:88-91 | the first list-valued time condition is the first list-valued date condition |
| MdxProperties.MultiSelectShortCircuits | taskweaver/api/gen_mdx.py:91-97 | the first list-valued date condition alone decides the fragment (`order(...)`, with `Descendants` if named) and clears `order_by` |
| MdxProperties.NoMultiDate | taskweaver/api/gen_mdx.py:91 | without list-valued time conditions there is no list-valued date condition |
| MdxProperties.RangePredicatesNonEmpty | taskweaver/api/gen_mdx.py:98-106 | there are range predicates exactly when some date condition has `>` or `<` in its operator |
| MdxProperties.DimLevelIsLastRange | taskweaver/api/gen_mdx.py:100 | `dim_level` is the level of the last range condition |
| MdxProperties.RangeGivesFilter | taskweaver/api/gen_mdx.py:98-114 | a range condition without list values gives `filter(dim_level, preds)` (wrapped if named) and clears `order_by` |
| MdxProperties.DiscreteMembersAll | taskweaver/api/gen_mdx.py:102-105 | with only discrete conditions, one member path per condition, in order |
| MdxProperties.DiscreteGivesMemberSet | taskweaver/api/gen_mdx.py:102-114 | only discrete date conditions give the member set; `order_by` is cleared exactly when the named-set wrap applies |
| MdxProperties.AllDiscreteDates | taskweaver/api/gen_mdx.py:102 | conditions that are neither list-valued nor ranges give only discrete date conditions |
| MdxProperties.MinTimeDateIsLast | taskweaver/api/gen_mdx.py:82-85 | `min_time_date` is the last time-bearing row/col id |
| MdxProperties.MinTimeDateNone | taskweaver/api/gen_mdx.py:81-86 | without time-bearing row/col ids, `min_time_date` is "" and nothing is a named set |
| MdxProperties.TimeIdsNone | taskweaver/api/gen_mdx.py:82-85 | without time-bearing row/col ids, none is marked used |
| MdxProperties.TimeIdsComplete | taskweaver/api/gen_mdx.py:82-85 | the ids marked used are exactly the time-bearing row/col ids |
| MdxProperties.CondRowsPrefix | taskweaver/api/gen_mdx.py:38-51 | the condition loop only appends, one row entry per newly used id |
| MdxProperties.CondRowsCovers | taskweaver/api/gen_mdx.py:38-51 | afterwards every condition id, and every id used before, is used |
| MdxProperties.CondRowsFresh | taskweaver/api/gen_mdx.py:39-51 | newly used ids are distinct and were not used before, so each id gives at most one entry |
| MdxProperties.CondMemberOk | taskweaver/api/gen_mdx.py:40-49 | a condition's entry exists exactly when those lookups succeed, and is built at `objectName` for a level, at `name` otherwise |
| MdxProperties.CondRowsUsedOnly | taskweaver/api/gen_mdx.py:38-51 | afterwards `used_dim` holds exactly the ids held before and the condition ids |
| MdxProperties.CondRowsOk | taskweaver/api/gen_mdx.py:38-51 | the condition loop raises exactly when a condition met first (id neither used before nor carried by an earlier condition) has a missing id, `is_level` or (for a level) `objectName` |
| MdxProperties.CondRowsEntries | taskweaver/api/gen_mdx.py:40-50 | each new row entry renders a condition with the matching newly used id |
| MdxProperties.ConditionUsed | taskweaver/api/gen_mdx.py:30-52 | `used_dim` extends the given one with every condition id and, when there are date conditions, every time-bearing row/col id |
| MdxProperties.ConditionRows | taskweaver/api/gen_mdx.py:32-50 | the rows are the given ones, then the date fragment if non-empty, then one entry per newly used id, each rendering a condition with that id |
| MdxProperties.UnusedSpec | taskweaver/api/gen_mdx.py:119-120 | the ids not in `used_dim` are kept with their multiplicity, the used ones dropped |
| MdxProperties.RowMembersOk | taskweaver/api/gen_mdx.py:119-122 | `build_row` raises exactly when an unused row/col id is missing from the index |
| MdxProperties.RowMembersSpec | taskweaver/api/gen_mdx.py:119-127 | `build_row` gives `[name].[name].Members` for each unused occurrence, in order |
| MdxProperties.UnusedNothingUsed | taskweaver/api/gen_mdx.py:120 | with nothing used, every row/col id is kept |
| MdxProperties.ColumnsFromKnown | taskweaver/api/gen_mdx.py:132 | every column is the measure path of a measure id found in the index |
| MdxProperties.ColumnsKeepKnown | taskweaver/api/gen_mdx.py:132 | every measure id found in the index gives a column, and with no missing ids there is one column per measure |
| MdxProperties.ColumnsAppend | taskweaver/api/gen_mdx.py:132 | each measure occurrence gives one column if known and none if missing, in order: the columns of a concatenation are the concatenated columns |
| MdxProperties.StatementEndsWithFrom | taskweaver/api/gen_mdx.py:147-150 | every statement ends with the FROM clause; no WHERE follows |
| MdxProperties.StatementOpensWithColumns | taskweaver/api/gen_mdx.py:136-138 | with measures, the statement opens with the column set |
| MdxProperties.StatementClosesWithRows | taskweaver/api/gen_mdx.py:139-147 | with rows, the statement closes with the `*`-joined row set, and starts with `",\n"` when there are no measures |
| MdxProperties.StatementWithoutRows | taskweaver/api/gen_mdx.py:135-147 | without rows, the statement is the column clause (possibly empty) and FROM |
| MdxProperties.CompileWithoutConditions | taskweaver/api/gen_mdx.py:130-151 | without conditions, compiling succeeds exactly when every row/col id is known, and then every one of them is enumerated as `.Members` |
| MdxProperties.ScenarioMeasureByRegion | taskweaver/api/gen_mdx.py:130-151 | one measure `Sales` with the row dimension `Region` compiles to the statement over `[Measures].[Sales]` and `[Region].[Region].Members` |

## Left out

- HTTP: logging in, `query_dataframe_from_mdx`, `close_query` and the other server calls are I/O and are not modelled. The cellset reaches the model as a value.
- The pandas `DataFrame` wrapping, and the joining of the row and column parts into one frame, are library calls. The model returns the headers and the cells.
- JSON and pydantic parsing of the small-table description (`build_small_table`) is parsing done by libraries. The model starts from the parsed lines.
- `process_order_by`, `build_name_set`, `build_custom_metric`, and the commented-out WHERE and limit branches of gen_mdx.py are never called. They are not modelled.
- taskweaver/ext_role/machine_learning/machine_learning.py and the growth-rate plugin are not part of this model.
- TableInfo.IsNumber: `\d` is taken as the ASCII digits 0-9. Python's `re` also accepts other Unicode decimal digits.
- TableInfo.DropNanStr: `pd.isna` is modelled on the cell kinds None, NaN, string and number. Other pandas NA kinds (NaT, pd.NA) are not distinguished.
- MdxSpec.Value: a scalar condition value is taken as the text Python's f-string gives it. `str()` of numbers and other objects is not modelled.
- Absent `row`, `col`, `measure` or `conds` keys of the query are modelled as empty lists, which is what the code's `.get(..., [])` defaults give.
- The `name` and `id` keys of a metadata line are assumed present. `build_id2content` raises `KeyError` on a line without `id`; `Metadata.Line` always carries one, so that error is not modelled. The `content.get("name")` of a date condition falling back to `None`, and rendering as the text "None", is not modelled.
- SmartbiUtils.GetColumnFrame: the cellset's `name` keys of members and row fields, and the `row`/`column` keys of data items (read with `.get`) are assumed present and of the right type, in SmartbiUtils.ColumnName and SmartbiUtils.RowFrame as well. A missing key gives `None`, and the `None` header or the `TypeError` from `"|" + None` or `df_cells[None]` is not modelled.
- `is_level` is modelled as absent, true or false. Python truthiness of other values is not modelled.
- `has_date_in_row_and_col` returns `None` when it finds nothing. This is modelled as `false`, which is how its one use (the `if` that guards the date step) treats it.
- The `is_where` flag is returned, but the code never acts on it, so the model only computes it.
