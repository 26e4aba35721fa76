/**
 * What each step of the MDX compiler (gen_mdx.py) computes, as functions of the
 * structured query and the metadata index. The imperative steps in module GenMdx are
 * proved to compute exactly these values; module MdxProperties proves what they mean.
 */
module MdxSpec {
  import opened Wrappers
  import opened Text
  import opened Metadata

  /** A condition value: a scalar, rendered as Python renders it in an f-string, or a list of members. */
  datatype Value = Scalar(text: string) | Multi(members: seq<string>)

  /** One `(id, op, value)` entry of `conds`. */
  datatype Cond = Cond(id: string, op: string, value: Value)

  /** The dict collected per date condition (its "content" key is never read, so it is not kept). */
  datatype DateCond = DateCond(id: string, name: string, op: string, value: Value, objectName: string)

  // ---------------------------------------------------------------------------
  // Lookups
  // ---------------------------------------------------------------------------

  /** `id2content.get(id, {}).get("timeLevel", "")` */
  function TimeLevelOf(m: Index, id: string): string
  {
    if id in m then m[id].timeLevel else ""
  }

  /** Whether an identifier denotes a time granularity. */
  predicate IsTimeBearing(m: Index, id: string)
  {
    TimeLevelOf(m, id) != ""
  }

  /** `has_date_in_row_and_col`: some row or column identifier is time-bearing. */
  function HasDateInRowAndCol(ids: seq<string>, m: Index): (b: bool)
    ensures b <==> exists i :: 0 <= i < |ids| && IsTimeBearing(m, ids[i])
  {
    if ids == [] then false
    else IsTimeBearing(m, ids[0]) || HasDateInRowAndCol(ids[1..], m)
  }

  function DateIds(dcs: seq<DateCond>): seq<string>
  {
    seq(|dcs|, i requires 0 <= i < |dcs| => dcs[i].id)
  }

  /** `is_date_named_set`: a time level is on an axis and no date condition targets it. */
  function IsDateNamedSet(minTimeDate: string, dcs: seq<DateCond>): (b: bool)
    ensures b <==> minTimeDate != "" && forall i :: 0 <= i < |dcs| ==> dcs[i].id != minTimeDate
  {
    if minTimeDate == "" then false
    else
      assert forall i :: 0 <= i < |dcs| ==> DateIds(dcs)[i] == dcs[i].id;
      if minTimeDate !in DateIds(dcs) then true else false
  }

  // ---------------------------------------------------------------------------
  // Collecting the date conditions and the time levels on the axes
  // ---------------------------------------------------------------------------

  function ToDateCond(m: Index, c: Cond): DateCond
    requires c.id in m
  {
    DateCond(c.id, m[c.id].name, c.op, c.value, m[c.id].objectName.GetOr(""))
  }

  /** The conditions on time-bearing identifiers, in condition order. */
  function DateConds(conds: seq<Cond>, m: Index): seq<DateCond>
  {
    if conds == [] then []
    else
      var c := conds[|conds| - 1];
      DateConds(conds[..|conds| - 1], m) + (if IsTimeBearing(m, c.id) then [ToDateCond(m, c)] else [])
  }

  /** The time-bearing identifiers among ids, in order and with repetitions. */
  function TimeIds(ids: seq<string>, m: Index): seq<string>
  {
    if ids == [] then []
    else
      var x := ids[|ids| - 1];
      TimeIds(ids[..|ids| - 1], m) + (if IsTimeBearing(m, x) then [x] else [])
  }

  /** `min_time_date`: the last time-bearing row/col identifier (the loop has no break), or "". */
  function MinTimeDate(ids: seq<string>, m: Index): string
  {
    var t := TimeIds(ids, m);
    if t == [] then "" else t[|t| - 1]
  }

  /** `is_where` as the last date condition leaves it; True when there is none. */
  function DateIsWhere(dcs: seq<DateCond>, rowAndCol: seq<string>, m: Index): bool
  {
    if dcs == [] then true
    else !(dcs[|dcs| - 1].id in rowAndCol || HasDateInRowAndCol(rowAndCol, m))
  }

  // ---------------------------------------------------------------------------
  // Rendering MDX fragments
  // ---------------------------------------------------------------------------

  /** `[obj].[name]` */
  function Level(obj: string, name: string): string
  {
    "[" + obj + "].[" + name + "]"
  }

  /** `[obj].[name].[member]` */
  function MemberPath(obj: string, name: string, member: string): string
  {
    Level(obj, name) + ".[" + member + "]"
  }

  function MemberPaths(obj: string, name: string, members: seq<string>): seq<string>
  {
    seq(|members|, i requires 0 <= i < |members| => MemberPath(obj, name, members[i]))
  }

  /** `{p1,p2,...}` */
  function MemberSet(paths: seq<string>): string
  {
    "{" + Join(",", paths) + "}"
  }

  function Descendants(members: string, level: string): string
  {
    "Descendants(" + members + ", " + level + ")"
  }

  function OrderByCaption(members: string, obj: string): string
  {
    "order(" + members + ", ([" + obj + "].currentMember.caption), BASC)"
  }

  /** The fragment of a list-valued date condition: its members, ordered ascending by caption. */
  function MultiDateMdx(d: DateCond, named: bool): string
    requires d.value.Multi?
  {
    var s := MemberSet(MemberPaths(d.objectName, d.name, d.value.members));
    OrderByCaption(if named then Descendants(s, Level(d.objectName, d.name)) else s, d.objectName)
  }

  /** `">" in op or "<" in op` */
  predicate IsRangeOp(op: string)
  {
    '>' in op || '<' in op
  }

  predicate IsRange(d: DateCond)
  {
    d.value.Scalar? && IsRangeOp(d.op)
  }

  predicate IsDiscrete(d: DateCond)
  {
    d.value.Scalar? && !IsRangeOp(d.op)
  }

  function RangePredicate(d: DateCond): string
    requires d.value.Scalar?
  {
    "(Ancestor([" + d.objectName + "].currentMember, " + Level(d.objectName, d.name) + ").caption "
    + d.op + " '" + d.value.text + "')"
  }

  /** The range predicates of the range conditions, in order. */
  function RangePredicates(dcs: seq<DateCond>): seq<string>
  {
    if dcs == [] then []
    else
      var d := dcs[|dcs| - 1];
      RangePredicates(dcs[..|dcs| - 1]) + (if IsRange(d) then [RangePredicate(d)] else [])
  }

  /** `dim_level`: the `.members` of the last range condition's level, or "". */
  function DimLevel(dcs: seq<DateCond>): string
  {
    if dcs == [] then ""
    else
      var d := dcs[|dcs| - 1];
      if IsRange(d) then Level(d.objectName, d.name) + ".members" else DimLevel(dcs[..|dcs| - 1])
  }

  /** The member paths of the discrete (equality) conditions, in order. */
  function DiscreteMembers(dcs: seq<DateCond>): seq<string>
  {
    if dcs == [] then []
    else
      var d := dcs[|dcs| - 1];
      DiscreteMembers(dcs[..|dcs| - 1])
      + (if IsDiscrete(d) then [MemberPath(d.objectName, d.name, d.value.text)] else [])
  }

  /** The position of the first list-valued date condition. */
  function FirstMulti(dcs: seq<DateCond>): (r: Option<nat>)
    ensures r.Some? ==> r.value < |dcs| && dcs[r.value].value.Multi?
    ensures r.Some? ==> forall j :: 0 <= j < r.value ==> !dcs[j].value.Multi?
    ensures r.None? ==> forall j :: 0 <= j < |dcs| ==> !dcs[j].value.Multi?
  {
    if dcs == [] then None
    else if dcs[0].value.Multi? then Some(0)
    else match FirstMulti(dcs[1..])
      case None => None
      case Some(k) => Some(k + 1)
  }

  /** Without a list value: a filter over the range predicates, else the set of discrete members. */
  function RangeOrMembers(dcs: seq<DateCond>): string
  {
    if RangePredicates(dcs) != [] then "filter(" + DimLevel(dcs) + ", " + Join("and", RangePredicates(dcs)) + ")"
    else MemberSet(DiscreteMembers(dcs))
  }

  /** The Descendants wrapping at the level of min_time_date; `item['objectName']` may raise. */
  function NamedSetWrap(m: Index, minTimeDate: string, mdx: string): Result<string, Failure>
  {
    if minTimeDate !in m || m[minTimeDate].objectName.None? then Err(KeyError("objectName"))
    else Ok(Descendants(mdx, Level(m[minTimeDate].objectName.value, m[minTimeDate].name)))
  }

  // ---------------------------------------------------------------------------
  // build_date_mdx
  // ---------------------------------------------------------------------------

  /** The fragment rendered from the collected date conditions, given `min_time_date`. */
  function RenderDates(dcs: seq<DateCond>, minTime: string, m: Index): Result<string, Failure>
  {
    var named := IsDateNamedSet(minTime, dcs);
    match FirstMulti(dcs)
    case Some(k) => Ok(MultiDateMdx(dcs[k], named))
    case None =>
      if named then NamedSetWrap(m, minTime, RangeOrMembers(dcs)) else Ok(RangeOrMembers(dcs))
  }

  /** Whether rendering assigns `[]` to `order_by` (also on the path that then raises). */
  predicate RenderClearsOrder(dcs: seq<DateCond>, minTime: string, m: Index)
  {
    FirstMulti(dcs).Some? || RangePredicates(dcs) != []
    || (IsDateNamedSet(minTime, dcs) && NamedSetWrap(m, minTime, RangeOrMembers(dcs)).Ok?)
  }

  /** The fragment build_date_mdx returns ("" when no condition is on a time level). */
  function DateFragment(conds: seq<Cond>, rowAndCol: seq<string>, m: Index): Result<string, Failure>
  {
    var dcs := DateConds(conds, m);
    if dcs == [] then Ok("") else RenderDates(dcs, MinTimeDate(rowAndCol, m), m)
  }

  /** used_dim after build_date_mdx: the date condition ids, then the time levels on the axes. */
  function DateUsed(conds: seq<Cond>, rowAndCol: seq<string>, m: Index, usedDim: seq<string>): seq<string>
  {
    var dcs := DateConds(conds, m);
    usedDim + DateIds(dcs) + (if dcs == [] then [] else TimeIds(rowAndCol, m))
  }

  /** Whether build_date_mdx assigns `[]` to `order_by`. */
  predicate DateClearsOrder(conds: seq<Cond>, rowAndCol: seq<string>, m: Index)
  {
    var dcs := DateConds(conds, m);
    dcs != [] && RenderClearsOrder(dcs, MinTimeDate(rowAndCol, m), m)
  }

  /** The triple `(date_mdx, is_where, used_dim)` that build_date_mdx returns. */
  datatype DateResult = DateResult(mdx: string, isWhere: bool, usedDim: seq<string>)

  function DateMdx(conds: seq<Cond>, rowAndCol: seq<string>, m: Index, usedDim: seq<string>)
    : Result<DateResult, Failure>
  {
    match DateFragment(conds, rowAndCol, m)
    case Err(e) => Err(e)
    case Ok(f) => Ok(DateResult(f, DateIsWhere(DateConds(conds, m), rowAndCol, m), DateUsed(conds, rowAndCol, m, usedDim)))
  }

  // ---------------------------------------------------------------------------
  // build_condition and build_row
  // ---------------------------------------------------------------------------

  /** The lookups of build_condition succeed: the id is known, has `is_level`, and a level has `objectName`. */
  predicate Resolvable(m: Index, id: string)
  {
    id in m && m[id].isLevel.Some? && (m[id].isLevel == Some(true) ==> m[id].objectName.Some?)
  }

  /** `dim_name`: the objectName of a level, the name of anything else. */
  function DimName(line: Line): string
    requires line.isLevel == Some(true) ==> line.objectName.Some?
  {
    if line.isLevel == Some(true) then line.objectName.value else line.name
  }

  /** The row entry of a non-date condition; a missing id or `is_level`/`objectName` key raises. */
  function CondMember(m: Index, c: Cond): Result<string, Failure>
  {
    if c.id !in m then Err(NoneSubscripted("is_level"))
    else
      var content := m[c.id];
      match content.isLevel
      case None => Err(KeyError("is_level"))
      case Some(isLevel) =>
        if isLevel && content.objectName.None? then Err(KeyError("objectName"))
        else
          var dim := if isLevel then content.objectName.value else content.name;
          match c.value
          case Multi(members) => Ok(MemberSet(MemberPaths(dim, content.name, members)))
          case Scalar(v) => Ok(MemberPath(dim, content.name, v))
  }

  /** The two lists build_condition and build_row append to. */
  datatype Axis = Axis(row: seq<string>, usedDim: seq<string>)

  /** The loop over the conditions: an id not yet used yields its row entry and becomes used. */
  function CondRows(conds: seq<Cond>, m: Index, start: Axis): Result<Axis, Failure>
  {
    if conds == [] then Ok(start)
    else
      match CondRows(conds[..|conds| - 1], m, start)
      case Err(e) => Err(e)
      case Ok(a) =>
        var c := conds[|conds| - 1];
        if c.id in a.usedDim then Ok(a)
        else
          match CondMember(m, c)
          case Err(e) => Err(e)
          case Ok(x) => Ok(Axis(a.row + [x], a.usedDim + [c.id]))
  }

  /** `build_condition`: the date fragment joins the row list, then the other conditions do. */
  function Condition(conds: seq<Cond>, rowAndCol: seq<string>, m: Index, usedDim: seq<string>, row: seq<string>)
    : Result<Axis, Failure>
  {
    match DateMdx(conds, rowAndCol, m, usedDim)
    case Err(e) => Err(e)
    case Ok(d) => CondRows(conds, m, Axis(if d.mdx != "" then row + [d.mdx] else row, d.usedDim))
  }

  /** `[name].[name].Members` */
  function AllMembers(name: string): string
  {
    Level(name, name) + ".Members"
  }

  /** The row/col identifiers not in usedDim, in order and with repetitions. */
  function Unused(ids: seq<string>, usedDim: seq<string>): seq<string>
  {
    if ids == [] then []
    else
      var x := ids[|ids| - 1];
      Unused(ids[..|ids| - 1], usedDim) + (if x !in usedDim then [x] else [])
  }

  /** The entries build_row appends; an unused id missing from the index raises. */
  function RowMembers(ids: seq<string>, m: Index, usedDim: seq<string>): Result<seq<string>, Failure>
  {
    if ids == [] then Ok([])
    else
      match RowMembers(ids[..|ids| - 1], m, usedDim)
      case Err(e) => Err(e)
      case Ok(r) =>
        var x := ids[|ids| - 1];
        if x in usedDim then Ok(r)
        else if x !in m then Err(NoneSubscripted("name"))
        else Ok(r + [AllMembers(m[x].name)])
  }

  // ---------------------------------------------------------------------------
  // to_converter
  // ---------------------------------------------------------------------------

  /** `[Measures].[name]` */
  function MeasurePath(name: string): string
  {
    "[Measures].[" + name + "]"
  }

  /** The column set: the measures found in the index, in order; the others are dropped. */
  function Columns(measure: seq<string>, m: Index): seq<string>
  {
    if measure == [] then []
    else
      var x := measure[|measure| - 1];
      Columns(measure[..|measure| - 1], m) + (if x in m then [MeasurePath(m[x].name)] else [])
  }

  function ColumnsClause(col: seq<string>): string
  {
    if col == [] then "" else "SELECT\n" + MemberSet(col) + " ON COLUMNS"
  }

  function RowsClause(row: seq<string>): string
  {
    if row == [] then "" else ",\n" + ("NON EMPTY " + ("{" + Join("*", row) + "}") + " ON ROWS\n")
  }

  /** The statement text for a column set and a row list (no WHERE clause: the slicer list is always empty). */
  function Statement(col: seq<string>, row: seq<string>): string
  {
    ColumnsClause(col) + RowsClause(row) + "\nFROM [cube]\n"
  }

  /** The row list to_converter joins: the condition entries, then the `.Members` of the other axes. */
  function CompileRows(conds: seq<Cond>, rowAndCol: seq<string>, m: Index): Result<seq<string>, Failure>
  {
    match Condition(conds, rowAndCol, m, [], [])
    case Err(e) => Err(e)
    case Ok(a) =>
      match RowMembers(rowAndCol, m, a.usedDim)
      case Err(e) => Err(e)
      case Ok(extra) => Ok(a.row + extra)
  }

  /** `to_converter` */
  function Compile(measure: seq<string>, conds: seq<Cond>, rowAndCol: seq<string>, m: Index): Result<string, Failure>
  {
    match CompileRows(conds, rowAndCol, m)
    case Err(e) => Err(e)
    case Ok(row) => Ok(Statement(Columns(measure, m), row))
  }

  // ---------------------------------------------------------------------------
  // Step lemmas used by the loops of module GenMdx
  // ---------------------------------------------------------------------------

  lemma DateIdsSnoc(dcs: seq<DateCond>, d: DateCond)
    ensures DateIds(dcs + [d]) == DateIds(dcs) + [d.id]
  {
    assert forall i :: 0 <= i < |dcs| ==> DateIds(dcs + [d])[i] == DateIds(dcs)[i];
  }

  lemma DateCondsStep(conds: seq<Cond>, m: Index, i: nat)
    requires i < |conds|
    ensures DateConds(conds[..i + 1], m)
      == DateConds(conds[..i], m) + (if IsTimeBearing(m, conds[i].id) then [ToDateCond(m, conds[i])] else [])
  {
    assert conds[..i + 1][..i] == conds[..i];
  }

  lemma TimeIdsStep(ids: seq<string>, m: Index, i: nat)
    requires i < |ids|
    ensures TimeIds(ids[..i + 1], m) == TimeIds(ids[..i], m) + (if IsTimeBearing(m, ids[i]) then [ids[i]] else [])
  {
    assert ids[..i + 1][..i] == ids[..i];
  }

  lemma CondRowsStep(conds: seq<Cond>, m: Index, start: Axis, i: nat)
    requires i < |conds|
    ensures CondRows(conds[..i + 1], m, start)
      == match CondRows(conds[..i], m, start)
         case Err(e) => Err(e)
         case Ok(a) =>
           if conds[i].id in a.usedDim then Ok(a)
           else match CondMember(m, conds[i])
             case Err(e) => Err(e)
             case Ok(x) => Ok(Axis(a.row + [x], a.usedDim + [conds[i].id]))
  {
    assert conds[..i + 1][..i] == conds[..i];
  }

  /** Once a prefix of the conditions raises, the whole loop raises the same error. */
  lemma {:induction false} CondRowsErrSticky(conds: seq<Cond>, m: Index, start: Axis, k: nat)
    requires k <= |conds|
    requires CondRows(conds[..k], m, start).Err?
    ensures CondRows(conds, m, start) == CondRows(conds[..k], m, start)
    decreases |conds|
  {
    if k == |conds| {
      assert conds[..k] == conds;
    } else {
      var init := conds[..|conds| - 1];
      assert init[..k] == conds[..k];
      CondRowsErrSticky(init, m, start, k);
    }
  }

  /** Once a prefix of the identifiers raises, the whole of build_row raises the same error. */
  lemma {:induction false} RowMembersErrSticky(ids: seq<string>, m: Index, usedDim: seq<string>, k: nat)
    requires k <= |ids|
    requires RowMembers(ids[..k], m, usedDim).Err?
    ensures RowMembers(ids, m, usedDim) == RowMembers(ids[..k], m, usedDim)
    decreases |ids|
  {
    if k == |ids| {
      assert ids[..k] == ids;
    } else {
      var init := ids[..|ids| - 1];
      assert init[..k] == ids[..k];
      RowMembersErrSticky(init, m, usedDim, k);
    }
  }
}
