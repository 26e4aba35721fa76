/**
 * The converter object of gen_mdx.py. Its methods walk the query step by step as the
 * source does; each is proved to compute the matching function of module MdxSpec and to
 * leave `order_by` exactly as that function's companion predicate says.
 */
module GenMdx {
  import opened Wrappers
  import opened Text
  import opened Metadata
  import opened MdxSpec

  /**
   * The structured query. Keys the converter only reads are constants (an absent
   * "row", "col", "measure" or "conds" key reads as the empty list); `order_by` is the
   * one key the converter writes, and None stands for an absent key.
   */
  class SqlJson {
    const row: seq<string>
    const col: seq<string>
    const measure: seq<string>
    const conds: seq<Cond>
    var orderBy: Option<seq<seq<string>>>

    constructor (row: seq<string>, col: seq<string>, measure: seq<string>, conds: seq<Cond>,
                 orderBy: Option<seq<seq<string>>>)
      ensures this.row == row && this.col == col && this.measure == measure && this.conds == conds
      ensures this.orderBy == orderBy
    {
      this.row := row;
      this.col := col;
      this.measure := measure;
      this.conds := conds;
      this.orderBy := orderBy;
    }
  }

  /** `SqlJsonToMDXConverter`: it keeps a reference to the caller's query, which it mutates. */
  class Converter {
    const id2content: Index
    const sqlJson: SqlJson
    const rowAndCol: seq<string>

    constructor (id2content: Index, sqlJson: SqlJson)
      ensures this.id2content == id2content && this.sqlJson == sqlJson
      ensures rowAndCol == sqlJson.row + sqlJson.col
    {
      this.sqlJson := sqlJson;
      this.id2content := id2content;
      this.rowAndCol := sqlJson.row + sqlJson.col;
    }

    /** `has_date_in_row_and_col`, whose falsy `None` result is False here. */
    method HasDateInRowAndCol() returns (b: bool)
      ensures b == MdxSpec.HasDateInRowAndCol(rowAndCol, id2content)
    {
      for i := 0 to |rowAndCol|
        invariant forall j :: 0 <= j < i ==> !IsTimeBearing(id2content, rowAndCol[j])
      {
        if TimeLevelOf(id2content, rowAndCol[i]) != "" {
          return true;
        }
      }
      return false;
    }

    /** The first loop of `build_date_mdx`: the date conditions, `is_where` and the ids they use. */
    method CollectDateConditions(usedDim: seq<string>)
      returns (dateCondition: seq<DateCond>, isWhere: bool, used: seq<string>)
      ensures dateCondition == DateConds(sqlJson.conds, id2content)
      ensures isWhere == DateIsWhere(dateCondition, rowAndCol, id2content)
      ensures used == usedDim + DateIds(dateCondition)
    {
      var m := id2content;
      var conds := sqlJson.conds;
      var hasDate := HasDateInRowAndCol();
      dateCondition, isWhere, used := [], true, usedDim;
      for i := 0 to |conds|
        invariant dateCondition == DateConds(conds[..i], m)
        invariant used == usedDim + DateIds(dateCondition)
        invariant isWhere == DateIsWhere(dateCondition, rowAndCol, m)
      {
        var c := conds[i];
        DateCondsStep(conds, m, i);
        if TimeLevelOf(m, c.id) != "" {
          isWhere := if c.id in rowAndCol || hasDate then false else true;
          DateIdsSnoc(dateCondition, ToDateCond(m, c));
          dateCondition := dateCondition + [ToDateCond(m, c)];
          used := used + [c.id];
        }
      }
      assert conds[..|conds|] == conds;
    }

    /** `build_date_mdx`: the date fragment, `is_where` and the extended `used_dim`. */
    method BuildDateMdx(usedDim: seq<string>) returns (r: Result<DateResult, Failure>)
      modifies sqlJson`orderBy
      ensures r == DateMdx(sqlJson.conds, rowAndCol, id2content, usedDim)
      ensures sqlJson.orderBy
        == if DateClearsOrder(sqlJson.conds, rowAndCol, id2content) then Some([]) else old(sqlJson.orderBy)
    {
      var m := id2content;
      var conds := sqlJson.conds;
      var dateCondition, isWhere, used := CollectDateConditions(usedDim);
      if dateCondition == [] {
        assert DateUsed(conds, rowAndCol, m, usedDim) == used;
        return Ok(DateResult("", isWhere, used));
      }

      var minTimeDate := "";
      for i := 0 to |rowAndCol|
        invariant minTimeDate == MinTimeDate(rowAndCol[..i], m)
        invariant used == usedDim + DateIds(dateCondition) + TimeIds(rowAndCol[..i], m)
        invariant sqlJson.orderBy == old(sqlJson.orderBy)
      {
        TimeIdsStep(rowAndCol, m, i);
        if TimeLevelOf(m, rowAndCol[i]) != "" {
          minTimeDate := rowAndCol[i];
          used := used + [rowAndCol[i]];
        }
      }
      assert rowAndCol[..|rowAndCol|] == rowAndCol;

      var mdx := RenderDateConditions(dateCondition, minTimeDate);
      assert DateFragment(conds, rowAndCol, m) == mdx;
      assert DateUsed(conds, rowAndCol, m, usedDim) == used;
      if mdx.Err? {
        return Err(mdx.error);
      }
      return Ok(DateResult(mdx.value, isWhere, used));
    }

    /** The last part of `build_date_mdx`: rendering the collected date conditions. */
    method RenderDateConditions(dateCondition: seq<DateCond>, minTimeDate: string) returns (r: Result<string, Failure>)
      modifies sqlJson`orderBy
      ensures r == RenderDates(dateCondition, minTimeDate, id2content)
      ensures sqlJson.orderBy
        == if RenderClearsOrder(dateCondition, minTimeDate, id2content) then Some([]) else old(sqlJson.orderBy)
    {
      var m := id2content;
      var dateMdx: seq<string> := [];
      var isNamedSet := IsDateNamedSet(minTimeDate, dateCondition);
      var dateRange: seq<string> := [];
      var dimLevel := "";
      for i := 0 to |dateCondition|
        invariant dateRange == RangePredicates(dateCondition[..i])
        invariant dimLevel == DimLevel(dateCondition[..i])
        invariant dateMdx == DiscreteMembers(dateCondition[..i])
        invariant forall j :: 0 <= j < i ==> !dateCondition[j].value.Multi?
        invariant sqlJson.orderBy == old(sqlJson.orderBy)
      {
        var item := dateCondition[i];
        if item.value.Multi? {
          var mdx := MemberSet(MemberPaths(item.objectName, item.name, item.value.members));
          if isNamedSet {
            mdx := Descendants(mdx, Level(item.objectName, item.name));
          }
          mdx := OrderByCaption(mdx, item.objectName);
          sqlJson.orderBy := Some([]);
          return Ok(mdx);
        } else if IsRangeOp(item.op) {
          dimLevel := Level(item.objectName, item.name) + ".members";
          dateRange := dateRange + [RangePredicate(item)];
        } else {
          dateMdx := dateMdx + [MemberPath(item.objectName, item.name, item.value.text)];
        }
        assert dateCondition[..i + 1][..i] == dateCondition[..i];
      }
      assert dateCondition[..|dateCondition|] == dateCondition;

      var mdx: string;
      if dateRange != [] {
        mdx := "filter(" + dimLevel + ", " + Join("and", dateRange) + ")";
        sqlJson.orderBy := Some([]);
      } else {
        mdx := MemberSet(dateMdx);
      }
      if isNamedSet {
        if minTimeDate !in m || m[minTimeDate].objectName.None? {
          return Err(KeyError("objectName"));
        }
        var item := m[minTimeDate];
        mdx := Descendants(mdx, Level(item.objectName.value, item.name));
        sqlJson.orderBy := Some([]);
      }
      return Ok(mdx);
    }

    /** The row entry of one condition not yet used (the body of build_condition's loop). */
    method ConditionMember(c: Cond) returns (r: Result<string, Failure>)
      ensures r == CondMember(id2content, c)
      ensures r.Ok? <==> Resolvable(id2content, c.id)
      ensures r.Ok? ==>
                var line := id2content[c.id];
                r.value == match c.value
                           case Multi(members) => MemberSet(MemberPaths(DimName(line), line.name, members))
                           case Scalar(v) => MemberPath(DimName(line), line.name, v)
    {
      if c.id !in id2content {
        return Err(NoneSubscripted("is_level"));
      }
      var content := id2content[c.id];
      if content.isLevel.None? {
        return Err(KeyError("is_level"));
      }
      var dimName, levelName;
      if content.isLevel.value {
        if content.objectName.None? {
          return Err(KeyError("objectName"));
        }
        dimName, levelName := content.objectName.value, content.name;
      } else {
        dimName, levelName := content.name, content.name;
      }
      match c.value {
        case Multi(members) =>
          r := Ok(MemberSet(MemberPaths(dimName, levelName, members)));
        case Scalar(v) =>
          r := Ok(MemberPath(dimName, levelName, v));
      }
    }

    /** `build_condition`: the row list extended by the date fragment and the other conditions. */
    method BuildCondition(usedDim: seq<string>, row: seq<string>) returns (r: Result<Axis, Failure>)
      modifies sqlJson`orderBy
      ensures r == Condition(sqlJson.conds, rowAndCol, id2content, usedDim, row)
      ensures sqlJson.orderBy
        == if DateClearsOrder(sqlJson.conds, rowAndCol, id2content) then Some([]) else old(sqlJson.orderBy)
    {
      var d := BuildDateMdx(usedDim);
      if d.Err? {
        return Err(d.error);
      }
      var rowOut := row;
      if d.value.mdx != "" {
        rowOut := rowOut + [d.value.mdx];
      }
      var used := d.value.usedDim;
      ghost var start := Axis(rowOut, used);
      ghost var orderBy := sqlJson.orderBy;
      var conds := sqlJson.conds;
      for i := 0 to |conds|
        invariant CondRows(conds[..i], id2content, start) == Ok(Axis(rowOut, used))
        invariant sqlJson.orderBy == orderBy
      {
        CondRowsStep(conds, id2content, start, i);
        var c := conds[i];
        if c.id !in used {
          var memberMdx := ConditionMember(c);
          if memberMdx.Err? {
            CondRowsErrSticky(conds, id2content, start, i + 1);
            return Err(memberMdx.error);
          }
          rowOut := rowOut + [memberMdx.value];
          used := used + [c.id];
        }
      }
      assert conds[..|conds|] == conds;
      return Ok(Axis(rowOut, used));
    }

    /** `build_row`: the `.Members` of every row/col identifier not already used. */
    method BuildRow(row: seq<string>, usedDim: seq<string>) returns (r: Result<seq<string>, Failure>)
      ensures RowMembers(rowAndCol, id2content, usedDim).Err? ==> r == Err(RowMembers(rowAndCol, id2content, usedDim).error)
      ensures RowMembers(rowAndCol, id2content, usedDim).Ok? ==> r == Ok(row + RowMembers(rowAndCol, id2content, usedDim).value)
    {
      var rowOut := row;
      for i := 0 to |rowAndCol|
        invariant RowMembers(rowAndCol[..i], id2content, usedDim).Ok?
        invariant rowOut == row + RowMembers(rowAndCol[..i], id2content, usedDim).value
      {
        assert rowAndCol[..i + 1][..i] == rowAndCol[..i];
        var x := rowAndCol[i];
        if x !in usedDim {
          if x !in id2content {
            RowMembersErrSticky(rowAndCol, id2content, usedDim, i + 1);
            return Err(NoneSubscripted("name"));
          }
          var content := id2content[x];
          var dimName, levelName := content.name, content.name;
          rowOut := rowOut + [Level(dimName, levelName) + ".Members"];
        }
      }
      assert rowAndCol[..|rowAndCol|] == rowAndCol;
      return Ok(rowOut);
    }

    /** `to_converter`: the whole statement. */
    method ToConverter() returns (r: Result<string, Failure>)
      modifies sqlJson`orderBy
      ensures r == Compile(sqlJson.measure, sqlJson.conds, rowAndCol, id2content)
      ensures sqlJson.orderBy
        == if DateClearsOrder(sqlJson.conds, rowAndCol, id2content) then Some([]) else old(sqlJson.orderBy)
    {
      var col := Columns(sqlJson.measure, id2content);
      var cond := BuildCondition([], []);
      if cond.Err? {
        return Err(cond.error);
      }
      var row := BuildRow(cond.value.row, cond.value.usedDim);
      if row.Err? {
        return Err(row.error);
      }
      var mdx := Assemble(col, row.value);
      return Ok(mdx);
    }
  }

  /** The `+=` assembly at the end of `to_converter`: column clause, row clause, FROM. */
  method Assemble(col: seq<string>, row: seq<string>) returns (mdx: string)
    ensures mdx == Statement(col, row)
  {
    mdx := "";
    if col != [] {
      var colSet := "{" + Join(",", col) + "}";
      mdx := mdx + "SELECT\n" + colSet + " ON COLUMNS";
      assert "" + "SELECT\n" == "SELECT\n";
    }
    assert mdx == ColumnsClause(col);
    ghost var columns := mdx;
    if row != [] {
      mdx := mdx + ",\n";
      var rowSet := "{" + Join("*", row) + "}";
      mdx := mdx + "NON EMPTY " + rowSet + " ON ROWS\n";
      ConcatAssoc(columns, ",\n", "NON EMPTY " + rowSet + " ON ROWS\n");
      ConcatAssoc(columns + ",\n", "NON EMPTY " + rowSet, " ON ROWS\n");
      ConcatAssoc(columns + ",\n", "NON EMPTY ", rowSet);
    }
    assert mdx == columns + RowsClause(row);
    mdx := mdx + "\nFROM [cube]\n";
  }

  lemma ConcatAssoc(a: string, b: string, c: string)
    ensures a + b + c == a + (b + c)
  {
  }

  /** Converting twice gives the same statement: `to_converter` reads nothing it writes. */
  method ConvertTwice(c: Converter) returns (first: Result<string, Failure>, second: Result<string, Failure>)
    modifies c.sqlJson`orderBy
    ensures first == second
    ensures first == Compile(c.sqlJson.measure, c.sqlJson.conds, c.rowAndCol, c.id2content)
  {
    first := c.ToConverter();
    second := c.ToConverter();
  }
}
