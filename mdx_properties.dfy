/**
 * What the MDX compiler promises, proved about the functions of module MdxSpec (and so,
 * through the methods' postconditions, about the converter of module GenMdx).
 */
module MdxProperties {
  import opened Wrappers
  import opened Text
  import opened Metadata
  import opened MdxSpec

  // ---------------------------------------------------------------------------
  // Which conditions are date conditions
  // ---------------------------------------------------------------------------

  /** There is no date condition exactly when no condition is on a time-bearing id. */
  lemma {:induction false} DateCondsEmpty(conds: seq<Cond>, m: Index)
    ensures DateConds(conds, m) == [] <==> forall i :: 0 <= i < |conds| ==> !IsTimeBearing(m, conds[i].id)
  {
    if conds != [] {
      var init := conds[..|conds| - 1];
      DateCondsEmpty(init, m);
      assert forall i :: 0 <= i < |init| ==> init[i] == conds[i];
    }
  }

  lemma {:induction false} DateCondsAppend(a: seq<Cond>, b: seq<Cond>, m: Index)
    ensures DateConds(a + b, m) == DateConds(a, m) + DateConds(b, m)
    decreases |b|
  {
    if b == [] {
      assert a + b == a;
    } else {
      var init := b[..|b| - 1];
      assert (a + b)[..|a + b| - 1] == a + init;
      DateCondsAppend(a, init, m);
    }
  }

  /** d is what build_date_mdx collects for some condition on a time-bearing id. */
  predicate FromTimeCond(conds: seq<Cond>, m: Index, d: DateCond)
  {
    exists j :: 0 <= j < |conds| && IsTimeBearing(m, conds[j].id) && d == ToDateCond(m, conds[j])
  }

  /** Every date condition comes from a condition on a time-bearing id. */
  lemma {:induction false} DateCondsOrigin(conds: seq<Cond>, m: Index)
    ensures forall k :: 0 <= k < |DateConds(conds, m)| ==> FromTimeCond(conds, m, DateConds(conds, m)[k])
  {
    if conds != [] {
      var init := conds[..|conds| - 1];
      DateCondsOrigin(init, m);
      var dcs := DateConds(conds, m);
      forall k | 0 <= k < |dcs|
        ensures FromTimeCond(conds, m, dcs[k])
      {
        if k < |DateConds(init, m)| {
          assert FromTimeCond(init, m, DateConds(init, m)[k]);
          var j :| 0 <= j < |init| && IsTimeBearing(m, init[j].id) && DateConds(init, m)[k] == ToDateCond(m, init[j]);
          assert init[j] == conds[j];
        } else {
          assert dcs[k] == ToDateCond(m, conds[|conds| - 1]);
        }
      }
    }
  }

  /** A condition on a time-bearing id is collected, at the place its prefix dictates. */
  lemma DateCondsSplit(conds: seq<Cond>, m: Index, i: nat)
    requires i < |conds| && IsTimeBearing(m, conds[i].id)
    ensures DateConds(conds, m)
      == DateConds(conds[..i], m) + [ToDateCond(m, conds[i])] + DateConds(conds[i + 1..], m)
  {
    assert conds == conds[..i] + ([conds[i]] + conds[i + 1..]);
    DateCondsAppend(conds[..i], [conds[i]] + conds[i + 1..], m);
    DateCondsAppend([conds[i]], conds[i + 1..], m);
    assert [conds[i]][..0] == [];
  }

  // ---------------------------------------------------------------------------
  // build_date_mdx
  // ---------------------------------------------------------------------------

  /** Without a condition on a time level, build_date_mdx changes nothing. */
  lemma NoDateConditionIsNoOp(conds: seq<Cond>, rowAndCol: seq<string>, m: Index, usedDim: seq<string>)
    requires forall i :: 0 <= i < |conds| ==> !IsTimeBearing(m, conds[i].id)
    ensures DateMdx(conds, rowAndCol, m, usedDim) == Ok(DateResult("", true, usedDim))
    ensures !DateClearsOrder(conds, rowAndCol, m)
  {
    DateCondsEmpty(conds, m);
    assert DateIds([]) == [];
    assert usedDim + [] + [] == usedDim;
  }

  /** The first list-valued condition on a time level is the first list-valued date condition. */
  lemma FirstMultiAt(conds: seq<Cond>, m: Index, i: nat)
    requires i < |conds| && IsTimeBearing(m, conds[i].id) && conds[i].value.Multi?
    requires forall j :: 0 <= j < i && IsTimeBearing(m, conds[j].id) ==> !conds[j].value.Multi?
    ensures var p := |DateConds(conds[..i], m)|;
            p < |DateConds(conds, m)| && DateConds(conds, m)[p] == ToDateCond(m, conds[i])
            && FirstMulti(DateConds(conds, m)) == Some(p)
  {
    DateCondsSplit(conds, m, i);
    var pre := DateConds(conds[..i], m);
    DateCondsOrigin(conds[..i], m);
    var dcs := DateConds(conds, m);
    forall k | 0 <= k < |pre|
      ensures !dcs[k].value.Multi?
    {
      assert FromTimeCond(conds[..i], m, pre[k]);
      var j :| 0 <= j < i && IsTimeBearing(m, conds[..i][j].id) && pre[k] == ToDateCond(m, conds[..i][j]);
      assert conds[..i][j] == conds[j];
    }
    assert dcs[|pre|] == ToDateCond(m, conds[i]);
    FirstMultiIs(dcs, |pre|);
  }

  /** FirstMulti finds a list-valued date condition that has none before it. */
  lemma FirstMultiIs(dcs: seq<DateCond>, p: nat)
    requires p < |dcs| && dcs[p].value.Multi?
    requires forall k :: 0 <= k < p ==> !dcs[k].value.Multi?
    ensures FirstMulti(dcs) == Some(p)
  {
    match FirstMulti(dcs)
    case None =>
    case Some(q) =>
  }

  /** The first list-valued date condition decides the fragment alone, and clears order_by. */
  lemma MultiSelectShortCircuits(conds: seq<Cond>, rowAndCol: seq<string>, m: Index, i: nat)
    requires i < |conds| && IsTimeBearing(m, conds[i].id) && conds[i].value.Multi?
    requires forall j :: 0 <= j < i && IsTimeBearing(m, conds[j].id) ==> !conds[j].value.Multi?
    ensures var d := ToDateCond(m, conds[i]);
            var s := MemberSet(MemberPaths(d.objectName, d.name, d.value.members));
            var named := IsDateNamedSet(MinTimeDate(rowAndCol, m), DateConds(conds, m));
            DateFragment(conds, rowAndCol, m)
            == Ok(OrderByCaption(if named then Descendants(s, Level(d.objectName, d.name)) else s, d.objectName))
    ensures DateClearsOrder(conds, rowAndCol, m)
  {
    FirstMultiAt(conds, m, i);
  }

  /** Without list-valued conditions on time levels there is no list-valued date condition. */
  lemma NoMultiDate(conds: seq<Cond>, m: Index)
    requires forall j :: 0 <= j < |conds| && IsTimeBearing(m, conds[j].id) ==> !conds[j].value.Multi?
    ensures FirstMulti(DateConds(conds, m)).None?
  {
    var dcs := DateConds(conds, m);
    DateCondsOrigin(conds, m);
    forall k | 0 <= k < |dcs|
      ensures !dcs[k].value.Multi?
    {
      assert FromTimeCond(conds, m, dcs[k]);
      var j :| 0 <= j < |conds| && IsTimeBearing(m, conds[j].id) && dcs[k] == ToDateCond(m, conds[j]);
    }
  }

  lemma {:induction false} RangePredicatesNonEmpty(dcs: seq<DateCond>)
    ensures RangePredicates(dcs) != [] <==> exists k :: 0 <= k < |dcs| && IsRange(dcs[k])
  {
    if dcs != [] {
      var init := dcs[..|dcs| - 1];
      RangePredicatesNonEmpty(init);
      assert forall k :: 0 <= k < |init| ==> init[k] == dcs[k];
    }
  }

  /** dim_level is taken from the last range condition. */
  lemma {:induction false} DimLevelIsLastRange(dcs: seq<DateCond>, k: nat)
    requires k < |dcs| && IsRange(dcs[k])
    requires forall j :: k < j < |dcs| ==> !IsRange(dcs[j])
    ensures DimLevel(dcs) == Level(dcs[k].objectName, dcs[k].name) + ".members"
  {
    if k < |dcs| - 1 {
      var init := dcs[..|dcs| - 1];
      assert forall j :: k < j < |init| ==> init[j] == dcs[j];
      DimLevelIsLastRange(init, k);
    }
  }

  /**
   * Without a list value, one range condition makes the fragment a filter over all range
   * predicates joined by "and" (the discrete members are dropped), and clears order_by.
   */
  lemma RangeGivesFilter(conds: seq<Cond>, rowAndCol: seq<string>, m: Index, i: nat)
    requires forall j :: 0 <= j < |conds| && IsTimeBearing(m, conds[j].id) ==> !conds[j].value.Multi?
    requires i < |conds| && IsTimeBearing(m, conds[i].id) && IsRangeOp(conds[i].op)
    ensures var dcs := DateConds(conds, m);
            var minTime := MinTimeDate(rowAndCol, m);
            var filter := "filter(" + DimLevel(dcs) + ", " + Join("and", RangePredicates(dcs)) + ")";
            DateFragment(conds, rowAndCol, m)
            == if IsDateNamedSet(minTime, dcs) then NamedSetWrap(m, minTime, filter) else Ok(filter)
    ensures DateClearsOrder(conds, rowAndCol, m)
  {
    var dcs := DateConds(conds, m);
    DateCondsSplit(conds, m, i);
    assert dcs[|DateConds(conds[..i], m)|] == ToDateCond(m, conds[i]);
    RangePredicatesNonEmpty(dcs);
    NoMultiDate(conds, m);
  }

  lemma {:induction false} DiscreteMembersAll(dcs: seq<DateCond>)
    requires forall k :: 0 <= k < |dcs| ==> IsDiscrete(dcs[k])
    ensures |DiscreteMembers(dcs)| == |dcs|
    ensures forall k :: 0 <= k < |dcs| ==>
              dcs[k].value.Scalar? && DiscreteMembers(dcs)[k] == MemberPath(dcs[k].objectName, dcs[k].name, dcs[k].value.text)
  {
    if dcs != [] {
      var init := dcs[..|dcs| - 1];
      assert forall k :: 0 <= k < |init| ==> init[k] == dcs[k];
      DiscreteMembersAll(init);
    }
  }

  /**
   * With only equality date conditions, the fragment is the set of their members, in
   * condition order; as a named set it is wrapped at the level of min_time_date, and only
   * then is order_by cleared.
   */
  lemma DiscreteGivesMemberSet(conds: seq<Cond>, rowAndCol: seq<string>, m: Index, i: nat)
    requires i < |conds| && IsTimeBearing(m, conds[i].id)
    requires forall j :: 0 <= j < |conds| && IsTimeBearing(m, conds[j].id) ==>
               conds[j].value.Scalar? && !IsRangeOp(conds[j].op)
    ensures var dcs := DateConds(conds, m);
            |DiscreteMembers(dcs)| == |dcs|
            && forall k :: 0 <= k < |dcs| ==>
                 dcs[k].value.Scalar? && DiscreteMembers(dcs)[k] == MemberPath(dcs[k].objectName, dcs[k].name, dcs[k].value.text)
    ensures var dcs := DateConds(conds, m);
            var minTime := MinTimeDate(rowAndCol, m);
            var members := MemberSet(DiscreteMembers(dcs));
            DateFragment(conds, rowAndCol, m)
            == if IsDateNamedSet(minTime, dcs) then NamedSetWrap(m, minTime, members) else Ok(members)
    ensures var minTime := MinTimeDate(rowAndCol, m);
            DateClearsOrder(conds, rowAndCol, m)
            <==> IsDateNamedSet(minTime, DateConds(conds, m)) && minTime in m && m[minTime].objectName.Some?
  {
    var dcs := DateConds(conds, m);
    DateCondsSplit(conds, m, i);
    AllDiscreteDates(conds, m);
    DiscreteMembersAll(dcs);
    RangePredicatesNonEmpty(dcs);
    NoMultiDate(conds, m);
  }

  lemma AllDiscreteDates(conds: seq<Cond>, m: Index)
    requires forall j :: 0 <= j < |conds| && IsTimeBearing(m, conds[j].id) ==>
               conds[j].value.Scalar? && !IsRangeOp(conds[j].op)
    ensures forall k :: 0 <= k < |DateConds(conds, m)| ==> IsDiscrete(DateConds(conds, m)[k])
  {
    var dcs := DateConds(conds, m);
    DateCondsOrigin(conds, m);
    forall k | 0 <= k < |dcs|
      ensures IsDiscrete(dcs[k])
    {
      assert FromTimeCond(conds, m, dcs[k]);
      var j :| 0 <= j < |conds| && IsTimeBearing(m, conds[j].id) && dcs[k] == ToDateCond(m, conds[j]);
    }
  }

  /** min_time_date is the last time-bearing row/col id: the scanning loop has no break. */
  lemma {:induction false} MinTimeDateIsLast(ids: seq<string>, m: Index, k: nat)
    requires k < |ids| && IsTimeBearing(m, ids[k])
    requires forall j :: k < j < |ids| ==> !IsTimeBearing(m, ids[j])
    ensures MinTimeDate(ids, m) == ids[k]
  {
    var init := ids[..|ids| - 1];
    var x := ids[|ids| - 1];
    if k < |ids| - 1 {
      assert !IsTimeBearing(m, x);
      assert TimeIds(ids, m) == TimeIds(init, m) + [];
      assert init[k] == ids[k];
      assert forall j :: k < j < |init| ==> init[j] == ids[j];
      MinTimeDateIsLast(init, m, k);
    } else {
      assert TimeIds(ids, m) == TimeIds(init, m) + [x];
    }
  }

  /** Without a time-bearing row/col id, min_time_date stays "" and nothing is a named set. */
  lemma {:induction false} MinTimeDateNone(ids: seq<string>, m: Index)
    requires forall j :: 0 <= j < |ids| ==> !IsTimeBearing(m, ids[j])
    ensures MinTimeDate(ids, m) == ""
    ensures forall dcs :: !IsDateNamedSet(MinTimeDate(ids, m), dcs)
  {
    TimeIdsNone(ids, m);
  }

  lemma {:induction false} TimeIdsNone(ids: seq<string>, m: Index)
    requires forall j :: 0 <= j < |ids| ==> !IsTimeBearing(m, ids[j])
    ensures TimeIds(ids, m) == []
  {
    if ids != [] {
      var init := ids[..|ids| - 1];
      assert forall j :: 0 <= j < |init| ==> init[j] == ids[j];
      TimeIdsNone(init, m);
    }
  }

  /** Every time-bearing row/col id is among the time ids. */
  lemma {:induction false} TimeIdsComplete(ids: seq<string>, m: Index)
    ensures forall j :: 0 <= j < |ids| && IsTimeBearing(m, ids[j]) ==> ids[j] in TimeIds(ids, m)
    ensures forall x :: x in TimeIds(ids, m) ==> x in ids && IsTimeBearing(m, x)
  {
    if ids != [] {
      var init := ids[..|ids| - 1];
      TimeIdsComplete(init, m);
      assert forall j :: 0 <= j < |init| ==> init[j] == ids[j];
    }
  }

  // ---------------------------------------------------------------------------
  // build_condition
  // ---------------------------------------------------------------------------

  /** The loop only appends: one row entry per newly used id. */
  lemma {:induction false} CondRowsPrefix(conds: seq<Cond>, m: Index, start: Axis)
    requires CondRows(conds, m, start).Ok?
    ensures var a := CondRows(conds, m, start).value;
            |start.row| <= |a.row| && a.row[..|start.row|] == start.row
            && |start.usedDim| <= |a.usedDim| && a.usedDim[..|start.usedDim|] == start.usedDim
            && |a.row| - |start.row| == |a.usedDim| - |start.usedDim|
  {
    if conds != [] {
      CondRowsPrefix(conds[..|conds| - 1], m, start);
      var a := CondRows(conds[..|conds| - 1], m, start).value;
      assert (a.row + [[]])[..|start.row|] == a.row[..|start.row|];
    }
  }

  /** Afterwards every condition id is used. */
  lemma {:induction false} CondRowsCovers(conds: seq<Cond>, m: Index, start: Axis)
    requires CondRows(conds, m, start).Ok?
    ensures forall x :: x in start.usedDim ==> x in CondRows(conds, m, start).value.usedDim
    ensures forall i :: 0 <= i < |conds| ==> conds[i].id in CondRows(conds, m, start).value.usedDim
  {
    if conds != [] {
      var init := conds[..|conds| - 1];
      CondRowsCovers(init, m, start);
      assert forall i :: 0 <= i < |init| ==> init[i] == conds[i];
    }
  }

  /** Each id is used, and so yields a row entry, at most once. */
  lemma {:induction false} CondRowsFresh(conds: seq<Cond>, m: Index, start: Axis)
    requires CondRows(conds, m, start).Ok?
    ensures var a := CondRows(conds, m, start).value;
            |start.usedDim| <= |a.usedDim|
            && forall k :: |start.usedDim| <= k < |a.usedDim| ==> a.usedDim[k] !in a.usedDim[..k]
  {
    CondRowsPrefix(conds, m, start);
    if conds != [] {
      var init := conds[..|conds| - 1];
      CondRowsFresh(init, m, start);
      var a := CondRows(init, m, start).value;
      var u := a.usedDim + [conds[|conds| - 1].id];
      assert forall k :: 0 <= k < |a.usedDim| ==> u[..k] == a.usedDim[..k];
      assert u[..|a.usedDim|] == a.usedDim;
    }
  }

  /** entry is the row entry of some condition with this id. */
  predicate RendersCond(conds: seq<Cond>, m: Index, id: string, entry: string)
  {
    exists i :: 0 <= i < |conds| && conds[i].id == id && CondMember(m, conds[i]) == Ok(entry)
  }

  /** Going from start to a, each new row entry renders a condition whose id is the matching newly used id. */
  predicate EntriesRender(conds: seq<Cond>, m: Index, start: Axis, a: Axis)
  {
    |a.row| - |start.row| == |a.usedDim| - |start.usedDim| >= 0
    && forall k :: |start.row| <= k < |a.row| ==>
         RendersCond(conds, m, a.usedDim[k - |start.row| + |start.usedDim|], a.row[k])
  }

  /** Each new row entry renders a condition whose id is the matching newly used id. */
  lemma {:induction false} CondRowsEntries(conds: seq<Cond>, m: Index, start: Axis)
    requires CondRows(conds, m, start).Ok?
    ensures EntriesRender(conds, m, start, CondRows(conds, m, start).value)
  {
    CondRowsPrefix(conds, m, start);
    if conds != [] {
      var init := conds[..|conds| - 1];
      CondRowsEntries(init, m, start);
      CondRowsPrefix(init, m, start);
      var a := CondRows(init, m, start).value;
      var b := CondRows(conds, m, start).value;
      forall k | |start.row| <= k < |b.row|
        ensures RendersCond(conds, m, b.usedDim[k - |start.row| + |start.usedDim|], b.row[k])
      {
        if k < |a.row| {
          assert RendersCond(init, m, a.usedDim[k - |start.row| + |start.usedDim|], a.row[k]);
          var i :| 0 <= i < |init| && init[i].id == a.usedDim[k - |start.row| + |start.usedDim|]
                   && CondMember(m, init[i]) == Ok(a.row[k]);
          assert init[i] == conds[i];
        } else {
          assert conds[|conds| - 1].id == b.usedDim[k - |start.row| + |start.usedDim|];
        }
      }
    }
  }

  /** A condition's entry exists exactly when its lookups succeed; it is built at `DimName`'s level. */
  lemma CondMemberOk(m: Index, c: Cond)
    ensures CondMember(m, c).Ok? <==> Resolvable(m, c.id)
    ensures Resolvable(m, c.id) ==>
              CondMember(m, c).value == match c.value
                                         case Multi(members) => MemberSet(MemberPaths(DimName(m[c.id]), m[c.id].name, members))
                                         case Scalar(v) => MemberPath(DimName(m[c.id]), m[c.id].name, v)
  {
  }

  /** Some condition has this id. */
  predicate HasId(conds: seq<Cond>, x: string)
  {
    exists j :: 0 <= j < |conds| && conds[j].id == x
  }

  /** Afterwards used_dim holds exactly what it held before and the condition ids. */
  lemma {:induction false} CondRowsUsedOnly(conds: seq<Cond>, m: Index, start: Axis)
    requires CondRows(conds, m, start).Ok?
    ensures forall x :: x in CondRows(conds, m, start).value.usedDim <==> x in start.usedDim || HasId(conds, x)
  {
    if conds != [] {
      var init := conds[..|conds| - 1];
      var last := conds[|conds| - 1];
      CondRowsUsedOnly(init, m, start);
      forall x
        ensures HasId(conds, x) <==> HasId(init, x) || last.id == x
      {
        if HasId(init, x) {
          var j :| 0 <= j < |init| && init[j].id == x;
          assert conds[j] == init[j];
        }
        if HasId(conds, x) && last.id != x {
          var j :| 0 <= j < |conds| && conds[j].id == x;
          assert init[j] == conds[j];
        }
      }
    }
  }

  /**
   * The condition loop raises exactly when some condition met first (its id neither used
   * before nor carried by an earlier condition) has lookups that fail.
   */
  lemma {:induction false} CondRowsOk(conds: seq<Cond>, m: Index, start: Axis)
    ensures CondRows(conds, m, start).Ok? <==>
              forall i :: 0 <= i < |conds| && conds[i].id !in start.usedDim && !HasId(conds[..i], conds[i].id)
                ==> Resolvable(m, conds[i].id)
  {
    if conds != [] {
      var n := |conds| - 1;
      var init := conds[..n];
      var last := conds[n];
      CondRowsOk(init, m, start);
      CondMemberOk(m, last);
      assert forall i :: 0 <= i < n ==> init[i] == conds[i] && init[..i] == conds[..i];
      if CondRows(init, m, start).Ok? {
        CondRowsUsedOnly(init, m, start);
      }
    }
  }

  /**
   * After build_condition, used_dim keeps what it had and adds every condition id, and, once
   * there is a date condition, every time-bearing row/col id.
   */
  lemma ConditionUsed(conds: seq<Cond>, rowAndCol: seq<string>, m: Index, usedDim: seq<string>, row: seq<string>)
    requires Condition(conds, rowAndCol, m, usedDim, row).Ok?
    ensures var a := Condition(conds, rowAndCol, m, usedDim, row).value;
            |usedDim| <= |a.usedDim| && a.usedDim[..|usedDim|] == usedDim
    ensures forall i :: 0 <= i < |conds| ==> conds[i].id in Condition(conds, rowAndCol, m, usedDim, row).value.usedDim
    ensures DateConds(conds, m) != [] ==>
              forall j :: 0 <= j < |rowAndCol| && IsTimeBearing(m, rowAndCol[j]) ==>
                rowAndCol[j] in Condition(conds, rowAndCol, m, usedDim, row).value.usedDim
  {
    var d := DateMdx(conds, rowAndCol, m, usedDim).value;
    var start := Axis(if d.mdx != "" then row + [d.mdx] else row, d.usedDim);
    CondRowsPrefix(conds, m, start);
    CondRowsCovers(conds, m, start);
    TimeIdsComplete(rowAndCol, m);
    var a := CondRows(conds, m, start).value;
    assert a.usedDim[..|usedDim|] == d.usedDim[..|usedDim|];
  }

  /** The row list after build_condition: what it had, the date fragment if any, then one entry per new id. */
  lemma ConditionRows(conds: seq<Cond>, rowAndCol: seq<string>, m: Index, usedDim: seq<string>, row: seq<string>)
    requires Condition(conds, rowAndCol, m, usedDim, row).Ok?
    ensures var a := Condition(conds, rowAndCol, m, usedDim, row).value;
            var f := DateFragment(conds, rowAndCol, m).value;
            var head := if f != "" then row + [f] else row;
            |head| <= |a.row| && a.row[..|head|] == head
    ensures var f := DateFragment(conds, rowAndCol, m).value;
            var head := if f != "" then row + [f] else row;
            EntriesRender(conds, m, Axis(head, DateUsed(conds, rowAndCol, m, usedDim)),
                          Condition(conds, rowAndCol, m, usedDim, row).value)
  {
    var d := DateMdx(conds, rowAndCol, m, usedDim).value;
    assert d.mdx == DateFragment(conds, rowAndCol, m).value;
    assert d.usedDim == DateUsed(conds, rowAndCol, m, usedDim);
    var start := Axis(if d.mdx != "" then row + [d.mdx] else row, d.usedDim);
    assert Condition(conds, rowAndCol, m, usedDim, row) == CondRows(conds, m, start);
    CondRowsPrefix(conds, m, start);
    CondRowsEntries(conds, m, start);
  }

  // ---------------------------------------------------------------------------
  // build_row
  // ---------------------------------------------------------------------------

  /** Unused keeps exactly the occurrences of ids not in usedDim. */
  lemma {:induction false} UnusedSpec(ids: seq<string>, usedDim: seq<string>)
    ensures forall k :: 0 <= k < |Unused(ids, usedDim)| ==> Unused(ids, usedDim)[k] !in usedDim
    ensures forall x :: x !in usedDim ==> multiset(Unused(ids, usedDim))[x] == multiset(ids)[x]
    ensures forall x :: x in usedDim ==> multiset(Unused(ids, usedDim))[x] == 0
  {
    if ids != [] {
      var init := ids[..|ids| - 1];
      UnusedSpec(init, usedDim);
      assert ids == init + [ids[|ids| - 1]];
    }
  }

  /** build_row raises exactly when an unused row/col id is missing from the index. */
  lemma {:induction false} RowMembersOk(ids: seq<string>, m: Index, usedDim: seq<string>)
    ensures RowMembers(ids, m, usedDim).Ok? <==> forall k :: 0 <= k < |ids| && ids[k] !in usedDim ==> ids[k] in m
  {
    if ids != [] {
      var init := ids[..|ids| - 1];
      RowMembersOk(init, m, usedDim);
      assert forall k :: 0 <= k < |init| ==> init[k] == ids[k];
    }
  }

  /** build_row enumerates `[name].[name].Members` for each unused occurrence, in order, and nothing else. */
  lemma {:induction false} RowMembersSpec(ids: seq<string>, m: Index, usedDim: seq<string>)
    requires RowMembers(ids, m, usedDim).Ok?
    ensures var r := RowMembers(ids, m, usedDim).value;
            var u := Unused(ids, usedDim);
            |r| == |u|
            && forall k :: 0 <= k < |u| ==> u[k] in m && r[k] == AllMembers(m[u[k]].name)
  {
    if ids != [] {
      RowMembersSpec(ids[..|ids| - 1], m, usedDim);
    }
  }

  lemma {:induction false} UnusedNothingUsed(ids: seq<string>)
    ensures Unused(ids, []) == ids
  {
    if ids != [] {
      UnusedNothingUsed(ids[..|ids| - 1]);
    }
  }

  // ---------------------------------------------------------------------------
  // to_converter
  // ---------------------------------------------------------------------------

  /** c is the column of some measure id found in the index. */
  predicate FromKnownMeasure(measure: seq<string>, m: Index, c: string)
  {
    exists i :: 0 <= i < |measure| && measure[i] in m && c == MeasurePath(m[measure[i]].name)
  }

  /** Every column comes from a measure id found in the index. */
  lemma {:induction false} ColumnsFromKnown(measure: seq<string>, m: Index)
    ensures |Columns(measure, m)| <= |measure|
    ensures forall k :: 0 <= k < |Columns(measure, m)| ==> FromKnownMeasure(measure, m, Columns(measure, m)[k])
  {
    if measure != [] {
      var init := measure[..|measure| - 1];
      ColumnsFromKnown(init, m);
      var c := Columns(measure, m);
      forall k | 0 <= k < |c|
        ensures FromKnownMeasure(measure, m, c[k])
      {
        if k < |Columns(init, m)| {
          assert FromKnownMeasure(init, m, Columns(init, m)[k]);
          var i :| 0 <= i < |init| && init[i] in m && Columns(init, m)[k] == MeasurePath(m[init[i]].name);
          assert init[i] == measure[i];
        } else {
          assert c[k] == MeasurePath(m[measure[|measure| - 1]].name);
        }
      }
    }
  }

  /** Every measure id found in the index gives a column; only the missing ones are dropped. */
  lemma {:induction false} ColumnsKeepKnown(measure: seq<string>, m: Index)
    ensures forall i :: 0 <= i < |measure| && measure[i] in m ==> MeasurePath(m[measure[i]].name) in Columns(measure, m)
    ensures (forall i :: 0 <= i < |measure| ==> measure[i] in m) ==> |Columns(measure, m)| == |measure|
  {
    if measure != [] {
      var init := measure[..|measure| - 1];
      ColumnsKeepKnown(init, m);
      assert forall i :: 0 <= i < |init| ==> init[i] == measure[i];
    }
  }

  /**
   * The column set keeps every known measure occurrence, in order: a known measure gives
   * one column, a missing one none, and the columns of a concatenation are concatenated.
   */
  lemma {:induction false} ColumnsAppend(a: seq<string>, b: seq<string>, m: Index)
    ensures Columns(a + b, m) == Columns(a, m) + Columns(b, m)
    ensures |b| == 1 ==> Columns(b, m) == if b[0] in m then [MeasurePath(m[b[0]].name)] else []
    decreases |b|
  {
    if b == [] {
      assert a + b == a;
    } else {
      var init := b[..|b| - 1];
      ColumnsAppend(a, init, m);
      assert (a + b)[..|a + b| - 1] == a + init;
      if |b| == 1 {
        assert init == [];
      }
    }
  }

  /** The statement always ends with the FROM clause and never with anything after it (no WHERE). */
  lemma StatementEndsWithFrom(col: seq<string>, row: seq<string>)
    ensures var s := Statement(col, row);
            |"\nFROM [cube]\n"| <= |s| && s[|s| - |"\nFROM [cube]\n"|..] == "\nFROM [cube]\n"
  {
    var s := Statement(col, row);
    var tail := "\nFROM [cube]\n";
    assert s == (ColumnsClause(col) + RowsClause(row)) + tail;
  }

  /** With measures, the statement opens with the column set. */
  lemma StatementOpensWithColumns(col: seq<string>, row: seq<string>)
    requires col != []
    ensures var head := "SELECT\n{" + Join(",", col) + "} ON COLUMNS";
            |head| <= |Statement(col, row)| && Statement(col, row)[..|head|] == head
  {
    var j := Join(",", col);
    var head := "SELECT\n{" + j + "} ON COLUMNS";
    var rest := RowsClause(row) + "\nFROM [cube]\n";
    ColumnsText(j);
    assert ColumnsClause(col) == head;
    assert Statement(col, row) == head + rest;
    PrefixOfConcat(head, rest);
  }

  lemma ColumnsText(j: string)
    ensures "SELECT\n" + ("{" + j + "}") + " ON COLUMNS" == "SELECT\n{" + j + "} ON COLUMNS"
  {
    assert "SELECT\n{" == "SELECT\n" + "{";
    assert "} ON COLUMNS" == "}" + " ON COLUMNS";
  }

  lemma PrefixOfConcat(a: string, b: string)
    ensures |a| <= |a + b| && (a + b)[..|a|] == a
  {
  }

  lemma RowsLiterals()
    ensures ",\nNON EMPTY {" == ",\n" + ("NON EMPTY " + "{")
    ensures "} ON ROWS\n\nFROM [cube]\n" == "}" + (" ON ROWS\n" + "\nFROM [cube]\n")
  {
  }

  lemma RowsClauseText(row: seq<string>)
    requires row != []
    ensures RowsClause(row) + "\nFROM [cube]\n" == ",\nNON EMPTY {" + Join("*", row) + "} ON ROWS\n\nFROM [cube]\n"
  {
    var j := Join("*", row);
    RowsLiterals();
    var body := "NON EMPTY " + ("{" + j + "}") + " ON ROWS\n";
    assert RowsClause(row) == ",\n" + body;
    assert body == "NON EMPTY " + ("{" + (j + ("}" + " ON ROWS\n")));
  }

  /** With rows, the statement closes with the row set, and ",\n" precedes it even without measures. */
  lemma StatementClosesWithRows(col: seq<string>, row: seq<string>)
    requires row != []
    ensures var r := ",\nNON EMPTY {" + Join("*", row) + "} ON ROWS\n\nFROM [cube]\n";
            |r| <= |Statement(col, row)| && Statement(col, row)[|Statement(col, row)| - |r|..] == r
    ensures col == [] ==> Statement(col, row)[..2] == ",\n"
  {
    RowsClauseText(row);
    var r := ",\nNON EMPTY {" + Join("*", row) + "} ON ROWS\n\nFROM [cube]\n";
    assert Statement(col, row) == ColumnsClause(col) + r;
    if col == [] {
      assert r[..2] == ",\n";
    }
  }

  /** Without rows, the statement is the column clause (possibly empty) and FROM. */
  lemma StatementWithoutRows(col: seq<string>)
    ensures Statement(col, []) == ColumnsClause(col) + "\nFROM [cube]\n"
  {
    assert RowsClause([]) == "";
    assert ColumnsClause(col) + "" == ColumnsClause(col);
  }

  /**
   * A query without conditions lists the known measures as columns and enumerates every
   * row/col id, in order, as `[name].[name].Members`; it raises only for an id missing from
   * the index.
   */
  lemma CompileWithoutConditions(measure: seq<string>, rowAndCol: seq<string>, m: Index)
    ensures Compile(measure, [], rowAndCol, m).Ok? <==> forall k :: 0 <= k < |rowAndCol| ==> rowAndCol[k] in m
    ensures (forall k :: 0 <= k < |rowAndCol| ==> rowAndCol[k] in m) ==>
              Compile(measure, [], rowAndCol, m)
              == Ok(Statement(Columns(measure, m),
                              seq(|rowAndCol|, k requires 0 <= k < |rowAndCol| && rowAndCol[k] in m =>
                                    AllMembers(m[rowAndCol[k]].name))))
  {
    NoDateConditionIsNoOp([], rowAndCol, m, []);
    assert Condition([], rowAndCol, m, [], []) == Ok(Axis([], []));
    RowMembersOk(rowAndCol, m, []);
    var rm := RowMembers(rowAndCol, m, []);
    if rm.Ok? {
      assert CompileRows([], rowAndCol, m) == Ok([] + rm.value);
      assert [] + rm.value == rm.value;
      RowMembersSpec(rowAndCol, m, []);
      UnusedNothingUsed(rowAndCol);
      var r := rm.value;
      assert r == seq(|rowAndCol|, k requires 0 <= k < |rowAndCol| && rowAndCol[k] in m => AllMembers(m[rowAndCol[k]].name));
      assert Compile(measure, [], rowAndCol, m) == Ok(Statement(Columns(measure, m), r));
    } else {
      assert CompileRows([], rowAndCol, m) == Err(rm.error);
    }
  }

  /**
   * One measure and one row dimension without conditions: the statement selects
   * `{[Measures].[Sales]}` on columns and `[Region].[Region].Members` on rows.
   */
  lemma ScenarioMeasureByRegion()
    ensures var m := map["m1" := Line("m1", "Sales", None, None, "", []),
                         "d1" := Line("d1", "Region", Some("Region"), Some(false), "", [])];
            Compile(["m1"], [], ["d1"], m)
            == Ok(Statement([MeasurePath("Sales")], [AllMembers("Region")]))
  {
    var m := map["m1" := Line("m1", "Sales", None, None, "", []),
                 "d1" := Line("d1", "Region", Some("Region"), Some(false), "", [])];
    CompileWithoutConditions(["m1"], ["d1"], m);
    assert Columns(["m1"], m) == Columns([], m) + [MeasurePath("Sales")];
    var rows := seq(1, k requires 0 <= k < 1 && ["d1"][k] in m => AllMembers(m[["d1"][k]].name));
    assert rows == [AllMembers("Region")];
  }
}
