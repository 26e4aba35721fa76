/**
 * The pure and text-building parts of table_info.py: the numeric-string test, the
 * row-keep predicate applied to query results, and the text that describes the cube's
 * dimensions and measures.
 */
module TableInfo {
  import opened Wrappers
  import opened Text
  import opened Metadata
  import opened SmartbiUtils

  // ---------------------------------------------------------------------------
  // is_number: re.match(r'^-?\d+(\.\d+)?%?$', s)
  // ---------------------------------------------------------------------------

  predicate IsDigit(c: char)
  {
    '0' <= c <= '9'
  }

  predicate AllDigits(s: string)
  {
    forall i :: 0 <= i < |s| ==> IsDigit(s[i])
  }

  /** The length of the longest run of digits at the start of s. */
  function DigitRun(s: string): (n: nat)
    ensures n <= |s|
  {
    if s == [] || !IsDigit(s[0]) then 0 else DigitRun(s[1..]) + 1
  }

  /** The run is all digits and is followed by a non-digit or the end. */
  lemma {:induction false} DigitRunSpec(s: string)
    ensures AllDigits(s[..DigitRun(s)])
    ensures DigitRun(s) < |s| ==> !IsDigit(s[DigitRun(s)])
  {
    if s != [] && IsDigit(s[0]) {
      DigitRunSpec(s[1..]);
      assert s[..DigitRun(s)] == [s[0]] + s[1..][..DigitRun(s[1..])];
    }
  }

  /** `\d+(\.\d+)?` matches all of v. */
  function IsUnsignedDecimal(v: string): bool
  {
    var k := DigitRun(v);
    k > 0 && (k == |v| || (v[k] == '.' && k + 1 < |v| && DigitRun(v[k + 1..]) == |v| - k - 1))
  }

  /** `-?\d+(\.\d+)?%?` matches all of t. */
  function MatchesBody(t: string): bool
  {
    IsUnsignedDecimal(StripPercent(StripMinus(t)))
  }

  /** `-?` */
  function StripMinus(t: string): string
  {
    if |t| > 0 && t[0] == '-' then t[1..] else t
  }

  /** `%?` before the end */
  function StripPercent(u: string): string
  {
    if |u| > 0 && u[|u| - 1] == '%' then u[..|u| - 1] else u
  }

  /** `re.match` with `^...$`: the body matches all of s, or all of s but one final newline (Python's `$`). */
  predicate FullMatch(s: string)
  {
    MatchesBody(s) || (|s| > 0 && s[|s| - 1] == '\n' && MatchesBody(s[..|s| - 1]))
  }

  /** `is_number`: s is a sign, digits, an optional fraction, an optional `%` and an optional final newline. */
  function IsNumber(s: string): (b: bool)
    ensures b <==> exists n :: WellFormed(n) && Render(n) == s
  {
    FullMatchShapes(s);
    FullMatch(s)
  }

  /** The parts of a numeric string: sign, whole digits, fraction digits, percent sign, final newline. */
  datatype NumberShape = NumberShape(
    negative: bool, whole: string, fraction: Option<string>, percent: bool, newline: bool)

  predicate WellFormed(n: NumberShape)
  {
    |n.whole| > 0 && AllDigits(n.whole)
    && (n.fraction.Some? ==> |n.fraction.value| > 0 && AllDigits(n.fraction.value))
  }

  function DecimalText(n: NumberShape): string
  {
    n.whole + (if n.fraction.Some? then "." + n.fraction.value else "")
  }

  function Render(n: NumberShape): string
  {
    (if n.negative then "-" else "") + DecimalText(n) + (if n.percent then "%" else "")
    + (if n.newline then "\n" else "")
  }

  lemma {:induction false} DigitRunOfDigits(a: string, b: string)
    requires AllDigits(a)
    requires b == [] || !IsDigit(b[0])
    ensures DigitRun(a + b) == |a|
  {
    if a != [] {
      assert (a + b)[1..] == a[1..] + b;
      DigitRunOfDigits(a[1..], b);
    } else {
      assert a + b == b;
    }
  }

  lemma DecimalTextMatches(n: NumberShape)
    requires WellFormed(n)
    ensures IsUnsignedDecimal(DecimalText(n))
    ensures DecimalText(n)[0] != '-' && DecimalText(n)[|DecimalText(n)| - 1] != '%'
  {
    var v := DecimalText(n);
    if n.fraction.Some? {
      var f := n.fraction.value;
      DigitRunOfDigits(n.whole, "." + f);
      assert v[|n.whole| + 1..] == f;
      DigitRunOfDigits(f, "");
      assert f + "" == f;
      assert v[|v| - 1] == f[|f| - 1];
    } else {
      DigitRunOfDigits(n.whole, "");
      assert v == n.whole + "";
    }
    assert v[0] == n.whole[0];
  }

  lemma StripMinusOf(neg: bool, u: string)
    requires |u| > 0 && u[0] != '-'
    ensures StripMinus((if neg then "-" else "") + u) == u
  {
    if neg {
      assert ("-" + u)[1..] == u;
    } else {
      assert "" + u == u;
    }
  }

  lemma StripPercentOf(v: string, pct: bool)
    requires |v| > 0 && v[|v| - 1] != '%'
    ensures StripPercent(v + (if pct then "%" else "")) == v
  {
    if pct {
      assert (v + "%")[..|v|] == v;
    } else {
      assert v + "" == v;
    }
  }

  /** The shape without its final newline. */
  function Body(n: NumberShape): string
  {
    (if n.negative then "-" else "") + (DecimalText(n) + (if n.percent then "%" else ""))
  }

  lemma RenderIsBody(n: NumberShape)
    ensures Render(n) == Body(n) + (if n.newline then "\n" else "")
  {
  }

  lemma BodyMatches(n: NumberShape)
    requires WellFormed(n)
    ensures MatchesBody(Body(n))
  {
    DecimalTextMatches(n);
    var v := DecimalText(n);
    var u := v + (if n.percent then "%" else "");
    StripPercentOf(v, n.percent);
    assert u[0] == v[0];
    StripMinusOf(n.negative, u);
  }

  lemma NewlineAllowed(t: string, nl: bool, s: string)
    requires MatchesBody(t) && s == t + (if nl then "\n" else "")
    ensures FullMatch(s)
  {
    if nl {
      assert s[..|t|] == t;
    } else {
      assert s == t;
    }
  }

  /** Every well-formed shape renders to a string the regular expression matches. */
  lemma IsNumberSound(n: NumberShape)
    requires WellFormed(n)
    ensures FullMatch(Render(n))
  {
    BodyMatches(n);
    RenderIsBody(n);
    NewlineAllowed(Body(n), n.newline, Render(n));
  }

  lemma StripMinusInverse(t: string)
    ensures t == (if |t| > 0 && t[0] == '-' then "-" else "") + StripMinus(t)
  {
    if |t| > 0 && t[0] == '-' {
      assert t == [t[0]] + t[1..];
    } else {
      assert t == "" + t;
    }
  }

  lemma StripPercentInverse(u: string)
    ensures u == StripPercent(u) + (if |u| > 0 && u[|u| - 1] == '%' then "%" else "")
  {
    if |u| > 0 && u[|u| - 1] == '%' {
      assert u == u[..|u| - 1] + [u[|u| - 1]];
    } else {
      assert u == u + "";
    }
  }

  lemma MatchedBodyShape(t: string) returns (n: NumberShape)
    requires MatchesBody(t)
    ensures WellFormed(n) && !n.newline && Render(n) == t
  {
    var neg := |t| > 0 && t[0] == '-';
    var u := StripMinus(t);
    var pct := |u| > 0 && u[|u| - 1] == '%';
    var v := StripPercent(u);
    n := DecimalShape(v, neg, pct);
    StripPercentInverse(u);
    StripMinusInverse(t);
    RenderIsBody(n);
    assert Render(n) == Body(n) + "";
  }

  lemma DecimalShape(v: string, neg: bool, pct: bool) returns (n: NumberShape)
    requires IsUnsignedDecimal(v)
    ensures WellFormed(n) && DecimalText(n) == v
    ensures n.negative == neg && n.percent == pct && !n.newline
  {
    var k := DigitRun(v);
    DigitRunSpec(v);
    if k == |v| {
      n := NumberShape(neg, v, None, pct, false);
      assert v[..k] == v;
      assert DecimalText(n) == v + "";
    } else {
      var f := v[k + 1..];
      DigitRunSpec(f);
      assert f[..DigitRun(f)] == f;
      n := NumberShape(neg, v[..k], Some(f), pct, false);
      assert v == v[..k] + "." + f;
    }
  }

  lemma AddNewline(n: NumberShape)
    requires !n.newline
    ensures Render(n.(newline := true)) == Render(n) + "\n"
  {
    RenderIsBody(n);
    RenderIsBody(n.(newline := true));
    assert Render(n) == Body(n) + "";
  }

  /** Every string the regular expression matches is the rendering of some well-formed shape. */
  lemma IsNumberComplete(s: string)
    requires FullMatch(s)
    ensures exists n :: WellFormed(n) && Render(n) == s
  {
    if MatchesBody(s) {
      var n := MatchedBodyShape(s);
      assert Render(n) == s;
    } else {
      var t := s[..|s| - 1];
      var n := MatchedBodyShape(t);
      AddNewline(n);
      assert s == t + [s[|s| - 1]];
      assert WellFormed(n.(newline := true)) && Render(n.(newline := true)) == s;
    }
  }

  /** The regular expression matches exactly the renderings of well-formed shapes. */
  lemma FullMatchShapes(s: string)
    ensures FullMatch(s) <==> exists n :: WellFormed(n) && Render(n) == s
  {
    if FullMatch(s) {
      IsNumberComplete(s);
    }
    forall n | WellFormed(n) && Render(n) == s
      ensures FullMatch(s)
    {
      IsNumberSound(n);
    }
  }

  // ---------------------------------------------------------------------------
  // drop_nan_str
  // ---------------------------------------------------------------------------

  /** `pd.isna` on the cell values of a result row. */
  predicate IsNa(c: Cell)
  {
    c.Null? || c.NaN?
  }

  /** A string cell that is_number accepts. */
  predicate IsNumericText(c: Cell)
  {
    c.Str? && IsNumber(c.text)
  }

  /** Some cell before index i is a numeric string. */
  predicate NumericBefore(row: seq<Cell>, i: int)
  {
    exists j :: 0 <= j < i && j < |row| && IsNumericText(row[j])
  }

  /** A numeric string at i puts one before every later missing value. */
  lemma NumericKeeps(row: seq<Cell>, i: nat)
    requires i < |row| && IsNumericText(row[i])
    requires forall k :: 0 <= k < i ==> !IsNa(row[k])
    ensures forall k :: 0 <= k < |row| && IsNa(row[k]) ==> NumericBefore(row, k)
  {
    forall k | 0 <= k < |row| && IsNa(row[k])
      ensures NumericBefore(row, k)
    {
      assert i < k;
    }
  }

  /**
   * `drop_nan_str`: scanning left to right, keep the row at the first numeric string and drop
   * it at the first missing value; a row with neither is kept.
   */
  method DropNanStr(row: seq<Cell>) returns (keep: bool)
    ensures keep <==> forall i :: 0 <= i < |row| && IsNa(row[i]) ==> NumericBefore(row, i)
  {
    for i := 0 to |row|
      invariant !NumericBefore(row, i)
      invariant forall k :: 0 <= k < i ==> !IsNa(row[k])
    {
      var value := row[i];
      if value.Str? && IsNumber(value.text) {
        NumericKeeps(row, i);
        return true;
      }
      if IsNa(value) {
        return false;
      }
      NumericBeforeStep(row, i);
    }
    return true;
  }

  lemma NumericBeforeStep(row: seq<Cell>, i: nat)
    requires i < |row|
    ensures NumericBefore(row, i + 1) <==> NumericBefore(row, i) || IsNumericText(row[i])
  {
    if NumericBefore(row, i + 1) && !IsNumericText(row[i]) {
      var j :| 0 <= j < i + 1 && j < |row| && IsNumericText(row[j]);
      assert j < i;
    }
  }

  // ---------------------------------------------------------------------------
  // SmallTable.build_dimension and the text of get_small_table
  // ---------------------------------------------------------------------------

  /** The dimension an entry is grouped under: its objectName when is_level is truthy, else its name. */
  function GroupKey(item: Line): string
  {
    if item.isLevel == Some(true) then item.objectName.GetOr("") else item.name
  }

  /** The level line of an entry, with its member list when the joined members are non-empty. */
  function LevelLine(item: Line): string
  {
    var member := Join(",", item.member);
    "\t\t- " + item.name + " " + (if member != "" then ",该层级成员: " + member + ", ..." else "") + "\n"
  }

  /** The group keys in order of first appearance, each once. */
  function GroupKeys(items: seq<Line>): (keys: seq<string>)
    ensures forall a, b :: 0 <= a < b < |keys| ==> keys[a] != keys[b]
    ensures forall k :: k in keys <==> exists i :: 0 <= i < |items| && GroupKey(items[i]) == k
  {
    if items == [] then []
    else
      var init := items[..|items| - 1];
      var rest := GroupKeys(init);
      var k := GroupKey(items[|items| - 1]);
      assert forall i :: 0 <= i < |init| ==> init[i] == items[i];
      if k in rest then rest else rest + [k]
  }

  /** The level lines of the entries grouped under key, in input order. */
  function GroupLines(items: seq<Line>, key: string): (lines: seq<string>)
    ensures (forall i :: 0 <= i < |items| ==> GroupKey(items[i]) != key) ==> lines == []
  {
    if items == [] then []
    else
      var init := items[..|items| - 1];
      var last := items[|items| - 1];
      assert forall i :: 0 <= i < |init| ==> init[i] == items[i];
      GroupLines(init, key) + (if GroupKey(last) == key then [LevelLine(last)] else [])
  }

  /** Adding one entry to the grouping: a key not seen before goes last. */
  lemma GroupKeysStep(items: seq<Line>, i: nat)
    requires i < |items|
    ensures GroupKeys(items[..i + 1]) ==
      if GroupKey(items[i]) in GroupKeys(items[..i]) then GroupKeys(items[..i])
      else GroupKeys(items[..i]) + [GroupKey(items[i])]
  {
    assert items[..i + 1][..i] == items[..i];
  }

  /** Adding one entry to the grouping: its level line goes last in its own group. */
  lemma GroupLinesStep(items: seq<Line>, i: nat, key: string)
    requires i < |items|
    ensures GroupLines(items[..i + 1], key) ==
      GroupLines(items[..i], key) + (if GroupKey(items[i]) == key then [LevelLine(items[i])] else [])
  {
    assert items[..i + 1][..i] == items[..i];
  }

  /** The text of one dimension: its header line followed by its level lines. */
  function DimensionBlock(key: string, lines: seq<string>): string
  {
    "\t- " + key + ",该维度包含以下层级\n" + Join("", lines)
  }

  function Blocks(items: seq<Line>, keys: seq<string>): seq<string>
  {
    seq(|keys|, i requires 0 <= i < |keys| => DimensionBlock(keys[i], GroupLines(items, keys[i])))
  }

  lemma BlocksSnoc(items: seq<Line>, keys: seq<string>, j: nat)
    requires j < |keys|
    ensures Blocks(items, keys[..j + 1])
      == Blocks(items, keys[..j]) + [DimensionBlock(keys[j], GroupLines(items, keys[j]))]
  {
  }

  /** The dimension description: one block per group, in first-appearance order. */
  function DimensionText(items: seq<Line>): string
  {
    Join("", Blocks(items, GroupKeys(items)))
  }

  /** The dict of groups and its insertion order, as they stand after the entries `items`. */
  ghost predicate Grouped(items: seq<Line>, keys: seq<string>, dim2level: map<string, seq<string>>)
  {
    keys == GroupKeys(items)
    && (forall k :: k in dim2level <==> k in keys)
    && (forall k :: k in dim2level ==> dim2level[k] == GroupLines(items, k))
  }

  /** One `setdefault(key, []).append(line)` keeps the dict grouped. */
  lemma GroupedStep(items: seq<Line>, i: nat, keys: seq<string>, dim2level: map<string, seq<string>>)
    requires i < |items| && Grouped(items[..i], keys, dim2level)
    ensures var key := GroupKey(items[i]);
            var prior := if key in dim2level then dim2level[key] else [];
            Grouped(items[..i + 1], if key in dim2level then keys else keys + [key],
                    dim2level[key := prior + [LevelLine(items[i])]])
  {
    GroupKeysStep(items, i);
    var key := GroupKey(items[i]);
    var d := dim2level[key := (if key in dim2level then dim2level[key] else []) + [LevelLine(items[i])]];
    forall k | k in d
      ensures d[k] == GroupLines(items[..i + 1], k)
    {
      GroupLinesStep(items, i, k);
    }
  }

  /** The first loop of `build_dimension`: `setdefault(...).append` into the insertion-ordered dict. */
  method GroupByDimension(dimension: seq<Line>) returns (keys: seq<string>, dim2level: map<string, seq<string>>)
    ensures keys == GroupKeys(dimension)
    ensures forall k :: k in dim2level <==> k in keys
    ensures forall k :: k in dim2level ==> dim2level[k] == GroupLines(dimension, k)
  {
    dim2level := map[];
    keys := [];  // the dict's insertion order
    for i := 0 to |dimension|
      invariant Grouped(dimension[..i], keys, dim2level)
    {
      var item := dimension[i];
      var objectName := GroupKey(item);
      var template := LevelLine(item);
      GroupedStep(dimension, i, keys, dim2level);
      if objectName !in dim2level {
        keys := keys + [objectName];
        dim2level := dim2level[objectName := []];
      }
      dim2level := dim2level[objectName := dim2level[objectName] + [template]];
    }
    assert dimension[..|dimension|] == dimension;
  }

  /** `build_dimension`: groups the entries, then concatenates one block per dimension. */
  method BuildDimension(dimension: seq<Line>) returns (text: string)
    ensures text == DimensionText(dimension)
  {
    var keys, dim2level := GroupByDimension(dimension);
    text := "";
    for j := 0 to |keys|
      invariant text == Join("", Blocks(dimension, keys[..j]))
    {
      var block := DimensionBlock(keys[j], dim2level[keys[j]]);
      BlocksSnoc(dimension, keys, j);
      ConcatSnoc(Blocks(dimension, keys[..j]), block);
      text := text + block;
    }
    assert keys[..|keys|] == keys;
  }

  /** Groups are listed in order of first appearance: an earlier group's entry precedes any entry of a later one. */
  lemma {:induction false} GroupKeysFirstAppearance(items: seq<Line>, a: nat, b: nat)
    requires a < b < |GroupKeys(items)|
    ensures exists i ::
              0 <= i < |items| && GroupKey(items[i]) == GroupKeys(items)[a] &&
              forall j :: 0 <= j <= i ==> GroupKey(items[j]) != GroupKeys(items)[b]
  {
    var init := items[..|items| - 1];
    var keys := GroupKeys(items);
    var rest := GroupKeys(init);
    assert forall i :: 0 <= i < |init| ==> init[i] == items[i];
    if b < |rest| {
      GroupKeysFirstAppearance(init, a, b);
    } else {
      // keys[b] is the key of the last entry and of no earlier one
      assert keys[b] == GroupKey(items[|items| - 1]) && keys[b] !in rest;
      assert keys[a] in rest;
      var i :| 0 <= i < |init| && GroupKey(init[i]) == keys[a];
      assert forall j :: 0 <= j <= i ==> GroupKey(items[j]) != keys[b];
    }
  }

  /** Every entry's level line appears in its own group. */
  lemma {:induction false} LevelLineInGroup(items: seq<Line>, i: nat)
    requires i < |items|
    ensures LevelLine(items[i]) in GroupLines(items, GroupKey(items[i]))
  {
    var init := items[..|items| - 1];
    if i < |items| - 1 {
      assert init[i] == items[i];
      LevelLineInGroup(init, i);
    }
  }

  /** Within a group entries keep input order: grouping a concatenation concatenates the groups. */
  lemma {:induction false} GroupLinesAppend(a: seq<Line>, b: seq<Line>, key: string)
    ensures GroupLines(a + b, key) == GroupLines(a, key) + GroupLines(b, key)
    decreases |b|
  {
    if b == [] {
      assert a + b == a;
    } else {
      var init := b[..|b| - 1];
      assert (a + b)[..|a + b| - 1] == a + init;
      GroupLinesAppend(a, init, key);
    }
  }

  /** An empty dimension list yields the empty text. */
  lemma DimensionTextEmpty()
    ensures DimensionText([]) == ""
  {
  }

  /** One `"\t-" + name` line per measure. */
  function MeasureLines(measure: seq<Line>): seq<string>
  {
    seq(|measure|, i requires 0 <= i < |measure| => "\t-" + measure[i].name)
  }

  /**
   * The summary text of get_small_table: the dimension text under its heading, then the
   * measures heading; without measures nothing follows it, otherwise the last measure's
   * line closes the text.
   */
  function SmallTableText(dimension: seq<Line>, measure: seq<Line>): (s: string)
    ensures var head := "cube维度如下：\n" + DimensionText(dimension) + "\n指标如下：\n";
            |head| <= |s| && s[..|head|] == head && (measure == [] ==> s == head)
    ensures measure != [] ==>
              var last := "\t-" + measure[|measure| - 1].name;
              |last| <= |s| && s[|s| - |last|..] == last
  {
    var head := "cube维度如下：\n" + DimensionText(dimension) + "\n指标如下：\n";
    var lines := MeasureLines(measure);
    if measure == [] then
      assert head + Join("\n", lines) == head;
      head + Join("\n", lines)
    else
      JoinLast("\n", lines);
      head + Join("\n", lines)
  }
}
