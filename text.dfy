/** Python's `sep.join(parts)` over strings. */
module Text {

  function Join(sep: string, parts: seq<string>): string
    decreases |parts|
  {
    if |parts| == 0 then ""
    else if |parts| == 1 then parts[0]
    else Join(sep, parts[..|parts| - 1]) + sep + parts[|parts| - 1]
  }

  /** Appending one more part to a non-empty join adds the separator and the part. */
  lemma JoinSnoc(sep: string, parts: seq<string>, x: string)
    requires parts != []
    ensures Join(sep, parts + [x]) == Join(sep, parts) + sep + x
  {
    assert (parts + [x])[..|parts|] == parts;
  }

  /** With the empty separator, `+=` of one part is a join of one more part. */
  lemma ConcatSnoc(parts: seq<string>, x: string)
    ensures Join("", parts + [x]) == Join("", parts) + x
  {
    if parts == [] {
      assert parts + [x] == [x];
    } else {
      JoinSnoc("", parts, x);
    }
  }

  /** A non-empty join ends with its last part. */
  lemma JoinLast(sep: string, parts: seq<string>)
    requires parts != []
    ensures |parts[|parts| - 1]| <= |Join(sep, parts)|
    ensures Join(sep, parts)[|Join(sep, parts)| - |parts[|parts| - 1]|..] == parts[|parts| - 1]
  {
    var j := Join(sep, parts);
    var x := parts[|parts| - 1];
    if |parts| > 1 {
      assert j == (Join(sep, parts[..|parts| - 1]) + sep) + x;
    }
  }
}
