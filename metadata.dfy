/** The metadata line of one cube dimension or measure, as the BI service describes it. */
module Metadata {
  import opened Wrappers

  /**
   * One dict of the `dimension` or `measure` list. The `id` and `name` keys are always
   * present; `objectName` and `is_level` may be missing (None here), which matters because
   * some code reads them with `.get(key, default)` and some with `[key]`. An absent or
   * empty `timeLevel` is the empty string; `member` defaults to the empty list.
   */
  datatype Line = Line(
    id: string,
    name: string,
    objectName: Option<string>,
    isLevel: Option<bool>,
    timeLevel: string,
    member: seq<string>)

  /** The identifier-to-metadata index the compiler reads. */
  type Index = map<string, Line>
}
