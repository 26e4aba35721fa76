/** The metadata index built from the small-table description (natural_language_query_data.py). */
module QueryData {
  import opened Metadata

  /** The index after writing the lines in order, each under its own id (later writes win). */
  function Id2Content(lines: seq<Line>): Index
  {
    if lines == [] then map[]
    else Id2Content(lines[..|lines| - 1])[lines[|lines| - 1].id := lines[|lines| - 1]]
  }

  /** `build_id2content`: one dict assignment per line of `dimension + measure`. */
  method BuildId2Content(dimension: seq<Line>, measure: seq<Line>) returns (id2content: Index)
    ensures id2content == Id2Content(dimension + measure)
  {
    var lines := dimension + measure;
    id2content := map[];
    for i := 0 to |lines|
      invariant id2content == Id2Content(lines[..i])
    {
      assert lines[..i + 1][..i] == lines[..i];
      id2content := id2content[lines[i].id := lines[i]];
    }
    assert lines[..|lines|] == lines;
  }

  /** The keys are exactly the ids of the lines. */
  lemma {:induction false} Id2ContentKeys(lines: seq<Line>)
    ensures Id2Content(lines).Keys == set i | 0 <= i < |lines| :: lines[i].id
  {
    if lines != [] {
      var init := lines[..|lines| - 1];
      Id2ContentKeys(init);
      assert forall i :: 0 <= i < |init| ==> init[i] == lines[i];
      assert (set i | 0 <= i < |lines| :: lines[i].id)
        == (set i | 0 <= i < |init| :: init[i].id) + {lines[|lines| - 1].id};
    }
  }

  /** Every key maps to a line carrying that id, namely the last line with that id. */
  lemma {:induction false} Id2ContentLastWins(lines: seq<Line>, i: nat)
    requires i < |lines|
    requires forall j :: i < j < |lines| ==> lines[j].id != lines[i].id
    ensures lines[i].id in Id2Content(lines) && Id2Content(lines)[lines[i].id] == lines[i]
  {
    var n := |lines|;
    if i < n - 1 {
      var init := lines[..n - 1];
      Id2ContentLastWins(init, i);
    }
  }

  /** Every value of the index carries its own key as `id`. */
  lemma {:induction false} Id2ContentIds(lines: seq<Line>)
    ensures forall k :: k in Id2Content(lines) ==> Id2Content(lines)[k].id == k
  {
    if lines != [] {
      Id2ContentIds(lines[..|lines| - 1]);
    }
  }

  /** A measure replaces a dimension line with the same id: the last measure with an id wins. */
  lemma MeasureOverridesDimension(dimension: seq<Line>, measure: seq<Line>, i: nat)
    requires i < |measure|
    requires forall j :: i < j < |measure| ==> measure[j].id != measure[i].id
    ensures measure[i].id in Id2Content(dimension + measure)
    ensures Id2Content(dimension + measure)[measure[i].id] == measure[i]
  {
    var lines := dimension + measure;
    assert lines[|dimension| + i] == measure[i];
    assert forall j :: |dimension| + i < j < |lines| ==> lines[j] == measure[j - |dimension|];
    Id2ContentLastWins(lines, |dimension| + i);
  }
}
