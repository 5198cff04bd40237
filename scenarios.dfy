/**
  Worked instances of the counting behaviour: a chunk with repeated, null and missing
  identifiers and an extra column, counted once and then twice.
 */
module Scenarios {
  import opened Wrappers
  import opened Rows
  import opened Counting
  import opened Mapping

  /** Rows A, B, A, a null Passenger_ID, and a row without that column at all. */
  const Sample: Chunk<string> := [
    map["Passenger_ID" := Value("A")],
    map["Passenger_ID" := Value("B"), "Flight_ID" := Value("F7")],
    map["Passenger_ID" := Value("A")],
    map["Passenger_ID" := Null],
    map["Flight_ID" := Value("F9")]
  ]

  /** The null row and the row without the column are not counted and never become keys. */
  lemma SampleCounts()
    ensures Tally(map[], Sample) == map["A" := 2, "B" := 1]
    ensures NonNullRows(Sample) == 3
  {
    var c := Sample;
    assert c[..4][..3][..2][..1][..0] == [];
    assert Ids(c[..1]) == ["A"];
    assert Ids(c[..2]) == ["A", "B"] by { assert c[..2][..1] == c[..1]; }
    assert Ids(c[..3]) == ["A", "B", "A"] by { assert c[..3][..2] == c[..2]; }
    assert Ids(c[..4]) == ["A", "B", "A"] by { assert c[..4][..3] == c[..3]; }
    assert Ids(c) == ["A", "B", "A"] by { assert c[..4] == c[..|c| - 1]; }
    FromEmpty(c);
    var t := Tally(map[], c);
    assert IdsOf(c) == {"A", "B"};
    assert t.Keys == {"A", "B"};
    assert Lookup(t, "A") == 2 && Lookup(t, "B") == 1;
    SameCounts(t, map["A" := 2, "B" := 1]);
  }

  /** Counting the sample a second time doubles every count. */
  lemma SampleCountsTwice()
    ensures Tally(Tally(map[], Sample), Sample) == map["A" := 4, "B" := 2]
  {
    SampleCounts();
    var once := Tally(map[], Sample);
    TallyKeys(once, Sample);
    FromEmpty(Sample);
    assert IdsOf(Sample) == {"A", "B"};
    TallyTwice(map[], Sample, "A");
    TallyTwice(map[], Sample, "B");
    SameCounts(Tally(once, Sample), map["A" := 4, "B" := 2]);
  }

  /** A client of the class: a fresh Mapper given the sample twice reports doubled counts. */
  method CountSampleTwice() returns (counts: Counts<string>)
    ensures counts == map["A" := 4, "B" := 2]
  {
    var mapper := new Mapper<string>();
    mapper.Map(Sample);
    mapper.Map(Sample);
    counts := mapper.GetLocalCount();
    SampleCountsTwice();
  }
}
