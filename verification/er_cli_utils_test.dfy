/**
  Forced release scenarios on a fleet holding the availability filter's
  test fixture.
 */
module ErCliUtilsTest {
  import opened Wrappers
  import opened Metadata
  import opened AvailabilityFilter
  import opened Reservation
  import opened ErCliUtils
  import opened AvailabilityFilterTest

  /** The fixture after the reservation of resource "2" is cleared. */
  lemma ClearFixture()
    ensures ClearFirst(Fixture, "2").0 ==
              Fixture[1 := ResourcesAttached(Disabled, Reserved.(reserved := None))]
  {
    assert ClearFirstInValue(Fixture[0], "2") == (Fixture[0], false);
    assert ClearFirstInValue(Disabled, "2").0 == Disabled;
    assert ClearFirstInValue(Reserved, "2") == (Reserved.(reserved := None), true);
    assert ClearFirst([Disabled, Reserved], "2").0 == [Disabled, Reserved.(reserved := None)] by {
      assert [Disabled, Reserved][1..] == [Reserved];
    }
    assert ClearFirst([Tree("attached", [Disabled, Reserved])], "2").0
        == [Tree("attached", [Disabled, Reserved.(reserved := None)])];
    assert ClearFirstInValue(Fixture[1], "2") == (ResourcesAttached(Disabled, Reserved.(reserved := None)), true);
  }

  /** Force release of the reserved resource on a fleet holding the fixture
      makes it pass the filter as well. */
  lemma ReleaseFixture()
    ensures var r := UnSetReservation(map["node" := Fixture], "node", "2", true);
            && r.Success?
            && r.value.persisted == Some(r.value.fleet)
            && FilterAvailable(Collect(r.value.fleet["node"])) == [Reserved.(reserved := None), Free]
  {
    CollectFixture();
    assert HasId(Collect(Fixture)[1], "2");
    FilterClearedFixture();
  }

  lemma FilterClearedFixture()
    ensures FilterAvailable(Collect(ClearFirst(Fixture, "2").0)) == [Reserved.(reserved := None), Free]
  {
    ClearFixture();
    var released := Reserved.(reserved := None);
    assert Collect(ProductName("1")) == [];
    assert Collect(ProductName("2")) == [];
    assert Fixture[1 := ResourcesAttached(Disabled, released)] == FixtureWith(Disabled, released);
    CollectFixtureWith(Disabled, released);
    assert FilterAvailable([Free]) == [Free];
    assert FilterAvailable([released, Free]) == [released, Free];
  }

  /** An unknown node name is reported before any resource is looked at. */
  lemma ReleaseMissingNode(id: string)
    ensures UnSetReservation(map["node" := Fixture], "missingNode", id, true) == Failure(NoNode)
  {
  }

  /** An unknown resource on a known node is reported as such. */
  lemma ReleaseMissingResource()
    ensures UnSetReservation(map["node" := Fixture], "node", "4", true) == Failure(NoResource)
  {
    CollectFixture();
  }
}
