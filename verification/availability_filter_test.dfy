/**
  The fixture of the availability filter's unit test, rebuilt as a value,
  with the test's assertions proved about it.
 */
module AvailabilityFilterTest {
  import opened Wrappers
  import opened Metadata
  import opened AvailabilityFilter

  /** The `product/name` string child every fixture resource carries. */
  function ProductName(value: string): seq<Value> {
    [Tree("product", [Str("name", value)])]
  }

  /** A disabled, unreserved resource. */
  const Disabled: Value := NewResourceWith("1", "description", "1", false, ProductName("1"))

  /** The reservation put on the second resource. */
  const SomeStash: Stash := Stash(Internal, "somebuild", Lease(0, "sometime"), "key")

  /** An enabled resource holding a reservation. */
  const Reserved: Value := 
    var r := NewResource("2", "2"); r.(reserved := Some(SomeStash), children := ProductName("2"))

  /** An enabled, unreserved resource. */
  const Free: Value := 
    var r := NewResource("3", "3"); r.(children := ProductName("3"))

  /** The `resources/attached` subtree holding the first two resources. */
  function ResourcesAttached(first: Value, second: Value): Value {
    Tree("resources", [Tree("attached", [first, second])])
  }

  /** The values beneath the node's metadata property: a string, the first two
      resources under `resources/attached`, another string, and the third
      resource directly beneath the property. */
  const Fixture: seq<Value> := [
    Str("aa", "someValue"),
    ResourcesAttached(Disabled, Reserved),
    Str("inTheWay", "value"),
    Free
  ]

  /** The fixture's shape with any two leaf resources in the
      `resources/attached` slot. */
  function FixtureWith(first: Value, second: Value): seq<Value> {
    [Str("aa", "someValue"), ResourcesAttached(first, second), Str("inTheWay", "value"), Free]
  }

  lemma {:induction false} CollectFixtureWith(first: Value, second: Value)
    requires first.Resource? && Collect(first.children) == []
    requires second.Resource? && Collect(second.children) == []
    ensures Collect(FixtureWith(first, second)) == [first, second, Free]
  {
    var vs := FixtureWith(first, second);
    assert CollectValue(first) == [first];
    assert CollectValue(second) == [second];
    assert Collect(ProductName("3")) == [];
    assert CollectValue(Free) == [Free];
    assert Collect([second]) == [second];
    assert [first, second][1..] == [second];
    assert Collect([first, second]) == [first, second];
    assert Collect([Tree("attached", [first, second])]) == [first, second];
    assert CollectValue(ResourcesAttached(first, second)) == [first, second];
    assert Collect(vs[3..]) == [Free];
    assert Collect(vs[2..]) == [Free];
    assert Collect(vs[1..]) == [first, second, Free];
  }

  lemma CollectFixture()
    ensures Collect(Fixture) == [Disabled, Reserved, Free]
  {
    assert Collect(ProductName("1")) == [];
    assert Collect(ProductName("2")) == [];
    assert Fixture == FixtureWith(Disabled, Reserved);
    CollectFixtureWith(Disabled, Reserved);
  }

  /** The collected list has three elements, one per identifier "1", "2" and
      "3", and no other identifier. */
  lemma CollectFixtureIds()
    ensures |Collect(Fixture)| == 3
    ensures CountId(Collect(Fixture), "1") == 1
    ensures CountId(Collect(Fixture), "2") == 1
    ensures CountId(Collect(Fixture), "3") == 1
    ensures forall i :: 0 <= i < |Collect(Fixture)| ==> Collect(Fixture)[i].id in {"1", "2", "3"}
  {
    CollectFixture();
    var rs := [Disabled, Reserved, Free];
    assert rs[1..] == [Reserved, Free] && rs[1..][1..] == [Free] && rs[1..][1..][1..] == [];
    assert Free.id == "3" && Reserved.id == "2" && Disabled.id == "1";
    assert "3" != "1" && "3" != "2" && "2" != "1";
    assert [Free][1..] == [];
    assert CountId([Free], "1") == 0;
    assert CountId([Free], "2") == 0;
    assert CountId([Free], "3") == 1;
    assert CountId([Reserved, Free], "1") == 0 && CountId([Reserved, Free], "2") == 1;
    assert CountId([Reserved, Free], "3") == 1;
  }

  /** The string values of the fixture are not returned, while resources are
      found both under plain tree nodes and directly beneath the property. */
  lemma CollectFixtureOnlyResources()
    ensures forall x :: x in Collect(Fixture) ==> x.Resource?
    ensures Fixture[0] !in Collect(Fixture) && Fixture[2] !in Collect(Fixture)
    ensures Disabled in Collect(Fixture) && Reserved in Collect(Fixture)
    ensures Fixture[3] == Free && Free in Collect(Fixture)
  {
    CollectFixture();
  }

  /** Only the enabled, unreserved resource passes the filter. */
  lemma FilterFixture()
    ensures FilterAvailable(Collect(Fixture)) == [Free]
    ensures |FilterAvailable(Collect(Fixture))| == 1 && FilterAvailable(Collect(Fixture))[0].id == "3"
    ensures !Available(Disabled) && !Available(Reserved)
  {
    CollectFixture();
    assert FilterAvailable([Free]) == [Free];
    assert FilterAvailable([Reserved, Free]) == [Free];
  }
}
