# External resource dispatcher: discovery, availability and forced release

This project models part of a Jenkins plugin that tracks *external resources*, such as test devices or hardware rigs, attached to build nodes. The Dafny model covers:

- how the resources on a node are found in the node's metadata tree;
- which of those resources are available, meaning enabled and not reserved;
- the administrative command helper that finds one resource by node name and resource id, and force-clears its reservation.

All data is immutable:

- A node's metadata is a `seq<Value>`: the values directly beneath its metadata property.
- A `Value` is one of three things:
  - a plain string value (`Str`);
  - a named tree node (`Tree`);
  - an external resource (`Resource`), which has an id, a description, a device id, an enabled flag, an optional reservation (`Stash`) and children of its own.
- The fleet (the host's node registry) is a `map<string, seq<Value>>` from node name to metadata.

Modules, one per component:

- `Wrappers`: `Option` and `Result`.
- `Metadata`: the value tree, the reservation record and lease, the availability predicate, and the resource constructors.
- `AvailabilityFilter`:
  - `Collect` gathers the resources of a tree in pre-order, where a resource comes before anything nested in its children.
  - `FilterAvailable` keeps the available resources.
  - `FindById` returns the first resource with a given id in collection order.
- `Reservation`: `ClearFirst` clears the reservation of exactly the resource `FindById` finds. The lemmas here state what changes and what does not.
- `ErCliUtils`: `FindExternalResource` and `UnSetReservation` (the forced release).
- `AvailabilityFilterTest`: the unit test's fixture rebuilt as a value, with the test's assertions proved about it.
- `ErCliUtilsTest`: forced release scenarios on a fleet holding that fixture.

The implementation of the availability filter is not part of this model. Its contract comes from its unit test. Three behaviours are modelling choices that the unit test does not constrain: pre-order collection, descending into resources' own children, and first match among duplicate ids. The test only pins down what it observes about the fixture.

The layout of the rebuilt fixture is an assumption about the metadata plugin's `TreeStructureUtil.addValue`, which is not part of this model:

- The string overload is assumed to make a tree node for every path element but the last, and to name the string value after the last element. So `someValue` becomes `Str("aa", "someValue")` directly beneath the property, and each resource gets a `product` node holding a string named `name`.
- The value overload is assumed to place the value under one tree node per path element, reusing nodes that already exist. So the first two resources share one `resources/attached` path, and the third resource sits directly beneath the property.

The two-argument resource constructor is modelled as an enabled, unreserved resource with an empty description and no children. The test relies on this, because resource "3" passes the filter.

A reservation cannot be cleared in place in an immutable tree. So the frame of a forced release is stated in two parts:

- Erasing every reservation gives the same tree before and after (`Erase`).
- Among the collected resources, the target position changes only its reservation. Every other position keeps every field except possibly its children. A resource that contains the target does see its children change.

## Model

| member | source | states |
|---|---|---|
| Metadata.NewResource | src/test/java/com/sonyericsson/jenkins/plugins/externalresource/dispatcher/utils/AvailabilityFilterTest.java:81 | the two-argument constructor gives an available (enabled, unreserved) resource with no children; its first argument is taken as the id and its second as the device id |
| Metadata.NewResourceWith | src/test/java/com/sonyericsson/jenkins/plugins/externalresource/dispatcher/utils/AvailabilityFilterTest.java:70-71 | the five-argument constructor gives an unreserved resource with the given fields, taking the first argument as the id and the third as the device id; it is available exactly when it is enabled |
| AvailabilityFilter.CollectValue | src/test/java/com/sonyericsson/jenkins/plugins/externalresource/dispatcher/utils/AvailabilityFilterTest.java:99-101 | a value's subtree yields only resources; a string yields none; a resource is listed before its descendants |
| AvailabilityFilter.Collect | src/test/java/com/sonyericsson/jenkins/plugins/externalresource/dispatcher/utils/AvailabilityFilterTest.java:99-101 | collecting a forest returns only external resources |
| AvailabilityFilter.CollectComplete | src/test/java/com/sonyericsson/jenkins/plugins/externalresource/dispatcher/utils/AvailabilityFilterTest.java:106-128 | a value is collected if and only if it is a resource occurring somewhere in the tree, at any depth |
| AvailabilityFilter.CollectValueCountsPositions | src/test/java/com/sonyericsson/jenkins/plugins/externalresource/dispatcher/utils/AvailabilityFilterTest.java:106-121 | per subtree and per id: the collected count matches the number of resource positions with that id |
| AvailabilityFilter.CollectCountsPositions | src/test/java/com/sonyericsson/jenkins/plugins/externalresource/dispatcher/utils/AvailabilityFilterTest.java:106-121 | per id: the collected count matches the number of resource positions in the tree with that id |
| AvailabilityFilter.CollectValueCountsOccurrences | src/test/java/com/sonyericsson/jenkins/plugins/externalresource/dispatcher/utils/AvailabilityFilterTest.java:99-128 | per subtree: the collected list holds each value exactly as many times as the subtree has resource positions holding that value |
| AvailabilityFilter.CollectCountsOccurrences | src/test/java/com/sonyericsson/jenkins/plugins/externalresource/dispatcher/utils/AvailabilityFilterTest.java:99-128 | every resource position of the tree is collected exactly once: the collected list holds each value exactly as many times as the tree has resource positions holding it, so nothing is duplicated or missed |
| AvailabilityFilter.FilterAvailable | src/test/java/com/sonyericsson/jenkins/plugins/externalresource/dispatcher/utils/AvailabilityFilterTest.java:136-139 | the filter returns only enabled, unreserved resources, and each such input element exactly as often as it occurs in the input |
| AvailabilityFilter.FilterIsSubsequence | src/test/java/com/sonyericsson/jenkins/plugins/externalresource/dispatcher/utils/AvailabilityFilterTest.java:136-139 | the filtered list is a subsequence of its input, so relative order is kept |
| AvailabilityFilter.FilterSubset | src/test/java/com/sonyericsson/jenkins/plugins/externalresource/dispatcher/utils/AvailabilityFilterTest.java:136-139 | an element is in the filtered list if and only if it is in the input and available; nothing new appears |
| AvailabilityFilter.FilterIdempotent | src/test/java/com/sonyericsson/jenkins/plugins/externalresource/dispatcher/utils/AvailabilityFilterTest.java:136-139 | filtering an already filtered list changes nothing |
| AvailabilityFilter.IndexOf | src/main/java/com/sonyericsson/jenkins/plugins/externalresource/dispatcher/cli/ErCliUtils.java:70 | finds the first position holding a resource with the id, and finds one exactly when the list contains that id |
| AvailabilityFilter.FindById | src/main/java/com/sonyericsson/jenkins/plugins/externalresource/dispatcher/cli/ErCliUtils.java:70-71 | lookup on a node succeeds exactly when some collected resource has the id; it returns the first such resource in collection order |
| Reservation.ClearFirst | src/main/java/com/sonyericsson/jenkins/plugins/externalresource/dispatcher/cli/ErCliUtils.java:52 | clearing keeps the number of sibling values, and changes nothing when no resource has the id |
| Reservation.ClearFirstKeepsShape | src/main/java/com/sonyericsson/jenkins/plugins/externalresource/dispatcher/cli/ErCliUtils.java:52 | clearing changes no string value, no tree node and no resource field other than reservations |
| Reservation.ClearFirstCollect | src/main/java/com/sonyericsson/jenkins/plugins/externalresource/dispatcher/cli/ErCliUtils.java:51-52 | clearing finds a target exactly when lookup does; the collected list keeps its length, the target loses only its reservation, every other resource keeps its own fields |
| Reservation.ClearFirstFind | src/main/java/com/sonyericsson/jenkins/plugins/externalresource/dispatcher/cli/ErCliUtils.java:51-52 | after clearing, lookup by the same id finds the same resource, whatever its reservation was, now with no reservation |
| Reservation.ClearFirstUnreserved | src/main/java/com/sonyericsson/jenkins/plugins/externalresource/dispatcher/cli/ErCliUtils.java:52 | clearing a resource that holds no reservation leaves the whole tree unchanged |
| ErCliUtils.FindExternalResource | src/main/java/com/sonyericsson/jenkins/plugins/externalresource/dispatcher/cli/ErCliUtils.java:67-79 | an unknown node gives the no-node error whatever the id; a known node without the id gives the no-resource error; otherwise the result is that node's resource with the id, the first found |
| ErCliUtils.UnSetReservation | src/main/java/com/sonyericsson/jenkins/plugins/externalresource/dispatcher/cli/ErCliUtils.java:50-56 | lookup errors are returned unchanged, with no new fleet and no save; on success no node is added or removed, other nodes are unchanged, the target's reservation is none (no key or holder check), nothing else on the node changes, and a save of the updated fleet is requested exactly when a host exists |
| ErCliUtils.UnSetReservationIdempotent | src/main/java/com/sonyericsson/jenkins/plugins/externalresource/dispatcher/cli/ErCliUtils.java:50-52 | a second forced release of the same resource succeeds and leaves the fleet as the first one did |
| AvailabilityFilterTest.CollectFixture | src/test/java/com/sonyericsson/jenkins/plugins/externalresource/dispatcher/utils/AvailabilityFilterTest.java:67-84 | collecting over the test fixture gives the disabled, the reserved and the free resource, in tree order |
| AvailabilityFilterTest.CollectFixtureIds | src/test/java/com/sonyericsson/jenkins/plugins/externalresource/dispatcher/utils/AvailabilityFilterTest.java:99-128 | the fixture yields exactly three resources; ids "1", "2" and "3" each occur once, and no other id occurs |
| AvailabilityFilterTest.CollectFixtureOnlyResources | src/test/java/com/sonyericsson/jenkins/plugins/externalresource/dispatcher/utils/AvailabilityFilterTest.java:68-84 | the fixture's string values are not collected; resources are found both under `resources/attached` and directly beneath the property |
| AvailabilityFilterTest.FilterFixture | src/test/java/com/sonyericsson/jenkins/plugins/externalresource/dispatcher/utils/AvailabilityFilterTest.java:134-140 | filtering the fixture drops the disabled resource "1" and the reserved resource "2", and gives exactly the one resource "3" |
| ErCliUtilsTest.ReleaseFixture | src/main/java/com/sonyericsson/jenkins/plugins/externalresource/dispatcher/cli/ErCliUtils.java:50-55 | force-releasing resource "2" on a node with the fixture succeeds, requests a save, and makes "2" pass the filter next to "3" |
| ErCliUtilsTest.ReleaseMissingNode | src/main/java/com/sonyericsson/jenkins/plugins/externalresource/dispatcher/cli/ErCliUtils.java:67-78 | releasing on an unknown node gives the no-node error for every id |
| ErCliUtilsTest.ReleaseMissingResource | src/main/java/com/sonyericsson/jenkins/plugins/externalresource/dispatcher/cli/ErCliUtils.java:70-75 | releasing an unknown id on a known node gives the no-resource error |

## Left out

- The host singleton and its node registry are left out; the registry is modelled as a map from node name to metadata. Whether a host exists is a separate `hostPresent` parameter, and it only decides whether a save is requested. In the source the lookup at line 68 already dereferences the host.
- The host's `save()` and its I/O error are left out: a requested save is recorded as the fleet snapshot handed over (`persisted`). A save failure has no counterpart.
- The command-line exception type and its message texts are left out: they are two error variants, `NoNode` and `NoResource`.
- Lease timestamps and expiry are left out: the lease's creation time is an opaque integer and its expiry an opaque label, and nothing reads either. The fixture's clock reading becomes 0.
- Reserving a resource with a key check, and the reservation state machine beyond clearing, are left out: neither appears in the code modelled here.
- Concurrency and atomicity of reservation updates are left out: the model is sequential and purely functional.
- Object identity is left out. In the source, the resource found and the one cleared are the same object, which may be aliased from several places in the tree. In the model the tree is a value, and the position cleared is the first match in collection order.
- The availability filter's own implementation is not part of this model. Three behaviours are modelling choices that the unit test does not constrain: pre-order, descending into resources, and first match on duplicate ids.
- Metadata.NewResource: which constructor argument becomes the id is a modelling choice. The first argument is taken as the id and the second as the device id. The fixture passes the same string in both places, so nothing shown tells them apart.
- Metadata.NewResourceWith: likewise, the first argument is taken as the id and the third as the device id. The fixture passes the same string in both places.
- The fixture's tree layout rests on assumptions about `TreeStructureUtil.addValue`, described above. That helper is not part of this model.
- Nodes without a metadata property are modelled as nodes with an empty value list. This gives an empty resource list.
