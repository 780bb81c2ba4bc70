/**
  Discovery and filtering of the external resources on one node. A node's
  metadata is the list of values directly beneath its metadata property.
 */
module AvailabilityFilter {
  import opened Wrappers
  import opened Metadata

  /** Every element of `rs` is an external resource. */
  predicate AllResources(rs: seq<Value>) {
    forall i :: 0 <= i < |rs| ==> rs[i].Resource?
  }

  /** Some element of `rs` is a resource with identifier `id`. */
  predicate Contains(rs: seq<Value>, id: string) {
    exists i :: 0 <= i < |rs| && HasId(rs[i], id)
  }

  // ---------------------------------------------------------------------
  // Collecting
  // ---------------------------------------------------------------------

  /** The resources in one value's subtree, in pre-order: a resource comes
      before the resources nested in its children. */
  function CollectValue(v: Value): (rs: seq<Value>)
    ensures AllResources(rs)
    ensures v.Str? ==> rs == []
    ensures v.Resource? ==> |rs| > 0 && rs[0] == v
  {
    match v
    case Str(_, _) => []
    case Tree(_, cs) => Collect(cs)
    case Resource(_, _, _, _, _, cs) => [v] + Collect(cs)
  }

  /** The resources reachable from the values `vs`, siblings in order. */
  function Collect(vs: seq<Value>): (rs: seq<Value>)
    ensures AllResources(rs)
  {
    if vs == [] then [] else CollectValue(vs[0]) + Collect(vs[1..])
  }

  /** Reference definition of reachability: `x` is `v` itself or lies
      somewhere below it. */
  ghost predicate OccursInValue(x: Value, v: Value) {
    x == v || (!v.Str? && OccursIn(x, v.children))
  }

  /** `x` lies somewhere in the forest `vs`. */
  ghost predicate OccursIn(x: Value, vs: seq<Value>) {
    |vs| > 0 && (OccursInValue(x, vs[0]) || OccursIn(x, vs[1..]))
  }

  lemma {:induction false} CollectValueComplete(x: Value, v: Value)
    ensures x in CollectValue(v) <==> x.Resource? && OccursInValue(x, v)
    decreases v, 1
  {
    match v
    case Str(_, _) =>
    case Tree(_, cs) =>
      CollectComplete(x, cs);
    case Resource(_, _, _, _, _, cs) =>
      CollectComplete(x, cs);
  }

  /** Collect returns exactly the resources that occur in the tree: none is
      missed, and nothing that is not a resource is returned. */
  lemma {:induction false} CollectComplete(x: Value, vs: seq<Value>)
    ensures x in Collect(vs) <==> x.Resource? && OccursIn(x, vs)
    decreases vs, 0
  {
    if vs != [] {
      CollectValueComplete(x, vs[0]);
      CollectComplete(x, vs[1..]);
    }
  }

  /** Number of elements of `rs` that are resources with identifier `id`. */
  function CountId(rs: seq<Value>, id: string): nat {
    if rs == [] then 0 else (if HasId(rs[0], id) then 1 else 0) + CountId(rs[1..], id)
  }

  lemma {:induction false} CountIdConcat(a: seq<Value>, b: seq<Value>, id: string)
    ensures CountId(a + b, id) == CountId(a, id) + CountId(b, id)
  {
    if a == [] {
      assert a + b == b;
    } else {
      assert (a + b)[0] == a[0];
      assert (a + b)[1..] == a[1..] + b;
      CountIdConcat(a[1..], b, id);
    }
  }

  /** Reference count: the number of positions in the subtree of `v` that
      hold a resource with identifier `id`. */
  ghost function PositionsInValue(v: Value, id: string): nat
    decreases v, 1
  {
    (if HasId(v, id) then 1 else 0) + (if v.Str? then 0 else PositionsIn(v.children, id))
  }

  ghost function PositionsIn(vs: seq<Value>, id: string): nat
    decreases vs, 0
  {
    if vs == [] then 0 else PositionsInValue(vs[0], id) + PositionsIn(vs[1..], id)
  }

  lemma {:induction false} CollectValueCountsPositions(v: Value, id: string)
    ensures CountId(CollectValue(v), id) == PositionsInValue(v, id)
    decreases v, 1
  {
    match v
    case Str(_, _) =>
    case Tree(_, cs) =>
      CollectCountsPositions(cs, id);
    case Resource(_, _, _, _, _, cs) =>
      CollectCountsPositions(cs, id);
      CountIdConcat([v], Collect(cs), id);
  }

  /** Per identifier, the collected list holds it exactly as often as the
      tree has resource positions carrying it. */
  lemma {:induction false} CollectCountsPositions(vs: seq<Value>, id: string)
    ensures CountId(Collect(vs), id) == PositionsIn(vs, id)
    decreases vs, 0
  {
    if vs != [] {
      CollectValueCountsPositions(vs[0], id);
      CollectCountsPositions(vs[1..], id);
      CountIdConcat(CollectValue(vs[0]), Collect(vs[1..]), id);
    }
  }

  /** Reference count: the number of positions in the subtree of `v` that
      hold exactly the resource `x`. */
  ghost function OccurrencesInValue(x: Value, v: Value): nat
    decreases v, 1
  {
    (if v.Resource? && v == x then 1 else 0) + (if v.Str? then 0 else OccurrencesIn(x, v.children))
  }

  ghost function OccurrencesIn(x: Value, vs: seq<Value>): nat
    decreases vs, 0
  {
    if vs == [] then 0 else OccurrencesInValue(x, vs[0]) + OccurrencesIn(x, vs[1..])
  }

  lemma {:induction false} CollectValueCountsOccurrences(x: Value, v: Value)
    ensures multiset(CollectValue(v))[x] == OccurrencesInValue(x, v)
    decreases v, 1
  {
    match v
    case Str(_, _) =>
    case Tree(_, cs) =>
      CollectCountsOccurrences(x, cs);
    case Resource(_, _, _, _, _, cs) =>
      CollectCountsOccurrences(x, cs);
      assert multiset([v] + Collect(cs)) == multiset([v]) + multiset(Collect(cs));
  }

  /** Each resource position of the tree is collected exactly once: the
      collected list holds a value exactly as often as the tree has resource
      positions holding that value. */
  lemma {:induction false} CollectCountsOccurrences(x: Value, vs: seq<Value>)
    ensures multiset(Collect(vs))[x] == OccurrencesIn(x, vs)
    decreases vs, 0
  {
    if vs != [] {
      CollectValueCountsOccurrences(x, vs[0]);
      CollectCountsOccurrences(x, vs[1..]);
      assert multiset(CollectValue(vs[0]) + Collect(vs[1..]))
          == multiset(CollectValue(vs[0])) + multiset(Collect(vs[1..]));
    }
  }

  // ---------------------------------------------------------------------
  // Filtering
  // ---------------------------------------------------------------------

  /** The resources of `rs` that are enabled and not reserved, in order. */
  function FilterAvailable(rs: seq<Value>): (r: seq<Value>)
    ensures forall i :: 0 <= i < |r| ==> Available(r[i])
    ensures forall x :: multiset(r)[x] == (if Available(x) then multiset(rs)[x] else 0)
  {
    if rs == [] then []
    else
      assert rs == [rs[0]] + rs[1..];
      (if Available(rs[0]) then [rs[0]] else []) + FilterAvailable(rs[1..])
  }

  /** `a` is obtained from `b` by deleting elements, keeping the order. */
  ghost predicate IsSubsequence(a: seq<Value>, b: seq<Value>) {
    if a == [] then true
    else if b == [] then false
    else (a[0] == b[0] && IsSubsequence(a[1..], b[1..])) || IsSubsequence(a, b[1..])
  }

  /** Filtering keeps the relative order of what it keeps. */
  lemma {:induction false} FilterIsSubsequence(rs: seq<Value>)
    ensures IsSubsequence(FilterAvailable(rs), rs)
  {
    if rs != [] {
      FilterIsSubsequence(rs[1..]);
      var r := FilterAvailable(rs);
      if Available(rs[0]) {
        assert r[0] == rs[0] && r[1..] == FilterAvailable(rs[1..]);
      } else {
        assert r == FilterAvailable(rs[1..]);
      }
    }
  }

  /** Filtering never produces an element that was not in its input. */
  lemma FilterSubset(rs: seq<Value>, x: Value)
    ensures x in FilterAvailable(rs) ==> x in rs && Available(x)
    ensures x in rs && Available(x) ==> x in FilterAvailable(rs)
  {
  }

  /** Filtering a filtered list changes nothing. */
  lemma {:induction false} FilterIdempotent(rs: seq<Value>)
    ensures FilterAvailable(FilterAvailable(rs)) == FilterAvailable(rs)
  {
    if rs != [] {
      FilterIdempotent(rs[1..]);
      var r := FilterAvailable(rs);
      if Available(rs[0]) {
        assert r == [rs[0]] + FilterAvailable(rs[1..]);
        assert r[1..] == FilterAvailable(rs[1..]);
      } else {
        assert r == FilterAvailable(rs[1..]);
      }
    }
  }

  // ---------------------------------------------------------------------
  // Lookup by identifier
  // ---------------------------------------------------------------------

  /** The first position of a resource with identifier `id` in `rs`. */
  function IndexOf(rs: seq<Value>, id: string): (k: Option<nat>)
    ensures k.Some? <==> Contains(rs, id)
    ensures k.Some? ==> k.value < |rs| && HasId(rs[k.value], id)
    ensures k.Some? ==> forall j :: 0 <= j < k.value ==> !HasId(rs[j], id)
  {
    if rs == [] then None
    else if HasId(rs[0], id) then Some(0)
    else match IndexOf(rs[1..], id)
      case None => None
      case Some(k) => Some(k + 1)
  }

  /** A concatenation contains `id` exactly when one of its parts does. */
  lemma ContainsConcat(a: seq<Value>, b: seq<Value>, id: string)
    ensures Contains(a + b, id) <==> Contains(a, id) || Contains(b, id)
  {
    if Contains(a + b, id) {
      var m :| 0 <= m < |a + b| && HasId((a + b)[m], id);
      if m < |a| { assert a[m] == (a + b)[m]; } else { assert b[m - |a|] == (a + b)[m]; }
    }
    if Contains(a, id) {
      var m :| 0 <= m < |a| && HasId(a[m], id);
      assert (a + b)[m] == a[m];
    }
    if Contains(b, id) {
      var m :| 0 <= m < |b| && HasId(b[m], id);
      assert (a + b)[|a| + m] == b[m];
    }
  }

  /** The first position of `id` in a concatenation is in the left part
      when the left part contains `id`. */
  lemma {:induction false} IndexOfConcatLeft(a: seq<Value>, b: seq<Value>, id: string)
    requires Contains(a, id)
    ensures IndexOf(a + b, id) == IndexOf(a, id)
  {
    assert (a + b)[0] == a[0];
    if !HasId(a[0], id) {
      assert (a + b)[1..] == a[1..] + b;
      assert Contains(a[1..], id) by {
        var m :| 0 <= m < |a| && HasId(a[m], id);
        assert a[1..][m - 1] == a[m];
      }
      IndexOfConcatLeft(a[1..], b, id);
    }
  }

  /** Otherwise it is the first position in the right part, shifted. */
  lemma {:induction false} IndexOfConcatRight(a: seq<Value>, b: seq<Value>, id: string)
    requires !Contains(a, id) && Contains(b, id)
    ensures IndexOf(a + b, id) == Some(|a| + IndexOf(b, id).value)
  {
    if a == [] {
      assert a + b == b;
    } else {
      var ab := a + b;
      assert ab[0] == a[0] && !HasId(a[0], id);
      assert ab[1..] == a[1..] + b;
      assert !Contains(a[1..], id) by {
        forall j | 0 <= j < |a[1..]|
          ensures !HasId(a[1..][j], id)
        {
          assert a[1..][j] == a[j + 1];
        }
      }
      IndexOfConcatRight(a[1..], b, id);
      assert IndexOf(ab[1..], id) == Some(|a| - 1 + IndexOf(b, id).value);
    }
  }

  /** A position holding `id` with no earlier one is the first position. */
  lemma IndexOfUnique(rs: seq<Value>, id: string, k: nat)
    requires k < |rs| && HasId(rs[k], id)
    requires forall j :: 0 <= j < k ==> !HasId(rs[j], id)
    ensures IndexOf(rs, id) == Some(k)
  {
  }

  /** The resource with identifier `id` on a node: the first one in
      collection order, or None when the node has none. */
  function FindById(vs: seq<Value>, id: string): (r: Option<Value>)
    ensures r.Some? <==> Contains(Collect(vs), id)
    ensures r.Some? ==> r.value.Resource? && r.value.id == id && r.value in Collect(vs)
    ensures r.Some? ==> exists k :: 0 <= k < |Collect(vs)| && Collect(vs)[k] == r.value &&
                          forall j :: 0 <= j < k ==> !HasId(Collect(vs)[j], id)
  {
    var rs := Collect(vs);
    match IndexOf(rs, id)
    case None => None
    case Some(k) => Some(rs[k])
  }
}
