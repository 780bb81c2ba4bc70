/**
  Clearing the reservation of one resource inside a metadata tree. The
  resource affected is the one the lookup by identifier finds: the first
  resource with that identifier in collection order.
 */
module Reservation {
  import opened Wrappers
  import opened Metadata
  import opened AvailabilityFilter

  /** Clears the reservation of the first resource with identifier `id` in the
      subtree of `v`; the flag tells whether such a resource was found. */
  function ClearFirstInValue(v: Value, id: string): (r: (Value, bool))
    ensures !r.1 ==> r.0 == v
    decreases v, 1
  {
    match v
    case Str(_, _) => (v, false)
    case Tree(n, cs) =>
      var (cs', found) := ClearFirst(cs, id);
      (Tree(n, cs'), found)
    case Resource(rid, desc, dev, en, res, cs) =>
      if rid == id then (v.(reserved := None), true)
      else
        var (cs', found) := ClearFirst(cs, id);
        (Resource(rid, desc, dev, en, res, cs'), found)
  }

  /** The same for the forest `vs`: siblings are searched left to right and
      the search stops at the first match. */
  function ClearFirst(vs: seq<Value>, id: string): (r: (seq<Value>, bool))
    ensures !r.1 ==> r.0 == vs
    ensures |r.0| == |vs|
    decreases vs, 0
  {
    if vs == [] then (vs, false)
    else
      var (v', found) := ClearFirstInValue(vs[0], id);
      if found then ([v'] + vs[1..], true)
      else
        var (rest', found') := ClearFirst(vs[1..], id);
        assert vs == [vs[0]] + vs[1..];
        ([vs[0]] + rest', found')
  }

  // ---------------------------------------------------------------------
  // Frame: the shape of the tree
  // ---------------------------------------------------------------------

  /** The tree with every reservation removed: everything but reservations. */
  ghost function EraseValue(v: Value): Value
    decreases v, 1
  {
    match v
    case Str(_, _) => v
    case Tree(n, cs) => Tree(n, Erase(cs))
    case Resource(rid, desc, dev, en, _, cs) => Resource(rid, desc, dev, en, None, Erase(cs))
  }

  ghost function Erase(vs: seq<Value>): seq<Value>
    decreases vs, 0
  {
    if vs == [] then [] else [EraseValue(vs[0])] + Erase(vs[1..])
  }

  lemma {:induction false} ClearFirstInValueKeepsShape(v: Value, id: string)
    ensures EraseValue(ClearFirstInValue(v, id).0) == EraseValue(v)
    decreases v, 1
  {
    match v
    case Str(_, _) =>
    case Tree(n, cs) =>
      ClearFirstKeepsShape(cs, id);
    case Resource(rid, _, _, _, _, cs) =>
      if rid != id { ClearFirstKeepsShape(cs, id); }
  }

  /** Clearing changes no string value, no tree node and no field of any
      resource other than reservations. */
  lemma {:induction false} ClearFirstKeepsShape(vs: seq<Value>, id: string)
    ensures Erase(ClearFirst(vs, id).0) == Erase(vs)
    decreases vs, 0
  {
    if vs != [] {
      var (v', found) := ClearFirstInValue(vs[0], id);
      ClearFirstInValueKeepsShape(vs[0], id);
      var ws := ClearFirst(vs, id).0;
      if found {
        assert ws[0] == v' && ws[1..] == vs[1..];
      } else {
        ClearFirstKeepsShape(vs[1..], id);
        assert ws[0] == vs[0] && ws[1..] == ClearFirst(vs[1..], id).0;
      }
    }
  }

  // ---------------------------------------------------------------------
  // Frame: the collected resources
  // ---------------------------------------------------------------------

  /** A resource without its children: the fields of the resource itself. */
  function Bare(v: Value): Value {
    match v
    case Resource(rid, desc, dev, en, res, _) => Resource(rid, desc, dev, en, res, [])
    case _ => v
  }

  /** `a` and `b` agree position by position on everything but children. */
  ghost predicate SameFields(a: seq<Value>, b: seq<Value>) {
    |a| == |b| && forall i :: 0 <= i < |a| ==> Bare(a[i]) == Bare(b[i])
  }

  /** `after` is `before` with the reservation of position `k` cleared: that
      position keeps its children, every other position keeps its fields. */
  ghost predicate ReleasedAt(before: seq<Value>, after: seq<Value>, k: nat) {
    && |after| == |before|
    && k < |before|
    && before[k].Resource?
    && after[k] == before[k].(reserved := None)
    && forall i :: 0 <= i < |before| && i != k ==> Bare(after[i]) == Bare(before[i])
  }

  lemma ReleasedAtLeft(a: seq<Value>, a': seq<Value>, b: seq<Value>, k: nat)
    requires ReleasedAt(a, a', k)
    ensures ReleasedAt(a + b, a' + b, k)
  {
  }

  lemma ReleasedAtRight(a: seq<Value>, a': seq<Value>, b: seq<Value>, b': seq<Value>, k: nat)
    requires SameFields(a, a') && ReleasedAt(b, b', k)
    ensures ReleasedAt(a + b, a' + b', |a| + k)
  {
    assert (a + b)[|a| + k] == b[k] && (a' + b')[|a| + k] == b'[k];
    forall i | 0 <= i < |a + b| && i != |a| + k
      ensures Bare((a' + b')[i]) == Bare((a + b)[i])
    {
      if i < |a| {
        assert (a + b)[i] == a[i] && (a' + b')[i] == a'[i];
      } else {
        assert (a + b)[i] == b[i - |a|] && (a' + b')[i] == b'[i - |a|];
      }
    }
  }

  lemma {:induction false} ClearFirstInValueCollect(v: Value, id: string)
    ensures ClearFirstInValue(v, id).1 <==> Contains(CollectValue(v), id)
    ensures ClearFirstInValue(v, id).1 ==>
              ReleasedAt(CollectValue(v), CollectValue(ClearFirstInValue(v, id).0),
                         IndexOf(CollectValue(v), id).value)
    decreases v, 1
  {
    match v
    case Str(_, _) =>
    case Tree(n, cs) =>
      ClearFirstCollect(cs, id);
    case Resource(rid, _, _, _, _, cs) =>
      var v' := ClearFirstInValue(v, id).0;
      if rid == id {
        assert HasId(CollectValue(v)[0], id);
        assert CollectValue(v') == [v'] + Collect(cs);
      } else {
        var (cs', found) := ClearFirst(cs, id);
        ClearFirstCollect(cs, id);
        assert !Contains([v], id);
        ContainsConcat([v], Collect(cs), id);
        if found {
          IndexOfConcatRight([v], Collect(cs), id);
          assert CollectValue(v') == [v'] + Collect(cs');
          ReleasedAtRight([v], [v'], Collect(cs), Collect(cs'), IndexOf(Collect(cs), id).value);
        }
      }
  }

  /** Clearing finds a resource exactly when the lookup by identifier does,
      and then changes exactly that resource's reservation among all the
      collected resources. */
  lemma {:induction false} ClearFirstCollect(vs: seq<Value>, id: string)
    ensures ClearFirst(vs, id).1 <==> Contains(Collect(vs), id)
    ensures ClearFirst(vs, id).1 ==>
              ReleasedAt(Collect(vs), Collect(ClearFirst(vs, id).0), IndexOf(Collect(vs), id).value)
    decreases vs, 0
  {
    if vs != [] {
      var v := vs[0];
      var (v', found) := ClearFirstInValue(v, id);
      var ws := ClearFirst(vs, id).0;
      ClearFirstInValueCollect(v, id);
      ContainsConcat(CollectValue(v), Collect(vs[1..]), id);
      if found {
        assert ws[0] == v' && ws[1..] == vs[1..];
        IndexOfConcatLeft(CollectValue(v), Collect(vs[1..]), id);
        ReleasedAtLeft(CollectValue(v), CollectValue(v'), Collect(vs[1..]), IndexOf(CollectValue(v), id).value);
      } else {
        var (rest', found') := ClearFirst(vs[1..], id);
        ClearFirstCollect(vs[1..], id);
        assert ws[0] == v && ws[1..] == rest';
        if found' {
          IndexOfConcatRight(CollectValue(v), Collect(vs[1..]), id);
          ReleasedAtRight(CollectValue(v), CollectValue(v), Collect(vs[1..]), Collect(rest'),
                          IndexOf(Collect(vs[1..]), id).value);
        }
      }
    }
  }

  /** After clearing, the lookup by identifier finds the same resource, now
      without a reservation and with every other field and its children
      unchanged. */
  lemma ClearFirstFind(vs: seq<Value>, id: string)
    requires FindById(vs, id).Some?
    ensures FindById(vs, id).value.Resource?
    ensures FindById(ClearFirst(vs, id).0, id) == Some(FindById(vs, id).value.(reserved := None))
  {
    ClearFirstCollect(vs, id);
    var before := Collect(vs);
    var after := Collect(ClearFirst(vs, id).0);
    var k := IndexOf(before, id).value;
    forall j | 0 <= j < k
      ensures !HasId(after[j], id)
    {
      assert Bare(after[j]) == Bare(before[j]);
    }
    IndexOfUnique(after, id, k);
  }

  lemma {:induction false} ClearFirstInValueUnreserved(v: Value, id: string)
    requires Contains(CollectValue(v), id)
    requires CollectValue(v)[IndexOf(CollectValue(v), id).value].reserved.None?
    ensures ClearFirstInValue(v, id).0 == v
    decreases v, 1
  {
    match v
    case Tree(n, cs) =>
      ClearFirstUnreserved(cs, id);
    case Resource(rid, _, _, _, _, cs) =>
      if rid == id {
        assert HasId(CollectValue(v)[0], id);
      } else {
        assert !Contains([v], id);
        ContainsConcat([v], Collect(cs), id);
        IndexOfConcatRight([v], Collect(cs), id);
        assert CollectValue(v) == [v] + Collect(cs);
        ClearFirstUnreserved(cs, id);
      }
  }

  /** Clearing a resource that holds no reservation leaves the tree as it
      was. */
  lemma {:induction false} ClearFirstUnreserved(vs: seq<Value>, id: string)
    requires Contains(Collect(vs), id)
    requires FindById(vs, id).value.reserved.None?
    ensures ClearFirst(vs, id).0 == vs
    decreases vs, 0
  {
    var v := vs[0];
    var a, b := CollectValue(v), Collect(vs[1..]);
    ContainsConcat(a, b, id);
    var (v', found) := ClearFirstInValue(v, id);
    ClearFirstInValueCollect(v, id);
    if found {
      IndexOfConcatLeft(a, b, id);
      assert (a + b)[IndexOf(a, id).value] == a[IndexOf(a, id).value];
      ClearFirstInValueUnreserved(v, id);
      assert vs == [v] + vs[1..];
    } else {
      IndexOfConcatRight(a, b, id);
      assert (a + b)[|a| + IndexOf(b, id).value] == b[IndexOf(b, id).value];
      ClearFirstUnreserved(vs[1..], id);
      assert vs == [v] + vs[1..];
    }
  }
}
