/**
 * The order a path is read in (src/backend/ViewProjector.ts:278-309, 143-172): an insertion sort written as a `reduce`
 * over two filters, then a pass that keeps each node where it first stands.
 */
module PathSort {
  import opened Wrappers
  import opened Graphs
  import opened Truths
  import opened Orders

  /** A node the path reaches, with the key it is sorted by: a text, a number, or none. */
  datatype Pair = Pair(key: Option<Value>, node: NodeId)

  predicate Plain(p: Pair) {
    p.key.Some? ==> !p.key.value.Items?
  }

  predicate AllPlain(list: seq<Pair>) {
    forall i | 0 <= i < |list| :: Plain(list[i])
  }

  // ---- The statement's sort

  /** `toString(k) = k`: a text gives itself back, a number a text, null null. */
  function IsText(key: Option<Value>): Truth {
    if key.None? then Unknown else Of(key.value.Text?)
  }

  function Coalesce(t: Truth, otherwise: Truth): Truth {
    if t == Unknown then otherwise else t
  }

  function SameTruth(a: Truth, b: Truth): Truth {
    if a == Unknown || b == Unknown then Unknown else Of(a == b)
  }

  /** Whether the placed pair `a` stays before the pair `y`, in three-valued logic. */
  function Before(ascending: bool, a: Pair, y: Pair): Truth {
    var first := if ascending then And(IsText(a.key), Not(IsText(y.key))) else And(IsText(y.key), Not(IsText(a.key)));
    var compares := if ascending then LessOrEqual(a.key, y.key) else LessOrEqual(y.key, a.key);
    Or(Of(y.key.None?),
       And(Of(a.key.Some?), Or(first, And(SameTruth(IsText(a.key), IsText(y.key)), Coalesce(compares, No)))))
  }

  function Filter(list: seq<Pair>, keep: Pair -> bool): seq<Pair> {
    if list == [] then []
    else if keep(list[0]) then [list[0]] + Filter(list[1..], keep)
    else Filter(list[1..], keep)
  }

  function IsBefore(ascending: bool, y: Pair): Pair -> bool {
    (a: Pair) => Before(ascending, a, y) == Yes
  }

  function IsNotBefore(ascending: bool, y: Pair): Pair -> bool {
    (a: Pair) => Not(Before(ascending, a, y)) == Yes
  }

  function Placed(ascending: bool, placed: seq<Pair>, y: Pair): seq<Pair> {
    Filter(placed, IsBefore(ascending, y)) + [y] + Filter(placed, IsNotBefore(ascending, y))
  }

  function Sorted(ascending: bool, pairs: seq<Pair>): seq<Pair> {
    if pairs == [] then []
    else
      Placed(ascending, Sorted(ascending, pairs[..|pairs| - 1]), pairs[|pairs| - 1])
  }

  // ---- The order

  /** A text before a number ascending and after it descending, equals either way, and no key last both ways. */
  predicate NotAfter(ascending: bool, a: Option<Value>, b: Option<Value>) {
    if b.None? then true
    else if a.None? then false
    else if SameKind(a.value, b.value) then
      if ascending then !Orders.Before(b.value, a.value) else !Orders.Before(a.value, b.value)
    else if ascending then a.value.Text? else b.value.Text?
  }

  lemma BeforeIsNotAfter(ascending: bool, a: Pair, y: Pair)
    requires Plain(a) && Plain(y)
    ensures Before(ascending, a, y) == Of(NotAfter(ascending, a.key, y.key))
  {
    if a.key.Some? && y.key.Some? && SameKind(a.key.value, y.key.value) {
      ValuesAreOrdered(a.key.value, y.key.value);
    }
  }

  lemma EitherIsNotAfter(ascending: bool, a: Pair, b: Pair)
    requires Plain(a) && Plain(b)
    ensures NotAfter(ascending, a.key, b.key) || NotAfter(ascending, b.key, a.key)
    ensures NotAfter(ascending, a.key, b.key) && NotAfter(ascending, b.key, a.key) <==> a.key == b.key
  {
    if a.key.Some? && b.key.Some? && SameKind(a.key.value, b.key.value) {
      ValuesAreOrdered(a.key.value, b.key.value);
    }
  }

  lemma NotAfterGoesOn(ascending: bool, a: Pair, b: Pair, c: Pair)
    requires Plain(a) && Plain(b) && Plain(c)
    requires NotAfter(ascending, a.key, b.key) && NotAfter(ascending, b.key, c.key)
    ensures NotAfter(ascending, a.key, c.key)
  {
    if a.key.Some? && b.key.Some? && c.key.Some? && SameKind(a.key.value, b.key.value)
        && SameKind(b.key.value, c.key.value) {
      var x, y, z := a.key.value, b.key.value, c.key.value;
      ValuesAreOrdered(x, y);
      ValuesAreOrdered(y, z);
      ValuesAreOrdered(x, z);
      if ascending && Orders.Before(z, x) && Orders.Before(x, y) {
        ValuesGoOn(z, x, y);
      }
      if !ascending && Orders.Before(x, z) && Orders.Before(z, y) {
        ValuesGoOn(x, z, y);
      }
    }
  }

  predicate InOrder(ascending: bool, list: seq<Pair>) {
    forall i, j | 0 <= i < j < |list| :: NotAfter(ascending, list[i].key, list[j].key)
  }

  // ---- What it gives

  function IsOfKey(key: Option<Value>): Pair -> bool {
    (a: Pair) => a.key == key
  }

  /** The pairs of one key, as they stand. */
  function OfKey(list: seq<Pair>, key: Option<Value>): seq<Pair> {
    Filter(list, IsOfKey(key))
  }

  lemma {:induction false} FilterBoth(a: seq<Pair>, b: seq<Pair>, keep: Pair -> bool)
    ensures Filter(a + b, keep) == Filter(a, keep) + Filter(b, keep)
  {
    if a == [] {
      assert a + b == b;
    } else {
      FilterBoth(a[1..], b, keep);
      assert (a + b)[1..] == a[1..] + b;
      assert [a[0]] + (Filter(a[1..], keep) + Filter(b, keep)) == ([a[0]] + Filter(a[1..], keep)) + Filter(b, keep);
    }
  }

  lemma {:induction false} FilterIsOf(list: seq<Pair>, keep: Pair -> bool)
    ensures forall i | 0 <= i < |Filter(list, keep)| :: Filter(list, keep)[i] in list && keep(Filter(list, keep)[i])
  {
    if list != [] {
      FilterIsOf(list[1..], keep);
    }
  }

  /** Two filters each pair passes exactly one of drop none. */
  lemma {:induction false} FiltersPart(list: seq<Pair>, p: Pair -> bool, q: Pair -> bool)
    requires forall i | 0 <= i < |list| :: p(list[i]) != q(list[i])
    ensures multiset(Filter(list, p)) + multiset(Filter(list, q)) == multiset(list)
  {
    if list != [] {
      FiltersPart(list[1..], p, q);
      assert list == [list[0]] + list[1..];
    }
  }

  lemma {:induction false} FilterInOrder(list: seq<Pair>, keep: Pair -> bool, le: (Pair, Pair) -> bool)
    requires forall i, j | 0 <= i < j < |list| :: le(list[i], list[j])
    ensures forall i, j | 0 <= i < j < |Filter(list, keep)| :: le(Filter(list, keep)[i], Filter(list, keep)[j])
  {
    if list != [] {
      var rest := Filter(list[1..], keep);
      FilterInOrder(list[1..], keep, le);
      FilterIsOf(list[1..], keep);
      forall j | 0 <= j < |rest| ensures le(list[0], rest[j]) {
        var i :| 0 <= i < |list[1..]| && list[1..][i] == rest[j];
        assert list[i + 1] == rest[j];
      }
    }
  }

  lemma {:induction false} FilterOfKey(list: seq<Pair>, keep: Pair -> bool, key: Option<Value>, kept: bool)
    requires forall i | 0 <= i < |list| && list[i].key == key :: keep(list[i]) == kept
    ensures OfKey(Filter(list, keep), key) == if kept then OfKey(list, key) else []
  {
    if list != [] {
      FilterOfKey(list[1..], keep, key, kept);
      assert keep(list[0]) ==> ([list[0]] + Filter(list[1..], keep))[1..] == Filter(list[1..], keep);
    }
  }

  // ---- The sort

  lemma TestsAre(ascending: bool, list: seq<Pair>, y: Pair)
    requires AllPlain(list) && Plain(y)
    ensures forall i | 0 <= i < |list| ::
      && IsBefore(ascending, y)(list[i]) == NotAfter(ascending, list[i].key, y.key)
      && IsNotBefore(ascending, y)(list[i]) == !NotAfter(ascending, list[i].key, y.key)
  {
    forall i | 0 <= i < |list| ensures
      && IsBefore(ascending, y)(list[i]) == NotAfter(ascending, list[i].key, y.key)
      && IsNotBefore(ascending, y)(list[i]) == !NotAfter(ascending, list[i].key, y.key)
    {
      BeforeIsNotAfter(ascending, list[i], y);
    }
  }

  /** No test is undecided, so the two filters drop no pair. */
  lemma PlacedIsAll(ascending: bool, placed: seq<Pair>, y: Pair)
    requires AllPlain(placed) && Plain(y)
    ensures multiset(Placed(ascending, placed, y)) == multiset(placed) + multiset{y}
  {
    TestsAre(ascending, placed, y);
    FiltersPart(placed, IsBefore(ascending, y), IsNotBefore(ascending, y));
  }

  lemma PlacedIsInOrder(ascending: bool, placed: seq<Pair>, y: Pair)
    requires AllPlain(placed) && Plain(y) && InOrder(ascending, placed)
    ensures InOrder(ascending, Placed(ascending, placed, y))
  {
    var p, q := IsBefore(ascending, y), IsNotBefore(ascending, y);
    var left, right := Filter(placed, p), Filter(placed, q);
    var le := (a: Pair, b: Pair) => NotAfter(ascending, a.key, b.key);
    FilterInOrder(placed, p, le);
    FilterInOrder(placed, q, le);
    FilterIsOf(placed, p);
    FilterIsOf(placed, q);
    forall i | 0 <= i < |left| ensures Plain(left[i]) && le(left[i], y) {
      var k :| 0 <= k < |placed| && placed[k] == left[i];
      BeforeIsNotAfter(ascending, placed[k], y);
    }
    forall j | 0 <= j < |right| ensures Plain(right[j]) && le(y, right[j]) {
      var k :| 0 <= k < |placed| && placed[k] == right[j];
      BeforeIsNotAfter(ascending, placed[k], y);
      EitherIsNotAfter(ascending, placed[k], y);
    }
    forall i, j | 0 <= i < |left| && 0 <= j < |right| ensures le(left[i], right[j]) {
      NotAfterGoesOn(ascending, left[i], y, right[j]);
    }
    ThreeInOrder(left, y, right, le);
    assert forall a, b :: le(a, b) == NotAfter(ascending, a.key, b.key);
  }

  lemma ThreeInOrder(left: seq<Pair>, y: Pair, right: seq<Pair>, le: (Pair, Pair) -> bool)
    requires forall i, j | 0 <= i < j < |left| :: le(left[i], left[j])
    requires forall i, j | 0 <= i < j < |right| :: le(right[i], right[j])
    requires forall i, j | 0 <= i < |left| && 0 <= j < |right| :: le(left[i], right[j])
    requires forall i | 0 <= i < |left| :: le(left[i], y)
    requires forall j | 0 <= j < |right| :: le(y, right[j])
    ensures var all := left + [y] + right; forall i, j | 0 <= i < j < |all| :: le(all[i], all[j])
  {
  }

  lemma PlacedIsLastOfKey(ascending: bool, placed: seq<Pair>, y: Pair, key: Option<Value>)
    requires AllPlain(placed) && Plain(y)
    ensures OfKey(Placed(ascending, placed, y), key) == OfKey(placed, key) + OfKey([y], key)
  {
    var p, q := IsBefore(ascending, y), IsNotBefore(ascending, y);
    TestsAre(ascending, placed, y);
    FilterOfKey(placed, p, key, NotAfter(ascending, key, y.key));
    FilterOfKey(placed, q, key, !NotAfter(ascending, key, y.key));
    FilterBoth(Filter(placed, p) + [y], Filter(placed, q), IsOfKey(key));
    FilterBoth(Filter(placed, p), [y], IsOfKey(key));
    assert OfKey(Placed(ascending, placed, y), key)
      == OfKey(Filter(placed, p), key) + OfKey([y], key) + OfKey(Filter(placed, q), key);
    if !NotAfter(ascending, key, y.key) {
      EitherIsNotAfter(ascending, y, y);
      assert OfKey([y], key) == [] by {
        assert [y][1..] == [];
      }
    }
  }

  /**
   * A sorted, stable permutation: in order, each pair as often as it was reached, and those of one key in the order
   * they were reached in.
   */
  lemma {:induction false} SortIsStable(ascending: bool, pairs: seq<Pair>)
    requires AllPlain(pairs)
    ensures AllPlain(Sorted(ascending, pairs)) && InOrder(ascending, Sorted(ascending, pairs))
    ensures multiset(Sorted(ascending, pairs)) == multiset(pairs)
    ensures forall key :: OfKey(Sorted(ascending, pairs), key) == OfKey(pairs, key)
  {
    if pairs != [] {
      var before, y := pairs[..|pairs| - 1], pairs[|pairs| - 1];
      var placed := Sorted(ascending, before);
      SortIsStable(ascending, before);
      assert pairs == before + [y];
      PlacedIsInOrder(ascending, placed, y);
      PlacedIsAll(ascending, placed, y);
      SameAreAllPlain(Sorted(ascending, pairs), pairs);
      forall key ensures OfKey(Sorted(ascending, pairs), key) == OfKey(pairs, key) {
        PlacedIsLastOfKey(ascending, placed, y, key);
        FilterBoth(before, [y], IsOfKey(key));
        assert OfKey(placed, key) == OfKey(before, key);
      }
    }
  }

  lemma SameAreAllPlain(a: seq<Pair>, b: seq<Pair>)
    requires multiset(a) == multiset(b) && AllPlain(b)
    ensures AllPlain(a)
  {
    forall i | 0 <= i < |a| ensures Plain(a[i]) {
      assert a[i] in multiset(b);
    }
  }

  // ---- The pass after it

  function Nodes(pairs: seq<Pair>): (r: seq<NodeId>)
    ensures |r| == |pairs| && forall i | 0 <= i < |pairs| :: r[i] == pairs[i].node
  {
    seq(|pairs|, i requires 0 <= i < |pairs| => pairs[i].node)
  }

  function Distinct(list: seq<NodeId>): seq<NodeId> {
    if list == [] then []
    else
      var acc, y := Distinct(list[..|list| - 1]), list[|list| - 1];
      if y in acc then acc else acc + [y]
  }

  /** Where a node first stands. */
  function FirstAt(list: seq<NodeId>, n: NodeId): (i: nat)
    requires n in list
    ensures i < |list| && list[i] == n && forall k | 0 <= k < i :: list[k] != n
  {
    if list[0] == n then 0
    else
      assert list == [list[0]] + list[1..];
      1 + FirstAt(list[1..], n)
  }

  lemma FirstIsFirst(list: seq<NodeId>, n: NodeId, i: nat)
    requires i < |list| && list[i] == n && forall k | 0 <= k < i :: list[k] != n
    ensures FirstAt(list, n) == i
  {
  }

  lemma {:induction false} DistinctHoldsEach(list: seq<NodeId>)
    ensures forall n :: n in Distinct(list) <==> n in list
    ensures list != [] ==> Distinct(list) != [] && Distinct(list)[0] == list[0]
  {
    if list != [] {
      DistinctHoldsEach(list[..|list| - 1]);
      assert list == list[..|list| - 1] + [list[|list| - 1]];
    }
  }

  lemma FirstAtMore(list: seq<NodeId>, y: NodeId, n: NodeId)
    ensures n in list ==> FirstAt(list + [y], n) == FirstAt(list, n)
    ensures y !in list ==> FirstAt(list + [y], y) == |list|
  {
    if n in list {
      FirstIsFirst(list + [y], n, FirstAt(list, n));
    }
    if y !in list {
      FirstIsFirst(list + [y], y, |list|);
    }
  }

  /** The nodes stand in the order of their first places in the list. */
  predicate ByFirst(list: seq<NodeId>, nodes: seq<NodeId>) {
    && (forall i | 0 <= i < |nodes| :: nodes[i] in list)
    && forall i, j | 0 <= i < j < |nodes| :: FirstAt(list, nodes[i]) < FirstAt(list, nodes[j])
  }

  lemma ByFirstMore(list: seq<NodeId>, nodes: seq<NodeId>, y: NodeId)
    requires ByFirst(list, nodes)
    ensures ByFirst(list + [y], nodes)
    ensures y !in list ==> ByFirst(list + [y], nodes + [y])
  {
    forall i | 0 <= i < |nodes|
      ensures nodes[i] in list + [y] && FirstAt(list + [y], nodes[i]) == FirstAt(list, nodes[i])
    {
      FirstAtMore(list, y, nodes[i]);
    }
    FirstAtMore(list, y, y);
  }

  lemma {:induction false} DistinctByFirst(list: seq<NodeId>)
    ensures ByFirst(list, Distinct(list))
    decreases |list|
  {
    if list != [] {
      var before, y := list[..|list| - 1], list[|list| - 1];
      var nodes := Distinct(before);
      DistinctByFirst(before);
      DistinctHoldsEach(before);
      ByFirstMore(before, nodes, y);
      assert Distinct(list) == if y in nodes then nodes else nodes + [y];
      assert before + [y] == list;
    }
  }

  /** Each node once, and in the order of their first places. */
  lemma DistinctKeepsFirst(list: seq<NodeId>)
    ensures forall n :: n in Distinct(list) <==> n in list
    ensures ByFirst(list, Distinct(list))
    ensures list != [] ==> Distinct(list) != [] && Distinct(list)[0] == list[0]
  {
    DistinctHoldsEach(list);
    DistinctByFirst(list);
  }

  /** A path that holds one node holds that of a first key, the first reached of those with it. */
  lemma SingleIsOfFirstKey(ascending: bool, pairs: seq<Pair>) returns (first: Pair)
    requires AllPlain(pairs) && pairs != []
    ensures Distinct(Nodes(Sorted(ascending, pairs))) != []
    ensures Distinct(Nodes(Sorted(ascending, pairs)))[0] == first.node
    ensures OfKey(pairs, first.key) != [] && OfKey(pairs, first.key)[0] == first
    ensures forall p <- pairs :: NotAfter(ascending, first.key, p.key)
  {
    var sorted := Sorted(ascending, pairs);
    SortIsStable(ascending, pairs);
    assert |sorted| == |multiset(sorted)| == |multiset(pairs)| == |pairs|;
    first := sorted[0];
    DistinctKeepsFirst(Nodes(sorted));
    assert OfKey(sorted, first.key)[0] == first;
    EitherIsNotAfter(ascending, first, first) by {
      assert first in multiset(pairs);
    }
    forall p <- pairs ensures NotAfter(ascending, first.key, p.key) {
      assert p in multiset(sorted);
      var i :| 0 <= i < |sorted| && sorted[i] == p;
    }
  }
}
