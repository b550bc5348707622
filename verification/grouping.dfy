/**
 * Grouping a list by a key, as the admin screens do with `reduce` or
 * `forEach` into an object of arrays: the groups come in order of their
 * key's first appearance, and each group keeps its items in input order.
 */
module Grouping {
  import opened Seqs

  datatype Group<K, V> = Group(key: K, members: seq<V>)

  /** No two groups share a key. */
  predicate DistinctKeys<K(==), V>(groups: seq<Group<K, V>>)
  {
    forall i, j :: 0 <= i < j < |groups| ==> groups[i].key != groups[j].key
  }

  /** The position of the group with key `k`, or `|groups|` when there is none. */
  function IndexOfKey<K(==), V>(groups: seq<Group<K, V>>, k: K): (i: nat)
    ensures i <= |groups|
    ensures i < |groups| ==> groups[i].key == k
    ensures forall j :: 0 <= j < i ==> groups[j].key != k
  {
    if groups == [] then 0
    else if groups[0].key == k then 0
    else 1 + IndexOfKey(groups[1..], k)
  }

  /** `if (!acc[k]) acc[k] = []; acc[k].push(v)` */
  function Place<K(==), V>(groups: seq<Group<K, V>>, k: K, v: V): (r: seq<Group<K, V>>)
    ensures var i := IndexOfKey(groups, k);
      |r| == (if i < |groups| then |groups| else |groups| + 1) &&
      r[i] == Group(k, (if i < |groups| then groups[i].members else []) + [v]) &&
      forall j :: 0 <= j < |groups| && j != i ==> r[j] == groups[j]
    ensures DistinctKeys(groups) ==> DistinctKeys(r)
  {
    var i := IndexOfKey(groups, k);
    if i < |groups| then groups[i := Group(k, groups[i].members + [v])]
    else groups + [Group(k, [v])]
  }

  /** The groups after placing every item in order. */
  function GroupBy<K(==), V>(items: seq<V>, keyOf: V -> K): seq<Group<K, V>>
  {
    if items == [] then []
    else Place(GroupBy(items[..|items| - 1], keyOf), keyOf(items[|items| - 1]), items[|items| - 1])
  }

  /** The test "belongs under key `k`". */
  function HasKey<K(==), V>(keyOf: V -> K, k: K): V -> bool
  {
    v => keyOf(v) == k
  }

  /** No two groups share a key. */
  lemma {:induction false} GroupKeysDistinct<K, V>(items: seq<V>, keyOf: V -> K)
    ensures DistinctKeys(GroupBy(items, keyOf))
  {
    if items != [] {
      GroupKeysDistinct(items[..|items| - 1], keyOf);
    }
  }

  /** Each group holds exactly the items with its key, in input order. */
  lemma {:induction false} GroupMembers<K, V>(items: seq<V>, keyOf: V -> K)
    ensures forall i :: 0 <= i < |GroupBy(items, keyOf)| ==>
      GroupBy(items, keyOf)[i].members == Filter(items, HasKey(keyOf, GroupBy(items, keyOf)[i].key))
  {
    if items != [] {
      var init := items[..|items| - 1];
      var v := items[|items| - 1];
      GroupMembers(init, keyOf);
      assert items == init + [v];
      forall j | 0 <= j < |GroupBy(items, keyOf)|
        ensures GroupBy(items, keyOf)[j].members == Filter(items, HasKey(keyOf, GroupBy(items, keyOf)[j].key))
      {
        GroupMembersStep(init, v, keyOf, j);
      }
    }
  }

  lemma {:induction false} GroupMembersStep<K, V>(init: seq<V>, v: V, keyOf: V -> K, j: nat)
    requires forall i :: 0 <= i < |GroupBy(init, keyOf)| ==>
      GroupBy(init, keyOf)[i].members == Filter(init, HasKey(keyOf, GroupBy(init, keyOf)[i].key))
    requires j < |GroupBy(init + [v], keyOf)|
    ensures GroupBy(init + [v], keyOf)[j].members == Filter(init + [v], HasKey(keyOf, GroupBy(init + [v], keyOf)[j].key))
  {
    var items := init + [v];
    assert items[..|items| - 1] == init && items[|items| - 1] == v;
    var prev := GroupBy(init, keyOf);
    var groups := GroupBy(items, keyOf);
    assert groups == Place(prev, keyOf(v), v);
    var i := IndexOfKey(prev, keyOf(v));
    var test := HasKey(keyOf, groups[j].key);
    FilterAppend(init, [v], test);
    FilterSingle(v, test);
    if j != i {
      GroupKeysDistinct(init, keyOf);
      assert groups[j] == prev[j];
      assert prev[j].key != keyOf(v);
      assert prev[j].members == Filter(init, test);
    } else if i == |prev| {
      assert groups[j] == Group(keyOf(v), [v]);
      forall k | 0 <= k < |init| ensures !test(init[k]) {
        GroupCovers(init, keyOf, k);
      }
      FilterNone(init, test);
    } else {
      assert groups[j] == Group(keyOf(v), prev[i].members + [v]);
      assert prev[i].members == Filter(init, test);
    }
  }

  /** No group is empty. */
  lemma {:induction false} GroupsNonEmpty<K, V>(items: seq<V>, keyOf: V -> K)
    ensures forall i :: 0 <= i < |GroupBy(items, keyOf)| ==> GroupBy(items, keyOf)[i].members != []
  {
    if items != [] {
      GroupsNonEmpty(items[..|items| - 1], keyOf);
    }
  }

  /** Every item's key has a group. */
  lemma {:induction false} GroupCovers<K, V>(items: seq<V>, keyOf: V -> K, k: nat)
    requires k < |items|
    ensures IndexOfKey(GroupBy(items, keyOf), keyOf(items[k])) < |GroupBy(items, keyOf)|
  {
    var init := items[..|items| - 1];
    var prev := GroupBy(init, keyOf);
    var groups := GroupBy(items, keyOf);
    var i := IndexOfKey(prev, keyOf(items[|items| - 1]));
    if k < |init| {
      GroupCovers(init, keyOf, k);
      assert items[k] == init[k];
      var g := IndexOfKey(prev, keyOf(init[k]));
      assert groups[g].key == keyOf(items[k]);
    } else {
      assert groups[i].key == keyOf(items[k]);
    }
  }

  /** The `reduce` or `forEach` loop that fills the groups one item at a time. */
  method GroupItems<K(==), V>(items: seq<V>, keyOf: V -> K) returns (groups: seq<Group<K, V>>)
    ensures groups == GroupBy(items, keyOf)
  {
    groups := [];
    for n := 0 to |items|
      invariant groups == GroupBy(items[..n], keyOf)
    {
      var v := items[n];
      var k := keyOf(v);
      var i := 0;
      while i < |groups| && groups[i].key != k
        invariant 0 <= i <= |groups|
        invariant forall j :: 0 <= j < i ==> groups[j].key != k
      {
        i := i + 1;
      }
      assert i == IndexOfKey(groups, k);
      if i < |groups| {
        groups := groups[i := Group(k, groups[i].members + [v])];
      } else {
        groups := groups + [Group(k, [v])];
      }
      assert items[..n + 1][..n] == items[..n];
    }
    assert items[..|items|] == items;
  }
}
