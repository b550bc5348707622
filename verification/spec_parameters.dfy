/**
 * The specification-parameter list of the admin area: parameters are grouped
 * by category (a missing or empty category counts as "Uncategorized"), and the
 * groups are shown with Dimensions, Performance, Physical and Uncategorized
 * first, in that order, then every other category in string order.
 */
module SpecParameters {
  import opened Text
  import opened Seqs
  import opened Grouping

  datatype SpecParameter = SpecParameter(id: string, name: string, category: Option<string>, position: int, isActive: bool)

  const Uncategorized: string := "Uncategorized"

  /** `param.category || 'Uncategorized'` */
  function CategoryKey(p: SpecParameter): (k: string)
    ensures p.category.Some? && p.category.value != "" ==> k == p.category.value
    ensures !(p.category.Some? && p.category.value != "") ==> k == Uncategorized
  {
    if p.category.Some? && p.category.value != "" then p.category.value else Uncategorized
  }

  /**
   * The key is never empty, and a parameter lands under 'Uncategorized'
   * exactly when its category is missing, empty or 'Uncategorized' itself.
   */
  lemma UncategorizedMerged(p: SpecParameter)
    ensures CategoryKey(p) != ""
    ensures CategoryKey(p) == Uncategorized <==>
      p.category.None? || p.category == Some("") || p.category == Some(Uncategorized)
  {
  }

  /** `groupedParameters`: one group per category key, in order of first appearance. */
  function GroupedParameters(params: seq<SpecParameter>): seq<Group<string, SpecParameter>>
  {
    GroupBy(params, CategoryKey)
  }

  /**
   * Every parameter is in exactly one group, the one of its category key; the
   * groups have distinct keys and keep the parameters in input order.
   */
  lemma GroupedExactlyOnce(params: seq<SpecParameter>)
    ensures DistinctKeys(GroupedParameters(params))
    ensures forall j :: 0 <= j < |GroupedParameters(params)| ==>
      GroupedParameters(params)[j].members == Filter(params, HasKey(CategoryKey, GroupedParameters(params)[j].key))
    ensures forall k, j :: 0 <= k < |params| && 0 <= j < |GroupedParameters(params)| ==>
      (params[k] in GroupedParameters(params)[j].members <==> GroupedParameters(params)[j].key == CategoryKey(params[k]))
    ensures forall k :: 0 <= k < |params| ==>
      exists j :: 0 <= j < |GroupedParameters(params)| && GroupedParameters(params)[j].key == CategoryKey(params[k])
  {
    var groups := GroupedParameters(params);
    GroupKeysDistinct(params, CategoryKey);
    GroupMembers(params, CategoryKey);
    forall k, j | 0 <= k < |params| && 0 <= j < |groups|
      ensures params[k] in groups[j].members <==> groups[j].key == CategoryKey(params[k])
    {
      var test := HasKey(CategoryKey, groups[j].key);
      if params[k] in groups[j].members {
        var m :| 0 <= m < |groups[j].members| && groups[j].members[m] == params[k];
        assert test(groups[j].members[m]);
      }
    }
    forall k | 0 <= k < |params|
      ensures exists j :: 0 <= j < |groups| && groups[j].key == CategoryKey(params[k])
    {
      GroupCovers(params, CategoryKey, k);
    }
  }

  // ---------------------------------------------------------------------
  // The order of the categories
  // ---------------------------------------------------------------------

  /** `categoryOrder`: the categories shown first, in this order. */
  const ListedCategories: seq<string> := ["Dimensions", "Performance", "Physical", Uncategorized]

  /** `categoryOrder.indexOf(c)`, with 4 standing for -1 (not listed). */
  function Rank(c: string): (r: nat)
    ensures r <= 4
    ensures r < 4 ==> ListedCategories[r] == c
    ensures r == 4 <==> c !in ListedCategories
  {
    if c == "Dimensions" then 0
    else if c == "Performance" then 1
    else if c == "Physical" then 2
    else if c == Uncategorized then 3
    else 4
  }

  /** `a.localeCompare(b) < 0`, as lexicographic order of code points (neither locale collation nor UTF-16 code-unit order). */
  predicate StrLess(a: string, b: string)
  {
    if a == [] then b != []
    else if b == [] then false
    else if a[0] != b[0] then a[0] < b[0]
    else StrLess(a[1..], b[1..])
  }

  /**
   * The order is by code point: U+FF01 comes before U+1F600 here, whereas
   * comparing UTF-16 code units puts U+1F600 (0xD83D 0xDE00) first.
   */
  lemma StrLessByCodePoint()
    ensures StrLess("\U{FF01}", "\U{1F600}") && !StrLess("\U{1F600}", "\U{FF01}")
  {
  }

  lemma {:induction false} StrLessIrreflexive(a: string)
    ensures !StrLess(a, a)
  {
    if a != [] {
      StrLessIrreflexive(a[1..]);
    }
  }

  lemma {:induction false} StrLessTransitive(a: string, b: string, c: string)
    requires StrLess(a, b) && StrLess(b, c)
    ensures StrLess(a, c)
  {
    if a != [] && b != [] && c != [] && a[0] == b[0] && b[0] == c[0] {
      StrLessTransitive(a[1..], b[1..], c[1..]);
    }
  }

  lemma {:induction false} StrLessTotal(a: string, b: string)
    requires a != b
    ensures StrLess(a, b) || StrLess(b, a)
  {
    if a != [] && b != [] && a[0] == b[0] {
      assert a == [a[0]] + a[1..] && b == [b[0]] + b[1..];
      StrLessTotal(a[1..], b[1..]);
    }
  }

  /** The comparator's answer "a goes before b": by rank when either is listed, else by string order. */
  predicate Before(a: string, b: string)
  {
    if Rank(a) == 4 && Rank(b) == 4 then StrLess(a, b) else Rank(a) < Rank(b)
  }

  lemma BeforeIrreflexive(a: string)
    ensures !Before(a, a)
  {
    StrLessIrreflexive(a);
  }

  lemma BeforeTransitive(a: string, b: string, c: string)
    requires Before(a, b) && Before(b, c)
    ensures Before(a, c)
  {
    if Rank(a) == 4 && Rank(b) == 4 && Rank(c) == 4 {
      StrLessTransitive(a, b, c);
    }
  }

  /** Two different categories are always ordered one way or the other. */
  lemma BeforeTotal(a: string, b: string)
    requires a != b
    ensures Before(a, b) || Before(b, a)
  {
    if Rank(a) == 4 && Rank(b) == 4 {
      StrLessTotal(a, b);
    }
  }

  /** Every category goes before every later one. */
  predicate SortedCategories(s: seq<string>)
  {
    forall i, j :: 0 <= i < j < |s| ==> Before(s[i], s[j])
  }

  /** One category put into a sorted list at its place. */
  function InsertCategory(c: string, s: seq<string>): seq<string>
  {
    if s == [] then [c]
    else if Before(c, s[0]) then [c] + s
    else [s[0]] + InsertCategory(c, s[1..])
  }

  lemma {:induction false} InsertCategorySorted(c: string, s: seq<string>)
    requires SortedCategories(s) && c !in s
    ensures SortedCategories(InsertCategory(c, s))
    ensures multiset(InsertCategory(c, s)) == multiset(s) + multiset{c}
  {
    if s == [] {
      assert InsertCategory(c, s) == [c];
    } else if Before(c, s[0]) {
      forall j | 0 <= j < |s| ensures Before(c, s[j]) {
        if j > 0 {
          BeforeTransitive(c, s[0], s[j]);
        }
      }
      SortedCons(c, s);
      assert InsertCategory(c, s) == [c] + s;
    } else {
      BeforeTotal(c, s[0]);
      var t := s[1..];
      assert s == [s[0]] + t;
      assert SortedCategories(t);
      InsertCategorySorted(c, t);
      var rest := InsertCategory(c, t);
      forall j | 0 <= j < |rest| ensures Before(s[0], rest[j]) {
        assert rest[j] in multiset(t) + multiset{c};
        if rest[j] != c {
          var m :| 0 <= m < |t| && t[m] == rest[j];
          assert s[m + 1] == rest[j];
        }
      }
      SortedCons(s[0], rest);
      assert InsertCategory(c, s) == [s[0]] + rest;
    }
  }

  /** A category before every entry of a sorted list can go in front of it. */
  lemma {:induction false} SortedCons(x: string, s: seq<string>)
    requires SortedCategories(s)
    requires forall j :: 0 <= j < |s| ==> Before(x, s[j])
    ensures SortedCategories([x] + s)
  {
    var r := [x] + s;
    forall i, j | 0 <= i < j < |r| ensures Before(r[i], r[j]) {
      assert r[j] == s[j - 1];
      if i > 0 {
        assert r[i] == s[i - 1];
      }
    }
  }

  /** `Object.keys(groupedParameters).sort(...)` on distinct keys, by insertion. */
  function SortCategories(keys: seq<string>): (r: seq<string>)
  {
    if keys == [] then [] else InsertCategory(keys[0], SortCategories(keys[1..]))
  }

  /** The sorted categories are the same categories, each category before every later one. */
  lemma {:induction false} SortCategoriesCorrect(keys: seq<string>)
    requires NoDuplicates(keys)
    ensures SortedCategories(SortCategories(keys))
    ensures multiset(SortCategories(keys)) == multiset(keys)
  {
    if keys != [] {
      assert NoDuplicates(keys[1..]);
      SortCategoriesCorrect(keys[1..]);
      assert keys == [keys[0]] + keys[1..];
      assert keys[0] !in keys[1..];
      assert keys[0] !in multiset(SortCategories(keys[1..]));
      InsertCategorySorted(keys[0], SortCategories(keys[1..]));
    }
  }

  /**
   * In a sorted list the listed categories come first, in the order
   * Dimensions, Performance, Physical, Uncategorized, and the rest follow in
   * string order.
   */
  lemma ListedFirst(s: seq<string>, i: nat, j: nat)
    requires SortedCategories(s) && i < j < |s|
    ensures Rank(s[j]) < 4 ==> Rank(s[i]) < Rank(s[j])
    ensures Rank(s[i]) == 4 ==> Rank(s[j]) == 4 && StrLess(s[i], s[j])
  {
    assert Before(s[i], s[j]);
  }

  /** The keys of the groups, in group order. */
  function GroupKeys(groups: seq<Group<string, SpecParameter>>): (keys: seq<string>)
    ensures |keys| == |groups|
    ensures forall i :: 0 <= i < |groups| ==> keys[i] == groups[i].key
  {
    seq(|groups|, i requires 0 <= i < |groups| => groups[i].key)
  }

  /** `sortedCategories`: the categories present, in display order. */
  function CategoryOrder(params: seq<SpecParameter>): seq<string>
  {
    SortCategories(GroupKeys(GroupedParameters(params)))
  }

  /** The displayed categories are exactly the groups' categories, each once, in display order. */
  lemma CategoryOrderCorrect(params: seq<SpecParameter>)
    ensures SortedCategories(CategoryOrder(params))
    ensures multiset(CategoryOrder(params)) == multiset(GroupKeys(GroupedParameters(params)))
    ensures forall k :: 0 <= k < |params| ==> CategoryKey(params[k]) in CategoryOrder(params)
  {
    var groups := GroupedParameters(params);
    var keys := GroupKeys(groups);
    GroupedExactlyOnce(params);
    assert NoDuplicates(keys);
    SortCategoriesCorrect(keys);
    forall k | 0 <= k < |params| ensures CategoryKey(params[k]) in CategoryOrder(params) {
      var j :| 0 <= j < |groups| && groups[j].key == CategoryKey(params[k]);
      assert keys[j] in multiset(keys);
    }
  }
}
