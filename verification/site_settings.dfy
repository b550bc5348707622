/**
 * The site settings loader: a one-minute cache of the settings row (used only
 * in production), its reset after an edit, and the helpers that read the
 * header navigation, the footer and the active redirect rules out of it. The
 * database query and the clock are inputs.
 */
module SiteSettings {
  import opened Text
  import opened Seqs
  import opened RedirectRules

  /** How long loaded settings are reused, in milliseconds. */
  const CacheDuration: int := 60000

  /** A header navigation entry as stored (`label` is the field `title` here). */
  datatype NavItem = NavItem(title: string, url: string, order: int, isActive: bool)

  /** The footer content object, as key/value text. */
  type Footer = map<string, string>

  /**
   * The settings object. `texts` holds the optional text settings (titles,
   * descriptions, images, analytics ids); a setting that is not set is absent.
   */
  datatype Settings = Settings(
    texts: map<string, string>,
    seoRobotsBlock: Option<bool>,
    redirects: Option<seq<RedirectRule>>,
    headerNavigation: Option<seq<NavItem>>,
    footerContent: Option<Footer>)

  /** The stored settings row; text columns may hold empty strings. */
  datatype SettingsRow = SettingsRow(
    texts: map<string, string>,
    seoRobotsBlock: Option<bool>,
    redirects: Option<seq<RedirectRule>>,
    headerNavigation: Option<seq<NavItem>>,
    footerContent: Option<Footer>)

  /** The outcome of the settings query. */
  datatype Query = Failed | NoRow | Found(row: SettingsRow)

  /** `{ headerNavigation: [], footerContent: {} }` */
  const EmptySettings: Settings := Settings(map[], None, None, Some([]), Some(map[]))

  /** `column || undefined` for every text column: empty text becomes "not set". */
  function ParseTexts(texts: map<string, string>): (r: map<string, string>)
    ensures forall k :: k in r <==> k in texts && texts[k] != ""
    ensures forall k :: k in r ==> r[k] == texts[k]
  {
    map k | k in texts && texts[k] != "" :: texts[k]
  }

  function ParseRow(row: SettingsRow): (s: Settings)
    ensures s.texts == ParseTexts(row.texts)
    ensures s.redirects == row.redirects && s.headerNavigation == row.headerNavigation
    ensures s.footerContent == row.footerContent && s.seoRobotsBlock == row.seoRobotsBlock
  {
    Settings(ParseTexts(row.texts), row.seoRobotsBlock, row.redirects, row.headerNavigation, row.footerContent)
  }

  /** Whether no text setting is empty, as holds for every parsed row. */
  predicate NoEmptyTexts(s: Settings)
  {
    forall k :: k in s.texts ==> s.texts[k] != ""
  }

  /** The row that stores `s` column for column. */
  function RowOf(s: Settings): SettingsRow
  {
    SettingsRow(s.texts, s.seoRobotsBlock, s.redirects, s.headerNavigation, s.footerContent)
  }

  /**
   * Parsed settings never hold an empty text, and storing settings without
   * empty texts and parsing the row gives them back.
   */
  lemma ParseRowRoundTrip(row: SettingsRow, s: Settings)
    ensures NoEmptyTexts(ParseRow(row))
    ensures NoEmptyTexts(s) ==> ParseRow(RowOf(s)) == s
    ensures ParseRow(RowOf(ParseRow(row))) == ParseRow(row)
  {
    if NoEmptyTexts(s) {
      assert ParseTexts(s.texts) == s.texts;
    }
    var p := ParseRow(row);
    assert ParseTexts(p.texts) == p.texts;
  }

  /** The module-level `cachedSettings` and `cacheTimestamp`. */
  class SettingsCache {
    var cached: Option<Settings>
    var timestamp: int

    constructor ()
      ensures cached == None && timestamp == 0
    {
      cached := None;
      timestamp := 0;
    }

    /** Whether a call at `now` is answered from the cache. */
    predicate Serves(isProduction: bool, now: int)
      reads this
    {
      isProduction && cached.Some? && now - timestamp < CacheDuration
    }

    /** clearSiteSettingsCache */
    method Clear()
      modifies this
      ensures cached == None && timestamp == 0
      ensures !Serves(true, 0)
    {
      cached := None;
      timestamp := 0;
    }

    /**
     * getSiteSettings at time `now`; `query` is the outcome of the settings
     * query (asked only when the cache does not answer) and `doneAt` the time
     * when it returned. Only a found row is cached; a failure or a missing row
     * yields the empty settings.
     */
    method GetSiteSettings(isProduction: bool, now: int, query: Query, doneAt: int) returns (s: Settings)
      modifies this
      ensures old(Serves(isProduction, now)) ==>
        s == old(cached).value && cached == old(cached) && timestamp == old(timestamp)
      ensures !old(Serves(isProduction, now)) && query.Found? ==>
        s == ParseRow(query.row) && cached == Some(s) && timestamp == doneAt
      ensures !old(Serves(isProduction, now)) && !query.Found? ==>
        s == EmptySettings && cached == old(cached) && timestamp == old(timestamp)
    {
      if isProduction && cached.Some? && now - timestamp < CacheDuration {
        return cached.value;
      }
      if query.Failed? || query.NoRow? {
        return EmptySettings;
      }
      s := ParseRow(query.row);
      cached := Some(s);
      timestamp := doneAt;
    }
  }

  /** Outside production the cache never answers, whatever it holds. */
  lemma DevelopmentNeverCached(cache: SettingsCache, now: int)
    ensures !cache.Serves(false, now)
  {
  }

  // ---------------------------------------------------------------------
  // Navigation
  // ---------------------------------------------------------------------

  predicate IsActiveItem(item: NavItem) { item.isActive }

  /** Ascending by `order`. */
  predicate SortedByOrder(items: seq<NavItem>)
  {
    forall i, j :: 0 <= i < j < |items| ==> items[i].order <= items[j].order
  }

  /** Inserts `x` after every entry whose order is not larger (so equal orders keep their arrival order). */
  function InsertByOrder(sorted: seq<NavItem>, x: NavItem): (r: seq<NavItem>)
    ensures multiset(r) == multiset(sorted) + multiset{x}
    ensures |r| == |sorted| + 1
  {
    if sorted == [] then [x]
    else if sorted[|sorted| - 1].order <= x.order then sorted + [x]
    else
      var init := sorted[..|sorted| - 1];
      assert sorted == init + [sorted[|sorted| - 1]];
      InsertByOrder(init, x) + [sorted[|sorted| - 1]]
  }

  /** `items.sort((a, b) => a.order - b.order)`, stable as `Array.prototype.sort` is (see SortKeepsTies). */
  function SortByOrder(items: seq<NavItem>): (r: seq<NavItem>)
    ensures multiset(r) == multiset(items)
    ensures |r| == |items|
  {
    if items == [] then []
    else
      var init := items[..|items| - 1];
      assert items == init + [items[|items| - 1]];
      InsertByOrder(SortByOrder(init), items[|items| - 1])
  }

  lemma {:induction false} InsertKeepsSorted(sorted: seq<NavItem>, x: NavItem)
    requires SortedByOrder(sorted)
    ensures SortedByOrder(InsertByOrder(sorted, x))
  {
    if sorted != [] && sorted[|sorted| - 1].order > x.order {
      var init := sorted[..|sorted| - 1];
      var last := sorted[|sorted| - 1];
      InsertKeepsSorted(init, x);
      var r := InsertByOrder(init, x);
      forall k | 0 <= k < |r| ensures r[k].order <= last.order {
        assert r[k] in multiset(r);
        assert r[k] in multiset(init) + multiset{x};
        if r[k] != x {
          assert r[k] in init;
        }
      }
    }
  }

  /** The sorted list is ascending by order. */
  lemma {:induction false} SortIsSorted(items: seq<NavItem>)
    ensures SortedByOrder(SortByOrder(items))
  {
    if items != [] {
      SortIsSorted(items[..|items| - 1]);
      InsertKeepsSorted(SortByOrder(items[..|items| - 1]), items[|items| - 1]);
    }
  }

  /** The test "has this order". */
  function HasOrder(v: int): NavItem -> bool
  {
    (item: NavItem) => item.order == v
  }

  /** Inserting keeps the items of each order in arrival order, the inserted one after those of its order. */
  lemma {:induction false} InsertKeepsTies(sorted: seq<NavItem>, x: NavItem, v: int)
    ensures Filter(InsertByOrder(sorted, x), HasOrder(v)) == Filter(sorted, HasOrder(v)) + Filter([x], HasOrder(v))
  {
    FilterSingle(x, HasOrder(v));
    if sorted == [] {
      assert Filter(sorted, HasOrder(v)) == [];
    } else if sorted[|sorted| - 1].order <= x.order {
      FilterAppend(sorted, [x], HasOrder(v));
    } else {
      var init, last := sorted[..|sorted| - 1], sorted[|sorted| - 1];
      assert sorted == init + [last];
      assert InsertByOrder(sorted, x) == InsertByOrder(init, x) + [last];
      InsertKeepsTies(init, x, v);
      FilterAppend(InsertByOrder(init, x), [last], HasOrder(v));
      FilterAppend(init, [last], HasOrder(v));
      FilterSingle(last, HasOrder(v));
    }
  }

  /**
   * The sort is stable: the items of each order come out in the order they
   * came in.
   */
  lemma {:induction false} SortKeepsTies(items: seq<NavItem>, v: int)
    ensures Filter(SortByOrder(items), HasOrder(v)) == Filter(items, HasOrder(v))
  {
    if items != [] {
      var init, last := items[..|items| - 1], items[|items| - 1];
      assert items == init + [last];
      SortKeepsTies(init, v);
      InsertKeepsTies(SortByOrder(init), last, v);
      FilterAppend(init, [last], HasOrder(v));
    }
  }

  lemma SortKeepsAllTies(items: seq<NavItem>)
    ensures forall v :: Filter(SortByOrder(items), HasOrder(v)) == Filter(items, HasOrder(v))
  {
    forall v {
      SortKeepsTies(items, v);
    }
  }

  /** getHeaderNavigation: the active items, ascending by order; none when navigation is unset. */
  function HeaderNavigation(s: Settings): (r: seq<NavItem>)
    ensures s.headerNavigation.None? ==> r == []
    ensures s.headerNavigation.Some? ==>
      multiset(r) == multiset(Filter(s.headerNavigation.value, IsActiveItem))
    ensures forall k :: 0 <= k < |r| ==> r[k].isActive
    ensures SortedByOrder(r)
    ensures s.headerNavigation.Some? ==> forall v :: Filter(r, HasOrder(v)) == Filter(Filter(s.headerNavigation.value, IsActiveItem), HasOrder(v))
  {
    if s.headerNavigation.None? then []
    else
      var active := Filter(s.headerNavigation.value, IsActiveItem);
      SortIsSorted(active);
      SortKeepsAllTies(active);
      var r := SortByOrder(active);
      assert forall k :: 0 <= k < |r| ==> r[k] in multiset(active);
      r
  }

  /** getFooterContent: the footer, or an empty object when unset. */
  function FooterContent(s: Settings): (r: Footer)
    ensures s.footerContent.None? ==> r == map[]
    ensures s.footerContent.Some? ==> r == s.footerContent.value
  {
    if s.footerContent.Some? then s.footerContent.value else map[]
  }

  /** The footer read is empty exactly when the footer is unset or stored as an empty object. */
  lemma FooterUnsetLikeEmpty(s: Settings)
    ensures FooterContent(s) == map[] <==> s.footerContent.None? || s.footerContent == Some(map[])
  {
  }

  // ---------------------------------------------------------------------
  // Redirects
  // ---------------------------------------------------------------------

  predicate IsActiveRule(r: RedirectRule) { r.isActive }

  /** getActiveRedirects: exactly the active rules, in their stored order. */
  function ActiveRedirects(s: Settings): (r: seq<RedirectRule>)
    ensures forall k :: 0 <= k < |r| ==> r[k].isActive
    ensures s.redirects.None? ==> r == []
    ensures s.redirects.Some? ==>
      IsSubsequence(r, s.redirects.value) &&
      forall k :: 0 <= k < |s.redirects.value| && s.redirects.value[k].isActive ==> s.redirects.value[k] in r
  {
    var rules := if s.redirects.Some? then s.redirects.value else [];
    FilterIsSubsequence(rules, IsActiveRule);
    Filter(rules, IsActiveRule)
  }

  /** When the query fails, navigation and footer come back empty. */
  lemma FailureGivesEmpty()
    ensures HeaderNavigation(EmptySettings) == [] && FooterContent(EmptySettings) == map[]
    ensures ActiveRedirects(EmptySettings) == []
  {
  }
}
