/**
 * The administrator's health check: pages that share a title (except an
 * automotive and a heavy-duty page of the same name), filter types whose
 * linked page slug belongs to no page, the critical pages that are missing,
 * and how many filter types have no page slug. The session check, the
 * database queries and the connection test are inputs.
 */
module HealthCheck {
  import opened Text
  import opened Seqs
  import opened Grouping

  datatype Page = Page(id: string, title: string, slug: string)

  datatype FilterType = FilterType(name: string, pageSlug: Option<string>, category: string)

  /** The connection test: connected, or the error's message. */
  datatype Database = Connected | DatabaseError(message: string)

  datatype Report = Report(
    database: Database,
    duplicates: seq<Group<string, Page>>,
    orphaned: seq<FilterType>,
    missing: seq<string>,
    criticalOk: bool,
    withoutPageSlug: nat,
    total: nat)

  datatype Response = Unauthorized | HealthReport(report: Report)

  const Automotive: string := "automotive"
  const HeavyDuty: string := "heavy-duty"

  const CriticalPages: seq<string> := ["home", "about-us", "contact-us", "industries", "heavy-duty", "automotive"]

  function TitleOf(p: Page): string { p.title }

  // ---------------------------------------------------------------------
  // Duplicate titles
  // ---------------------------------------------------------------------

  /** `slug.split('/')[0]`: the slug up to its first '/'. */
  function Category(slug: string): (c: string)
    ensures '/' !in c && |c| <= |slug| && c == slug[..|c|]
    ensures |c| < |slug| ==> slug[|c|] == '/'
  {
    FirstPartShape(slug, '/');
    Split(slug, '/')[0]
  }

  function Categories(pages: seq<Page>): (cats: seq<string>)
    ensures |cats| == |pages|
    ensures forall k :: 0 <= k < |pages| ==> cats[k] == Category(pages[k].slug)
  {
    seq(|pages|, k requires 0 <= k < |pages| => Category(pages[k].slug))
  }

  predicate IsProductLine(c: string) { c == Automotive || c == HeavyDuty }

  /**
   * A title group is reported when it has several pages, unless their first
   * slug segments are all different and each is automotive or heavy-duty.
   */
  predicate IsDuplicate(pages: seq<Page>)
  {
    var unique := InsertAll([], Categories(pages));
    |pages| > 1 &&
    !(|unique| == |pages| && forall k :: 0 <= k < |unique| ==> IsProductLine(unique[k]))
  }

  /**
   * So a group escapes the report only when it is exactly one automotive and
   * one heavy-duty page; three or more pages with one title always are reported.
   */
  lemma DuplicateRule(pages: seq<Page>)
    ensures IsDuplicate(pages) <==>
      (|pages| > 1 &&
       !(|pages| == 2 && IsProductLine(Category(pages[0].slug)) && IsProductLine(Category(pages[1].slug)) &&
         Category(pages[0].slug) != Category(pages[1].slug)))
  {
    var cats := Categories(pages);
    UniqueCategories(cats);
    if NoDuplicates(cats) && forall k :: 0 <= k < |cats| ==> IsProductLine(cats[k]) {
      AtMostTwoLines(cats);
    }
  }

  /** `[...new Set(cats)]` is as long as `cats` and all product lines exactly when `cats` is. */
  lemma UniqueCategories(cats: seq<string>)
    ensures var unique := InsertAll([], cats);
      (|unique| == |cats| && forall k :: 0 <= k < |unique| ==> IsProductLine(unique[k])) <==>
      (NoDuplicates(cats) && forall k :: 0 <= k < |cats| ==> IsProductLine(cats[k]))
  {
    var unique := InsertAll([], cats);
    InsertAllLength([], cats);
    InsertAllMembers([], cats);
    assert [] + cats == cats;
    if forall k :: 0 <= k < |unique| ==> IsProductLine(unique[k]) {
      forall k | 0 <= k < |cats| ensures IsProductLine(cats[k]) {
        assert cats[k] in unique;
      }
    }
    if forall k :: 0 <= k < |cats| ==> IsProductLine(cats[k]) {
      forall k | 0 <= k < |unique| ensures IsProductLine(unique[k]) {
        assert unique[k] in cats;
      }
    }
  }

  /** Distinct product lines number at most two. */
  lemma AtMostTwoLines(cats: seq<string>)
    requires NoDuplicates(cats) && forall k :: 0 <= k < |cats| ==> IsProductLine(cats[k])
    ensures |cats| <= 2
  {
    assert |cats| > 2 ==> IsProductLine(cats[0]) && IsProductLine(cats[1]) && IsProductLine(cats[2]);
  }

  function IsDuplicateGroup(g: Group<string, Page>): bool
  {
    IsDuplicate(g.members)
  }

  /** The reported title groups, in order of each title's first page. */
  function Duplicates(pages: seq<Page>): seq<Group<string, Page>>
  {
    Filter(GroupBy(pages, TitleOf), IsDuplicateGroup)
  }

  /** A reported group is a title shared by several pages, and holds every page with that title. */
  lemma DuplicatesCharacterised(pages: seq<Page>, g: Group<string, Page>)
    requires g in Duplicates(pages)
    ensures |g.members| > 1 && IsDuplicate(g.members)
    ensures g.members == Filter(pages, HasKey(TitleOf, g.key))
  {
    var groups := GroupBy(pages, TitleOf);
    GroupMembers(pages, TitleOf);
    assert g in groups;
  }

  // ---------------------------------------------------------------------
  // Orphans, missing pages, counts
  // ---------------------------------------------------------------------

  function Slugs(pages: seq<Page>): (slugs: set<string>)
    ensures forall s :: s in slugs <==> exists k :: 0 <= k < |pages| && pages[k].slug == s
  {
    set k | 0 <= k < |pages| :: pages[k].slug
  }

  /** The filter types that have a page slug (the second query) whose slug is no page's. */
  function IsOrphan(slugs: set<string>): FilterType -> bool
  {
    (ft: FilterType) => ft.pageSlug.Some? && ft.pageSlug.value !in slugs
  }

  function Orphaned(filterTypes: seq<FilterType>, pages: seq<Page>): seq<FilterType>
  {
    Filter(filterTypes, IsOrphan(Slugs(pages)))
  }

  /** A filter type is reported exactly when it links a page slug that no page has; the order is kept. */
  lemma OrphanedCharacterised(filterTypes: seq<FilterType>, pages: seq<Page>, ft: FilterType)
    ensures ft in Orphaned(filterTypes, pages) <==>
      ft in filterTypes && ft.pageSlug.Some? && forall k :: 0 <= k < |pages| ==> pages[k].slug != ft.pageSlug.value
    ensures IsSubsequence(Orphaned(filterTypes, pages), filterTypes)
  {
    FilterIsSubsequence(filterTypes, IsOrphan(Slugs(pages)));
    if ft in filterTypes && ft.pageSlug.Some? && forall k :: 0 <= k < |pages| ==> pages[k].slug != ft.pageSlug.value {
      var i :| 0 <= i < |filterTypes| && filterTypes[i] == ft;
      assert IsOrphan(Slugs(pages))(filterTypes[i]);
    }
  }

  function IsMissing(slugs: set<string>): string -> bool
  {
    (s: string) => s !in slugs
  }

  /** The critical slugs that no page has, in the list's order. */
  function MissingPages(pages: seq<Page>): seq<string>
  {
    Filter(CriticalPages, IsMissing(Slugs(pages)))
  }

  /** Nothing is missing exactly when every critical slug is some page's slug. */
  lemma MissingCharacterised(pages: seq<Page>)
    ensures forall s :: s in MissingPages(pages) <==> s in CriticalPages && forall k :: 0 <= k < |pages| ==> pages[k].slug != s
    ensures MissingPages(pages) == [] <==>
      forall c :: c in CriticalPages ==> exists k :: 0 <= k < |pages| && pages[k].slug == c
    ensures IsSubsequence(MissingPages(pages), CriticalPages)
  {
    FilterIsSubsequence(CriticalPages, IsMissing(Slugs(pages)));
    forall s | s in CriticalPages && forall k :: 0 <= k < |pages| ==> pages[k].slug != s
      ensures s in MissingPages(pages)
    {
      var i :| 0 <= i < |CriticalPages| && CriticalPages[i] == s;
      assert IsMissing(Slugs(pages))(CriticalPages[i]);
    }
    if MissingPages(pages) != [] {
      assert MissingPages(pages)[0] in MissingPages(pages);
    }
  }

  /** `!ft.pageSlug`: no slug, or an empty one. */
  function LacksPageSlug(ft: FilterType): bool
  {
    ft.pageSlug.None? || ft.pageSlug.value == ""
  }

  /** The count of filter types without a page slug: one for each such position, never more than the total. */
  function WithoutPageSlug(filterTypes: seq<FilterType>): (n: nat)
    ensures n == |set k: nat | k < |filterTypes| && LacksPageSlug(filterTypes[k])|
    ensures n <= |filterTypes|
  {
    FilterCountsPositions(filterTypes, LacksPageSlug);
    assert Positions(filterTypes, LacksPageSlug) == set k: nat | k < |filterTypes| && LacksPageSlug(filterTypes[k]);
    |Filter(filterTypes, LacksPageSlug)|
  }

  /** The count is zero exactly when every filter type has a non-empty page slug. */
  lemma WithoutPageSlugZero(filterTypes: seq<FilterType>)
    ensures WithoutPageSlug(filterTypes) == 0 <==> forall k :: 0 <= k < |filterTypes| ==> !LacksPageSlug(filterTypes[k])
  {
    var r := Filter(filterTypes, LacksPageSlug);
    if r != [] {
      assert r[0] in r;
    }
  }

  /** GET: 401 without a session; otherwise the four checks over the pages and filter types. */
  method Check(signedIn: bool, database: Database, pages: seq<Page>, filterTypes: seq<FilterType>)
    returns (response: Response)
    ensures !signedIn <==> response == Unauthorized
    ensures signedIn ==> response == HealthReport(Report(
      database, Duplicates(pages), Orphaned(filterTypes, pages), MissingPages(pages),
      MissingPages(pages) == [], WithoutPageSlug(filterTypes), |filterTypes|))
  {
    if !signedIn {
      return Unauthorized;
    }
    var groups := GroupItems(pages, TitleOf);
    var missing := MissingPages(pages);
    var report := Report(
      database, Filter(groups, IsDuplicateGroup), Orphaned(filterTypes, pages), missing,
      |missing| == 0, WithoutPageSlug(filterTypes), |filterTypes|);
    return HealthReport(report);
  }
}
