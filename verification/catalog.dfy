/**
 * The product catalog browser: a text query, three multi-select facets
 * (type, industry, make) and a height range narrow the catalog items; the
 * result is paged. Two variants exist: the client component reads the height
 * bounds with `parseInt` and may compute zero pages, the catalog page reads
 * them with `Number`, ignores an empty bound and always has at least one page.
 */
module Catalog {
  import opened Text
  import opened Seqs

  datatype CatalogItem = CatalogItem(
    code: string, name: string, kind: string, industry: string, make: string,
    heightMm: int, image: string)

  /** The filter inputs as typed: the query, the facet selections, the height bounds as text. */
  datatype Filters = Filters(
    query: string, types: seq<string>, industries: seq<string>, makes: seq<string>,
    minHeight: string, maxHeight: string)

  /**
   * How a height bound is read from its input text: `parseInt(text, 10)` on
   * the client, `Number(text)` on the page. What `Number` makes of each text
   * (`None` for NaN) is the parameter `number`.
   */
  datatype BoundReading = ParseIntReading | NumberReading(number: string -> Option<real>)

  datatype Facet = Types | Industries | Makes

  /** The browser's state: filters, current page and page size. */
  datatype Browser = Browser(filters: Filters, page: int, pageSize: int)

  const NoFilters: Filters := Filters("", [], [], [], "", "")

  // ---------------------------------------------------------------------
  // Filtering
  // ---------------------------------------------------------------------

  /** The lowercase name or code contains the (lowercase, trimmed) query. */
  predicate MatchesQuery(item: CatalogItem, q: string)
  {
    Contains(Lower(item.name), q) || Contains(Lower(item.code), q)
  }

  /** An empty selection admits everything; a non-empty one requires membership. */
  predicate Admits(selected: seq<string>, value: string)
  {
    |selected| == 0 || value in selected
  }

  /**
   * The height bound a text input imposes, if any. `parseInt` reads a leading
   * integer and yields NaN (no bound) without digits; on the page a NaN
   * number skips the bound, and so does the empty text, which `Number` reads
   * as 0 but the filter's `=== ''` test lets everything through.
   */
  function Bound(reading: BoundReading, text: string): (b: Option<real>)
    ensures reading.ParseIntReading? ==> (b.Some? <==> ParseInt(text).Some?)
    ensures reading.ParseIntReading? && b.Some? ==> b.value == ParseInt(text).value as real
    ensures reading.NumberReading? ==> (b.Some? <==> text != "" && reading.number(text).Some?)
    ensures reading.NumberReading? && b.Some? ==> b == reading.number(text)
  {
    match reading
    case ParseIntReading => if ParseInt(text).Some? then Some(ParseInt(text).value as real) else None
    case NumberReading(number) => if text == "" then None else number(text)
  }

  /** Every condition an item must meet, stated at once. */
  predicate Keeps(reading: BoundReading, f: Filters, item: CatalogItem)
  {
    FacetKeeps(Trim(f.query), f, item) && WithinBounds(Bound(reading, f.minHeight), Bound(reading, f.maxHeight), item)
  }

  /** The query (already trimmed) and facet conditions. */
  predicate FacetKeeps(trimmed: string, f: Filters, item: CatalogItem)
  {
    (trimmed == [] || MatchesQuery(item, Lower(trimmed))) &&
    Admits(f.types, item.kind) && Admits(f.industries, item.industry) && Admits(f.makes, item.make)
  }

  /** The height conditions; an absent bound imposes nothing. */
  predicate WithinBounds(lo: Option<real>, hi: Option<real>, item: CatalogItem)
  {
    (lo.None? || item.heightMm as real >= lo.value) && (hi.None? || item.heightMm as real <= hi.value)
  }

  /** One filter pass, applied only when its condition is active. */
  function Pass(s: seq<CatalogItem>, on: bool, p: CatalogItem -> bool): (r: seq<CatalogItem>)
    ensures |r| <= |s|
  {
    if on then Filter(s, p) else s
  }

  /** An item survives a pass when it was there before and meets the active test. */
  lemma PassMember(s: seq<CatalogItem>, on: bool, p: CatalogItem -> bool, x: CatalogItem)
    ensures x in Pass(s, on, p) <==> x in s && (on ==> p(x))
  {
  }

  function QueryTest(q: string): CatalogItem -> bool { (i: CatalogItem) => MatchesQuery(i, q) }
  function KindTest(sel: seq<string>): CatalogItem -> bool { (i: CatalogItem) => i.kind in sel }
  function IndustryTest(sel: seq<string>): CatalogItem -> bool { (i: CatalogItem) => i.industry in sel }
  function MakeTest(sel: seq<string>): CatalogItem -> bool { (i: CatalogItem) => i.make in sel }
  function MinTest(lo: Option<real>): CatalogItem -> bool { (i: CatalogItem) => lo.None? || i.heightMm as real >= lo.value }
  function MaxTest(hi: Option<real>): CatalogItem -> bool { (i: CatalogItem) => hi.None? || i.heightMm as real <= hi.value }

  /** The query and facet passes of the `filtered` memo. */
  function FacetPasses(data: seq<CatalogItem>, trimmed: string, f: Filters): seq<CatalogItem>
  {
    var s1 := Pass(data, trimmed != [], QueryTest(Lower(trimmed)));
    var s2 := Pass(s1, |f.types| > 0, KindTest(f.types));
    var s3 := Pass(s2, |f.industries| > 0, IndustryTest(f.industries));
    Pass(s3, |f.makes| > 0, MakeTest(f.makes))
  }

  /** The `filtered` memo: one filter pass per active condition, in the source's order. */
  function Filtered(reading: BoundReading, data: seq<CatalogItem>, f: Filters): seq<CatalogItem>
  {
    var lo := Bound(reading, f.minHeight);
    var hi := Bound(reading, f.maxHeight);
    Pass(Pass(FacetPasses(data, Trim(f.query), f), lo.Some?, MinTest(lo)), hi.Some?, MaxTest(hi))
  }

  /** One optional filter pass keeps a subsequence. */
  lemma PassSubsequence(s: seq<CatalogItem>, on: bool, p: CatalogItem -> bool, data: seq<CatalogItem>)
    requires IsSubsequence(s, data)
    ensures IsSubsequence(Pass(s, on, p), data)
  {
    if on {
      FilterIsSubsequence(s, p);
      SubsequenceTrans(Filter(s, p), s, data);
    }
  }

  /** The filtered list keeps the catalog order. */
  lemma FilteredKeepsOrder(reading: BoundReading, data: seq<CatalogItem>, f: Filters)
    ensures IsSubsequence(Filtered(reading, data, f), data)
  {
    var lo := Bound(reading, f.minHeight);
    var hi := Bound(reading, f.maxHeight);
    SubsequenceRefl(data);
    var s1 := Pass(data, Trim(f.query) != [], QueryTest(Lower(Trim(f.query))));
    PassSubsequence(data, Trim(f.query) != [], QueryTest(Lower(Trim(f.query))), data);
    var s2 := Pass(s1, |f.types| > 0, KindTest(f.types));
    PassSubsequence(s1, |f.types| > 0, KindTest(f.types), data);
    var s3 := Pass(s2, |f.industries| > 0, IndustryTest(f.industries));
    PassSubsequence(s2, |f.industries| > 0, IndustryTest(f.industries), data);
    var s4 := Pass(s3, |f.makes| > 0, MakeTest(f.makes));
    PassSubsequence(s3, |f.makes| > 0, MakeTest(f.makes), data);
    var s5 := Pass(s4, lo.Some?, MinTest(lo));
    PassSubsequence(s4, lo.Some?, MinTest(lo), data);
    PassSubsequence(s5, hi.Some?, MaxTest(hi), data);
  }

  lemma FacetPassesMember(data: seq<CatalogItem>, trimmed: string, f: Filters, x: CatalogItem)
    ensures x in FacetPasses(data, trimmed, f) <==> x in data && FacetKeeps(trimmed, f, x)
  {
    var q := Lower(trimmed);
    var s1 := Pass(data, trimmed != [], QueryTest(q));
    PassMember(data, trimmed != [], QueryTest(q), x);
    var s2 := Pass(s1, |f.types| > 0, KindTest(f.types));
    PassMember(s1, |f.types| > 0, KindTest(f.types), x);
    var s3 := Pass(s2, |f.industries| > 0, IndustryTest(f.industries));
    PassMember(s2, |f.industries| > 0, IndustryTest(f.industries), x);
    PassMember(s3, |f.makes| > 0, MakeTest(f.makes), x);
  }

  /** The filtered list holds exactly the catalog items meeting every condition. */
  lemma FilteredCharacterised(reading: BoundReading, data: seq<CatalogItem>, f: Filters, x: CatalogItem)
    ensures x in Filtered(reading, data, f) <==> x in data && Keeps(reading, f, x)
  {
    var lo := Bound(reading, f.minHeight);
    var hi := Bound(reading, f.maxHeight);
    var s4 := FacetPasses(data, Trim(f.query), f);
    FacetPassesMember(data, Trim(f.query), f, x);
    PassMember(s4, lo.Some?, MinTest(lo), x);
    PassMember(Pass(s4, lo.Some?, MinTest(lo)), hi.Some?, MaxTest(hi), x);
  }

  /** With nothing selected every catalog item is shown, in order. */
  lemma {:induction false} NoFiltersShowAll(reading: BoundReading, data: seq<CatalogItem>)
    ensures Filtered(reading, data, NoFilters) == data
  {
    var f := NoFilters;
    NoBoundFromEmpty(reading);
    NoFacetPasses(data);
    var lo := Bound(reading, f.minHeight);
    var hi := Bound(reading, f.maxHeight);
    var s4 := FacetPasses(data, Trim(f.query), f);
    assert Filtered(reading, data, f) == Pass(Pass(s4, lo.Some?, MinTest(lo)), hi.Some?, MaxTest(hi));
    assert Pass(s4, false, MinTest(lo)) == s4;
    assert Pass(s4, false, MaxTest(hi)) == s4;
  }

  /** With no query and no selection the query and facet passes keep the whole catalog. */
  lemma NoFacetPasses(data: seq<CatalogItem>)
    ensures FacetPasses(data, Trim(NoFilters.query), NoFilters) == data
  {
    assert Trim(NoFilters.query) == [];
  }

  /** An empty bound text reads as no bound, with either reading. */
  lemma NoBoundFromEmpty(reading: BoundReading)
    ensures Bound(reading, "").None?
  {
    assert ParseInt("").None? by {
      assert TrimStartWith("", IsJsSpace) == "";
      assert DigitPrefix(Unsigned("")) == [];
    }
  }

  /**
   * On the page an item is listed exactly when it meets the query and the
   * selections and, for each bound whose text is non-empty and reads as a
   * number, lies on the right side of that number.
   */
  lemma PageBoundsAsNumbers(number: string -> Option<real>, data: seq<CatalogItem>, f: Filters, x: CatalogItem)
    ensures x in Filtered(NumberReading(number), data, f) <==>
      x in data && FacetKeeps(Trim(f.query), f, x) &&
      (f.minHeight == "" || number(f.minHeight).None? || x.heightMm as real >= number(f.minHeight).value) &&
      (f.maxHeight == "" || number(f.maxHeight).None? || x.heightMm as real <= number(f.maxHeight).value)
  {
    FilteredCharacterised(NumberReading(number), data, f, x);
  }

  /**
   * On the client an item is listed exactly when it meets the query and the
   * selections and, for each bound whose text starts with an integer, lies on
   * the right side of that integer.
   */
  lemma ClientBoundsAsIntegers(data: seq<CatalogItem>, f: Filters, x: CatalogItem)
    ensures x in Filtered(ParseIntReading, data, f) <==>
      x in data && FacetKeeps(Trim(f.query), f, x) &&
      (ParseInt(f.minHeight).None? || x.heightMm >= ParseInt(f.minHeight).value) &&
      (ParseInt(f.maxHeight).None? || x.heightMm <= ParseInt(f.maxHeight).value)
  {
    FilteredCharacterised(ParseIntReading, data, f, x);
  }

  /** A bound whose text reads as NaN, or is empty, imposes nothing, whatever the other bound. */
  lemma UnreadBoundIgnored(reading: BoundReading, f: Filters, x: CatalogItem)
    requires Bound(reading, f.minHeight).None?
    ensures Keeps(reading, f, x) <==>
      FacetKeeps(Trim(f.query), f, x) && WithinBounds(None, Bound(reading, f.maxHeight), x)
  {
  }

  // ---------------------------------------------------------------------
  // Paging
  // ---------------------------------------------------------------------

  /** `Math.ceil(n / size)` for a positive page size. */
  function CeilDiv(n: nat, size: int): (c: nat)
    requires size > 0
    ensures (c - 1) * size < n <= c * size
  {
    (n + size - 1) / size
  }

  /** CatalogClient: `Math.ceil(filtered.length / pageSize)`, zero for an empty result. */
  function ClientTotalPages(n: nat, pageSize: int): (t: nat)
    requires pageSize > 0
    ensures t == 0 <==> n == 0
    ensures (t - 1) * pageSize < n <= t * pageSize
  {
    CeilDiv(n, pageSize)
  }

  /** The catalog page: at least one page even for an empty result. */
  function PageTotalPages(n: nat, pageSize: int): (t: nat)
    requires pageSize > 0
    ensures t >= 1
    ensures n > 0 ==> t == ClientTotalPages(n, pageSize)
    ensures n == 0 ==> t == 1
  {
    if CeilDiv(n, pageSize) >= 1 then CeilDiv(n, pageSize) else 1
  }

  /** CatalogClient: `Math.min(page, totalPages || 1)`. */
  function ClientCurrentPage(page: int, totalPages: nat): (c: int)
    ensures c <= page
    ensures c <= (if totalPages == 0 then 1 else totalPages)
    ensures c == page || c == (if totalPages == 0 then 1 else totalPages)
  {
    var cap := if totalPages == 0 then 1 else totalPages;
    if page <= cap then page else cap
  }

  /** The catalog page: `Math.min(page, totalPages)`. */
  function PageCurrentPage(page: int, totalPages: nat): (c: int)
    ensures c <= page && c <= totalPages
    ensures c == page || c == totalPages
  {
    if page <= totalPages then page else totalPages
  }

  /** The items on the current page: `filtered.slice((currentPage - 1) * pageSize, currentPage * pageSize)`. */
  function PageItems(filtered: seq<CatalogItem>, currentPage: int, pageSize: int): (r: seq<CatalogItem>)
    requires pageSize > 0
    ensures |r| <= pageSize
  {
    Slice(filtered, (currentPage - 1) * pageSize, currentPage * pageSize)
  }

  /** Every page within the count shows the matching slice of results, and is never empty. */
  lemma {:induction false} PageInRange(filtered: seq<CatalogItem>, currentPage: int, pageSize: int)
    requires pageSize > 0
    requires 1 <= currentPage <= ClientTotalPages(|filtered|, pageSize)
    ensures var r := PageItems(filtered, currentPage, pageSize); var start := (currentPage - 1) * pageSize;
      |r| >= 1 && 0 <= start && start + |r| <= |filtered| && r == filtered[start..start + |r|]
  {
    var t := ClientTotalPages(|filtered|, pageSize);
    var start, end := (currentPage - 1) * pageSize, currentPage * pageSize;
    PageBounds(|filtered|, t, currentPage, pageSize);
    SliceFrom(filtered, start, end);
    assert PageItems(filtered, currentPage, pageSize) == Slice(filtered, start, end);
  }

  /** A page number within the count starts inside the results and spans at least one item. */
  lemma PageBounds(n: nat, t: nat, c: int, p: int)
    requires p > 0 && 1 <= c <= t && (t - 1) * p < n
    ensures 0 <= (c - 1) * p < n
    ensures (c - 1) * p < c * p
  {
    MulMonotone(c - 1, t - 1, p);
    MulMonotone(0, c - 1, p);
    MulStep(c - 1, p);
  }

  lemma SliceFrom(s: seq<CatalogItem>, start: int, end: int)
    requires 0 <= start < |s| && start < end
    ensures var r := Slice(s, start, end);
      |r| >= 1 && start + |r| <= |s| && r == s[start..start + |r|]
  {
    assert SliceIndex(|s|, start) == start;
    var r := Slice(s, start, end);
    assert forall k :: 0 <= k < |r| ==> r[k] == s[start + k];
  }

  lemma MulStep(a: int, c: int)
    ensures (a + 1) * c == a * c + c
  {
  }

  lemma MulMonotone(a: int, b: int, c: int)
    requires 0 <= a <= b && c >= 0
    ensures a * c <= b * c
  {
  }

  /** The browser always shows a page within the count, and the catalog page shows at most one page of items. */
  lemma CatalogPageBounds(filtered: seq<CatalogItem>, page: int, pageSize: int)
    requires pageSize > 0
    ensures var t := PageTotalPages(|filtered|, pageSize);
      t >= 1 && PageCurrentPage(page, t) <= t &&
      |PageItems(filtered, PageCurrentPage(page, t), pageSize)| <= pageSize
  {
  }

  // ---------------------------------------------------------------------
  // Facet toggles and reset
  // ---------------------------------------------------------------------

  /** `arr.includes(val) ? arr.filter(x => x !== val) : [...arr, val]` */
  function Toggle(arr: seq<string>, val: string): (r: seq<string>)
    ensures val in r <==> val !in arr
    ensures forall x :: x != val ==> (x in r <==> x in arr)
    ensures val !in arr ==> r == arr + [val]
  {
    if val in arr then Filter(arr, x => x != val) else arr + [val]
  }

  /** Toggling a value that was absent twice restores the selection. */
  lemma ToggleTwice(arr: seq<string>, val: string)
    requires val !in arr
    ensures Toggle(Toggle(arr, val), val) == arr
  {
    FilterAppend(arr, [val], x => x != val);
    FilterKeepsAll(arr, x => x != val);
  }

  lemma {:induction false} FilterKeepsAll(s: seq<string>, p: string -> bool)
    requires forall k :: 0 <= k < |s| ==> p(s[k])
    ensures Filter(s, p) == s
  {
    if s != [] {
      FilterKeepsAll(s[1..], p);
    }
  }

  function Selection(f: Filters, facet: Facet): seq<string>
  {
    match facet
    case Types => f.types
    case Industries => f.industries
    case Makes => f.makes
  }

  function WithSelection(f: Filters, facet: Facet, sel: seq<string>): (g: Filters)
    ensures Selection(g, facet) == sel
  {
    match facet
    case Types => f.(types := sel)
    case Industries => f.(industries := sel)
    case Makes => f.(makes := sel)
  }

  /** toggleFilter / toggleInArray: toggles one value of one facet and returns to page 1. */
  function ToggleFilter(b: Browser, facet: Facet, val: string): (r: Browser)
    ensures r.page == 1 && r.pageSize == b.pageSize
    ensures Selection(r.filters, facet) == Toggle(Selection(b.filters, facet), val)
    ensures forall other :: other != facet ==> Selection(r.filters, other) == Selection(b.filters, other)
    ensures r.filters.query == b.filters.query
    ensures r.filters.minHeight == b.filters.minHeight && r.filters.maxHeight == b.filters.maxHeight
  {
    Browser(WithSelection(b.filters, facet, Toggle(Selection(b.filters, facet), val)), 1, b.pageSize)
  }

  /** clearAll: every filter empty, page 1. */
  function ClearAll(b: Browser): (r: Browser)
    ensures r.filters.query == "" && r.filters.minHeight == "" && r.filters.maxHeight == ""
    ensures forall facet :: Selection(r.filters, facet) == []
    ensures r.page == 1 && r.pageSize == b.pageSize
  {
    Browser(NoFilters, 1, b.pageSize)
  }

  /** After clearing, the whole catalog is listed from page 1. */
  lemma ClearAllShowsEverything(reading: BoundReading, data: seq<CatalogItem>, b: Browser)
    ensures Filtered(reading, data, ClearAll(b).filters) == data
  {
    NoFiltersShowAll(reading, data);
  }
}
