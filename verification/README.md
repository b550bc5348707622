# surefilter-ui core, modelled in Dafny

This project models the logic of the surefilter-ui content-management site (a Next.js storefront for a filter
manufacturer, with an admin area backed by Prisma). It does not model the pages, the database or the cloud storage.
It covers:

- the route-handler patch script `fix-params.py`;
- the redirect engine, made of the bulk-import parser, the self-redirect and chain checks of the site settings page,
  path normalisation, first-match lookup and the redirect cache of the middleware, and the active-rule helpers of
  `site-settings.ts`;
- the list editors of the admin screens (menu items, form fields, media, spec values, cross references), modelled as
  methods that copy the list into an array, change it in place and renumber it;
- paging and selection: the page-range builder, the catalog filters and paging, and the carousels' modular steps;
- the validators (dynamic form checks in the browser and on the server, page slugs, uploads);
- the CSV export serialiser and the health check's duplicate, orphan and missing-page rules;
- the path, URL and slug helpers (asset URLs, breadcrumbs, folder crumbs, full slugs, slugify, allowed origins);
- the content seed script's slug, icon, position and upsert logic.

Each source file has one module. The shared modules are:

- `Text`: JavaScript and Python white space, trim, ASCII lower case, one-character split and join, decimal numerals, and JavaScript's `length` in UTF-16 code units;
- `Seqs`: subsequences, filter, remove, splice, slice and swap;
- `Grouping`: group-by-key in order of first appearance;
- `Slugify`: collapsing runs of characters into one.

Regular expressions are written out as character-class predicates and scanning functions.

Text is a sequence of Unicode characters. Where the source's result depends on JavaScript's UTF-16 code units, the model counts a character outside the Basic Multilingual Plane as two: in the length limits of form fields and in the file-name sanitiser of the upload, which replaces each of the two halves of a surrogate pair. The other string operations of the core that produce text (search, trim, split, replace) look for or drop characters of the Basic Multilingual Plane only, so code units and characters give the same text there. Comparing strings is the exception: the model orders them by code point (see "## Left out").

## Model

| member | source | states |
|---|---|---|
| FixParams.FirstMatch | surefilter-ui/fix-params.py:20 | a match found is one of the listed methods and the text starts with that method's malformed header |
| FixParams.MatchAt | surefilter-ui/fix-params.py:20 | the GET, PUT or DELETE alternation: a match is one of the three methods, with its malformed header at the start |
| FixParams.SubstituteNoMatch | surefilter-ui/fix-params.py:23 | content in which no malformed header starts is left unchanged by the substitution |
| FixParams.SubstituteRelocates | surefilter-ui/fix-params.py:20-23 | a malformed GET/PUT/DELETE header becomes the captured header, `) {`, then the destructuring statement, and scanning continues after it |
| FixParams.MatchesOwnHeader | surefilter-ui/fix-params.py:20 | each of GET, PUT and DELETE matches its own malformed header |
| FixParams.PostHeaderNotMatched | surefilter-ui/fix-params.py:20 | a POST header of the same shape is never matched |
| FixParams.SubstituteCopies | surefilter-ui/fix-params.py:23 | where no header starts, the substitution copies one character and goes on |
| FixParams.SubstituteReplaces | surefilter-ui/fix-params.py:21-23 | where a header starts, it is replaced and scanning resumes after the matched text (non-overlapping) |
| FixParams.SubstituteKeepsLength | surefilter-ui/fix-params.py:20-21 | the replacement only moves a line: the length of the content is kept |
| FixParams.DedupeLines | surefilter-ui/fix-params.py:26-33 | the loop with `prev_line` computes the dedupe function of the lines |
| FixParams.DedupeStep | surefilter-ui/fix-params.py:29-33 | one more input line is dropped exactly when it and the last kept line are both the statement |
| FixParams.DedupeSubsequence | surefilter-ui/fix-params.py:26-33 | the output lines are a subsequence of the input lines |
| FixParams.DedupeNoAdjacent | surefilter-ui/fix-params.py:29-31 | no two consecutive output lines are both the statement |
| FixParams.DedupeKeepsOthers | surefilter-ui/fix-params.py:29-32 | every line that is not the statement is kept, in order |
| FixParams.DedupeCollapsesRun | surefilter-ui/fix-params.py:30-33 | a run of statement lines of any length collapses to its first line |
| FixParams.DedupeFixedPoint | surefilter-ui/fix-params.py:26-35 | the dedupe leaves the lines unchanged exactly when no two neighbours are both the statement |
| FixParams.DedupeOfClean | surefilter-ui/fix-params.py:26-35 | lines without repeated statements are unchanged |
| FixParams.DedupeIdempotent | surefilter-ui/fix-params.py:26-35 | running the dedupe twice removes nothing more |
| FixParams.Patch | surefilter-ui/fix-params.py:20-35 | the content written back is the substitution, then the dedupe over the '\n'-split lines, joined with '\n' |
| FixParams.PatchOfCleanFile | surefilter-ui/fix-params.py:20-35 | a file with no malformed header and no repeated statement is written back unchanged |
| FixParams.PatchAgain | surefilter-ui/fix-params.py:20-35 | a second run over the script's output changes nothing when that output holds no malformed header; the dedupe can create one (a header followed by two statement lines), so the proviso is needed |
| FixParams.DedupeNonEmpty | surefilter-ui/fix-params.py:26-33 | the dedupe keeps at least one line of a non-empty input |
| SiteSettingsPage.MenuPatchLaws | surefilter-ui/src/app/admin/settings/site/page.tsx:277 | `{ ...item, ...updates }`: the empty patch changes nothing, a patch applied twice acts once, and two patches in a row act as one in which the later fields win |
| SiteSettingsPage.ChildPatchLaws | surefilter-ui/src/app/admin/settings/site/page.tsx:315 | the same three laws for the spread on a child item |
| SiteSettingsPage.RenumberItems | surefilter-ui/src/app/admin/settings/site/page.tsx:292 | the forEach sets each item's order to its index and changes nothing else |
| SiteSettingsPage.RenumberChildren | surefilter-ui/src/app/admin/settings/site/page.tsx:325 | the forEach sets each child's order to its index and changes nothing else |
| SiteSettingsPage.RenumberingKeepsLabels | surefilter-ui/src/app/admin/settings/site/page.tsx:292 | renumbering keeps every item's label, url, active flag and children in place |
| SiteSettingsPage.AddMenuItem | surefilter-ui/src/app/admin/settings/site/page.tsx:265-272 | the old items come first, then an active 'New Item' to '/' whose order is the old length |
| SiteSettingsPage.UpdateMenuItem | surefilter-ui/src/app/admin/settings/site/page.tsx:275-279 | only the item at the index changes, to the patched item |
| Seqs.SpliceOne | surefilter-ui/src/app/admin/settings/site/page.tsx:281-285 | `splice(index, 1)`, as removeMenuItem and removeRedirect (page.tsx:442-446) use it: an index in range drops that entry, a negative one counts from the end, one past the end changes nothing |
| SiteSettingsPage.MoveMenuItem | surefilter-ui/src/app/admin/settings/site/page.tsx:287-295 | a target out of range changes nothing; otherwise the item swaps with its neighbour and all orders are renumbered |
| SiteSettingsPage.MoveKeepsItems | surefilter-ui/src/app/admin/settings/site/page.tsx:287-295 | a completed move keeps the same items (as a multiset, ignoring order numbers), swaps the two labels and numbers by position |
| SiteSettingsPage.Unnumbered | surefilter-ui/src/app/admin/settings/site/page.tsx:292 | the items with their order cleared, pointwise |
| SiteSettingsPage.UnnumberedSwap | surefilter-ui/src/app/admin/settings/site/page.tsx:291-292 | clearing the order numbers commutes with the swap |
| SiteSettingsPage.AddChildItem | surefilter-ui/src/app/admin/settings/site/page.tsx:297-309 | only the parent changes: its children gain an active 'New Sub-item' to '/' whose order is the old child count |
| SiteSettingsPage.UpdateChildItem | surefilter-ui/src/app/admin/settings/site/page.tsx:311-318 | only one child of one parent changes, to the patched child |
| SiteSettingsPage.RemoveChildItem | surefilter-ui/src/app/admin/settings/site/page.tsx:320-328 | only the parent's children change: the child is spliced out and the rest renumbered |
| SiteSettingsPage.RemoveChildExactlyOne | surefilter-ui/src/app/admin/settings/site/page.tsx:323-325 | removing an existing child leaves one fewer, numbered 0..n-1, the others in their order |
| SiteSettingsPage.MoveChildItem | surefilter-ui/src/app/admin/settings/site/page.tsx:330-341 | a target out of range changes nothing; otherwise two children swap and all are renumbered |
| SiteSettingsPage.AddRedirect | surefilter-ui/src/app/admin/settings/site/page.tsx:424-434 | the old rules come first, then an active 301 rule from '/' to '/' with an empty comment |
| SiteSettingsPage.UpdateRedirect | surefilter-ui/src/app/admin/settings/site/page.tsx:436-440 | only the rule at the index changes |
| SiteSettingsPage.SelfRedirects | surefilter-ui/src/app/admin/settings/site/page.tsx:488 | exactly the rules whose source equals their destination |
| SiteSettingsPage.CanSaveRedirects | surefilter-ui/src/app/admin/settings/site/page.tsx:486-492 | the save goes ahead if and only if no rule has source equal to destination |
| SiteSettingsPage.Chains | surefilter-ui/src/app/admin/settings/site/page.tsx:1634-1636 | the warnings are the rules, in table order, that lead into an active rule's source: a subsequence of the rules with one entry per such position |
| SiteSettingsPage.ChainsAmong | surefilter-ui/src/app/admin/settings/site/page.tsx:1636 | the result is `rules.filter` by "active and normalised destination among the sources", so it holds exactly those rules |
| SiteSettingsPage.ChainsCharacterised | surefilter-ui/src/app/admin/settings/site/page.tsx:1634-1636 | a rule is a chain if and only if it is active and its normalised destination is the normalised source of some active rule |
| SiteSettingsPage.RunLength | surefilter-ui/src/app/admin/settings/site/page.tsx:455 | the length of the leading run of characters the class accepts |
| SiteSettingsPage.SplitFirstPart | surefilter-ui/src/app/admin/settings/site/page.tsx:455 | the first part is the text before the first separator; without a separator the text is the only part |
| SiteSettingsPage.FirstSepIsFirst | surefilter-ui/src/app/admin/settings/site/page.tsx:455 | a separator starts at the first-separator position (unless it is the end) and none starts before it |
| SiteSettingsPage.AfterFirstSepShape | surefilter-ui/src/app/admin/settings/site/page.tsx:455 | the text after the first separator is the suffix that starts where that separator ends |
| SiteSettingsPage.SplitRemainingParts | surefilter-ui/src/app/admin/settings/site/page.tsx:455 | after the first separator the remaining parts are the parts of the text that follows it |
| SiteSettingsPage.ParseImportLine | surefilter-ui/src/app/admin/settings/site/page.tsx:455-469 | a yielded rule's source starts with '/', its destination with '/' or 'http'; it is 301, active, 'Bulk import' (ParseImportLineCharacterised ties the rule to the line's parts) |
| SiteSettingsPage.ParseImportLineCharacterised | surefilter-ui/src/app/admin/settings/site/page.tsx:455-469 | a line yields a rule exactly when it has two parts or more and the first two are not blank; the source is the trimmed first part with a '/' put in front when missing, the destination the trimmed second part with a '/' put in front unless it starts with '/' or 'http' |
| SiteSettingsPage.WithSlash | surefilter-ui/src/app/admin/settings/site/page.tsx:462 | the result starts with '/'; a path that already does is kept, any other gets a '/' in front |
| SiteSettingsPage.AsDestination | surefilter-ui/src/app/admin/settings/site/page.tsx:463 | the result starts with '/' or 'http'; a destination that already does is kept, any other gets a '/' in front |
| SiteSettingsPage.SeparatorShapes | surefilter-ui/src/app/admin/settings/site/page.tsx:455 | an arrow, a tab or two white-space characters start a separator; a single space before other text does not |
| SiteSettingsPage.NoSeparatorNoRule | surefilter-ui/src/app/admin/settings/site/page.tsx:455-459 | a line without any separator is one part and yields no rule |
| SiteSettingsPage.ImportLines | surefilter-ui/src/app/admin/settings/site/page.tsx:449-452 | the kept lines are, in their order, exactly the trimmed lines that are neither empty nor '#' comments |
| SiteSettingsPage.ImportLinesStep | surefilter-ui/src/app/admin/settings/site/page.tsx:449-452 | the import lines of `line\ntext` are the first line, trimmed, when it is an import line, then those of the rest |
| SiteSettingsPage.ImportLinesSingle | surefilter-ui/src/app/admin/settings/site/page.tsx:449-452 | a one-line text has that line, trimmed, as its one import line unless it is blank or a comment |
| SiteSettingsPage.ParseLines | surefilter-ui/src/app/admin/settings/site/page.tsx:453-472 | at most one rule per line, each of the imported shape (ParseLinesMembers and ParseLinesAppend tie each rule to its line, in order) |
| SiteSettingsPage.Yielded | surefilter-ui/src/app/admin/settings/site/page.tsx:453-472 | no rule exactly when the line yields none, else the one rule it yields |
| SiteSettingsPage.ParseLinesMembers | surefilter-ui/src/app/admin/settings/site/page.tsx:453-472 | a rule is parsed exactly when some line yields it |
| SiteSettingsPage.ParseLinesAppend | surefilter-ui/src/app/admin/settings/site/page.tsx:453-472 | the rules of two runs of lines are those of the first followed by those of the second: line order is kept |
| SiteSettingsPage.LineRules | surefilter-ui/src/app/admin/settings/site/page.tsx:449-472 | a trimmed line contributes a rule exactly when it is an import line that yields one |
| SiteSettingsPage.ParseBulkImport | surefilter-ui/src/app/admin/settings/site/page.tsx:448-473 | at most one rule per input line; every rule is well-formed, 301, active and 'Bulk import' (BulkImportLineByLine ties the rules to the lines, in order) |
| SiteSettingsPage.BulkImportLineByLine | surefilter-ui/src/app/admin/settings/site/page.tsx:448-473 | the rules of `line\ntext` are the rule the first line contributes followed by the rules of the rest |
| SiteSettingsPage.BulkImportSingleLine | surefilter-ui/src/app/admin/settings/site/page.tsx:448-473 | a one-line text yields exactly the rule its trimmed line contributes |
| SiteSettingsPage.IgnoredLineAddsNothing | surefilter-ui/src/app/admin/settings/site/page.tsx:450-452 | a blank or comment line adds no rule |
| SiteSettingsPage.HandleBulkImport | surefilter-ui/src/app/admin/settings/site/page.tsx:475-484 | nothing changes when no rule was parsed; otherwise the parsed rules are appended (BulkImportAppends states what they are) |
| SiteSettingsPage.BulkImportAppends | surefilter-ui/src/app/admin/settings/site/page.tsx:475-484 | the existing rules stay first and unchanged; after them come exactly the rules the import lines yield, in line order |
| RedirectRules.PathKey | surefilter-ui/middleware.ts:84 | the key is no longer than the path and never ends in '/' |
| RedirectRules.PathKeyShape | surefilter-ui/middleware.ts:87 | the key is the lower-cased path up to its trailing slashes, and only '/' characters were removed |
| RedirectRules.PathKeyIdempotent | surefilter-ui/middleware.ts:84 | a key is its own key |
| RedirectRules.PathKeyTrailingSlash | surefilter-ui/src/app/admin/settings/site/page.tsx:1635-1636 | a trailing '/' does not change the key |
| RedirectRules.RootKeyEmpty | surefilter-ui/middleware.ts:87 | the source '/' has the empty key |
| Middleware.SkippedPaths | surefilter-ui/middleware.ts:70-74 | every path under /api/, /_next/, /admin (including /administrator and the like) and /login is never looked up |
| Middleware.StaticAssetSkipped | surefilter-ui/middleware.ts:75 | a name ending in '.' and one of the fifteen static extensions, in any letter case, is never looked up |
| Middleware.PagePathsChecked | surefilter-ui/middleware.ts:70-75 | a path with no '.' outside the four skipped prefixes is always looked up |
| Middleware.NormalizePath | surefilter-ui/middleware.ts:82-84 | '/' stays '/'; any other path becomes its lower-cased key without trailing slashes |
| Middleware.NormalizeIdempotent | surefilter-ui/middleware.ts:82-84 | normalising twice is normalising once |
| Middleware.FindRedirect | surefilter-ui/middleware.ts:86-89 | the first rule in list order whose normalised source equals the normalised path, or none when no rule matches |
| Middleware.SourceKeys | surefilter-ui/middleware.ts:87 | one key per rule, each the normalised key of that rule's source, in rule order |
| Middleware.FindKey | surefilter-ui/middleware.ts:86-89 | the position of the first key equal to the path's key, or none when no key is |
| Middleware.RootRuleMatches | surefilter-ui/middleware.ts:82-88 | a rule with source '/' matches only paths made of two or more '/' characters, never the root itself |
| Middleware.AllSlashesKeyEmpty | surefilter-ui/middleware.ts:84 | a path of slashes only has the empty key |
| Middleware.AfterLookup | surefilter-ui/middleware.ts:19-39 | a fresh cache (non-empty, younger than 60000 ms) is kept; otherwise a successful fetch replaces the list and stamps it with the current time, a failed one keeps the stale list |
| Middleware.ReuseWithinWindow | surefilter-ui/middleware.ts:17-33 | after a successful fetch of a non-empty list at t, every lookup before t + 60000 serves that list whatever a fetch would return |
| Middleware.RefetchAfterWindow | surefilter-ui/middleware.ts:17-33 | from t + 60000 on, a successful fetch replaces the list and restarts the window |
| Middleware.EmptyListRefetched | surefilter-ui/middleware.ts:21-33 | an empty rule list is never reused: every lookup fetches again |
| Middleware.RedirectCache.constructor | surefilter-ui/middleware.ts:15-16 | the cache starts empty with timestamp 0 |
| Middleware.RedirectCache.GetRedirects | surefilter-ui/middleware.ts:19-39 | the new list and timestamp are those of AfterLookup on the old ones, and the list served is the new cached list |
| Middleware.RequestHeaders.constructor | surefilter-ui/middleware.ts:45 | the copy holds the request's headers |
| Middleware.RequestHeaders.Set | surefilter-ui/middleware.ts:114 | setting a header changes that header only |
| Middleware.RequestHeaders.NormalizeForwardedHost | surefilter-ui/middleware.ts:110-120 | the headers afterwards are ForwardedHostHeaders of the headers before |
| Middleware.ForwardedHostHeaders | surefilter-ui/middleware.ts:110-120 | a present non-empty x-forwarded-host is never overwritten and is marked 'pass'; a missing or empty one is set from a non-empty Host and marked 'set-from-host'; otherwise 'none'; the marker is always added, x-forwarded-host is present whenever Host was given, and every other header is unchanged |
| Middleware.ForwardedHostSettles | surefilter-ui/middleware.ts:112-120 | normalising the normalised headers again changes only the marker, which becomes 'pass' whenever a host is present |
| Middleware.CloudFrontSecret | surefilter-ui/middleware.ts:58 | with a secret configured only the exact secret identifies CloudFront; without one any non-empty header does; a missing or empty header never does |
| Middleware.DirectHitsRedirected | surefilter-ui/middleware.ts:50-62 | with enforcement on, a site URL and a secret configured, a request on the App Runner host is sent to the canonical domain exactly when it lacks the secret; with enforcement off never |
| Middleware.Handle | surefilter-ui/middleware.ts:41-123 | a direct hit gets the 301 to the canonical domain and leaves the cache alone; otherwise a looked-up path updates the cache as AfterLookup and, when a rule matches, gets that rule's redirect with the request's query and the rule's status; failing that, /admin without a session goes to login with the path as callback, and anything else continues with ForwardedHostHeaders of the request headers |
| SiteSettings.ParseTexts | surefilter-ui/src/lib/site-settings.ts:116-137 | an empty text column becomes undefined: a text column is kept exactly when it is non-empty |
| SiteSettings.ParseRowRoundTrip | surefilter-ui/src/lib/site-settings.ts:115-141 | parsed settings never hold an empty text; storing settings without empty texts and parsing the row gives them back, and re-parsing parsed settings changes nothing |
| SiteSettings.SettingsCache.constructor | surefilter-ui/src/lib/site-settings.ts:79-80 | the cache starts empty with timestamp 0 |
| SiteSettings.SettingsCache.Clear | surefilter-ui/src/lib/site-settings.ts:84-87 | clearSiteSettingsCache empties the cache and zeroes the timestamp, so the next call queries again |
| SiteSettings.SettingsCache.GetSiteSettings | surefilter-ui/src/lib/site-settings.ts:89-147 | a fresh production cache answers; otherwise a found row is parsed, cached and stamped, and a failure or missing row gives the empty settings without caching |
| SiteSettings.DevelopmentNeverCached | surefilter-ui/src/lib/site-settings.ts:91 | outside production the cache never answers |
| SiteSettings.InsertByOrder | surefilter-ui/src/lib/site-settings.ts:152 | one item inserted keeps every item (as a multiset) |
| SiteSettings.SortByOrder | surefilter-ui/src/lib/site-settings.ts:152 | the sort is a permutation of its input |
| SiteSettings.InsertKeepsTies | surefilter-ui/src/lib/site-settings.ts:152 | inserting an item keeps the items of each order in arrival order, the new one last among its order |
| SiteSettings.SortKeepsTies | surefilter-ui/src/lib/site-settings.ts:152 | the sort is stable: the items of any one order come out in their input order |
| SiteSettings.SortKeepsAllTies | surefilter-ui/src/lib/site-settings.ts:152 | stability for every order at once |
| SiteSettings.InsertKeepsSorted | surefilter-ui/src/lib/site-settings.ts:152 | inserting into a list ascending by order keeps it ascending |
| SiteSettings.SortIsSorted | surefilter-ui/src/lib/site-settings.ts:152 | the sorted list is ascending by order |
| SiteSettings.HeaderNavigation | surefilter-ui/src/lib/site-settings.ts:150-153 | exactly the active items (as a multiset), ascending by order, with items of equal order in their stored order; none when navigation is unset |
| SiteSettings.FooterUnsetLikeEmpty | surefilter-ui/src/lib/site-settings.ts:156-159 | the footer read is empty exactly when the footer is unset or stored as an empty object |
| SiteSettings.ActiveRedirects | surefilter-ui/src/lib/site-settings.ts:213-216 | exactly the active rules, as a subsequence of the stored rules; none when unset |
| SiteSettings.FailureGivesEmpty | surefilter-ui/src/lib/site-settings.ts:100-103 | the empty settings give no navigation, an empty footer and no redirects |
| Pagination.Window | surefilter-ui/src/components/ui/Pagination.tsx:20 | the pages lo..hi in order, none when lo > hi |
| Pagination.GetPageRange | surefilter-ui/src/components/ui/Pagination.tsx:12-25 | the pushes of getPageRange build exactly the strip function |
| Pagination.StartsAtOne | surefilter-ui/src/components/ui/Pagination.tsx:18 | the strip always starts with page 1 |
| Pagination.EndsAtTotal | surefilter-ui/src/components/ui/Pagination.tsx:22 | the last entry is the last page when there is more than one page; otherwise only '...' can follow page 1 |
| Pagination.PagesIncrease | surefilter-ui/src/components/ui/Pagination.tsx:15-22 | the page numbers strictly increase along the strip |
| Pagination.ShownPages | surefilter-ui/src/components/ui/Pagination.tsx:15-22 | a page is shown if and only if it is 1, inside the window around the current page, or the last of several pages |
| Pagination.CurrentShown | surefilter-ui/src/components/ui/Pagination.tsx:15-20 | a current page inside the range is always shown |
| Pagination.AtMostFivePages | surefilter-ui/src/components/ui/Pagination.tsx:13-22 | at most five page numbers and seven entries, with '...' only second or second to last |
| Pagination.Count | surefilter-ui/src/components/ui/Pagination.tsx:42-43 | the number of page numbers is at most the number of entries |
| Pagination.GapsMarkSkippedPages | surefilter-ui/src/components/ui/Pagination.tsx:19-21 | '...' follows page 1 if and only if left > 2, and precedes the last page if and only if right < total - 1 |
| Pagination.PreviousPage | surefilter-ui/src/components/ui/Pagination.tsx:34 | one page back, never below 1 |
| Pagination.NextPage | surefilter-ui/src/components/ui/Pagination.tsx:64 | one page on, never beyond the last page |
| Pagination.ButtonsStayInRange | surefilter-ui/src/components/ui/Pagination.tsx:34-64 | from a page in range both buttons stay in range, and Previous undoes Next below the last page |
| Catalog.ClientBoundsAsIntegers | surefilter-ui/src/app/catalog/CatalogClient.tsx:88-91 | on the client an item is listed exactly when it is in the catalog, meets the query and selections, and lies within every bound whose text parseInt reads as an integer |
| Catalog.PageBoundsAsNumbers | surefilter-ui/src/app/catalog/page.tsx:91-94 | on the page an item is listed exactly when it is in the catalog, meets the query and selections, and lies within every bound whose text is non-empty and Number reads as a number |
| Catalog.Pass | surefilter-ui/src/app/catalog/CatalogClient.tsx:79-91 | one filter pass keeps at most the items it was given |
| Catalog.PassMember | surefilter-ui/src/app/catalog/CatalogClient.tsx:79-91 | an item survives a pass exactly when it was there and meets the test, if the pass is active |
| Catalog.PassSubsequence | surefilter-ui/src/app/catalog/CatalogClient.tsx:76-93 | each pass keeps a subsequence of the catalog |
| Catalog.FilteredKeepsOrder | surefilter-ui/src/app/catalog/CatalogClient.tsx:76-93 | the filtered list is a subsequence of the catalog, in its original order |
| Catalog.FacetPassesMember | surefilter-ui/src/app/catalog/CatalogClient.tsx:79-86 | an item passes the query and facet passes exactly when it is in the catalog and meets the query and the three selections |
| Catalog.FilteredCharacterised | surefilter-ui/src/app/catalog/CatalogClient.tsx:76-93 | an item is listed if and only if it is in the catalog and meets the query (lower-case, trimmed, name or code), every non-empty selection and every parsed height bound |
| Catalog.NoFiltersShowAll | surefilter-ui/src/app/catalog/CatalogClient.tsx:79-91 | with no query, no selection and no bounds the whole catalog is listed, in order |
| Catalog.NoBoundFromEmpty | surefilter-ui/src/app/catalog/CatalogClient.tsx:88-91 | an empty bound text imposes no bound with either reading |
| Catalog.UnreadBoundIgnored | surefilter-ui/src/app/catalog/page.tsx:91-94 | a minimum that reads as NaN, or is empty on the page, leaves only the query, the selections and the maximum to decide |
| Catalog.CeilDiv | surefilter-ui/src/app/catalog/CatalogClient.tsx:96 | the ceiling of n / size |
| Catalog.ClientTotalPages | surefilter-ui/src/app/catalog/CatalogClient.tsx:96 | the page count covers the results, and is 0 exactly for an empty result |
| Catalog.PageTotalPages | surefilter-ui/src/app/catalog/page.tsx:99 | the page count is at least 1, and 1 for an empty result |
| Catalog.ClientCurrentPage | surefilter-ui/src/app/catalog/CatalogClient.tsx:97 | the current page is the requested page, capped at the page count or 1 |
| Catalog.PageCurrentPage | surefilter-ui/src/app/catalog/page.tsx:100 | the current page is the requested page, capped at the page count |
| Catalog.PageItems | surefilter-ui/src/app/catalog/CatalogClient.tsx:98 | a page slice has at most pageSize items |
| Catalog.PageInRange | surefilter-ui/src/app/catalog/CatalogClient.tsx:96-98 | a page within the count shows the matching non-empty slice of the results |
| Catalog.PageBounds | surefilter-ui/src/app/catalog/CatalogClient.tsx:96-98 | a page number within the count starts inside the results and its slice ends past its start |
| Catalog.CatalogPageBounds | surefilter-ui/src/app/catalog/page.tsx:99-101 | the page count is at least 1, the current page is within it, and the slice has at most pageSize items |
| Catalog.Toggle | surefilter-ui/src/app/catalog/CatalogClient.tsx:101 | a present value is removed, an absent one appended; other values keep their membership |
| Catalog.ToggleTwice | surefilter-ui/src/app/catalog/page.tsx:104 | toggling an absent value twice restores the selection |
| Catalog.WithSelection | surefilter-ui/src/app/catalog/CatalogClient.tsx:101 | setting a facet's selection is read back from that facet |
| Catalog.ToggleFilter | surefilter-ui/src/app/catalog/CatalogClient.tsx:100-103 | toggleFilter toggles one value of one facet, leaves the other filters alone and returns to page 1 |
| Catalog.ClearAll | surefilter-ui/src/app/catalog/page.tsx:108-116 | clearAll empties the query, every selection and both bounds, and sets page 1 |
| Catalog.ClearAllShowsEverything | surefilter-ui/src/app/catalog/CatalogClient.tsx:105-113 | after clearAll the whole catalog is listed |
| Assets.CdnBaseShape | surefilter-ui/src/lib/assets.ts:7-16 | the base is never empty, and it is an http(s) URL unless a configured CDN URL is not one |
| Assets.StoredPath | surefilter-ui/src/lib/assets.ts:33 | a stored path found under a base rebuilds the URL as base + '/' + path; none exactly when the URL does not lie under the base |
| Assets.AssetUrlRoundTrip | surefilter-ui/src/lib/assets.ts:25-34 | the URL of a stored path lies under the base and gives back the path without one leading '/'; converting that path again gives the same URL |
| Assets.AssetUrlIdempotent | surefilter-ui/src/lib/assets.ts:25-34 | with an http(s) base, converting a URL again changes nothing |
| Assets.LeadingSlashIgnored | surefilter-ui/src/lib/assets.ts:32-33 | one leading '/' makes no difference to the URL |
| Assets.FileExtension | surefilter-ui/src/lib/assets.ts:93-95 | the lower-cased text after the last '.', which never contains '.'; the whole lower-cased path when there is no '.' |
| Assets.ExtensionCaseIgnored | surefilter-ui/src/lib/assets.ts:93-95 | the extension of name + '.' + ext (ext without '.') is ext in lower case |
| Assets.AssetPathLeadingSlash | surefilter-ui/src/lib/assets.ts:59-86 | one leading '/' makes no difference to whether a path is an asset path, and a file outside any folder never is one |
| Assets.ImagesAreMedia | surefilter-ui/src/lib/assets.ts:74-104 | every image extension is also a media extension |
| Assets.TypesFollowExtensions | surefilter-ui/src/lib/assets.ts:102-126 | a file gets an image/ type exactly when it is an image file, and a file with a type other than application/octet-stream has a media extension |
| Assets.ImagesHaveImageTypes | surefilter-ui/src/lib/assets.ts:104-120 | every image file gets an image/ type |
| FormFields.OnlyMeasuredValuesFail | surefilter-ui/src/components/forms/DynamicForm.tsx:118-123 | only text and arrays have a length: any other value breaks no length limit; text breaks a set minimum exactly when its length in UTF-16 code units is below it, and an array a set maximum exactly when it has more entries |
| FormFields.SurrogatePairTooLong | surefilter-ui/src/components/forms/DynamicForm.tsx:121 | one character outside the Basic Multilingual Plane is two code units, so it breaks a maximum length of 1 |
| Text.Utf16Length | surefilter-ui/src/components/forms/DynamicForm.tsx:118 | `value.length` of a text lies between its character count and twice that |
| Text.Utf16LengthAppend | surefilter-ui/src/components/forms/DynamicForm.tsx:118 | the length of a concatenation is the sum of the lengths |
| Text.Utf16LengthCountsChars | surefilter-ui/src/components/forms/DynamicForm.tsx:118 | `value.length` equals the character count exactly when no character is outside the Basic Multilingual Plane |
| FormFields.IntToStringRoundTrip | surefilter-ui/src/components/forms/DynamicForm.tsx:119-122 | the decimal text of a limit in the messages reads back with `parseInt` as the limit, negative ones included |
| FormFields.EmailHasOneAt | surefilter-ui/src/components/forms/DynamicForm.tsx:102 | an address accepted by the email pattern has exactly one '@', neither first nor last |
| FormFields.ZeroLimitIgnored | surefilter-ui/src/components/forms/DynamicForm.tsx:118-121 | a length limit that is absent or 0 is never broken |
| DynamicForm.LaterLaws | surefilter-ui/src/components/forms/DynamicForm.tsx:84-134 | successive assignments to a field's message combine associatively and a check that passes changes nothing, so the message is that of the last failing check |
| DynamicForm.TextErrorLastCheck | surefilter-ui/src/components/forms/DynamicForm.tsx:117-127 | a text value gets a message exactly when its minimum or maximum check (on its length in UTF-16 code units) or its pattern check fails, and the message is that of the last failing one (pattern, then maximum, then minimum) |
| DynamicForm.RequiredBlankField | surefilter-ui/src/components/forms/DynamicForm.tsx:92-95 | a required field that is empty or only white space gets only the 'is required' message |
| DynamicForm.OptionalEmptyField | surefilter-ui/src/components/forms/DynamicForm.tsx:98 | an empty optional field gets no message |
| DynamicForm.PatternOverwritesLength | surefilter-ui/src/components/forms/DynamicForm.tsx:118-126 | for text, a failed pattern overwrites the length messages |
| DynamicForm.RequiredCheckbox | surefilter-ui/src/components/forms/DynamicForm.tsx:130-134 | a required checkbox group fails exactly when no option is ticked |
| DynamicForm.ErrorsCharacterised | surefilter-ui/src/components/forms/DynamicForm.tsx:84-135 | a field id has a message if and only if some field with that id failed, and the message is that of the last such field |
| DynamicForm.ErrorsDomain | surefilter-ui/src/components/forms/DynamicForm.tsx:84-135 | a field id has a message if and only if some field with that id failed |
| DynamicForm.ErrorsLastFailure | surefilter-ui/src/components/forms/DynamicForm.tsx:84-135 | the message a field id carries is that of the last field with that id that failed |
| DynamicForm.ClearError | surefilter-ui/src/components/forms/DynamicForm.tsx:205-210 | only the changed field's non-empty message is removed |
| DynamicForm.FormState.constructor | surefilter-ui/src/components/forms/DynamicForm.tsx:83-84 | no configuration, no data, no errors |
| DynamicForm.FormState.ValidateForm | surefilter-ui/src/components/forms/DynamicForm.tsx:83-139 | false without a configuration; otherwise the errors become the computed map, and the result is true if and only if it is empty |
| DynamicForm.FormState.HandleFieldChange | surefilter-ui/src/components/forms/DynamicForm.tsx:198-212 | the value is stored under the field id and only that field's error is cleared |
| FormSubmit.FieldMessages | surefilter-ui/src/app/api/forms/submit/route.ts:36-75 | at most three messages per field, and at most one for a field that is not text or textarea |
| FormSubmit.TextMessages | surefilter-ui/src/app/api/forms/submit/route.ts:65-73 | the minimum and maximum checks (on the length in UTF-16 code units) and the pattern check each add their own message |
| FormSubmit.NoErrorsIffEveryFieldPasses | surefilter-ui/src/app/api/forms/submit/route.ts:35-76 | the error list is empty if and only if no field has a message |
| FormSubmit.RequiredBlankOneMessage | surefilter-ui/src/app/api/forms/submit/route.ts:39-42 | an empty required field adds exactly one message and skips its type checks |
| FormSubmit.OptionalEmptyNoMessage | surefilter-ui/src/app/api/forms/submit/route.ts:45 | an empty optional field adds no message |
| FormSubmit.TextCollectsSeveral | surefilter-ui/src/app/api/forms/submit/route.ts:63-74 | a text value that is too short and fails the pattern gets two messages |
| FormSubmit.FullData | surefilter-ui/src/app/api/forms/submit/route.ts:93-97 | the saved data is data overlaid by additionalData, plus the submittedAt stamp |
| FormSubmit.Submit | surefilter-ui/src/app/api/forms/submit/route.ts:7-97 | a missing formId or data gives 400 before anything else; an unknown form gives 404; the loop's errors give 400 with details; otherwise the merged data is saved |
| FormSubmit.BrowserAndServerAgree | surefilter-ui/src/app/api/forms/submit/route.ts:35-76 | for a text or missing value (not a required checkbox group) the server finds no message exactly when the browser finds no error |
| FormSubmit.TextChecksAgree | surefilter-ui/src/app/api/forms/submit/route.ts:63-74 | on non-empty text both sides run the same three text checks |
| FormSubmit.OtherChecksAgree | surefilter-ui/src/app/api/forms/submit/route.ts:48-61 | on non-empty text of an email, phone or other non-text field both sides run the same single check, or none |
| CsvExport.EntryKeys | surefilter-ui/src/app/api/admin/form-submissions/export/route.ts:41 | `Object.keys(data)`: the keys of the data entries, in order |
| CsvExport.FieldKeysCharacterised | surefilter-ui/src/app/api/admin/form-submissions/export/route.ts:37-42 | the column keys are distinct, and a key is a column if and only if some submission's data has it |
| CsvExport.CollectFieldKeys | surefilter-ui/src/app/api/admin/form-submissions/export/route.ts:38-42 | the nested forEach adding keys to the set computes the column keys in first-insertion order |
| CsvExport.Header | surefilter-ui/src/app/api/admin/form-submissions/export/route.ts:45-57 | the header is the 3 fixed columns, then the data keys, then the 7 fixed columns |
| CsvExport.Lookup | surefilter-ui/src/app/api/admin/form-submissions/export/route.ts:67 | a stored value is found exactly when some entry has the key |
| CsvExport.CellOfStoredValue | surefilter-ui/src/app/api/admin/form-submissions/export/route.ts:67-71 | a column's cell comes from the submission's entry for that key: a stored null gives '', an object its JSON, anything else its text |
| CsvExport.CellOfMissingKey | surefilter-ui/src/app/api/admin/form-submissions/export/route.ts:67-69 | a key the submission does not have gives the empty cell |
| CsvExport.DataCells | surefilter-ui/src/app/api/admin/form-submissions/export/route.ts:66-72 | one data cell per column key, in column order |
| CsvExport.Row | surefilter-ui/src/app/api/admin/form-submissions/export/route.ts:62-80 | a row is as wide as the header: id, form name, timestamp, the data cells, then the metadata with Yes/No flags |
| CsvExport.Rows | surefilter-ui/src/app/api/admin/form-submissions/export/route.ts:60-81 | one row per submission, in order |
| CsvExport.Table | surefilter-ui/src/app/api/admin/form-submissions/export/route.ts:84-87 | the header line comes first, then one row per submission |
| CsvExport.TableIsRectangular | surefilter-ui/src/app/api/admin/form-submissions/export/route.ts:60-81 | every row has exactly as many cells as the header |
| CsvExport.Escape | surefilter-ui/src/app/api/admin/form-submissions/export/route.ts:86 | doubling the quotes never shortens a cell and leaves quote-free text unchanged |
| CsvExport.Quote | surefilter-ui/src/app/api/admin/form-submissions/export/route.ts:86 | a quoted cell starts and ends with '"' |
| CsvExport.HeaderAsWrittenAgrees | surefilter-ui/src/app/api/admin/form-submissions/export/route.ts:85-86 | when no column name holds a '"', the header line as written equals the properly quoted one |
| CsvExport.ParseEscaped | surefilter-ui/src/app/api/admin/form-submissions/export/route.ts:86 | an escaped text followed by the closing quote reads back as the text |
| CsvExport.ParseEscapedStep | surefilter-ui/src/app/api/admin/form-submissions/export/route.ts:86 | reading one escaped character (a doubled quote or any other character) adds that character to the text read so far |
| CsvExport.ParseQuotedCell | surefilter-ui/src/app/api/admin/form-submissions/export/route.ts:86 | a quoted cell reads back as its text |
| CsvExport.ParseLine | surefilter-ui/src/app/api/admin/form-submissions/export/route.ts:85-86 | a line of quoted cells joined with ',' reads back as the cells |
| CsvExport.ParseDocument | surefilter-ui/src/app/api/admin/form-submissions/export/route.ts:84-87 | lines joined with '\n' read back as the table |
| CsvExport.RawHeaderCellMisreads | surefilter-ui/src/app/api/admin/form-submissions/export/route.ts:85 | a header name holding a quote, written without doubling it, reads back cut short |
| CsvExport.ExportRoundTrip | surefilter-ui/src/app/api/admin/form-submissions/export/route.ts:84-87 | the exported text, every cell properly quoted, reads back as exactly the header and the rows |
| CsvExport.Export | surefilter-ui/src/app/api/admin/form-submissions/export/route.ts:30-96 | 404 exactly when there are no submissions; otherwise the CSV text of the table |
| HealthCheck.Category | surefilter-ui/src/app/api/admin/health-check/route.ts:45 | `slug.split('/')[0]`: the slug up to its first '/', which it does not contain |
| HealthCheck.Categories | surefilter-ui/src/app/api/admin/health-check/route.ts:45 | one first segment per page, in order |
| HealthCheck.DuplicateRule | surefilter-ui/src/app/api/admin/health-check/route.ts:42-49 | a title group is reported if and only if it has several pages and is not exactly one automotive and one heavy-duty page |
| HealthCheck.UniqueCategories | surefilter-ui/src/app/api/admin/health-check/route.ts:46-48 | the de-duplicated categories are as many as the pages and all product lines exactly when the categories are distinct product lines |
| HealthCheck.AtMostTwoLines | surefilter-ui/src/app/api/admin/health-check/route.ts:48 | distinct product-line categories number at most two |
| HealthCheck.DuplicatesCharacterised | surefilter-ui/src/app/api/admin/health-check/route.ts:34-49 | a reported group has several pages, meets the duplicate rule and holds exactly the pages with its title, in order |
| HealthCheck.Slugs | surefilter-ui/src/app/api/admin/health-check/route.ts:63 | the set of page slugs |
| HealthCheck.OrphanedCharacterised | surefilter-ui/src/app/api/admin/health-check/route.ts:58-64 | a filter type is an orphan if and only if it links a page slug that no page has; the order is kept |
| HealthCheck.MissingCharacterised | surefilter-ui/src/app/api/admin/health-check/route.ts:74-81 | missing = the critical slugs no page has, in list order; nothing is missing exactly when every critical slug exists |
| HealthCheck.WithoutPageSlug | surefilter-ui/src/app/api/admin/health-check/route.ts:88-89 | the count is the number of positions holding a filter type with a falsy page slug, hence at most the total |
| HealthCheck.WithoutPageSlugZero | surefilter-ui/src/app/api/admin/health-check/route.ts:89 | the count is zero exactly when every filter type has a non-empty page slug |
| HealthCheck.Check | surefilter-ui/src/app/api/admin/health-check/route.ts:6-91 | 401 exactly without a session; otherwise the report of the four checks, with status 'ok' exactly when nothing is missing |
| Breadcrumbs.Capitalise | surefilter-ui/src/components/admin/Breadcrumbs.tsx:113 | the word keeps its length, its first character is upper-cased and the rest is unchanged |
| Breadcrumbs.CapitaliseAll | surefilter-ui/src/components/admin/Breadcrumbs.tsx:113 | every word is capitalised, one result per word |
| Breadcrumbs.TitleCasePointwise | surefilter-ui/src/components/admin/Breadcrumbs.tsx:110-114 | title-casing keeps the length, turns each '-' into a space, upper-cases the first character of every word and leaves every other character alone |
| Breadcrumbs.JoinCapitalised | surefilter-ui/src/components/admin/Breadcrumbs.tsx:111-114 | joining the capitalised words with spaces is the character-by-character title-casing of the words joined with '-' |
| Breadcrumbs.UnknownSegmentLabel | surefilter-ui/src/components/admin/Breadcrumbs.tsx:85-115 | a segment outside the fixed table gets a label of the same length with no '-', each word's first character upper-cased and every other character kept |
| Breadcrumbs.PathOfPrefix | surefilter-ui/src/components/admin/Breadcrumbs.tsx:56-59 | the path built up to a segment starts with the path built up to any earlier segment |
| Breadcrumbs.CrumbsStartWithAdmin | surefilter-ui/src/components/admin/Breadcrumbs.tsx:53-80 | the trail starts with the Admin crumb and adds at most one crumb per segment |
| Breadcrumbs.CrumbsFromSegments | surefilter-ui/src/components/admin/Breadcrumbs.tsx:57-80 | every later crumb belongs to a segment that is neither 'admin' nor id-like |
| Breadcrumbs.SegmentsHaveCrumbs | surefilter-ui/src/components/admin/Breadcrumbs.tsx:57-80 | every segment that is neither 'admin' nor id-like has its crumb in the trail |
| Breadcrumbs.OnlyLastUnlinked | surefilter-ui/src/components/admin/Breadcrumbs.tsx:74-77 | only the last crumb can lack a link, and only when it is the final segment's own crumb |
| Breadcrumbs.GenerateBreadcrumbs | surefilter-ui/src/components/admin/Breadcrumbs.tsx:49-83 | the loop computes the trail: empty for a missing or empty path, else Admin and one crumb per kept segment |
| Breadcrumbs.Render | surefilter-ui/src/components/admin/Breadcrumbs.tsx:15-47 | given crumbs win; nothing is drawn for one crumb or none; every crumb is drawn with its text, and exactly those before the last whose link is present and non-empty are links |
| FormBuilder.StripEdgeDashes | surefilter-ui/src/components/admin/FormBuilder.tsx:74 | the result is the input with a leading '-' removed when there is one and at most one more character removed from the end, which is then a '-' |
| FormBuilder.AutoSlugClean | surefilter-ui/src/components/admin/FormBuilder.tsx:74 | the proposed slug is runs of [a-z0-9] joined by single dashes, with no dash at either end |
| FormBuilder.StripEdgeDashesClean | surefilter-ui/src/components/admin/FormBuilder.tsx:74 | stripping the edge dashes of slug characters without doubled dashes leaves a clean slug |
| FormBuilder.AutoSlugKeepsClean | surefilter-ui/src/components/admin/FormBuilder.tsx:74 | a slug already clean is proposed unchanged |
| FormBuilder.AutoSlugIdempotent | surefilter-ui/src/components/admin/FormBuilder.tsx:74 | proposing a slug from a proposed slug changes nothing |
| FormBuilder.NewField | surefilter-ui/src/components/admin/FormBuilder.tsx:80-90 | a new field is optional and full width, labelled 'New <type> field', with the two default options exactly for select, radio and checkbox |
| FormBuilder.ApplyPatch | surefilter-ui/src/components/admin/FormBuilder.tsx:100-104 | an update keeps the id and type; each of label, placeholder, required, help text, full width and options takes the update's value when it carries one and keeps the field's otherwise |
| FormBuilder.PatchLaws | surefilter-ui/src/components/admin/FormBuilder.tsx:100-104 | applying an update twice is applying it once, and an empty update changes nothing |
| FormBuilder.OptionsStayNumbered | surefilter-ui/src/components/admin/FormBuilder.tsx:80-90 | a new choice field starts with Option 1 and Option 2, and '+ Add Option' on options Option 1..Option n (or on none) appends Option n+1 |
| FormBuilder.OptionsWithOneMore | surefilter-ui/src/components/admin/FormBuilder.tsx:424 | the old options are kept in order and one new option is appended |
| FormBuilder.MoveBackRestores | surefilter-ui/src/components/admin/FormBuilder.tsx:116-125 | moving a field and then moving it back restores the list, and a move keeps the same fields |
| FormBuilder.SubmitCheck | surefilter-ui/src/components/admin/FormBuilder.tsx:131-139 | the form is saved exactly when the name, the slug and at least one field are present; a missing name or slug is reported first |
| FormBuilder.Builder.constructor | surefilter-ui/src/components/admin/FormBuilder.tsx:52-67 | missing initial values become empty, no field is being edited, and the slug is locked exactly when one was given |
| FormBuilder.Builder.HandleNameChange | surefilter-ui/src/components/admin/FormBuilder.tsx:71-77 | the name changes; the slug follows the name only when the form was opened without a slug |
| FormBuilder.Builder.AddField | surefilter-ui/src/components/admin/FormBuilder.tsx:80-97 | the new field is appended and becomes the one being edited |
| FormBuilder.Builder.UpdateField | surefilter-ui/src/components/admin/FormBuilder.tsx:100-104 | only the field at the index takes the update; everything else is unchanged |
| FormBuilder.Builder.DeleteField | surefilter-ui/src/components/admin/FormBuilder.tsx:107-113 | after confirmation exactly that field goes and nothing is being edited; without confirmation nothing changes |
| FormBuilder.Builder.MoveField | surefilter-ui/src/components/admin/FormBuilder.tsx:116-125 | nothing changes at either edge; otherwise the field swaps with its neighbour, which becomes the one being edited |
| FormBuilder.Builder.AddOption | surefilter-ui/src/components/admin/FormBuilder.tsx:423-425 | only the field at the index gains one option at the end of its options |
| FormBuilder.Builder.SubmitOutcomeNow | surefilter-ui/src/components/admin/FormBuilder.tsx:128-139 | the save checks applied to the builder's current state |
| Seqs.RemoveAt | surefilter-ui/src/app/admin/products/components/MediaSection.tsx:33 | `filter((_, i) => i !== index)`, the removal of the media, spec-value (ProductForm.tsx:383, SpecValuesSection.tsx:48-50) and cross-reference (CrossReferencesSection.tsx:40-42) editors: in range, the entry at the index goes, the others keep their order and putting it back gives the list; out of range nothing changes |
| MediaSection.SetPrimaryMedia | surefilter-ui/src/app/admin/products/components/MediaSection.tsx:37-42 | only the chosen entry is primary; nothing else about any entry changes |
| MediaSection.CountOnlyPrimary | surefilter-ui/src/app/admin/products/components/MediaSection.tsx:37-42 | when exactly the entry at the index is primary, one entry is primary, or none for an index out of range |
| MediaSection.SetPrimaryLeavesOne | surefilter-ui/src/app/admin/products/components/MediaSection.tsx:37-42 | after 'set primary' there is exactly one primary entry, the chosen one |
| MediaSection.UpdateCaption | surefilter-ui/src/app/admin/products/components/MediaSection.tsx:46-48 | only the caption of the entry at the index changes |
| MediaSection.Renumber | surefilter-ui/src/app/admin/products/components/MediaSection.tsx:56-58 | the array keeps its entries and their order, with positions 0, 1, 2, ... |
| MediaSection.MoveUp | surefilter-ui/src/app/admin/products/components/MediaSection.tsx:51-60 | nothing changes at the top; otherwise the entry swaps with the one above and positions are renumbered |
| MediaSection.MoveDown | surefilter-ui/src/app/admin/products/components/MediaSection.tsx:62-71 | nothing changes at the bottom; otherwise the entry swaps with the one below and positions are renumbered |
| MediaSection.MoveUpThenDown | surefilter-ui/src/app/admin/products/components/MediaSection.tsx:51-71 | moving an entry up and then back down gives the original entries, renumbered |
| SpecParameters.UncategorizedMerged | surefilter-ui/src/app/admin/products/spec-parameters/page.tsx:111 | the group key is never empty, and is 'Uncategorized' exactly when the category is missing, empty or 'Uncategorized' itself |
| SpecParameters.GroupedExactlyOnce | surefilter-ui/src/app/admin/products/spec-parameters/page.tsx:110-117 | the groups have distinct keys; each group holds exactly the parameters of its key, in input order; every parameter is in the group of its own key and no other |
| SpecParameters.Rank | surefilter-ui/src/app/admin/products/spec-parameters/page.tsx:119-122 | the position of a category in the list Dimensions, Performance, Physical, Uncategorized; 4, standing for -1, exactly for a category not in the list |
| SpecParameters.StrLessIrreflexive | surefilter-ui/src/app/admin/products/spec-parameters/page.tsx:123 | no category goes before itself in code-point order |
| SpecParameters.StrLessTransitive | surefilter-ui/src/app/admin/products/spec-parameters/page.tsx:123 | code-point order is transitive |
| SpecParameters.StrLessTotal | surefilter-ui/src/app/admin/products/spec-parameters/page.tsx:123 | of two different categories one goes first in code-point order |
| SpecParameters.StrLessByCodePoint | surefilter-ui/src/app/admin/products/spec-parameters/page.tsx:123 | the modelled order compares code points: U+FF01 goes before U+1F600, the reverse of UTF-16 code-unit order |
| SpecParameters.BeforeIrreflexive | surefilter-ui/src/app/admin/products/spec-parameters/page.tsx:120-127 | the comparator never puts a category before itself |
| SpecParameters.BeforeTransitive | surefilter-ui/src/app/admin/products/spec-parameters/page.tsx:120-127 | the comparator's order is transitive |
| SpecParameters.BeforeTotal | surefilter-ui/src/app/admin/products/spec-parameters/page.tsx:120-127 | the comparator orders any two different categories one way or the other |
| SpecParameters.InsertCategorySorted | surefilter-ui/src/app/admin/products/spec-parameters/page.tsx:120-127 | inserting a new category into a sorted list gives a sorted list with exactly one more element |
| SpecParameters.SortCategoriesCorrect | surefilter-ui/src/app/admin/products/spec-parameters/page.tsx:120-127 | sorting distinct categories gives a sorted permutation of them |
| SpecParameters.ListedFirst | surefilter-ui/src/app/admin/products/spec-parameters/page.tsx:119-127 | in the sorted list the listed categories come first, in the order Dimensions, Performance, Physical, Uncategorized, and the rest follow in string order |
| SpecParameters.GroupKeys | surefilter-ui/src/app/admin/products/spec-parameters/page.tsx:120 | one key per group, in group order |
| SpecParameters.CategoryOrderCorrect | surefilter-ui/src/app/admin/products/spec-parameters/page.tsx:109-127 | the displayed categories are the groups' keys, each once, sorted by the comparator, and every parameter's category is among them |
| PageSlugs.DashesToSpaces | surefilter-ui/src/app/api/admin/pages/route.ts:28 | same length; each '-' becomes a space and every other character is kept |
| PageSlugs.UpperWordStarts | surefilter-ui/src/app/api/admin/pages/route.ts:28 | same length; a word character that is first or follows a non-word character is upper-cased, every other character is kept |
| PageSlugs.DefaultTitleIsTitleCase | surefilter-ui/src/app/api/admin/pages/route.ts:28 | for a slug of [a-z0-9-] the default title equals the admin breadcrumbs' title case of the same slug |
| PageSlugs.CreatePage | surefilter-ui/src/app/api/admin/pages/route.ts:14-43 | 401 exactly without a session; with one, 400 exactly for a trimmed slug that is not [a-z0-9-]+ or is reserved; 409 exactly for a valid slug in use; a created page has the trimmed valid unused slug and the given title, or the default one when none is given |
| PageSlugs.ReservedRefused | surefilter-ui/src/app/api/admin/pages/route.ts:6-16 | every reserved name is refused, whatever pages exist |
| FilterTypes.FullSlugSegments | surefilter-ui/src/app/api/admin/filter-types/route.ts:6-10 | the full slug's segments are the parent's segments followed by the slug, or heavy-duty (for HEAVY_DUTY) or automotive (for any other category) followed by the slug |
| FilterTypes.FullSlugParts | surefilter-ui/src/app/api/admin/filter-types/route.ts:6-10 | the last '/'-segment of the full slug is the slug itself, and without a parent the first segment is the category root |
| FilterTypes.LastPartAfter | surefilter-ui/src/app/api/admin/filter-types/route.ts:8-9 | the text after the last separator is the final piece when that piece has no separator |
| FilterTypes.FirstPartIs | surefilter-ui/src/app/api/admin/filter-types/route.ts:9 | the text before the first separator is the leading piece when that piece has no separator |
| FilterTypes.CreateFilterType | surefilter-ui/src/app/api/admin/filter-types/route.ts:21-34 | 401 exactly without a session; with one, 400 exactly when category, slug or name is missing or empty; then 400 exactly for a slug that is not [a-z0-9-]+; a created filter type gets the full slug built from the parent or the root |
| AllowedOrigins.ParseAllowedOrigins | surefilter-ui/src/app/api/admin/debug/route.ts:6-12 | nothing for a missing or empty setting; every entry is non-empty, trimmed and free of commas; a text is an entry exactly when it is a non-empty trimmed comma-separated piece of the setting |
| AllowedOrigins.ParsedSingleEntry | surefilter-ui/src/app/api/admin/debug/route.ts:9-11 | a setting without a comma gives itself trimmed, or nothing when it is blank |
| AllowedOrigins.ParsedConcat | surefilter-ui/src/app/api/admin/debug/route.ts:9-11 | the entries of `a,b` are those of `a` followed by those of `b`: the setting's order is kept |
| AllowedOrigins.ParsedPieces | surefilter-ui/src/app/api/admin/debug/route.ts:7-11 | the empty setting gives the same (empty) list as its trimmed non-empty pieces |
| AllowedOrigins.EffectiveAllowedOrigins | surefilter-ui/src/app/api/admin/debug/route.ts:14-24 | never empty: the parsed entries when there are any, else the fixed fallback |
| AllowedOrigins.BlankSettingFallsBack | surefilter-ui/src/app/api/admin/debug/route.ts:14-24 | a setting of only commas and white space falls back to the fixed list like a missing one |
| AllowedOrigins.SplitPiecesOf | surefilter-ui/src/app/api/admin/debug/route.ts:9 | every piece of a split is made of characters of the split text |
| AllowedOrigins.TrimAllSpace | surefilter-ui/src/app/api/admin/debug/route.ts:10 | text made only of white space trims to nothing |
| AllowedOrigins.OriginMismatch | surefilter-ui/src/app/api/admin/debug/route.ts:72 | reported exactly when an origin and a forwarded host are both present; then true exactly when the origin does not contain the host or the forwarded host differs from the host |
| AllowedOrigins.MatchingHostsAgree | surefilter-ui/src/app/api/admin/debug/route.ts:72 | a forwarded host equal to the host and named in the origin is not a mismatch |
| AllowedOrigins.MissingHostMismatches | surefilter-ui/src/app/api/admin/debug/route.ts:72 | without a Host header any present forwarded host is a mismatch |
| Carousel.Next | surefilter-ui/src/components/sections/AwardsCarousel.tsx:12 | the following position, wrapping from the last to the first: the awards' `next` and the newsroom's `nextSlide` (NewsroomClient.tsx:43-45) |
| Carousel.Prev | surefilter-ui/src/components/sections/AwardsCarousel.tsx:11 | the preceding position, wrapping from the first to the last: the awards' `prev` and the newsroom's `prevSlide` (NewsroomClient.tsx:47-49) |
| Carousel.PrevUndoesNext | surefilter-ui/src/components/sections/AwardsCarousel.tsx:11-12 | going back undoes going forward |
| Carousel.NextUndoesPrev | surefilter-ui/src/components/sections/AwardsCarousel.tsx:11-12 | going forward undoes going back |
| Carousel.Advance | surefilter-ui/src/components/sections/AwardsCarousel.tsx:12 | any number of forward steps stays within the positions |
| Carousel.AdvanceWithin | surefilter-ui/src/components/sections/AwardsCarousel.tsx:12 | short of the end, k forward steps move k positions on |
| Carousel.AdvanceSplit | surefilter-ui/src/components/sections/AwardsCarousel.tsx:12 | a + b forward steps are a steps followed by b steps |
| Carousel.FullTurn | surefilter-ui/src/components/sections/AwardsCarousel.tsx:12 | n forward steps on n positions come back to the start |
| Newsroom.TotalSlides | surefilter-ui/src/app/newsroom/NewsroomClient.tsx:40-41 | the fewest slides of two events that hold every event |
| Newsroom.SlideContents | surefilter-ui/src/app/newsroom/NewsroomClient.tsx:86-90 | every slide holds one or two events, those at positions 2i and 2i+1 |
| Newsroom.Slides | surefilter-ui/src/app/newsroom/NewsroomClient.tsx:86 | one entry per slide |
| Newsroom.FlattenPrefix | surefilter-ui/src/app/newsroom/NewsroomClient.tsx:86-90 | the first k slides hold exactly the first 2k events, or all of them |
| Newsroom.SlidesPartition | surefilter-ui/src/app/newsroom/NewsroomClient.tsx:86-90 | the slides together, in order, are the events, each exactly once |
| Newsroom.ControlsNeedThreeEvents | surefilter-ui/src/app/newsroom/NewsroomClient.tsx:59 | the arrows and the counter appear exactly when there are three events or more |
| AwardsCarousel.ControlsFor | surefilter-ui/src/components/sections/AwardsCarousel.tsx:60-70 | arrows and dots exactly for more than one award; one dot per award, highlighted exactly for the current one |
| AwardsCarousel.ClickDot | surefilter-ui/src/components/sections/AwardsCarousel.tsx:70 | after clicking a dot that dot, and only that one, is highlighted |
| FolderBreadcrumbs.PathParts | surefilter-ui/src/components/admin/FolderBreadcrumbs.tsx:11 | no segments for the top folder; every segment is non-empty and free of '/' (PathPartsOfSegment and PathPartsOfJoin state which segments, in order) |
| FolderBreadcrumbs.PathPartsOfSegment | surefilter-ui/src/components/admin/FolderBreadcrumbs.tsx:11 | a folder without '/' is its one segment, or no segment when empty |
| FolderBreadcrumbs.PathPartsOfJoin | surefilter-ui/src/components/admin/FolderBreadcrumbs.tsx:11 | the segments of `a/b` are those of `a` followed by those of `b`: empty segments are dropped and the order kept |
| FolderBreadcrumbs.Crumbs | surefilter-ui/src/components/admin/FolderBreadcrumbs.tsx:23-42 | one entry per segment, in order, each showing its segment; all but the last are buttons |
| FolderBreadcrumbs.CrumbOpensPrefix | surefilter-ui/src/components/admin/FolderBreadcrumbs.tsx:24 | entry i opens a folder whose segments are exactly the first i+1 segments |
| FolderBreadcrumbs.CrumbExtendsPrevious | surefilter-ui/src/components/admin/FolderBreadcrumbs.tsx:24 | each entry's folder is the previous entry's folder, a '/' and its own segment |
| FolderBreadcrumbs.LastCrumbIsCurrent | surefilter-ui/src/components/admin/FolderBreadcrumbs.tsx:24-31 | for a path without empty segments the last entry opens the current folder itself and is not a button |
| Upload.AbsentLikeEmpty | surefilter-ui/src/app/api/admin/files/upload/route.ts:25-27 | a field that was not sent and a field sent empty give the same empty text |
| Upload.TypeFromNameFirst | surefilter-ui/src/app/api/admin/files/upload/route.ts:39 | the type is the one known for the name or the one the browser sent; when the name has a known type the browser's type does not matter, and without one it is used as sent |
| Upload.ExtensionFor | surefilter-ui/src/app/api/admin/files/upload/route.ts:50 | every allowed type has a non-empty extension without a '.' |
| Upload.SanitiseChar | surefilter-ui/src/app/api/admin/files/upload/route.ts:56 | a code unit outside [a-zA-Z0-9-] becomes '_' and every other is kept, so the result is a letter, a digit, '-' or '_' |
| Upload.SanitiseUnits | surefilter-ui/src/app/api/admin/files/upload/route.ts:56 | a character becomes one sanitised character per code unit: two '_' for a surrogate pair |
| Upload.Sanitise | surefilter-ui/src/app/api/admin/files/upload/route.ts:56 | one result character per UTF-16 code unit of the text, each a letter, a digit, '-' or '_' |
| Upload.SanitiseSurrogatePair | surefilter-ui/src/app/api/admin/files/upload/route.ts:56 | a character outside the Basic Multilingual Plane becomes `__` |
| Upload.SanitiseAppend | surefilter-ui/src/app/api/admin/files/upload/route.ts:56 | sanitising a concatenation sanitises each part |
| Upload.SanitisePlain | surefilter-ui/src/app/api/admin/files/upload/route.ts:56 | text without surrogate pairs keeps its length and each character is sanitised in place |
| Upload.SanitisedIsPlain | surefilter-ui/src/app/api/admin/files/upload/route.ts:56 | the result's JavaScript length is its character count and equals the input's JavaScript length |
| Upload.DottedNameAsWritten | surefilter-ui/src/app/api/admin/files/upload/route.ts:54-57 | a name with a '.': the part before the last '.' is sanitised, that '.' and the extension are kept |
| Upload.UndottedNameAsWritten | surefilter-ui/src/app/api/admin/files/upload/route.ts:54-57 | as written, a name without a '.' becomes '.' followed by the whole name, unsanitised |
| Upload.UndottedNameCounterexample | surefilter-ui/src/app/api/admin/files/upload/route.ts:54-57 | 'my file' becomes '.my file' |
| Upload.BaseLength | surefilter-ui/src/app/api/admin/files/upload/route.ts:54-56 | the sanitised part ends at the last '.' of the name (no '.' follows it), or is the whole name without one |
| Upload.SanitisedNameShape | surefilter-ui/src/app/api/admin/files/upload/route.ts:52-58 | the intended name is the sanitised part before the last '.' (all of it without one) followed by the rest unchanged; it keeps its JavaScript length, and without surrogate pairs each character is sanitised in place |
| Upload.SanitisedNameSplits | surefilter-ui/src/app/api/admin/files/upload/route.ts:52-58 | the intended name is the sanitised part before the last '.' followed by that '.' and the extension |
| Upload.SanitisedPrefixShape | surefilter-ui/src/app/api/admin/files/upload/route.ts:56-57 | sanitising a prefix and keeping the rest keeps the JavaScript length, and without surrogate pairs works character by character |
| Upload.FinalNameShape | surefilter-ui/src/app/api/admin/files/upload/route.ts:47-58 | a placeholder name (empty, 'blob', 'image.png') becomes a name whose text after the last '.' is the type's extension; any other name becomes its sanitised part before the last '.' followed by the rest, keeping its JavaScript length (and, without surrogate pairs, its character positions) |
| Upload.S3Key | surefilter-ui/src/app/api/admin/files/upload/route.ts:60 | the final name, under the folder when one is given |
| Upload.TagList | surefilter-ui/src/app/api/admin/files/upload/route.ts:92 | no tags for empty text; else entry k is comma-separated piece k trimmed, one per piece, empty entries kept |
| Upload.TrimKeepsOut | surefilter-ui/src/app/api/admin/files/upload/route.ts:92 | trimming adds no character |
| Upload.HandleUpload | surefilter-ui/src/app/api/admin/files/upload/route.ts:15-96 | the checks in order, each exactly when its condition holds: 401 unless admin, 400 without a file, 400 over 50 MiB, 400 for a type not allowed; a stored asset keeps the name, size, type, folder and tags, has the submitted alt text exactly when it is non-empty, and is filed under the computed key |
| SeedContent.SlashesToSpaces | surefilter-ui/prisma/seed_content.mjs:802 | same length; each '/' becomes a space and every other character is kept |
| SeedContent.ToSlugShape | surefilter-ui/prisma/seed_content.mjs:802 | a seed slug holds only [a-z0-9-], no '/', and never two '-' in a row |
| SeedContent.ToSlugFixesSlugs | surefilter-ui/prisma/seed_content.mjs:802 | text already of slug characters without doubled '-' is its own slug |
| SeedContent.ToSlugIdempotent | surefilter-ui/prisma/seed_content.mjs:802 | making a slug of a seed slug changes nothing |
| SeedContent.IconFrom | surefilter-ui/prisma/seed_content.mjs:803-813 | the grid icon exactly when no remaining keyword occurs; else the icon of the first keyword that occurs |
| SeedContent.IconFor | surefilter-ui/prisma/seed_content.mjs:803-813 | the keywords are looked for in the lower-cased name in order and the first found decides; the grid icon exactly when none is found |
| SeedContent.IconName | surefilter-ui/prisma/seed_content.mjs:805-812 | every icon is stored under a non-empty name |
| SeedContent.ContainsAt | surefilter-ui/prisma/seed_content.mjs:804-811 | text holding a word at some position contains it |
| SeedContent.FuelOilSeparatorIcon | surefilter-ui/prisma/seed_content.mjs:805-807 | 'Fuel/Oil Separator' gets the oil icon because 'oil' is looked for before 'fuel' |
| SeedContent.LastPosition | surefilter-ui/prisma/seed_content.mjs:43-47 | the largest position, one of the positions, or 0 for none |
| SeedContent.NextPos | surefilter-ui/prisma/seed_content.mjs:226-229 | one more than every existing position and one more than one of them; 1 on an empty page |
| SeedContent.SeedFullSlugParts | surefilter-ui/prisma/seed_content.mjs:819-823 | a seeded full slug starts with the category's root and ends with the name's slug |
| SeedContent.SeedFullSlugInjective | surefilter-ui/prisma/seed_content.mjs:819-823 | two seeded full slugs are equal only for the same root and the same name slug |
| SeedContent.UpsertEffect | surefilter-ui/prisma/seed_content.mjs:824-849 | an existing type takes the category, position and name, keeps its slug and a non-empty icon; a new one is active with the name's slug and icon; every other row is left alone |
| SeedContent.SeedNamesStep | surefilter-ui/prisma/seed_content.mjs:820-849 | seeding one more name of a category is one more upsert, at that name's index |
| SeedContent.SeedCategory | surefilter-ui/prisma/seed_content.mjs:820-862 | the inner loop upserts each name of the category in order, with its index as position |
| SeedContent.SeedFilterTypes | surefilter-ui/prisma/seed_content.mjs:818-863 | the outer loop runs the inner loop for each category in order |
| SeedContent.SeedDefsStep | surefilter-ui/prisma/seed_content.mjs:818-863 | seeding one more category is one more run of the inner loop over its names |
| SeedContent.SeedNamesOther | surefilter-ui/prisma/seed_content.mjs:818-863 | a row that no name leads to is neither added nor changed |
| SeedContent.SeedNamesKeepsIcon | surefilter-ui/prisma/seed_content.mjs:826 | a non-empty icon is never replaced |
| SeedContent.SeedNamesPositions | surefilter-ui/prisma/seed_content.mjs:820-849 | when the names lead to distinct full slugs, the type of name i ends with that name, position i, the category and an icon |
| ProductForm.ParseListEntries | surefilter-ui/src/app/admin/products/ProductForm.tsx:254 | every parsed tag is non-empty, trimmed and free of commas |
| ProductForm.Spaced | surefilter-ui/src/app/admin/products/ProductForm.tsx:254 | the pieces of the shown text between the commas: the first entry, then each later entry after a space |
| ProductForm.TrimAfterSpace | surefilter-ui/src/app/admin/products/ProductForm.tsx:254 | trimming a trimmed non-empty entry with a space in front gives the entry back |
| ProductForm.ShowThenParse | surefilter-ui/src/app/admin/products/ProductForm.tsx:254 | showing a list of non-empty, trimmed, comma-free entries and parsing the text gives the list back |
| ProductForm.SetTags | surefilter-ui/src/app/admin/products/ProductForm.tsx:254 | the tags become the parsed text; nothing else changes |
| ProductForm.SetIndustries | surefilter-ui/src/app/admin/products/ProductForm.tsx:258 | the industries become the parsed text; nothing else changes |
| ProductForm.ChangeCategory | surefilter-ui/src/app/admin/products/ProductForm.tsx:200 | the category becomes the choice and the filter type is cleared; nothing else changes |
| ProductForm.FilterTypeChoices | surefilter-ui/src/app/admin/products/ProductForm.tsx:210 | without a category every filter type is offered; with one exactly the filter types of that category, in their order |
| ProductForm.AddSpecValue | surefilter-ui/src/app/admin/products/ProductForm.tsx:290-294 | one entry is appended: the first parameter (or none), empty value and unit, position ten times the old count |
| ProductForm.SpecEditLaws | surefilter-ui/src/app/admin/products/ProductForm.tsx:311-372 | repeating an edit changes nothing more, a later edit of the same input overrides an earlier one (an emptied position counting as 0), and edits of different inputs commute |
| ProductForm.EditSpecValue | surefilter-ui/src/app/admin/products/ProductForm.tsx:313-316 | only the entry at the index takes the edit |
| ProductForm.AddThenRemove | surefilter-ui/src/app/admin/products/ProductForm.tsx:290-294 | removing the entry just added gives the list back |
| ProductForm.OrNullLaws | surefilter-ui/src/app/admin/products/ProductForm.tsx:112-118 | blank and missing text are sent alike as null, and a text already sent passes through unchanged |
| ProductForm.Trunc | surefilter-ui/src/app/admin/products/ProductForm.tsx:126 | truncation toward zero: the integer part of a number of either sign |
| ProductForm.WholePositionKept | surefilter-ui/src/app/admin/products/ProductForm.tsx:126 | a whole-number position is sent as that number, of either sign |
| ProductForm.BlankLikeMissing | surefilter-ui/src/app/admin/products/ProductForm.tsx:110-128 | a form whose optional texts and dimensions are blank is saved exactly as one where they are missing |
| ProductForm.PayloadHasNoEmptyText | surefilter-ui/src/app/admin/products/ProductForm.tsx:110-128 | the payload never carries an empty optional text or an empty unit override |
| ProductForm.AddedSpecPayload | surefilter-ui/src/app/admin/products/ProductForm.tsx:293 | a spec added by the button is sent at ten times its index with no unit override |
| SpecValues.AddSpecValue | surefilter-ui/src/app/admin/products/components/SpecValuesSection.tsx:31-39 | one blank entry is appended whose position is the old count |
| SpecValues.AddKeepsNumbering | surefilter-ui/src/app/admin/products/components/SpecValuesSection.tsx:31-39 | adding keeps a list whose positions are 0, 1, 2, ... in that shape |
| SpecValues.EditLaws | surefilter-ui/src/app/admin/products/components/SpecValuesSection.tsx:42-46 | repeating an edit changes nothing more, a later edit of the same field overrides an earlier one, and edits of different fields commute |
| SpecValues.UpdateSpecValue | surefilter-ui/src/app/admin/products/components/SpecValuesSection.tsx:42-46 | only the entry at the index takes the edit |
| SpecValues.AddThenRemove | surefilter-ui/src/app/admin/products/components/SpecValuesSection.tsx:31-50 | removing the entry just added gives the list back |
| SpecValues.OtherMerged | surefilter-ui/src/app/admin/products/components/SpecValuesSection.tsx:54 | the heading is never empty, and is 'Other' exactly when the category is missing, empty or 'Other' itself |
| SpecValues.ParametersByCategory | surefilter-ui/src/app/admin/products/components/SpecValuesSection.tsx:53-60 | the reduce computes the grouping of the parameters by that key |
| SpecValues.GroupedUnderOther | surefilter-ui/src/app/admin/products/components/SpecValuesSection.tsx:53-60 | every parameter is offered under exactly one heading, its category or 'Other', in input order, and headings are distinct |
| CrossReferences.TypeName | surefilter-ui/src/app/admin/products/components/CrossReferencesSection.tsx:44 | every type is stored as one of the offered texts |
| CrossReferences.ParseType | surefilter-ui/src/app/admin/products/components/CrossReferencesSection.tsx:44 | a text names a type exactly when it is one of the offered texts |
| CrossReferences.TypeNamesRoundTrip | surefilter-ui/src/app/admin/products/components/CrossReferencesSection.tsx:44 | the offered texts and the types correspond one to one; the four texts are distinct |
| CrossReferences.AddCrossReference | surefilter-ui/src/app/admin/products/components/CrossReferencesSection.tsx:21-32 | one blank OEM reference, not preferred, with empty notes, is appended |
| CrossReferences.EditLaws | surefilter-ui/src/app/admin/products/components/CrossReferencesSection.tsx:34-38 | repeating an edit changes nothing more, a later edit of the same field overrides an earlier one, and edits of different fields commute |
| CrossReferences.UpdateCrossReference | surefilter-ui/src/app/admin/products/components/CrossReferencesSection.tsx:34-38 | only the entry at the index takes the edit |
| CrossReferences.EditsKeepTypesOffered | surefilter-ui/src/app/admin/products/components/CrossReferencesSection.tsx:21-44 | adding, editing and removing keep every entry's type among the offered ones |
| CrossReferences.AddThenRemove | surefilter-ui/src/app/admin/products/components/CrossReferencesSection.tsx:21-42 | removing the entry just added gives the list back |
| Slugify.DropRun | surefilter-ui/prisma/seed_content.mjs:802 | what follows a leading run is a suffix of the text that does not start inside the run |
| Slugify.ReplaceRuns | surefilter-ui/prisma/seed_content.mjs:802 | no longer than the text, empty exactly when the text is, and every character is the replacement or a kept character of the text |
| Slugify.ReplaceRunsNoDoubled | surefilter-ui/prisma/seed_content.mjs:802 | when the replacement is itself in the class the result never holds it twice in a row |
| Slugify.ReplaceRunsFixed | surefilter-ui/prisma/seed_content.mjs:802 | text whose class characters are all single replacements is left as it is |
| Slugify.KeepSlugChars | surefilter-ui/prisma/seed_content.mjs:802 | the result is no longer than the text and holds only slug characters (KeepSlugCharsCounts states how many of each) |
| Slugify.KeepSlugCharsSubsequence | surefilter-ui/prisma/seed_content.mjs:802 | the result is a subsequence of the text that keeps every slug character of it |
| Slugify.KeepSlugCharsCounts | surefilter-ui/prisma/seed_content.mjs:802 | each slug character occurs in the result as often as in the text, and no other character occurs |
| Slugify.KeepSlugCharsFixed | surefilter-ui/prisma/seed_content.mjs:802 | text of slug characters keeps every character |
| CsvExport.QuoteAll | surefilter-ui/src/app/api/admin/form-submissions/export/route.ts:86 | cell k is value k quoted with its inner quotes doubled |
| CsvExport.RawQuoteAll | surefilter-ui/src/app/api/admin/form-submissions/export/route.ts:85 | cell k is column name k between two '"', its inner quotes left as they are |

## Left out

- Case mapping: `toLowerCase`/`toUpperCase` are modelled on ASCII letters only; other characters are left unchanged.
- SpecParameters.StrLess: `localeCompare` is modelled as lexicographic code-point order. This differs from the locale collation the runtime applies (which depends on its locale data, and for instance does not put every upper-case letter before every lower-case one) and also from UTF-16 code-unit order, which puts characters outside the Basic Multilingual Plane before U+E000–U+FFFF (`SpecParameters.StrLessByCodePoint`). The ordering lemmas (irreflexive, transitive, total) and the category order hold for this order only.
- JavaScript `Number` (with `NaN`, `Infinity` and exponents) is not spelled out. On the catalog page it is the function `number` carried by `NumberReading`; elsewhere a parsed number, or its absence, is an input of the member that uses it. `parseInt` with radix 10 is modelled by `Text.ParseInt`.
- Sessions, Prisma queries, S3 and CloudFront calls, `fetch`, webhooks, e-mail, `revalidateTag` and console output are not modelled. Their results (signed in or not, the looked-up rows, the fetched rule list) are parameters.
- Clocks (`Date.now`, `toISOString`) and random ids (`crypto.randomUUID` for redirect rules) are inputs or are left out.
- User-supplied regular expressions in form field definitions are not interpreted. Whether a value matches is a parameter of the check.
- `mime.lookup` is a parameter. `mime.extension` is a fixed table of the allowed types, its only inputs in the upload route.
- `JSON.stringify` of stored object values is given as text; JSON parsing of request bodies is not modelled.
- The field the source calls `label` is named `title`, because `label` is a Dafny keyword.
- Property order of JavaScript objects used as maps is modelled as insertion order. The rule that integer-like keys come first is not modelled.
- MediaSection.MoveUp: the source's `forEach` assigns `item.position` on objects shared with the previous list, so the old list's items change too. The model renumbers copies and does not capture that aliasing. MoveDown and the menu editors are modelled the same way.
- SeedContent: the pages and sections the seed creates for each filter type, the `pageSlug` link it writes back, the `SEED_FORCE_UPDATE` refresh and the swallowed update errors are not modelled. Only the filter-type rows are.
- SeedContent.SeedNamesPositions requires the names of one category to lead to distinct full slugs, as the seed list's names do. When two names share a slug, the later one wins, and the lemma says nothing about that case.
- The media editor's `getCdnUrl` is a placeholder in the source and is not modelled.
- FormBuilder.Builder.DeleteField: the browser's confirmation dialog is a parameter (`confirmed`).
- ProductForm: the JSON-edited lists (images, specsLeft, specsRight, oems) and the text of the option labels are not modelled.
- ProductForm.ApplySpecEdit: a typed position that `Number` turns into `NaN` is not distinguished from an empty one; both are modelled as absent.
- SpecValues: the option labels drawn for each parameter are not modelled, only the grouping.
- CsvExport.Export: computes the export with every header cell escaped like the data cells, the corrected behaviour logged under Findings. The header as written is modelled only by `CsvExport.RawQuoteAll` and `CsvExport.RawHeaderCellMisreads`.
- Upload.FinalName: sanitises the whole name when it has no '.', the corrected behaviour logged under Findings. The name as written is modelled only by `Upload.UndottedNameAsWritten` and `Upload.UndottedNameCounterexample`.
- Upload.HandleUpload: stores under `Upload.FinalName`, so for a name without '.' it gives the corrected key, not the source's `.name`.
- FormBuilder: the Min Length and Max Length inputs of the validation panel (FormBuilder.tsx:442 and 454) are not modelled. They only store a parsed number into the field's `validation`, which `FormSubmit` then reads as given.
- Lookups in plain JavaScript objects by a user-supplied key are modelled as map lookups in which only the stored entries exist, so a key such as `constructor`, `toString` or `__proto__` is an ordinary key. In the source such a key finds a property inherited from `Object.prototype` instead. The health check's grouping of pages by title (surefilter-ui/src/app/api/admin/health-check/route.ts:34-40) and the grouping of parameters by category (surefilter-ui/src/app/admin/products/components/SpecValuesSection.tsx:53-60, surefilter-ui/src/app/admin/products/spec-parameters/page.tsx:108-117) then call `.push` on a function or on the prototype object, which throws a TypeError: the health check answers 500 and the page fails to render, where the model groups normally. The breadcrumb label table (surefilter-ui/src/components/admin/Breadcrumbs.tsx:105-107) and `mimeMap[ext]` (surefilter-ui/src/lib/assets.ts:125) return the inherited value instead of falling through to the title-cased segment or `application/octet-stream`.
- Upload: the source builds the name by popping the last piece off an array; the model takes the last piece directly. The image-dimension branch does nothing in the source and is left out.

## Findings

| source | as written | input that shows it | evidently intended | confidence | as-written member | corrected member |
|---|---|---|---|---|---|---|
| surefilter-ui/src/app/api/admin/form-submissions/export/route.ts:85 | header names are put in quotes without doubling inner quotes | a data key `a"b` gives the header cell `"a"b"`, which a CSV reader takes as the cell `a` followed by `b"` | every cell, header included, escaped like the data cells on line 86 | not executed | CsvExport.RawHeaderCellMisreads | CsvExport.ExportRoundTrip |
| surefilter-ui/src/app/api/admin/files/upload/route.ts:54-57 | a name without '.' is split into one piece, which is popped as the extension, leaving an empty base | `my file` is stored as `.my file`, unsanitised and hidden | the whole name sanitised when there is no extension (`my_file`) | not executed | Upload.UndottedNameCounterexample | Upload.SanitisedNameShape |
