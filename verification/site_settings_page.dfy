/**
 * The site settings admin page: editing the header navigation (top-level menu
 * items and their children), editing redirect rules, the bulk import of
 * redirects from pasted text, the guard against self-redirects on save, and
 * the warning about redirect chains.
 *
 * Every editor copies the list held in page state, changes the copy and hands
 * it back; the model takes the list as input and returns the new list.
 */
module SiteSettingsPage {
  import opened Text
  import opened Seqs
  import opened RedirectRules

  /** A menu entry's `label` is the field `title` here (`label` is a Dafny keyword). */
  datatype MenuChildItem = MenuChildItem(title: string, url: string, order: int, isActive: bool)

  /** A top-level menu item; an item without a `children` array is one with no children. */
  datatype MenuItem = MenuItem(title: string, url: string, order: int, isActive: bool, children: seq<MenuChildItem>)

  /** A `Partial<MenuItem>`: the fields an edit overrides. */
  datatype MenuPatch = MenuPatch(
    title: Option<string>, url: Option<string>, order: Option<int>, isActive: Option<bool>)

  /** `{ ...item, ...patch }` */
  function ApplyMenuPatch(item: MenuItem, p: MenuPatch): (r: MenuItem)
    ensures r.title == (if p.title.Some? then p.title.value else item.title)
    ensures r.url == (if p.url.Some? then p.url.value else item.url)
    ensures r.order == (if p.order.Some? then p.order.value else item.order)
    ensures r.isActive == (if p.isActive.Some? then p.isActive.value else item.isActive)
    ensures r.children == item.children
  {
    item.(title := if p.title.Some? then p.title.value else item.title,
          url := if p.url.Some? then p.url.value else item.url,
          order := if p.order.Some? then p.order.value else item.order,
          isActive := if p.isActive.Some? then p.isActive.value else item.isActive)
  }

  /** `{ ...child, ...patch }` */
  function ApplyChildPatch(c: MenuChildItem, p: MenuPatch): (r: MenuChildItem)
    ensures r.title == (if p.title.Some? then p.title.value else c.title)
    ensures r.url == (if p.url.Some? then p.url.value else c.url)
    ensures r.order == (if p.order.Some? then p.order.value else c.order)
    ensures r.isActive == (if p.isActive.Some? then p.isActive.value else c.isActive)
  {
    MenuChildItem(
      if p.title.Some? then p.title.value else c.title,
      if p.url.Some? then p.url.value else c.url,
      if p.order.Some? then p.order.value else c.order,
      if p.isActive.Some? then p.isActive.value else c.isActive)
  }

  /** The patch that sets nothing. */
  const EmptyPatch := MenuPatch(None, None, None, None)

  /** `{ ...p, ...q }`: the fields `q` sets win over those `p` sets. */
  function MergePatch(p: MenuPatch, q: MenuPatch): MenuPatch
  {
    MenuPatch(
      if q.title.Some? then q.title else p.title,
      if q.url.Some? then q.url else p.url,
      if q.order.Some? then q.order else p.order,
      if q.isActive.Some? then q.isActive else p.isActive)
  }

  /**
   * The spread on a menu item: the empty patch changes nothing, a patch
   * applied twice acts once, and two patches in a row act as one patch in
   * which the later one wins.
   */
  lemma MenuPatchLaws(item: MenuItem, p: MenuPatch, q: MenuPatch)
    ensures ApplyMenuPatch(item, EmptyPatch) == item
    ensures ApplyMenuPatch(ApplyMenuPatch(item, p), p) == ApplyMenuPatch(item, p)
    ensures ApplyMenuPatch(ApplyMenuPatch(item, p), q) == ApplyMenuPatch(item, MergePatch(p, q))
  {
  }

  /** The same laws for the spread on a child item. */
  lemma ChildPatchLaws(c: MenuChildItem, p: MenuPatch, q: MenuPatch)
    ensures ApplyChildPatch(c, EmptyPatch) == c
    ensures ApplyChildPatch(ApplyChildPatch(c, p), p) == ApplyChildPatch(c, p)
    ensures ApplyChildPatch(ApplyChildPatch(c, p), q) == ApplyChildPatch(c, MergePatch(p, q))
  {
  }

  // ---------------------------------------------------------------------
  // Renumbering
  // ---------------------------------------------------------------------

  /** Every item's `order` equals its position. */
  predicate OrdersArePositions(items: seq<MenuItem>)
  {
    forall i :: 0 <= i < |items| ==> items[i].order == i
  }

  predicate ChildOrdersArePositions(children: seq<MenuChildItem>)
  {
    forall i :: 0 <= i < |children| ==> children[i].order == i
  }

  /** `items` with each `order` set to the position and nothing else changed. */
  predicate IsRenumbering(items: seq<MenuItem>, r: seq<MenuItem>)
  {
    |r| == |items| && OrdersArePositions(r) &&
    forall i :: 0 <= i < |items| ==> r[i] == items[i].(order := i)
  }

  predicate IsChildRenumbering(children: seq<MenuChildItem>, r: seq<MenuChildItem>)
  {
    |r| == |children| && ChildOrdersArePositions(r) &&
    forall i :: 0 <= i < |children| ==> r[i] == children[i].(order := i)
  }

  /** `items.forEach((item, idx) => item.order = idx)` */
  method RenumberItems(a: array<MenuItem>)
    modifies a
    ensures IsRenumbering(old(a[..]), a[..])
  {
    var i := 0;
    while i < a.Length
      invariant 0 <= i <= a.Length
      invariant forall k :: 0 <= k < i ==> a[k] == old(a[k]).(order := k)
      invariant forall k :: i <= k < a.Length ==> a[k] == old(a[k])
    {
      a[i] := a[i].(order := i);
      i := i + 1;
    }
  }

  /** `children.forEach((c, i) => c.order = i)` */
  method RenumberChildren(a: array<MenuChildItem>)
    modifies a
    ensures IsChildRenumbering(old(a[..]), a[..])
  {
    var i := 0;
    while i < a.Length
      invariant 0 <= i <= a.Length
      invariant forall k :: 0 <= k < i ==> a[k] == old(a[k]).(order := k)
      invariant forall k :: i <= k < a.Length ==> a[k] == old(a[k])
    {
      a[i] := a[i].(order := i);
      i := i + 1;
    }
  }

  /** A renumbering keeps the items and their labels in place. */
  lemma RenumberingKeepsLabels(items: seq<MenuItem>, r: seq<MenuItem>)
    requires IsRenumbering(items, r)
    ensures forall i :: 0 <= i < |items| ==> r[i].title == items[i].title && r[i].url == items[i].url
    ensures forall i :: 0 <= i < |items| ==> r[i].isActive == items[i].isActive && r[i].children == items[i].children
  {
  }

  /** The target position of a move. */
  function MoveTarget(index: int, up: bool): int
  {
    if up then index - 1 else index + 1
  }

  // ---------------------------------------------------------------------
  // Top-level menu items
  // ---------------------------------------------------------------------

  /** addMenuItem: an active 'New Item' linking to '/' is appended, its order the old length. */
  function AddMenuItem(items: seq<MenuItem>): (r: seq<MenuItem>)
    ensures |r| == |items| + 1 && r[..|items|] == items
    ensures r[|items|] == MenuItem("New Item", "/", |items|, true, [])
  {
    items + [MenuItem("New Item", "/", |items|, true, [])]
  }

  /** updateMenuItem: one item takes the patched fields; the rest of the list is unchanged. */
  function UpdateMenuItem(items: seq<MenuItem>, index: int, p: MenuPatch): (r: seq<MenuItem>)
    requires 0 <= index < |items|
    ensures |r| == |items|
    ensures r[index] == ApplyMenuPatch(items[index], p)
    ensures forall k :: 0 <= k < |items| && k != index ==> r[k] == items[k]
  {
    items[index := ApplyMenuPatch(items[index], p)]
  }

  /**
   * moveMenuItem: when the neighbour in the chosen direction exists, the two
   * items swap and every order is reset to the position; otherwise the list is
   * left as it was.
   */
  method MoveMenuItem(items: seq<MenuItem>, index: int, up: bool) returns (r: seq<MenuItem>)
    requires 0 <= index < |items|
    ensures var t := MoveTarget(index, up);
      if 0 <= t < |items| then IsRenumbering(Swap(items, index, t), r) else r == items
  {
    var t := MoveTarget(index, up);
    if t < 0 || t >= |items| {
      return items;
    }
    var a := new MenuItem[|items|](k requires 0 <= k < |items| => items[k]);
    a[index], a[t] := a[t], a[index];
    assert a[..] == Swap(items, index, t);
    RenumberItems(a);
    r := a[..];
  }

  /** A completed move keeps the same items, now numbered by position. */
  lemma {:induction false} MoveKeepsItems(items: seq<MenuItem>, index: int, up: bool, r: seq<MenuItem>)
    requires 0 <= index < |items|
    requires 0 <= MoveTarget(index, up) < |items|
    requires IsRenumbering(Swap(items, index, MoveTarget(index, up)), r)
    ensures OrdersArePositions(r)
    ensures r[MoveTarget(index, up)].title == items[index].title
    ensures r[index].title == items[MoveTarget(index, up)].title
    ensures multiset(Unnumbered(r)) == multiset(Unnumbered(items))
  {
    var t := MoveTarget(index, up);
    var s := Swap(items, index, t);
    assert r[t] == s[t].(order := t) && r[index] == s[index].(order := index);
    RenumberingUnnumbered(s, r);
    UnnumberedSwap(items, index, t);
    assert multiset(Swap(Unnumbered(items), index, t)) == multiset(Unnumbered(items));
  }

  /** Renumbering changes nothing but the orders. */
  lemma RenumberingUnnumbered(items: seq<MenuItem>, r: seq<MenuItem>)
    requires IsRenumbering(items, r)
    ensures Unnumbered(r) == Unnumbered(items)
  {
    assert forall k :: 0 <= k < |items| ==> Unnumbered(r)[k] == Unnumbered(items)[k];
  }

  /** The items with their `order` field cleared, to compare lists up to numbering. */
  function Unnumbered(items: seq<MenuItem>): (r: seq<MenuItem>)
    ensures |r| == |items|
    ensures forall k :: 0 <= k < |items| ==> r[k] == items[k].(order := 0)
  {
    if items == [] then [] else [items[0].(order := 0)] + Unnumbered(items[1..])
  }

  lemma {:induction false} UnnumberedSwap(items: seq<MenuItem>, i: int, j: int)
    requires 0 <= i < |items| && 0 <= j < |items|
    ensures Unnumbered(Swap(items, i, j)) == Swap(Unnumbered(items), i, j)
  {
    var a, b := Unnumbered(Swap(items, i, j)), Swap(Unnumbered(items), i, j);
    assert forall k :: 0 <= k < |items| ==> a[k] == b[k];
  }

  // ---------------------------------------------------------------------
  // Child items
  // ---------------------------------------------------------------------

  /** addChildItem: an active 'New Sub-item' is appended to one parent's children. */
  function AddChildItem(items: seq<MenuItem>, parent: int): (r: seq<MenuItem>)
    requires 0 <= parent < |items|
    ensures |r| == |items|
    ensures forall k :: 0 <= k < |items| && k != parent ==> r[k] == items[k]
    ensures var cs := items[parent].children;
      r[parent] == items[parent].(children := cs + [MenuChildItem("New Sub-item", "/", |cs|, true)])
  {
    var cs := items[parent].children;
    items[parent := items[parent].(children := cs + [MenuChildItem("New Sub-item", "/", |cs|, true)])]
  }

  /** updateChildItem: one child of one parent takes the patched fields. */
  function UpdateChildItem(items: seq<MenuItem>, parent: int, child: int, p: MenuPatch): (r: seq<MenuItem>)
    requires 0 <= parent < |items| && 0 <= child < |items[parent].children|
    ensures |r| == |items|
    ensures forall k :: 0 <= k < |items| && k != parent ==> r[k] == items[k]
    ensures var cs := items[parent].children;
      r[parent] == items[parent].(children := cs[child := ApplyChildPatch(cs[child], p)])
  {
    var cs := items[parent].children;
    items[parent := items[parent].(children := cs[child := ApplyChildPatch(cs[child], p)])]
  }

  /**
   * removeChildItem: `children.splice(child, 1)`, then every child's order is
   * reset to its position.
   */
  method RemoveChildItem(items: seq<MenuItem>, parent: int, child: int) returns (r: seq<MenuItem>)
    requires 0 <= parent < |items|
    ensures |r| == |items|
    ensures forall k :: 0 <= k < |items| && k != parent ==> r[k] == items[k]
    ensures r[parent] == items[parent].(children := r[parent].children)
    ensures IsChildRenumbering(SpliceOne(items[parent].children, child), r[parent].children)
  {
    var cs := SpliceOne(items[parent].children, child);
    var a := new MenuChildItem[|cs|](k requires 0 <= k < |cs| => cs[k]);
    assert a[..] == cs;
    RenumberChildren(a);
    r := items[parent := items[parent].(children := a[..])];
  }

  /** Removing a child that exists leaves one child fewer, numbered 0..n-1, others in order. */
  lemma RemoveChildExactlyOne(cs: seq<MenuChildItem>, child: int, r: seq<MenuChildItem>)
    requires 0 <= child < |cs|
    requires IsChildRenumbering(SpliceOne(cs, child), r)
    ensures |r| == |cs| - 1
    ensures ChildOrdersArePositions(r)
    ensures forall k :: 0 <= k < child ==> r[k].title == cs[k].title
    ensures forall k :: child <= k < |r| ==> r[k].title == cs[k + 1].title
  {
  }

  /** moveChildItem: like moveMenuItem, on one parent's children. */
  method MoveChildItem(items: seq<MenuItem>, parent: int, child: int, up: bool) returns (r: seq<MenuItem>)
    requires 0 <= parent < |items| && 0 <= child < |items[parent].children|
    ensures var cs := items[parent].children; var t := MoveTarget(child, up);
      if 0 <= t < |cs| then
        |r| == |items| &&
        (forall k :: 0 <= k < |items| && k != parent ==> r[k] == items[k]) &&
        r[parent] == items[parent].(children := r[parent].children) &&
        IsChildRenumbering(Swap(cs, child, t), r[parent].children)
      else r == items
  {
    var cs := items[parent].children;
    var t := MoveTarget(child, up);
    if t < 0 || t >= |cs| {
      return items;
    }
    var a := new MenuChildItem[|cs|](k requires 0 <= k < |cs| => cs[k]);
    a[child], a[t] := a[t], a[child];
    assert a[..] == Swap(cs, child, t);
    RenumberChildren(a);
    r := items[parent := items[parent].(children := a[..])];
  }

  // ---------------------------------------------------------------------
  // Redirect rules
  // ---------------------------------------------------------------------

  /** addRedirect: an active 301 rule from '/' to '/' with an empty comment is appended. */
  function AddRedirect(rules: seq<RedirectRule>): (r: seq<RedirectRule>)
    ensures |r| == |rules| + 1 && r[..|rules|] == rules
    ensures r[|rules|] == RedirectRule("/", "/", 301, true, "")
  {
    rules + [RedirectRule("/", "/", 301, true, "")]
  }

  /** updateRedirect: one rule is replaced by its edited version. */
  function UpdateRedirect(rules: seq<RedirectRule>, index: int, edited: RedirectRule): (r: seq<RedirectRule>)
    requires 0 <= index < |rules|
    ensures |r| == |rules| && r[index] == edited
    ensures forall k :: 0 <= k < |rules| && k != index ==> r[k] == rules[k]
  {
    rules[index := edited]
  }

  /** The rules whose source equals their destination. */
  function SelfRedirects(rules: seq<RedirectRule>): (r: seq<RedirectRule>)
    ensures forall k :: 0 <= k < |r| ==> r[k].source == r[k].destination && r[k] in rules
    ensures forall k :: 0 <= k < |rules| && rules[k].source == rules[k].destination ==> rules[k] in r
  {
    if rules == [] then []
    else if rules[0].source == rules[0].destination then [rules[0]] + SelfRedirects(rules[1..])
    else SelfRedirects(rules[1..])
  }

  /** handleSaveRedirects: the save goes ahead only if no rule points at its own source. */
  function CanSaveRedirects(rules: seq<RedirectRule>): (ok: bool)
    ensures ok <==> forall k :: 0 <= k < |rules| ==> rules[k].source != rules[k].destination
  {
    var self := SelfRedirects(rules);
    assert self != [] ==> self[0] in rules && self[0].source == self[0].destination;
    |self| == 0
  }

  // ---------------------------------------------------------------------
  // Chain warning
  // ---------------------------------------------------------------------

  /** The keys of the active rules' sources. */
  function ActiveSources(rules: seq<RedirectRule>): set<string>
  {
    set k | 0 <= k < |rules| && rules[k].isActive :: PathKey(rules[k].source)
  }

  /** The rule is active and leads, up to case and trailing slashes, into one of `sources`. */
  predicate LeadsInto(sources: set<string>, rule: RedirectRule)
  {
    rule.isActive && PathKey(rule.destination) in sources
  }

  /**
   * The active rules whose destination is, up to case and trailing slashes, the source of an active rule:
   * one warning per such rule, in the table's order.
   */
  function Chains(rules: seq<RedirectRule>): (r: seq<RedirectRule>)
    ensures IsSubsequence(r, rules)
    ensures |r| == |set k: nat | k < |rules| && LeadsInto(ActiveSources(rules), rules[k])|
    ensures forall k :: 0 <= k < |r| ==> r[k] in rules
  {
    var sources := ActiveSources(rules);
    var test := rule => LeadsInto(sources, rule);
    FilterIsSubsequence(rules, test);
    FilterCountsPositions(rules, test);
    assert Positions(rules, test) == set k: nat | k < |rules| && LeadsInto(sources, rules[k]);
    ChainsAmong(rules, sources)
  }

  function ChainsAmong(rules: seq<RedirectRule>, sources: set<string>): (r: seq<RedirectRule>)
    ensures r == Filter(rules, rule => LeadsInto(sources, rule))
    ensures |r| <= |rules|
    ensures forall k :: 0 <= k < |r| ==> r[k] in rules && LeadsInto(sources, r[k])
    ensures forall k :: 0 <= k < |rules| && LeadsInto(sources, rules[k]) ==> rules[k] in r
  {
    if rules == [] then []
    else
      var rest := ChainsAmong(rules[1..], sources);
      assert forall k :: 0 < k < |rules| ==> rules[k] == rules[1..][k - 1];
      if LeadsInto(sources, rules[0]) then [rules[0]] + rest else rest
  }

  /** A rule is reported as a chain exactly when it is active and leads to an active rule's source. */
  lemma ChainsCharacterised(rules: seq<RedirectRule>, i: int)
    requires 0 <= i < |rules|
    ensures rules[i] in Chains(rules) <==>
      rules[i].isActive &&
      exists j :: 0 <= j < |rules| && rules[j].isActive && PathKey(rules[j].source) == PathKey(rules[i].destination)
  {
    var srcs := ActiveSources(rules);
    if rules[i] in Chains(rules) {
      assert PathKey(rules[i].destination) in srcs;
    }
    if rules[i].isActive &&
      exists j :: 0 <= j < |rules| && rules[j].isActive && PathKey(rules[j].source) == PathKey(rules[i].destination)
    {
      var j :| 0 <= j < |rules| && rules[j].isActive && PathKey(rules[j].source) == PathKey(rules[i].destination);
      assert PathKey(rules[j].source) in srcs;
    }
  }

  // ---------------------------------------------------------------------
  // Bulk import
  // ---------------------------------------------------------------------

  /** The number of leading characters of `s` accepted by `ws`. */
  function RunLength(s: string, ws: char -> bool): (n: nat)
    ensures n <= |s|
    ensures forall i :: 0 <= i < n ==> ws(s[i])
    ensures n < |s| ==> !ws(s[n])
  {
    if s != [] && ws(s[0]) then 1 + RunLength(s[1..], ws) else 0
  }

  predicate IsTab(c: char) { c == '\t' }

  /**
   * The length of the separator `\s*(?:→|->)\s*|\t+|\s{2,}` matched at the
   * start of `s`, or 0 when it does not match there. The alternatives are
   * tried in order. The leading `\s*` of the first one can only be followed by
   * an arrow when it takes the whole run of white space, so no other split of
   * the run needs trying.
   */
  function SepLength(s: string): (n: nat)
    ensures n <= |s|
  {
    var w := RunLength(s, IsJsSpace);
    var after := s[w..];
    if StartsWith(after, "→") then w + 1 + RunLength(after[1..], IsJsSpace)
    else if StartsWith(after, "->") then w + 2 + RunLength(after[2..], IsJsSpace)
    else if RunLength(s, IsTab) > 0 then RunLength(s, IsTab)
    else if w >= 2 then w
    else 0
  }

  /** `line.split(/\s*(?:→|->)\s*|\t+|\s{2,}/)`: split at every separator, scanning left to right. */
  function SplitOnSeparators(s: string): (parts: seq<string>)
    ensures |parts| >= 1
    decreases |s|
  {
    if s == [] then [[]]
    else if SepLength(s) > 0 then [[]] + SplitOnSeparators(s[SepLength(s)..])
    else
      var rest := SplitOnSeparators(s[1..]);
      [[s[0]] + rest[0]] + rest[1..]
  }

  /** The position where the first separator starts, or the length of `s` when none does. */
  function FirstSep(s: string): (i: nat)
    ensures i <= |s|
  {
    if s == [] || SepLength(s) > 0 then 0 else 1 + FirstSep(s[1..])
  }

  /** A separator starts at `FirstSep(s)`, unless that is the end, and none starts before it. */
  lemma {:induction false} FirstSepIsFirst(s: string)
    ensures FirstSep(s) < |s| ==> SepLength(s[FirstSep(s)..]) > 0
    ensures forall j :: 0 <= j < FirstSep(s) ==> SepLength(s[j..]) == 0
    decreases |s|
  {
    assert s[0..] == s;
    if s != [] && SepLength(s) == 0 {
      FirstSepIsFirst(s[1..]);
      forall j | 1 <= j < FirstSep(s) ensures SepLength(s[j..]) == 0 {
        assert s[j..] == s[1..][j - 1..];
      }
      assert s[1..][FirstSep(s[1..])..] == s[FirstSep(s)..];
    }
  }

  /** The first part is the text before the first separator; without a separator it is the only part. */
  lemma {:induction false} SplitFirstPart(s: string)
    ensures SplitOnSeparators(s)[0] == s[..FirstSep(s)]
    ensures FirstSep(s) == |s| ==> SplitOnSeparators(s) == [s]
    decreases |s|
  {
    if s != [] && SepLength(s) == 0 {
      var t := s[1..];
      var rest := SplitOnSeparators(t);
      SplitStep(s);
      SplitFirstPart(t);
      var k := FirstSep(t);
      ConsPrefix(s, k);
      assert SplitOnSeparators(s)[0] == s[..k + 1];
      if k == |t| {
        assert rest == [t];
        assert [s[0]] + t == s;
      }
    }
  }

  /** Where no separator starts, the first character joins the first part of the rest. */
  lemma SplitStep(s: string)
    requires s != [] && SepLength(s) == 0
    ensures SplitOnSeparators(s)[0] == [s[0]] + SplitOnSeparators(s[1..])[0]
    ensures SplitOnSeparators(s)[1..] == SplitOnSeparators(s[1..])[1..]
    ensures |SplitOnSeparators(s)| == |SplitOnSeparators(s[1..])|
    ensures FirstSep(s) == 1 + FirstSep(s[1..])
  {
  }

  /** A prefix one longer is the first character followed by the prefix of the rest. */
  lemma ConsPrefix(s: string, k: nat)
    requires k < |s|
    ensures s[..k + 1] == [s[0]] + s[1..][..k]
  {
  }

  /** A suffix of the rest is a suffix of the text. */
  lemma SliceOfSlice(s: string, k: nat)
    requires k < |s|
    ensures s[1..][k..] == s[k + 1..]
  {
  }

  /** The text after the first separator, or nothing when there is none. */
  function AfterFirstSep(s: string): (rest: string)
    ensures |rest| < |s| || rest == []
    decreases |s|
  {
    if s == [] then []
    else if SepLength(s) > 0 then s[SepLength(s)..]
    else AfterFirstSep(s[1..])
  }

  /** The text after the first separator is the suffix that starts where the separator ends. */
  lemma {:induction false} AfterFirstSepShape(s: string)
    requires FirstSep(s) < |s|
    ensures AfterFirstSep(s) == s[FirstSep(s) + SepLength(s[FirstSep(s)..])..]
    decreases |s|
  {
    if SepLength(s) == 0 {
      var t := s[1..];
      AfterFirstSepStep(s);
      AfterFirstSepShape(t);
      var i := FirstSep(t);
      var m := SepLength(t[i..]);
      SliceOfSlice(s, i);
      SliceOfSlice(s, i + m);
    } else {
      AfterSepAtStart(s);
    }
  }

  /** Where no separator starts, the first character is skipped on the way to the first separator. */
  lemma AfterFirstSepStep(s: string)
    requires s != [] && SepLength(s) == 0
    ensures AfterFirstSep(s) == AfterFirstSep(s[1..])
    ensures FirstSep(s) == 1 + FirstSep(s[1..])
  {
  }

  /** A separator at the start is the first one. */
  lemma AfterSepAtStart(s: string)
    requires s != [] && SepLength(s) > 0
    ensures FirstSep(s) == 0 && s[FirstSep(s)..] == s
    ensures AfterFirstSep(s) == s[SepLength(s)..]
  {
  }

  /** After the first separator, the remaining parts are those of the text that follows it. */
  lemma {:induction false} SplitRemainingParts(s: string)
    requires FirstSep(s) < |s|
    ensures SplitOnSeparators(s)[1..] == SplitOnSeparators(AfterFirstSep(s))
    decreases |s|
  {
    if SepLength(s) == 0 {
      SplitStep(s);
      SplitRemainingParts(s[1..]);
    }
  }

  /** A bare path gets a leading '/'. */
  function WithSlash(path: string): (r: string)
    ensures StartsWith(r, "/")
    ensures StartsWith(path, "/") ==> r == path
    ensures !StartsWith(path, "/") ==> r == "/" + path
  {
    if StartsWith(path, "/") then path else "/" + path
  }

  /** A destination is kept when it is a path or an `http` URL, and made a path otherwise. */
  function AsDestination(destination: string): (r: string)
    ensures StartsWith(r, "/") || StartsWith(r, "http")
    ensures StartsWith(destination, "/") || StartsWith(destination, "http") ==> r == destination
    ensures !(StartsWith(destination, "/") || StartsWith(destination, "http")) ==> r == "/" + destination
  {
    if StartsWith(destination, "/") || StartsWith(destination, "http") then destination else "/" + destination
  }

  /** The rule one import line yields, if any: an active 301 marked 'Bulk import'. */
  function ParseImportLine(line: string): (r: Option<RedirectRule>)
    ensures r.Some? ==> StartsWith(r.value.source, "/")
    ensures r.Some? ==> StartsWith(r.value.destination, "/") || StartsWith(r.value.destination, "http")
    ensures r.Some? ==> r.value.statusCode == 301 && r.value.isActive && r.value.comment == "Bulk import"
  {
    var parts := SplitOnSeparators(line);
    if |parts| >= 2 then
      var source := Trim(parts[0]);
      var destination := Trim(parts[1]);
      if source != [] && destination != [] then
        Some(RedirectRule(WithSlash(source), AsDestination(destination), 301, true, "Bulk import"))
      else None
    else None
  }

  /**
   * A line yields a rule exactly when it has at least two parts and the first
   * two are not blank; the source is the first part trimmed, made a path, and
   * the destination the second part trimmed, made a path unless it is an
   * `http` URL.
   */
  lemma ParseImportLineCharacterised(line: string)
    ensures var parts := SplitOnSeparators(line);
      ParseImportLine(line).Some? <==> |parts| >= 2 && Trim(parts[0]) != "" && Trim(parts[1]) != ""
    ensures var parts := SplitOnSeparators(line);
      ParseImportLine(line).Some? ==>
        ParseImportLine(line).value.source == WithSlash(Trim(parts[0])) &&
        ParseImportLine(line).value.destination == AsDestination(Trim(parts[1]))
  {
  }

  /** What starts a separator: an arrow, a tab, or two white-space characters; one space alone does not. */
  lemma SeparatorShapes(s: string)
    ensures StartsWith(s, "->") || StartsWith(s, "→") ==> SepLength(s) >= 1
    ensures s != [] && s[0] == '\t' ==> SepLength(s) >= 1
    ensures |s| >= 2 && IsJsSpace(s[0]) && IsJsSpace(s[1]) ==> SepLength(s) >= 1
    ensures |s| >= 2 && s[0] == ' ' && !IsJsSpace(s[1]) && s[1] != '-' && s[1] != '→' ==> SepLength(s) == 0
    ensures s != [] && !IsJsSpace(s[0]) && s[0] != '-' && s[0] != '→' ==> SepLength(s) == 0
  {
    if |s| >= 2 && IsJsSpace(s[0]) && IsJsSpace(s[1]) {
      assert RunLength(s[1..], IsJsSpace) >= 1;
    }
    if |s| >= 2 && s[0] == ' ' && !IsJsSpace(s[1]) && s[1] != '-' && s[1] != '→' {
      assert RunLength(s[1..], IsJsSpace) == 0;
      assert RunLength(s, IsJsSpace) == 1;
    }
  }

  /** A line in which no separator starts is a single part and yields no rule. */
  lemma {:induction false} NoSeparatorNoRule(line: string)
    requires forall i :: 0 <= i < |line| ==> SepLength(line[i..]) == 0
    ensures SplitOnSeparators(line) == [line]
    ensures ParseImportLine(line) == None
  {
    if line != [] {
      assert SepLength(line[0..]) == 0;
      assert line[0..] == line;
      forall i | 0 <= i < |line[1..]| ensures SepLength(line[1..][i..]) == 0 {
        assert line[1..][i..] == line[i + 1..];
      }
      NoSeparatorNoRule(line[1..]);
      assert [line[0]] + line[1..] == line;
    }
  }

  /** A line worth parsing: not blank, not a comment. */
  predicate IsImportLine(line: string)
  {
    line != [] && !StartsWith(line, "#")
  }

  /** The trimmed lines that are neither blank nor comments. */
  function ImportLines(text: string): (lines: seq<string>)
    ensures |lines| <= |Split(text, '\n')|
    ensures forall k :: 0 <= k < |lines| ==> IsImportLine(lines[k])
    ensures IsSubsequence(lines, TrimAll(Split(text, '\n')))
    ensures forall x :: x in lines <==> x in TrimAll(Split(text, '\n')) && IsImportLine(x)
  {
    FilterIsSubsequence(TrimAll(Split(text, '\n')), IsImportLine);
    Filter(TrimAll(Split(text, '\n')), IsImportLine)
  }

  /** The first line of the text, trimmed, if it is an import line; then the import lines of the rest. */
  lemma ImportLinesStep(line: string, text: string)
    requires '\n' !in line
    ensures ImportLines(line + "\n" + text) ==
      (if IsImportLine(Trim(line)) then [Trim(line)] else []) + ImportLines(text)
  {
    SplitAfter(line, text, '\n');
    assert line + "\n" + text == line + ['\n'] + text;
    var lines := Split(text, '\n');
    assert TrimAll([line] + lines) == [Trim(line)] + TrimAll(lines);
    assert ([Trim(line)] + TrimAll(lines))[1..] == TrimAll(lines);
  }

  /** A text of one line has that line, trimmed, as its one import line, unless it is blank or a comment. */
  lemma ImportLinesSingle(line: string)
    requires '\n' !in line
    ensures ImportLines(line) == if IsImportLine(Trim(line)) then [Trim(line)] else []
  {
    SplitNoSep(line, '\n');
    assert TrimAll([line]) == [Trim(line)];
  }

  /** The shape of every imported rule: a path source, a path or `http` destination, an active 301 marked 'Bulk import'. */
  predicate IsImportedRule(rule: RedirectRule)
  {
    StartsWith(rule.source, "/") &&
    (StartsWith(rule.destination, "/") || StartsWith(rule.destination, "http")) &&
    rule.statusCode == 301 && rule.isActive && rule.comment == "Bulk import"
  }

  /** The rules of the lines that yield one, in line order. */
  function ParseLines(lines: seq<string>): (rules: seq<RedirectRule>)
    ensures |rules| <= |lines|
    ensures forall k :: 0 <= k < |rules| ==> IsImportedRule(rules[k])
  {
    if lines == [] then [] else Yielded(lines[0]) + ParseLines(lines[1..])
  }

  /** The rule a line yields, as a list of zero or one rules. */
  function Yielded(line: string): (rules: seq<RedirectRule>)
    ensures rules == [] <==> ParseImportLine(line).None?
    ensures rules != [] ==> rules == [ParseImportLine(line).value]
  {
    match ParseImportLine(line)
    case Some(rule) => [rule]
    case None => []
  }

  /** A rule is parsed exactly when some line yields it. */
  lemma {:induction false} ParseLinesMembers(lines: seq<string>)
    ensures forall x :: x in ParseLines(lines) <==> exists k :: 0 <= k < |lines| && ParseImportLine(lines[k]) == Some(x)
  {
    forall x ensures x in ParseLines(lines) <==> exists k :: 0 <= k < |lines| && ParseImportLine(lines[k]) == Some(x) {
      ParseLinesMember(lines, x);
    }
  }

  /** One rule is among the imported ones exactly when some line parses to it. */
  lemma {:induction false} ParseLinesMember(lines: seq<string>, x: RedirectRule)
    ensures x in ParseLines(lines) <==> exists k :: 0 <= k < |lines| && ParseImportLine(lines[k]) == Some(x)
  {
    if lines != [] {
      var tail := lines[1..];
      ParseLinesMember(tail, x);
      assert ParseLines(lines) == Yielded(lines[0]) + ParseLines(tail);
      assert x in Yielded(lines[0]) <==> ParseImportLine(lines[0]) == Some(x);
      if x in ParseLines(tail) {
        var k :| 0 <= k < |tail| && ParseImportLine(tail[k]) == Some(x);
        assert lines[k + 1] == tail[k];
      }
      if exists k :: 0 <= k < |lines| && ParseImportLine(lines[k]) == Some(x) {
        var k :| 0 <= k < |lines| && ParseImportLine(lines[k]) == Some(x);
        if k > 0 {
          assert tail[k - 1] == lines[k];
        }
      }
    }
  }

  /** The rules of two runs of lines are those of the first run followed by those of the second. */
  lemma {:induction false} ParseLinesAppend(a: seq<string>, b: seq<string>)
    ensures ParseLines(a + b) == ParseLines(a) + ParseLines(b)
  {
    if a == [] {
      assert a + b == b;
    } else {
      ParseLinesAppend(a[1..], b);
      ConsAppend(a, b);
    }
  }

  /** The rule a trimmed line contributes: none for a blank or comment line, else the one it yields, if any. */
  function LineRules(line: string): (rules: seq<RedirectRule>)
    ensures |rules| <= 1
    ensures rules != [] <==> IsImportLine(line) && ParseImportLine(line).Some?
  {
    if IsImportLine(line) then Yielded(line) else []
  }

  /**
   * parseBulkImport: every rule comes from one line; every source starts with
   * '/', every destination with '/' or 'http'; rules are active 301s marked
   * 'Bulk import'; there are no more rules than lines.
   */
  function ParseBulkImport(text: string): (rules: seq<RedirectRule>)
    ensures |rules| <= |Split(text, '\n')|
    ensures forall k :: 0 <= k < |rules| ==> IsImportedRule(rules[k])
  {
    ParseLines(ImportLines(text))
  }

  /**
   * The text is read line by line: the first line, trimmed, contributes the
   * rule it yields when it is neither blank nor a comment, and the rest of
   * the text contributes its own rules after it.
   */
  lemma BulkImportLineByLine(line: string, text: string)
    requires '\n' !in line
    ensures ParseBulkImport(line + "\n" + text) == LineRules(Trim(line)) + ParseBulkImport(text)
  {
    ImportLinesStep(line, text);
    var first := if IsImportLine(Trim(line)) then [Trim(line)] else [];
    ParseLinesAppend(first, ImportLines(text));
    if IsImportLine(Trim(line)) {
      assert first[1..] == [];
    }
  }

  /** A text of one line yields that line's rule, if any. */
  lemma BulkImportSingleLine(line: string)
    requires '\n' !in line
    ensures ParseBulkImport(line) == LineRules(Trim(line))
  {
    ImportLinesSingle(line);
    if IsImportLine(Trim(line)) {
      assert [Trim(line)][1..] == [];
    }
  }

  /** A blank or comment line adds no rule, wherever it stands. */
  lemma IgnoredLineAddsNothing(text: string, extra: string)
    requires '\n' !in extra
    requires !IsImportLine(Trim(extra))
    ensures ParseBulkImport(extra + "\n" + text) == ParseBulkImport(text)
  {
    SplitAfter(extra, text, '\n');
    assert extra + "\n" + text == extra + ['\n'] + text;
    var lines := Split(text, '\n');
    assert TrimAll([extra] + lines) == [Trim(extra)] + TrimAll(lines);
    assert Filter([Trim(extra)] + TrimAll(lines), IsImportLine) == Filter(TrimAll(lines), IsImportLine);
  }

  /** handleBulkImport: nothing changes when no rule was parsed; otherwise the parsed rules are appended. */
  function HandleBulkImport(rules: seq<RedirectRule>, text: string): (r: seq<RedirectRule>)
    ensures ParseBulkImport(text) == [] ==> r == rules
    ensures ParseBulkImport(text) != [] ==> r == rules + ParseBulkImport(text)
  {
    var parsed := ParseBulkImport(text);
    if |parsed| == 0 then rules else rules + parsed
  }

  /**
   * The existing rules stay first and unchanged, and the rules after them are
   * exactly the rules yielded by the import lines of the text, in order.
   */
  lemma BulkImportAppends(rules: seq<RedirectRule>, text: string)
    ensures HandleBulkImport(rules, text)[..|rules|] == rules
    ensures HandleBulkImport(rules, text)[|rules|..] == ParseLines(ImportLines(text))
    ensures forall x :: x in HandleBulkImport(rules, text)[|rules|..] <==>
      exists k :: 0 <= k < |ImportLines(text)| && ParseImportLine(ImportLines(text)[k]) == Some(x)
  {
    var parsed := ParseBulkImport(text);
    ParseLinesMembers(ImportLines(text));
    AppendHalves(rules, parsed);
    if parsed == [] {
      assert rules + parsed == rules;
    }
  }
}
