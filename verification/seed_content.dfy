/**
 * The content seed's filter-type step: for each category and each of its
 * type names in order, the type whose full slug is `<root>/<slug of the name>`
 * is created, or updated when it exists, with the name's index as its
 * position and an icon chosen from words in the name; a new page section goes
 * after the page's last one. The database is a map from full slug to row.
 */
module SeedContent {
  import opened Text
  import opened Slugify
  import FilterTypes

  // ---------------------------------------------------------------------
  // toSlug
  // ---------------------------------------------------------------------

  /** `.replace(/\//g, ' ')` */
  function SlashesToSpaces(s: string): (r: string)
    ensures |r| == |s|
    ensures forall k :: 0 <= k < |s| ==> r[k] == (if s[k] == '/' then ' ' else s[k])
  {
    seq(|s|, k requires 0 <= k < |s| => if s[k] == '/' then ' ' else s[k])
  }

  /**
   * `name.toLowerCase().replace(/\//g, ' ').replace(/\s+/g, '-')
   *   .replace(/[^a-z0-9-]/g, '').replace(/-+/g, '-')`
   */
  function ToSlug(name: string): string
  {
    ReplaceRuns(KeepSlugChars(ReplaceRuns(SlashesToSpaces(Lower(name)), IsJsSpace, '-')), IsDash, '-')
  }

  /** A seed slug holds only `[a-z0-9-]` and never two '-' in a row (it may start or end with one). */
  lemma ToSlugShape(name: string)
    ensures forall k :: 0 <= k < |ToSlug(name)| ==> IsSlugChar(ToSlug(name)[k])
    ensures NoDoubled(ToSlug(name), '-')
    ensures '/' !in ToSlug(name)
  {
    var kept := KeepSlugChars(ReplaceRuns(SlashesToSpaces(Lower(name)), IsJsSpace, '-'));
    var r := ToSlug(name);
    ReplaceRunsNoDoubled(kept, IsDash, '-');
    forall k | 0 <= k < |r| ensures IsSlugChar(r[k]) {
      if r[k] != '-' {
        assert r[k] in kept;
      }
    }
  }

  /** A text already made of slug characters without doubled '-' is its own slug. */
  lemma ToSlugFixesSlugs(s: string)
    requires forall k :: 0 <= k < |s| ==> IsSlugChar(s[k])
    requires NoDoubled(s, '-')
    ensures ToSlug(s) == s
  {
    assert Lower(s) == s;
    assert SlashesToSpaces(s) == s;
    ReplaceRunsFixed(s, IsJsSpace, '-');
    KeepSlugCharsFixed(s);
    ReplaceRunsFixed(s, IsDash, '-');
  }

  /** Making a slug of a seed slug changes nothing. */
  lemma ToSlugIdempotent(name: string)
    ensures ToSlug(ToSlug(name)) == ToSlug(name)
  {
    ToSlugShape(name);
    ToSlugFixesSlugs(ToSlug(name));
  }

  // ---------------------------------------------------------------------
  // iconFor
  // ---------------------------------------------------------------------

  datatype Icon = CogIcon | CloudIcon | BeakerIcon | ShieldCheckIcon | CircleStackIcon
                | WrenchScrewdriverIcon | BoltIcon | Squares2X2Icon

  /** The words `iconFor` looks for, in the order it looks, and the icon each one gives. */
  const Keywords: seq<string> := ["oil", "air", "fuel", "cabin", "cartridge", "hydraulic", "transmission"]
  const KeywordIcons: seq<Icon> := [CogIcon, CloudIcon, BeakerIcon, ShieldCheckIcon, CircleStackIcon, WrenchScrewdriverIcon, BoltIcon]

  /** The icon of the first of `Keywords[i..]` that `n` contains, else the grid icon. */
  function IconFrom(n: string, i: nat): (icon: Icon)
    requires i <= |Keywords|
    ensures forall j :: 0 <= j < i ==> icon != KeywordIcons[j]
    ensures icon == Squares2X2Icon <==> forall j :: i <= j < |Keywords| ==> !Contains(n, Keywords[j])
    ensures forall j :: i <= j < |Keywords| ==>
      (icon == KeywordIcons[j] <==>
        (Contains(n, Keywords[j]) && forall h :: i <= h < j ==> !Contains(n, Keywords[h])))
    decreases |Keywords| - i
  {
    KeywordIconsDistinct();
    if i == |Keywords| then Squares2X2Icon
    else if Contains(n, Keywords[i]) then KeywordIcons[i]
    else IconFrom(n, i + 1)
  }

  /** Each word gives its own icon, and none of them is the grid icon. */
  lemma KeywordIconsDistinct()
    ensures |KeywordIcons| == |Keywords|
    ensures forall a, b :: 0 <= a < b < |KeywordIcons| ==> KeywordIcons[a] != KeywordIcons[b]
    ensures forall a :: 0 <= a < |KeywordIcons| ==> KeywordIcons[a] != Squares2X2Icon
  {
  }

  /** `iconFor`: the words are looked for in the lower-cased name in order, and the first found decides. */
  function IconFor(name: string): (icon: Icon)
    ensures icon == Squares2X2Icon <==> forall j :: 0 <= j < |Keywords| ==> !Contains(Lower(name), Keywords[j])
    ensures forall j :: 0 <= j < |Keywords| ==>
      (icon == KeywordIcons[j] <==>
        (Contains(Lower(name), Keywords[j]) && forall h :: 0 <= h < j ==> !Contains(Lower(name), Keywords[h])))
  {
    IconFrom(Lower(name), 0)
  }

  /** The icon's name as stored. */
  function IconName(icon: Icon): (s: string)
    ensures s != ""
  {
    match icon
    case CogIcon => "CogIcon"
    case CloudIcon => "CloudIcon"
    case BeakerIcon => "BeakerIcon"
    case ShieldCheckIcon => "ShieldCheckIcon"
    case CircleStackIcon => "CircleStackIcon"
    case WrenchScrewdriverIcon => "WrenchScrewdriverIcon"
    case BoltIcon => "BoltIcon"
    case Squares2X2Icon => "Squares2X2Icon"
  }

  /** A text holding `t` at position `i` contains `t`. */
  lemma {:induction false} ContainsAt(s: string, t: string, i: nat)
    requires i + |t| <= |s| && s[i..i + |t|] == t
    ensures Contains(s, t)
    decreases i
  {
    if i == 0 {
      assert s[..|t|] == t;
    } else {
      assert s[1..][i - 1..i - 1 + |t|] == s[i..i + |t|];
      ContainsAt(s[1..], t, i - 1);
    }
  }

  /** "Fuel/Oil Separator" gets the oil icon, because "oil" is looked for before "fuel". */
  lemma FuelOilSeparatorIcon(name: string)
    requires name == "Fuel/Oil Separator"
    ensures IconFor(name) == CogIcon
  {
    var n := Lower(name);
    assert name[5] == 'O' && name[6] == 'i' && name[7] == 'l';
    assert n[5] == LowerChar(name[5]) && n[6] == LowerChar(name[6]) && n[7] == LowerChar(name[7]);
    assert n[5..8] == Keywords[0];
    ContainsAt(n, Keywords[0], 5);
  }

  // ---------------------------------------------------------------------
  // nextPos
  // ---------------------------------------------------------------------

  /** The largest position, or 0 for none. */
  function LastPosition(positions: seq<int>): (m: int)
    ensures positions == [] ==> m == 0
    ensures positions != [] ==> m in positions
    ensures forall k :: 0 <= k < |positions| ==> positions[k] <= m
  {
    if positions == [] then 0
    else if |positions| == 1 then positions[0]
    else
      var rest := LastPosition(positions[1..]);
      if positions[0] >= rest then positions[0] else rest
  }

  /** `(last?.position ?? 0) + 1`: one after the page's highest position, 1 on an empty page. */
  function NextPos(positions: seq<int>): (p: int)
    ensures positions == [] ==> p == 1
    ensures forall k :: 0 <= k < |positions| ==> positions[k] < p
    ensures positions != [] ==> p - 1 in positions
  {
    LastPosition(positions) + 1
  }

  // ---------------------------------------------------------------------
  // The filter-type upserts
  // ---------------------------------------------------------------------

  datatype FilterTypeRow = FilterTypeRow(
    category: string, slug: string, name: string, position: nat, fullSlug: string,
    isActive: bool, icon: string)

  /** One entry of the seed list: a category and its type names in display order. */
  datatype CategoryDef = CategoryDef(category: string, names: seq<string>)

  /** `${root}/${toSlug(name)}` */
  function SeedFullSlug(category: string, name: string): string
  {
    FilterTypes.Root(category) + "/" + ToSlug(name)
  }

  /** A seeded full slug splits into the category's root and the name's slug. */
  lemma SeedFullSlugParts(category: string, name: string)
    ensures Split(SeedFullSlug(category, name), '/')[0] == FilterTypes.Root(category)
    ensures LastPart(SeedFullSlug(category, name), '/') == ToSlug(name)
  {
    var root := FilterTypes.Root(category);
    var full := SeedFullSlug(category, name);
    ToSlugShape(name);
    FilterTypes.LastPartAfter(root, ToSlug(name), '/');
    assert '/' !in root;
    assert full[..|root|] == root && full[|root|] == '/';
    FilterTypes.FirstPartIs(full, root, '/');
  }

  /** Two seeded full slugs are equal only for the same root and the same name slug. */
  lemma SeedFullSlugInjective(c1: string, n1: string, c2: string, n2: string)
    requires SeedFullSlug(c1, n1) == SeedFullSlug(c2, n2)
    ensures FilterTypes.Root(c1) == FilterTypes.Root(c2) && ToSlug(n1) == ToSlug(n2)
  {
    SeedFullSlugParts(c1, n1);
    SeedFullSlugParts(c2, n2);
  }

  /** One name: the type at its full slug is updated when it exists and created otherwise. */
  function Upsert(db: map<string, FilterTypeRow>, category: string, i: nat, name: string): map<string, FilterTypeRow>
  {
    var full := SeedFullSlug(category, name);
    if full in db then
      var row := db[full];
      db[full := row.(category := category, position := i, name := name,
                      icon := if row.icon != "" then row.icon else IconName(IconFor(name)))]
    else
      db[full := FilterTypeRow(category, ToSlug(name), name, i, full, true, IconName(IconFor(name)))]
  }

  /**
   * An existing type takes the category, the position and the name, and keeps
   * its icon unless that is empty; a new type is active and gets the name's
   * slug and icon; every other row is left alone.
   */
  lemma UpsertEffect(db: map<string, FilterTypeRow>, category: string, i: nat, name: string, key: string)
    ensures var r := Upsert(db, category, i, name);
      key == SeedFullSlug(category, name) ==>
        (key in r && r[key].category == category && r[key].position == i && r[key].name == name &&
         |r[key].icon| > 0 &&
         (key in db && db[key].icon != "" ==> r[key].icon == db[key].icon) &&
         (key in db ==> r[key].slug == db[key].slug && r[key].fullSlug == db[key].fullSlug) &&
         (key !in db ==> r[key] == FilterTypeRow(category, ToSlug(name), name, i, key, true, IconName(IconFor(name)))))
    ensures var r := Upsert(db, category, i, name);
      key != SeedFullSlug(category, name) ==>
        ((key in r <==> key in db) && (key in db ==> r[key] == db[key]))
  {
  }

  /** The names of one category upserted in order, each with its index as position. */
  function SeedNames(db: map<string, FilterTypeRow>, category: string, names: seq<string>): map<string, FilterTypeRow>
    decreases |names|
  {
    if names == [] then db
    else Upsert(SeedNames(db, category, names[..|names| - 1]), category, |names| - 1, names[|names| - 1])
  }

  /** Every category of the seed list in order. */
  function SeedDefs(db: map<string, FilterTypeRow>, defs: seq<CategoryDef>): map<string, FilterTypeRow>
    decreases |defs|
  {
    if defs == [] then db
    else
      var last := defs[|defs| - 1];
      SeedNames(SeedDefs(db, defs[..|defs| - 1]), last.category, last.names)
  }

  /** Seeding one more name is one more upsert. */
  lemma SeedNamesStep(db0: map<string, FilterTypeRow>, category: string, names: seq<string>, i: nat)
    requires i < |names|
    ensures SeedNames(db0, category, names[..i + 1]) == Upsert(SeedNames(db0, category, names[..i]), category, i, names[i])
  {
    var prefix := names[..i + 1];
    assert prefix[..i] == names[..i] && prefix[i] == names[i];
  }

  /** The inner loop: each index into one category's names, one upsert. */
  method SeedCategory(db0: map<string, FilterTypeRow>, def: CategoryDef) returns (db: map<string, FilterTypeRow>)
    ensures db == SeedNames(db0, def.category, def.names)
  {
    db := db0;
    for i := 0 to |def.names|
      invariant db == SeedNames(db0, def.category, def.names[..i])
    {
      SeedNamesStep(db0, def.category, def.names, i);
      db := Upsert(db, def.category, i, def.names[i]);
    }
    assert def.names[..|def.names|] == def.names;
  }

  /** Seeding one more category is one more run of the inner loop. */
  lemma SeedDefsStep(db0: map<string, FilterTypeRow>, defs: seq<CategoryDef>, d: nat)
    requires d < |defs|
    ensures SeedDefs(db0, defs[..d + 1]) == SeedNames(SeedDefs(db0, defs[..d]), defs[d].category, defs[d].names)
  {
    var prefix := defs[..d + 1];
    assert prefix[..d] == defs[..d] && prefix[d] == defs[d];
  }

  /** The seed loops: the categories in order, each through the inner loop. */
  method SeedFilterTypes(db0: map<string, FilterTypeRow>, defs: seq<CategoryDef>) returns (db: map<string, FilterTypeRow>)
    ensures db == SeedDefs(db0, defs)
  {
    db := db0;
    for d := 0 to |defs|
      invariant db == SeedDefs(db0, defs[..d])
    {
      SeedDefsStep(db0, defs, d);
      db := SeedCategory(db, defs[d]);
    }
    assert defs[..|defs|] == defs;
  }

  /** A row no name of the category leads to is neither added nor changed. */
  lemma {:induction false} SeedNamesOther(db: map<string, FilterTypeRow>, category: string, names: seq<string>, key: string)
    requires forall k :: 0 <= k < |names| ==> SeedFullSlug(category, names[k]) != key
    ensures key in SeedNames(db, category, names) <==> key in db
    ensures key in db ==> SeedNames(db, category, names)[key] == db[key]
    decreases |names|
  {
    if names != [] {
      var n := |names| - 1;
      var init := names[..n];
      assert forall k :: 0 <= k < |init| ==> init[k] == names[k];
      SeedNamesOther(db, category, init, key);
      UpsertEffect(SeedNames(db, category, init), category, n, names[n], key);
    }
  }

  /** A non-empty icon is never replaced. */
  lemma {:induction false} SeedNamesKeepsIcon(db: map<string, FilterTypeRow>, category: string, names: seq<string>, key: string)
    requires key in db && db[key].icon != ""
    ensures key in SeedNames(db, category, names)
    ensures SeedNames(db, category, names)[key].icon == db[key].icon
    decreases |names|
  {
    if names != [] {
      var n := |names| - 1;
      var init := names[..n];
      SeedNamesKeepsIcon(db, category, init, key);
      UpsertEffect(SeedNames(db, category, init), category, n, names[n], key);
    }
  }

  /** The type stored under `key` ends with `name`, position `i`, the category and an icon. */
  predicate SeededAs(m: map<string, FilterTypeRow>, key: string, category: string, name: string, i: nat)
  {
    key in m && m[key].position == i && m[key].name == name && m[key].category == category && |m[key].icon| > 0
  }

  /**
   * When the names lead to distinct full slugs, the type of name `i` ends
   * with that name, position `i`, the category and an icon.
   */
  lemma {:induction false} SeedNamesPositions(db: map<string, FilterTypeRow>, category: string, names: seq<string>, i: nat)
    requires i < |names|
    requires forall a, b {:trigger SeedFullSlug(category, names[a]), SeedFullSlug(category, names[b])} :: 0 <= a < b < |names| ==> SeedFullSlug(category, names[a]) != SeedFullSlug(category, names[b])
    ensures SeededAs(SeedNames(db, category, names), SeedFullSlug(category, names[i]), category, names[i], i)
    decreases |names|, 1
  {
    var n := |names| - 1;
    if i < n {
      SeedNamesEarlier(db, category, names, i);
    } else {
      var before := SeedNames(db, category, names[..n]);
      assert SeedNames(db, category, names) == Upsert(before, category, n, names[n]);
      UpsertNamed(before, category, n, names[n]);
    }
  }

  /** A name before the last keeps what the earlier upserts gave its type. */
  lemma {:induction false} SeedNamesEarlier(db: map<string, FilterTypeRow>, category: string, names: seq<string>, i: nat)
    requires i + 1 < |names|
    requires forall a, b {:trigger SeedFullSlug(category, names[a]), SeedFullSlug(category, names[b])} :: 0 <= a < b < |names| ==> SeedFullSlug(category, names[a]) != SeedFullSlug(category, names[b])
    ensures SeededAs(SeedNames(db, category, names), SeedFullSlug(category, names[i]), category, names[i], i)
    decreases |names|, 0
  {
    var n := |names| - 1;
    var init := names[..n];
    var key := SeedFullSlug(category, names[i]);
    var before := SeedNames(db, category, init);
    DistinctSlugsPrefix(category, names, n);
    SeedNamesPositions(db, category, init, i);
    assert init[i] == names[i];
    assert key != SeedFullSlug(category, names[n]);
    UpsertOther(before, category, n, names[n], key);
  }

  /** Names leading to distinct full slugs still do after the last ones are dropped. */
  lemma DistinctSlugsPrefix(category: string, names: seq<string>, n: nat)
    requires n <= |names|
    requires forall a, b {:trigger SeedFullSlug(category, names[a]), SeedFullSlug(category, names[b])} :: 0 <= a < b < |names| ==> SeedFullSlug(category, names[a]) != SeedFullSlug(category, names[b])
    ensures forall a, b {:trigger SeedFullSlug(category, names[..n][a]), SeedFullSlug(category, names[..n][b])} :: 0 <= a < b < n ==> SeedFullSlug(category, names[..n][a]) != SeedFullSlug(category, names[..n][b])
  {
  }

  /** The upserted type holds the category, the position, the name and an icon. */
  lemma UpsertNamed(db: map<string, FilterTypeRow>, category: string, i: nat, name: string)
    ensures SeededAs(Upsert(db, category, i, name), SeedFullSlug(category, name), category, name, i)
  {
    UpsertEffect(db, category, i, name, SeedFullSlug(category, name));
  }

  /** An upsert leaves every other row alone. */
  lemma UpsertOther(db: map<string, FilterTypeRow>, category: string, i: nat, name: string, key: string)
    requires key != SeedFullSlug(category, name)
    ensures var r := Upsert(db, category, i, name); (key in r <==> key in db) && (key in db ==> r[key] == db[key])
  {
    UpsertEffect(db, category, i, name, key);
  }
}
