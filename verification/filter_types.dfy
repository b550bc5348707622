/**
 * Creating a filter type: the required fields, the slug shape, and the full
 * slug, which is the parent's full slug or the category's root followed by
 * the slug. The session check and the parent lookup are inputs.
 */
module FilterTypes {
  import opened Text

  datatype Response = Unauthorized | MissingFields | InvalidSlug | Created(fullSlug: string)

  const HeavyDutyCategory: string := "HEAVY_DUTY"

  /** The URL root of a category: heavy-duty for HEAVY_DUTY, automotive for anything else. */
  function Root(category: string): (root: string)
    ensures category == HeavyDutyCategory ==> root == "heavy-duty"
    ensures category != HeavyDutyCategory ==> root == "automotive"
  {
    if category == HeavyDutyCategory then "heavy-duty" else "automotive"
  }

  /** buildFullSlug: under a (non-empty) parent's full slug, else under the category root. */
  function BuildFullSlug(category: string, parentFull: Option<string>, slug: string): (full: string)
    ensures parentFull.Some? && parentFull.value != "" ==> full == parentFull.value + "/" + slug
    ensures !(parentFull.Some? && parentFull.value != "") ==> full == Root(category) + "/" + slug
  {
    if parentFull.Some? && parentFull.value != "" then parentFull.value + "/" + slug
    else Root(category) + "/" + slug
  }

  /** The last '/'-segment of a full slug is the slug itself; without a parent the first is the root. */
  lemma FullSlugParts(category: string, parentFull: Option<string>, slug: string)
    requires IsSlugShape(slug)
    ensures LastPart(BuildFullSlug(category, parentFull, slug), '/') == slug
    ensures !(parentFull.Some? && parentFull.value != "") ==> Split(BuildFullSlug(category, parentFull, slug), '/')[0] == Root(category)
  {
    var full := BuildFullSlug(category, parentFull, slug);
    var prefix := if parentFull.Some? && parentFull.value != "" then parentFull.value else Root(category);
    assert full == prefix + ['/'] + slug;
    assert '/' !in slug by {
      assert forall i :: 0 <= i < |slug| ==> slug[i] != '/';
    }
    LastPartAfter(prefix, slug, '/');
    if !(parentFull.Some? && parentFull.value != "") {
      FirstPartShape(full, '/');
      var first := Split(full, '/')[0];
      assert '/' !in Root(category);
      assert full[|Root(category)|] == '/';
      FirstPartIs(full, Root(category), '/');
    }
  }

  /**
   * The segments of a full slug are the parent's segments followed by the
   * slug, or the category root and the slug: a child is one level below its
   * parent, and a filter type without a parent is two levels deep.
   */
  lemma FullSlugSegments(category: string, parentFull: Option<string>, slug: string)
    requires IsSlugShape(slug)
    ensures parentFull.Some? && parentFull.value != "" ==>
      Split(BuildFullSlug(category, parentFull, slug), '/') == Split(parentFull.value, '/') + [slug]
    ensures !(parentFull.Some? && parentFull.value != "") ==>
      Split(BuildFullSlug(category, parentFull, slug), '/') == [Root(category), slug]
  {
    var prefix := if parentFull.Some? && parentFull.value != "" then parentFull.value else Root(category);
    assert BuildFullSlug(category, parentFull, slug) == prefix + ['/'] + slug;
    assert '/' !in slug by {
      assert forall i :: 0 <= i < |slug| ==> slug[i] != '/';
    }
    SplitConcat(prefix, slug, '/');
    SplitNoSep(slug, '/');
    if !(parentFull.Some? && parentFull.value != "") {
      SplitNoSep(Root(category), '/');
    }
  }

  /** The text after the last separator of `prefix + [c] + last`, when `last` has no separator, is `last`. */
  lemma LastPartAfter(prefix: string, last: string, c: char)
    requires c !in last
    ensures LastPart(prefix + [c] + last, c) == last
  {
    var parts := Split(prefix, c);
    JoinSplit(prefix, c);
    JoinSnoc(parts, last, c);
    SplitJoin(parts + [last], c);
  }

  /** The text before the first separator of `head + [c] + ...`, when `head` has no separator, is `head`. */
  lemma FirstPartIs(s: string, head: string, c: char)
    requires c !in head && |head| < |s| && s[..|head|] == head && s[|head|] == c
    ensures Split(s, c)[0] == head
  {
    assert s == head + [c] + s[|head| + 1..];
    SplitAfter(head, s[|head| + 1..], c);
  }

  /** `!x`: nothing or empty text. */
  predicate Falsy(x: Option<string>)
  {
    x.None? || x.value == ""
  }

  /**
   * POST: 401 without a session; 400 unless category, slug and name are all
   * given; 400 for a slug that is not `^[a-z0-9-]+$`; else the new full slug
   * (`parentFull` is the looked-up parent's full slug, if any).
   */
  function CreateFilterType(signedIn: bool, category: Option<string>, slug: Option<string>, name: Option<string>,
                            parentFull: Option<string>): (r: Response)
    ensures !signedIn <==> r == Unauthorized
    ensures signedIn ==> (r == MissingFields <==> Falsy(category) || Falsy(slug) || Falsy(name))
    ensures r.Created? ==>
      category.Some? && slug.Some? && IsSlugShape(slug.value) &&
      r.fullSlug == BuildFullSlug(category.value, parentFull, slug.value)
    ensures signedIn && !(Falsy(category) || Falsy(slug) || Falsy(name)) ==>
      (r == InvalidSlug <==> !IsSlugShape(slug.value))
  {
    if !signedIn then Unauthorized
    else if Falsy(category) || Falsy(slug) || Falsy(name) then MissingFields
    else if !IsSlugShape(slug.value) then InvalidSlug
    else Created(BuildFullSlug(category.value, parentFull, slug.value))
  }
}
