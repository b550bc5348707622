/**
 * Creating a CMS page: the slug is trimmed and must be lowercase letters,
 * digits and dashes and not one of the reserved route names; a missing title
 * is made from the slug; a slug already in use is refused. The session check
 * and the database lookup are inputs.
 */
module PageSlugs {
  import opened Text
  import Breadcrumbs

  /** The reserved names: application routes, the static pages and the root. */
  const Reserved: set<string> := {
    "admin", "api", "login", "logout", "health",
    "about-us", "contact-us", "catalog", "filters", "industries", "resources", "warranty",
    "newsroom", "heavy-duty", "automotive", "test-colors",
    ""}

  datatype Response = Unauthorized | InvalidSlug | SlugTaken | Created(slug: string, title: string)

  /** isValidSlug: `^[a-z0-9-]+$` and not reserved. */
  predicate IsValidSlug(slug: string)
  {
    IsSlugShape(slug) && slug !in Reserved
  }

  /** The class `\w`. */
  predicate IsWordChar(c: char)
  {
    IsAlnum(c) || c == '_'
  }

  /** `slug.replace(/-/g, ' ')` */
  function DashesToSpaces(s: string): (r: string)
    ensures |r| == |s|
    ensures forall i :: 0 <= i < |s| ==> r[i] == (if s[i] == '-' then ' ' else s[i])
  {
    seq(|s|, i requires 0 <= i < |s| => if s[i] == '-' then ' ' else s[i])
  }

  /** `.replace(/\b\w/g, m => m.toUpperCase())`: a word character after a non-word character (or first) is upper-cased. */
  function UpperWordStarts(s: string): (r: string)
    ensures |r| == |s|
    ensures forall i :: 0 <= i < |s| ==>
      r[i] == (if IsWordChar(s[i]) && (i == 0 || !IsWordChar(s[i - 1])) then UpperChar(s[i]) else s[i])
  {
    seq(|s|, i requires 0 <= i < |s| =>
      if IsWordChar(s[i]) && (i == 0 || !IsWordChar(s[i - 1])) then UpperChar(s[i]) else s[i])
  }

  /** The title of a page created without one. */
  function DefaultTitle(slug: string): string
  {
    UpperWordStarts(DashesToSpaces(slug))
  }

  /** On a valid slug the default title is the admin breadcrumb's title case of the same text. */
  lemma DefaultTitleIsTitleCase(slug: string)
    requires forall i :: 0 <= i < |slug| ==> IsSlugChar(slug[i])
    ensures DefaultTitle(slug) == Breadcrumbs.TitleCase(slug)
  {
    Breadcrumbs.TitleCasePointwise(slug);
    var t := DashesToSpaces(slug);
    var a := UpperWordStarts(t);
    var b := Breadcrumbs.TitleCase(slug);
    assert |a| == |b|;
    forall i | 0 <= i < |slug|
      ensures a[i] == b[i]
    {
      assert b[i] == Breadcrumbs.TitleCaseChar(slug, i);
      assert IsWordChar(t[i]) <==> slug[i] != '-';
      assert i > 0 ==> (IsWordChar(t[i - 1]) <==> slug[i - 1] != '-');
    }
  }

  /** `!x`: nothing or empty text. */
  predicate Falsy(x: Option<string>)
  {
    x.None? || x.value == ""
  }

  /**
   * POST: without a session 401; an invalid or reserved slug (after trimming)
   * 400; a slug in use 409; else the page with the given or the default title.
   */
  function CreatePage(signedIn: bool, slug: Option<string>, title: Option<string>, existing: set<string>): (r: Response)
    ensures !signedIn <==> r == Unauthorized
    ensures signedIn ==> (r == InvalidSlug <==> !IsValidSlug(if slug.Some? then Trim(slug.value) else ""))
    ensures r.Created? ==>
      slug.Some? && r.slug == Trim(slug.value) && IsValidSlug(r.slug) && r.slug !in existing &&
      r.title == (if Falsy(title) then DefaultTitle(r.slug) else title.value)
    ensures signedIn && slug.Some? && IsValidSlug(Trim(slug.value)) ==> (r == SlugTaken <==> Trim(slug.value) in existing)
  {
    if !signedIn then Unauthorized
    else
      var s := if slug.Some? then Trim(slug.value) else "";
      if !IsValidSlug(s) then InvalidSlug
      else if s in existing then SlugTaken
      else Created(s, if Falsy(title) then DefaultTitle(s) else title.value)
  }

  /** Every reserved name is refused, whatever pages exist. */
  lemma ReservedRefused(slug: string, title: Option<string>, existing: set<string>)
    requires Trim(slug) in Reserved
    ensures CreatePage(true, Some(slug), title, existing) == InvalidSlug
  {
  }
}
