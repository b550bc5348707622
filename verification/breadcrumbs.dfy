/**
 * The breadcrumb trail of the admin area, built from the current path: an
 * "Admin" crumb, then one crumb per path segment except `admin` itself and
 * segments that look like record ids; each crumb links to the path up to its
 * segment, except the one of the final segment. Labels come from a fixed
 * table or are the segment's words with capitalised initials.
 */
module Breadcrumbs {
  import opened Text
  import opened Seqs

  /** A crumb (`label` is the field `title` here); `href` is absent for the current page. */
  datatype Crumb = Crumb(title: string, href: Option<string>)

  /** What the component draws: each crumb's text and whether it is a link. */
  datatype Shown = Hidden | Drawn(entries: seq<(string, bool)>)

  const AdminCrumb: Crumb := Crumb("Admin", Some("/admin"))

  /** The fixed labels of formatLabel. */
  const Labels: map<string, string> := map[
    "pages" := "Pages", "forms" := "Forms", "form-submissions" := "Form Submissions",
    "resources" := "Resources", "resource-categories" := "Resource Categories", "news" := "News",
    "industries" := "Industries", "filter-types" := "Filter Types", "spec-parameters" := "Spec Parameters",
    "products" := "Products", "files" := "Files", "settings" := "Settings", "new" := "New",
    "edit" := "Edit", "submissions" := "Submissions", "categories" := "Categories"]

  // ---------------------------------------------------------------------
  // Labels
  // ---------------------------------------------------------------------

  /** `word.charAt(0).toUpperCase() + word.slice(1)` */
  function Capitalise(word: string): (r: string)
    ensures |r| == |word|
    ensures word != [] ==> r[0] == UpperChar(word[0]) && r[1..] == word[1..]
  {
    if word == [] then [] else [UpperChar(word[0])] + word[1..]
  }

  function CapitaliseAll(words: seq<string>): (r: seq<string>)
    ensures |r| == |words|
    ensures forall k :: 0 <= k < |words| ==> r[k] == Capitalise(words[k])
  {
    if words == [] then [] else [Capitalise(words[0])] + CapitaliseAll(words[1..])
  }

  /** `split('-').map(capitalise).join(' ')` */
  function TitleCase(segment: string): string
  {
    Join(CapitaliseAll(Split(segment, '-')), ' ')
  }

  /** Position `i` begins a word: it is first or follows a '-'. */
  predicate StartsWord(s: string, i: nat)
    requires i < |s|
  {
    i == 0 || s[i - 1] == '-'
  }

  /** What title-casing makes of position `i`. */
  function TitleCaseChar(s: string, i: nat): char
    requires i < |s|
  {
    if s[i] == '-' then ' ' else if StartsWord(s, i) then UpperChar(s[i]) else s[i]
  }

  /**
   * Title-casing keeps the length, turns every '-' into a space, capitalises
   * the first character of every word and leaves the rest alone.
   */
  lemma TitleCasePointwise(segment: string)
    ensures |TitleCase(segment)| == |segment|
    ensures forall i :: 0 <= i < |segment| ==> TitleCase(segment)[i] == TitleCaseChar(segment, i)
  {
    JoinSplit(segment, '-');
    JoinCapitalised(Split(segment, '-'));
  }

  lemma {:induction false} JoinCapitalised(words: seq<string>)
    requires |words| >= 1
    requires forall k :: 0 <= k < |words| ==> '-' !in words[k]
    ensures var s := Join(words, '-');
      |Join(CapitaliseAll(words), ' ')| == |s| &&
      forall i :: 0 <= i < |s| ==> Join(CapitaliseAll(words), ' ')[i] == TitleCaseChar(s, i)
  {
    var s := Join(words, '-');
    var caps := CapitaliseAll(words);
    var w := words[0];
    if |words| == 1 {
      assert s == w;
      assert Join(caps, ' ') == Capitalise(w);
    } else {
      JoinCapitalised(words[1..]);
      var rest := Join(words[1..], '-');
      var capRest := Join(CapitaliseAll(words[1..]), ' ');
      assert caps[1..] == CapitaliseAll(words[1..]);
      assert s == w + ['-'] + rest;
      assert Join(caps, ' ') == Capitalise(w) + [' '] + capRest;
      forall i | 0 <= i < |s| ensures Join(caps, ' ')[i] == TitleCaseChar(s, i) {
        if i < |w| {
          assert s[i] == w[i];
          assert i > 0 ==> s[i - 1] == w[i - 1];
        } else if i > |w| {
          var j := i - |w| - 1;
          assert s[i] == rest[j];
          assert j > 0 ==> s[i - 1] == rest[j - 1];
          assert j == 0 ==> s[i - 1] == '-';
        }
      }
    }
  }

  /** formatLabel: the table's label, else the title-cased segment. */
  function FormatLabel(segment: string): (text: string)
    ensures segment in Labels ==> text == Labels[segment]
    ensures segment !in Labels ==> text == TitleCase(segment)
  {
    if segment in Labels then Labels[segment] else TitleCase(segment)
  }

  /**
   * A segment outside the table is labelled with the same number of
   * characters, no '-' left, every word starting with its upper-cased first
   * character and every other character kept.
   */
  lemma UnknownSegmentLabel(segment: string)
    requires segment !in Labels
    ensures var text := FormatLabel(segment);
      |text| == |segment| && '-' !in text &&
      (forall i :: 0 <= i < |segment| && segment[i] != '-' && StartsWord(segment, i) ==> text[i] == UpperChar(segment[i])) &&
      (forall i :: 0 <= i < |segment| && segment[i] != '-' && !StartsWord(segment, i) ==> text[i] == segment[i])
  {
    TitleCasePointwise(segment);
    var text := FormatLabel(segment);
    forall i | 0 <= i < |text|
      ensures text[i] != '-'
    {
      assert text[i] == TitleCaseChar(segment, i);
    }
  }

  // ---------------------------------------------------------------------
  // The trail
  // ---------------------------------------------------------------------

  /** `pathname.split('/').filter(Boolean)` */
  function Segments(pathname: string): seq<string>
  {
    NonEmpty(Split(pathname, '/'))
  }

  /** A record id: starts with "cl" or "cm", or is 20 or more letters and digits. */
  predicate IsIdLike(segment: string)
  {
    StartsWith(segment, "cl") || StartsWith(segment, "cm") ||
    (|segment| >= 20 && forall k :: 0 <= k < |segment| ==> IsAlnum(segment[k]))
  }

  predicate Skipped(segment: string)
  {
    segment == "admin" || IsIdLike(segment)
  }

  /** `currentPath` after the given segments: each one prefixed with '/'. */
  function PathOf(segments: seq<string>): string
  {
    if segments == [] then "" else PathOf(segments[..|segments| - 1]) + "/" + segments[|segments| - 1]
  }

  /** The path up to a segment starts with the path up to any earlier one. */
  lemma {:induction false} PathOfPrefix(segments: seq<string>, m: nat)
    requires m <= |segments|
    ensures StartsWith(PathOf(segments), PathOf(segments[..m]))
    decreases |segments|
  {
    if m < |segments| {
      var init := segments[..|segments| - 1];
      PathOfPrefix(init, m);
      assert init[..m] == segments[..m];
      var p := PathOf(segments[..m]);
      assert PathOf(segments)[..|p|] == PathOf(init)[..|p|];
    } else {
      assert segments[..m] == segments;
    }
  }

  /** The crumb of segment `i`: its label, and a link to the path so far unless it is the final segment. */
  function CrumbAt(segments: seq<string>, i: nat): Crumb
    requires i < |segments|
  {
    Crumb(FormatLabel(segments[i]), if i == |segments| - 1 then None else Some(PathOf(segments[..i + 1])))
  }

  /** The trail after the loop has visited the first `n` segments. */
  function CrumbsUpTo(segments: seq<string>, n: nat): seq<Crumb>
    requires n <= |segments|
  {
    if n == 0 then [AdminCrumb]
    else
      var prev := CrumbsUpTo(segments, n - 1);
      if Skipped(segments[n - 1]) then prev else prev + [CrumbAt(segments, n - 1)]
  }

  /** generateBreadcrumbs: nothing for a missing or empty path. */
  function Trail(pathname: Option<string>): seq<Crumb>
  {
    if pathname.None? || pathname.value == "" then []
    else CrumbsUpTo(Segments(pathname.value), |Segments(pathname.value)|)
  }

  /** The trail starts with Admin and has at most one crumb per visited segment besides. */
  lemma {:induction false} CrumbsStartWithAdmin(segments: seq<string>, n: nat)
    requires n <= |segments|
    ensures 1 <= |CrumbsUpTo(segments, n)| <= n + 1 && CrumbsUpTo(segments, n)[0] == AdminCrumb
  {
    if n > 0 {
      CrumbsStartWithAdmin(segments, n - 1);
    }
  }

  /** Every crumb after the first is the crumb of a segment that is not skipped. */
  lemma {:induction false} CrumbsFromSegments(segments: seq<string>, n: nat)
    requires n <= |segments|
    ensures forall k :: 1 <= k < |CrumbsUpTo(segments, n)| ==>
      exists i :: 0 <= i < n && !Skipped(segments[i]) && CrumbsUpTo(segments, n)[k] == CrumbAt(segments, i)
  {
    if n > 0 {
      CrumbsFromSegments(segments, n - 1);
      var prev := CrumbsUpTo(segments, n - 1);
      var c := CrumbsUpTo(segments, n);
      forall k | 1 <= k < |c|
        ensures exists i :: 0 <= i < n && !Skipped(segments[i]) && c[k] == CrumbAt(segments, i)
      {
        if k < |prev| {
          assert c[k] == prev[k];
          var i :| 0 <= i < n - 1 && !Skipped(segments[i]) && prev[k] == CrumbAt(segments, i);
        } else {
          assert c[k] == CrumbAt(segments, n - 1);
        }
      }
    } else {
      assert |CrumbsUpTo(segments, 0)| == 1;
    }
  }

  /** Every segment that is not skipped has its crumb in the trail. */
  lemma {:induction false} SegmentsHaveCrumbs(segments: seq<string>, n: nat)
    requires n <= |segments|
    ensures forall i :: 0 <= i < n && !Skipped(segments[i]) ==> CrumbAt(segments, i) in CrumbsUpTo(segments, n)
  {
    if n > 0 {
      SegmentsHaveCrumbs(segments, n - 1);
      CrumbsGrow(segments, n);
    }
  }

  /** One more segment keeps every earlier crumb and adds its own unless it is skipped. */
  lemma CrumbsGrow(segments: seq<string>, n: nat)
    requires 0 < n <= |segments|
    ensures forall c :: c in CrumbsUpTo(segments, n - 1) ==> c in CrumbsUpTo(segments, n)
    ensures !Skipped(segments[n - 1]) ==> CrumbAt(segments, n - 1) in CrumbsUpTo(segments, n)
  {
  }

  /** Only the crumb of the final segment lacks a link, so only the last crumb can. */
  lemma {:induction false} OnlyLastUnlinked(segments: seq<string>, n: nat)
    requires n <= |segments|
    ensures forall k :: 0 <= k < |CrumbsUpTo(segments, n)| && CrumbsUpTo(segments, n)[k].href.None? ==>
      k == |CrumbsUpTo(segments, n)| - 1 && n == |segments| && !Skipped(segments[n - 1])
  {
    if n > 0 {
      OnlyLastUnlinked(segments, n - 1);
      var prev := CrumbsUpTo(segments, n - 1);
      var c := CrumbsUpTo(segments, n);
      assert forall k :: 0 <= k < |prev| ==> c[k] == prev[k];
    }
  }

  /** The loop of generateBreadcrumbs. */
  method GenerateBreadcrumbs(pathname: Option<string>) returns (crumbs: seq<Crumb>)
    ensures crumbs == Trail(pathname)
  {
    if pathname.None? || pathname.value == "" {
      return [];
    }
    var segments := Segments(pathname.value);
    crumbs := [AdminCrumb];
    var currentPath := "";
    for i := 0 to |segments|
      invariant currentPath == PathOf(segments[..i])
      invariant crumbs == CrumbsUpTo(segments, i)
    {
      var segment := segments[i];
      assert segments[..i + 1][..i] == segments[..i];
      currentPath := currentPath + "/" + segment;
      if segment == "admin" {
        continue;
      }
      var title := FormatLabel(segment);
      var href := Some(currentPath);
      if IsIdLike(segment) {
        continue;
      }
      if i == |segments| - 1 {
        href := None;
      }
      crumbs := crumbs + [Crumb(title, href)];
    }
  }

  /**
   * The component: given crumbs win over generated ones; one crumb or none
   * draws nothing; the last is never a link, and neither is a crumb whose
   * link is missing or empty.
   */
  function Render(items: Option<seq<Crumb>>, pathname: Option<string>): (shown: Shown)
    ensures var c := if items.Some? then items.value else Trail(pathname);
      (shown == Hidden <==> |c| <= 1) &&
      (shown.Drawn? ==>
         |shown.entries| == |c| &&
         (forall k :: 0 <= k < |c| ==> shown.entries[k].0 == c[k].title) &&
         (forall k :: 0 <= k < |c| ==> (shown.entries[k].1 <==> k < |c| - 1 && c[k].href.Some? && c[k].href.value != "")))
  {
    var c := if items.Some? then items.value else Trail(pathname);
    if |c| <= 1 then Hidden
    else Drawn(seq(|c|, k requires 0 <= k < |c| => (c[k].title, k < |c| - 1 && HasLink(c[k]))))
  }

  /** `!item.href` is false only for a present, non-empty link. */
  predicate HasLink(c: Crumb)
  {
    c.href.Some? && c.href.value != ""
  }
}
