/**
 * The regular-expression replacements that turn names into URL slugs:
 * `s.replace(/P+/g, c)`, which turns every maximal run of characters of a
 * class into one character, and the class filters built on it.
 */
module Slugify {
  import opened Text
  import Seqs

  /** The rest of `s` after its leading run of characters that `p` accepts. */
  function DropRun(s: string, p: char -> bool): (t: string)
    ensures |t| <= |s| && t == s[|s| - |t|..]
    ensures t != [] ==> !p(t[0])
    ensures s != [] && p(s[0]) ==> |t| < |s|
  {
    if s != [] && p(s[0]) then DropRun(s[1..], p) else s
  }

  /** `s.replace(/P+/g, rep)`: every maximal run of characters that `p` accepts becomes one `rep`. */
  function ReplaceRuns(s: string, p: char -> bool, rep: char): (r: string)
    ensures |r| <= |s|
    ensures forall k :: 0 <= k < |r| ==> r[k] == rep || (!p(r[k]) && r[k] in s)
    ensures s == [] <==> r == []
    decreases |s|
  {
    if s == [] then []
    else if p(s[0]) then
      var t := DropRun(s, p);
      assert forall c :: c in t ==> c in s;
      [rep] + ReplaceRuns(t, p, rep)
    else [s[0]] + ReplaceRuns(s[1..], p, rep)
  }

  /** No two neighbouring characters are both `c`. */
  predicate NoDoubled(s: string, c: char)
  {
    forall k :: 0 <= k < |s| - 1 ==> !(s[k] == c && s[k + 1] == c)
  }

  /** When the replacement is itself in the class, the result never holds it twice in a row. */
  lemma {:induction false} ReplaceRunsNoDoubled(s: string, p: char -> bool, rep: char)
    requires p(rep)
    ensures NoDoubled(ReplaceRuns(s, p, rep), rep)
    decreases |s|
  {
    if s != [] {
      var r := ReplaceRuns(s, p, rep);
      if p(s[0]) {
        var t := DropRun(s, p);
        ReplaceRunsNoDoubled(t, p, rep);
        var rest := ReplaceRuns(t, p, rep);
        assert r == [rep] + rest;
        assert rest != [] ==> rest[0] == t[0];
      } else {
        ReplaceRunsNoDoubled(s[1..], p, rep);
        var rest := ReplaceRuns(s[1..], p, rep);
        assert r == [s[0]] + rest;
      }
    }
  }

  /** A text whose class characters are all single `rep`s is left as it is. */
  lemma {:induction false} ReplaceRunsFixed(s: string, p: char -> bool, rep: char)
    requires forall k :: 0 <= k < |s| && p(s[k]) ==> s[k] == rep
    requires NoDoubled(s, rep)
    ensures ReplaceRuns(s, p, rep) == s
    decreases |s|
  {
    if s != [] {
      if p(s[0]) {
        assert |s| > 1 ==> !p(s[1]);
        assert DropRun(s[1..], p) == s[1..];
        assert DropRun(s, p) == s[1..];
      }
      ReplaceRunsFixed(s[1..], p, rep);
      assert [s[0]] + s[1..] == s;
    }
  }

  /** `s.replace(/[^a-z0-9-]/g, '')`: only the slug characters are kept. */
  function KeepSlugChars(s: string): (r: string)
    ensures |r| <= |s|
    ensures forall k :: 0 <= k < |r| ==> IsSlugChar(r[k])
  {
    if s == [] then []
    else if IsSlugChar(s[0]) then [s[0]] + KeepSlugChars(s[1..])
    else KeepSlugChars(s[1..])
  }

  /** The slug characters are kept in their order and every one of them is kept: only the others are deleted. */
  lemma {:induction false} KeepSlugCharsSubsequence(s: string)
    ensures Seqs.IsSubsequence(KeepSlugChars(s), s)
    ensures forall k :: 0 <= k < |s| && IsSlugChar(s[k]) ==> s[k] in KeepSlugChars(s)
  {
    if s != [] {
      KeepSlugCharsSubsequence(s[1..]);
      assert forall k :: 1 <= k < |s| ==> s[k] == s[1..][k - 1];
    }
  }

  /** Each slug character is kept as many times as it occurs, and no other character is kept. */
  lemma {:induction false} KeepSlugCharsCounts(s: string)
    ensures forall c :: multiset(KeepSlugChars(s))[c] == if IsSlugChar(c) then multiset(s)[c] else 0
  {
    if s != [] {
      KeepSlugCharsCounts(s[1..]);
      assert s == [s[0]] + s[1..];
    }
  }

  /** A text of slug characters keeps every character. */
  lemma {:induction false} KeepSlugCharsFixed(s: string)
    requires forall k :: 0 <= k < |s| ==> IsSlugChar(s[k])
    ensures KeepSlugChars(s) == s
  {
    if s != [] {
      KeepSlugCharsFixed(s[1..]);
      assert [s[0]] + s[1..] == s;
    }
  }

  predicate IsDash(c: char) { c == '-' }

  /** A slug of the strictest shape: `[a-z0-9]` runs joined by single '-', no '-' at either end. */
  predicate IsCleanSlug(s: string)
  {
    (forall k :: 0 <= k < |s| ==> IsSlugChar(s[k])) &&
    NoDoubled(s, '-') &&
    (s != [] ==> s[0] != '-' && s[|s| - 1] != '-')
  }
}
