/**
 * The redirect rule shared by the site settings page, the settings loader and
 * the request middleware, and the path key under which rules are compared.
 */
module RedirectRules {
  import opened Text

  /**
   * A redirect from `source` to `destination`. The random `id` the admin page
   * attaches to each rule is not part of the model.
   */
  datatype RedirectRule = RedirectRule(
    source: string,
    destination: string,
    statusCode: int,
    isActive: bool,
    comment: string)

  predicate IsSlash(c: char) { c == '/' }

  /** `p.toLowerCase().replace(/\/+$/, '')`: lower case, every trailing '/' removed. */
  function PathKey(p: string): (k: string)
    ensures |k| <= |p|
    ensures k != [] ==> k[|k| - 1] != '/'
  {
    TrimEndWith(Lower(p), IsSlash)
  }

  /** The key is the lower-cased path up to its trailing slashes. */
  lemma PathKeyShape(p: string)
    ensures forall i :: 0 <= i < |PathKey(p)| ==> PathKey(p)[i] == LowerChar(p[i])
    ensures forall i :: |PathKey(p)| <= i < |p| ==> p[i] == '/'
  {
    var l := Lower(p);
    var k := TrimEndWith(l, IsSlash);
    assert forall i :: |k| <= i < |p| ==> l[i] == '/';
  }

  /** A path key is its own key. */
  lemma PathKeyIdempotent(p: string)
    ensures PathKey(PathKey(p)) == PathKey(p)
  {
    var k := PathKey(p);
    PathKeyShape(p);
    LowerIdempotentPrefix(p, k);
    assert TrimEndWith(Lower(k), IsSlash) == Lower(k);
  }

  lemma LowerIdempotentPrefix(p: string, k: string)
    requires |k| <= |p|
    requires forall i :: 0 <= i < |k| ==> k[i] == LowerChar(p[i])
    ensures Lower(k) == k
  {
  }

  /** Paths that differ only in letter case or trailing slashes have the same key. */
  lemma PathKeyTrailingSlash(p: string)
    ensures PathKey(p + "/") == PathKey(p)
  {
    var q := p + "/";
    assert Lower(q) == Lower(p) + "/";
    assert Lower(q)[..|Lower(q)| - 1] == Lower(p);
  }

  /** The root path `/` has the empty key. */
  lemma RootKeyEmpty()
    ensures PathKey("/") == ""
  {
    assert Lower("/") == "/";
  }
}
