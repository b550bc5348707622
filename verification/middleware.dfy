/**
 * The request middleware: canonical-domain enforcement for requests that hit
 * the application host directly, the redirect lookup (with its one-minute
 * in-memory cache of rules), the admin login gate, and the normalisation of
 * the `x-forwarded-host` header. Environment variables, the clock, the fetch
 * of the rule list and the session check are inputs.
 */
module Middleware {
  import opened Text
  import opened RedirectRules

  /** How long a fetched rule list is reused, in milliseconds. */
  const RedirectsCacheTtl: int := 60000

  /** The file extensions (after a '.', any letter case) that mark static assets. */
  const StaticExtensions: seq<string> :=
    ["ico", "jpg", "jpeg", "png", "gif", "svg", "webp", "avif", "css", "js", "woff", "woff2", "ttf", "eot", "map"]

  // ---------------------------------------------------------------------
  // Which paths are looked up
  // ---------------------------------------------------------------------

  /** `/\.(ico|jpg|...|map)$/i.test(pathname)` */
  predicate HasStaticExtension(pathname: string)
  {
    exists k :: 0 <= k < |StaticExtensions| && EndsWith(Lower(pathname), "." + StaticExtensions[k])
  }

  /** shouldCheckRedirects: internal, admin, login and static-asset paths are never redirected. */
  function ShouldCheckRedirects(pathname: string): (b: bool)
    ensures b ==> !StartsWith(pathname, "/api/") && !StartsWith(pathname, "/_next/")
    ensures b ==> !StartsWith(pathname, "/admin") && !StartsWith(pathname, "/login")
    ensures b ==> !HasStaticExtension(pathname)
    ensures !b ==> (StartsWith(pathname, "/api/") || StartsWith(pathname, "/_next/") ||
      StartsWith(pathname, "/admin") || StartsWith(pathname, "/login") || HasStaticExtension(pathname))
  {
    !StartsWith(pathname, "/api/") &&
    !StartsWith(pathname, "/_next/") &&
    !StartsWith(pathname, "/admin") &&
    !StartsWith(pathname, "/login") &&
    !HasStaticExtension(pathname)
  }

  /** Everything under /api/, /_next/, /admin (also /administrator) and /login is skipped. */
  lemma SkippedPaths(rest: string)
    ensures !ShouldCheckRedirects("/api/" + rest) && !ShouldCheckRedirects("/_next/" + rest)
    ensures !ShouldCheckRedirects("/admin" + rest) && !ShouldCheckRedirects("/login" + rest)
  {
    assert ("/api/" + rest)[..5] == "/api/";
    assert ("/_next/" + rest)[..7] == "/_next/";
    assert ("/admin" + rest)[..6] == "/admin";
    assert ("/login" + rest)[..6] == "/login";
  }

  /** A file name ending in a static extension, written in any letter case, is skipped. */
  lemma StaticAssetSkipped(name: string, ext: string, k: nat)
    requires k < |StaticExtensions| && Lower(ext) == StaticExtensions[k]
    ensures !ShouldCheckRedirects(name + "." + ext)
  {
    var p := name + "." + ext;
    var e := "." + StaticExtensions[k];
    var l := Lower(p);
    assert l[|l| - |e|..] == e by {
      forall i | 0 <= i < |e|
        ensures l[|l| - |e| + i] == e[i]
      {
        if i > 0 {
          assert p[|name| + i] == ext[i - 1];
          assert Lower(ext)[i - 1] == LowerChar(ext[i - 1]);
        }
      }
    }
    assert EndsWith(Lower(p), "." + StaticExtensions[k]);
  }

  /** A page path with no '.' is looked up unless it lies under one of the skipped prefixes. */
  lemma PagePathsChecked(pathname: string)
    requires '.' !in pathname
    requires !StartsWith(pathname, "/api/") && !StartsWith(pathname, "/_next/")
    requires !StartsWith(pathname, "/admin") && !StartsWith(pathname, "/login")
    ensures ShouldCheckRedirects(pathname)
  {
    if HasStaticExtension(pathname) {
      StaticNameHasDot(pathname);
    }
  }

  lemma StaticNameHasDot(pathname: string)
    requires HasStaticExtension(pathname)
    ensures '.' in pathname
  {
    var k :| 0 <= k < |StaticExtensions| && EndsWith(Lower(pathname), "." + StaticExtensions[k]);
    var e := "." + StaticExtensions[k];
    assert Lower(pathname)[|pathname| - |e|] == '.';
  }

  // ---------------------------------------------------------------------
  // Matching
  // ---------------------------------------------------------------------

  /** The request path as compared with rule sources: '/' stays '/', anything else gets its key. */
  function NormalizePath(pathname: string): (n: string)
    ensures pathname == "/" ==> n == "/"
    ensures pathname != "/" ==> n == PathKey(pathname)
    ensures n != "/" ==> n == [] || n[|n| - 1] != '/'
  {
    if pathname == "/" then "/" else PathKey(pathname)
  }

  /** Normalising twice is normalising once. */
  lemma NormalizeIdempotent(pathname: string)
    ensures NormalizePath(NormalizePath(pathname)) == NormalizePath(pathname)
  {
    if pathname != "/" {
      PathKeyIdempotent(pathname);
    }
  }

  /** Whether a rule applies to a path. */
  predicate Matches(rule: RedirectRule, pathname: string)
  {
    PathKey(rule.source) == NormalizePath(pathname)
  }

  /** `redirects.find(...)`: the position of the first rule that applies, if any. */
  function FindRedirect(rules: seq<RedirectRule>, pathname: string): (r: Option<nat>)
    ensures r.Some? ==> r.value < |rules| && Matches(rules[r.value], pathname)
    ensures r.Some? ==> forall j :: 0 <= j < r.value ==> !Matches(rules[j], pathname)
    ensures r.None? ==> forall j :: 0 <= j < |rules| ==> !Matches(rules[j], pathname)
  {
    FindKey(SourceKeys(rules), NormalizePath(pathname))
  }

  /** The key of each rule's source, in rule order. */
  function SourceKeys(rules: seq<RedirectRule>): (keys: seq<string>)
    ensures |keys| == |rules|
    ensures forall j :: 0 <= j < |rules| ==> keys[j] == PathKey(rules[j].source)
  {
    seq(|rules|, j requires 0 <= j < |rules| => PathKey(rules[j].source))
  }

  /** The position of the first key equal to `key`. */
  function FindKey(keys: seq<string>, key: string): (r: Option<nat>)
    ensures r.Some? ==> r.value < |keys| && keys[r.value] == key
    ensures r.Some? ==> forall j :: 0 <= j < r.value ==> keys[j] != key
    ensures r.None? ==> key !in keys
  {
    if keys == [] then None
    else if keys[0] == key then Some(0)
    else match FindKey(keys[1..], key)
      case None => None
      case Some(i) => Some(i + 1)
  }

  /**
   * A rule whose source is '/' has the empty key, so it applies only to a
   * request path made of two or more slashes (or the empty path), never to '/'.
   */
  lemma RootRuleMatches(rule: RedirectRule, pathname: string)
    requires rule.source == "/"
    ensures Matches(rule, pathname) <==> pathname != "/" && forall i :: 0 <= i < |pathname| ==> pathname[i] == '/'
  {
    RootKeyEmpty();
    if pathname != "/" && PathKey(pathname) == [] {
      assert forall i :: 0 <= i < |pathname| ==> pathname[i] == '/';
    }
    if pathname != "/" && forall i :: 0 <= i < |pathname| ==> pathname[i] == '/' {
      AllSlashesKeyEmpty(pathname);
    }
  }

  lemma {:induction false} AllSlashesKeyEmpty(p: string)
    requires forall i :: 0 <= i < |p| ==> p[i] == '/'
    ensures PathKey(p) == []
  {
    var l := Lower(p);
    assert forall i :: 0 <= i < |l| ==> l[i] == '/';
    AllAcceptedTrimmed(l);
  }

  lemma {:induction false} AllAcceptedTrimmed(s: string)
    requires forall i :: 0 <= i < |s| ==> s[i] == '/'
    ensures TrimEndWith(s, IsSlash) == []
  {
    if s != [] {
      AllAcceptedTrimmed(s[..|s| - 1]);
    }
  }

  // ---------------------------------------------------------------------
  // The rule cache
  // ---------------------------------------------------------------------

  /** The cached rule list and the time it was fetched. */
  datatype CacheState = CacheState(cached: seq<RedirectRule>, timestamp: int)

  /** Whether the cached list is reused at time `now`: it must be non-empty and younger than the TTL. */
  predicate IsFresh(s: CacheState, now: int)
  {
    |s.cached| > 0 && now - s.timestamp < RedirectsCacheTtl
  }

  /**
   * The cache after getRedirects at time `now`. `fetched` is the parsed body
   * of a successful fetch of the rule list, or `None` when the fetch failed or
   * was not ok; on failure the old list is kept (fail open).
   */
  function AfterLookup(s: CacheState, now: int, fetched: Option<seq<RedirectRule>>): (r: CacheState)
    ensures IsFresh(s, now) ==> r == s
    ensures !IsFresh(s, now) && fetched.Some? ==> r == CacheState(fetched.value, now)
    ensures !IsFresh(s, now) && fetched.None? ==> r == s
  {
    if IsFresh(s, now) then s
    else if fetched.Some? then CacheState(fetched.value, now)
    else s
  }

  /**
   * After a successful fetch of a non-empty list at `t1`, every lookup before
   * `t1 + 60000` serves that list, whatever a fetch would have returned then.
   */
  lemma ReuseWithinWindow(s: CacheState, t1: int, rules: seq<RedirectRule>, t2: int, fetched: Option<seq<RedirectRule>>)
    requires !IsFresh(s, t1) && rules != []
    requires t2 < t1 + RedirectsCacheTtl
    ensures AfterLookup(AfterLookup(s, t1, Some(rules)), t2, fetched) == CacheState(rules, t1)
  {
  }

  /** From `t1 + 60000` on, a successful fetch replaces the list. */
  lemma RefetchAfterWindow(s: CacheState, t1: int, rules: seq<RedirectRule>, t2: int, newRules: seq<RedirectRule>)
    requires !IsFresh(s, t1)
    requires t2 >= t1 + RedirectsCacheTtl
    ensures AfterLookup(AfterLookup(s, t1, Some(rules)), t2, Some(newRules)) == CacheState(newRules, t2)
  {
  }

  /** An empty rule list is never reused: every lookup fetches again. */
  lemma EmptyListRefetched(s: CacheState, now: int, rules: seq<RedirectRule>)
    requires s.cached == []
    ensures AfterLookup(s, now, Some(rules)) == CacheState(rules, now)
  {
  }

  /** The module-level `cachedRedirects` and `redirectsCacheTimestamp`. */
  class RedirectCache {
    var cached: seq<RedirectRule>
    var timestamp: int

    constructor ()
      ensures cached == [] && timestamp == 0
    {
      cached := [];
      timestamp := 0;
    }

    function State(): CacheState
      reads this
    {
      CacheState(cached, timestamp)
    }

    /** getRedirects at time `now`, with `fetched` as for `AfterLookup`. */
    method GetRedirects(now: int, fetched: Option<seq<RedirectRule>>) returns (rules: seq<RedirectRule>)
      modifies this
      ensures State() == AfterLookup(old(State()), now, fetched)
      ensures rules == cached
    {
      if |cached| > 0 && now - timestamp < RedirectsCacheTtl {
        return cached;
      }
      if fetched.Some? {
        cached := fetched.value;
        timestamp := now;
      }
      rules := cached;
    }
  }

  // ---------------------------------------------------------------------
  // Headers
  // ---------------------------------------------------------------------

  /** The mutable copy of the request headers; a missing header is absent from the map. */
  class RequestHeaders {
    var entries: map<string, string>

    constructor (initial: map<string, string>)
      ensures entries == initial
    {
      entries := initial;
    }

    /** `headers.get(name)`, with `null` as `None`. */
    function Get(name: string): Option<string>
      reads this
    {
      if name in entries then Some(entries[name]) else None
    }

    method Set(name: string, value: string)
      modifies this
      ensures entries == old(entries)[name := value]
    {
      entries := entries[name := value];
    }

    /** The `x-forwarded-host` rule, applied to this copy. */
    method NormalizeForwardedHost(host: string)
      modifies this
      ensures entries == ForwardedHostHeaders(old(entries), host)
    {
      var xfh := Get("x-forwarded-host");
      if (xfh.None? || xfh.value == "") && host != "" {
        Set("x-forwarded-host", host);
        Set("x-mw-normalized", "set-from-host");
      } else if xfh.Some? && xfh.value != "" {
        Set("x-mw-normalized", "pass");
      } else {
        Set("x-mw-normalized", "none");
      }
    }
  }

  /**
   * The headers passed on: a present, non-empty `x-forwarded-host` is kept and
   * marked 'pass'; a missing one is taken from a non-empty Host and marked
   * 'set-from-host'; otherwise the request is marked 'none'.
   */
  function ForwardedHostHeaders(before: map<string, string>, host: string): (after: map<string, string>)
    ensures after.Keys == before.Keys + {"x-mw-normalized"} + (if host != "" then {"x-forwarded-host"} else {})
    ensures "x-forwarded-host" in before && before["x-forwarded-host"] != "" ==>
      "x-forwarded-host" in after && after["x-forwarded-host"] == before["x-forwarded-host"] &&
      after["x-mw-normalized"] == "pass"
    ensures !("x-forwarded-host" in before && before["x-forwarded-host"] != "") && host != "" ==>
      "x-forwarded-host" in after && after["x-forwarded-host"] == host &&
      after["x-mw-normalized"] == "set-from-host"
    ensures !("x-forwarded-host" in before && before["x-forwarded-host"] != "") && host == "" ==>
      after["x-mw-normalized"] == "none"
    ensures forall name :: name in before && name != "x-forwarded-host" && name != "x-mw-normalized" ==>
      after[name] == before[name]
  {
    var xfh := if "x-forwarded-host" in before then Some(before["x-forwarded-host"]) else None;
    if (xfh.None? || xfh.value == "") && host != "" then
      before["x-forwarded-host" := host]["x-mw-normalized" := "set-from-host"]
    else if xfh.Some? && xfh.value != "" then
      before["x-mw-normalized" := "pass"]
    else
      before["x-mw-normalized" := "none"]
  }

  /** Normalising the forwarded host a second time changes only the marker, to 'pass' when a host is present. */
  lemma ForwardedHostSettles(before: map<string, string>, host: string)
    ensures var once := ForwardedHostHeaders(before, host);
      ForwardedHostHeaders(once, host) == once[
        "x-mw-normalized" := if "x-forwarded-host" in once && once["x-forwarded-host"] != "" then "pass" else "none"]
  {
  }

  // ---------------------------------------------------------------------
  // The whole middleware
  // ---------------------------------------------------------------------

  /** `!!headerFromCf && (!originSecret || headerFromCf === originSecret)`; empty strings are falsy. */
  function IsFromCloudFront(headerFromCf: Option<string>, originSecret: Option<string>): (b: bool)
  {
    headerFromCf.Some? && headerFromCf.value != "" &&
    (originSecret.None? || originSecret.value == "" || headerFromCf.value == originSecret.value)
  }

  /**
   * With a secret configured, only the exact secret identifies CloudFront;
   * without one, any non-empty header does, and a missing or empty header never does.
   */
  lemma CloudFrontSecret(headerFromCf: Option<string>, originSecret: Option<string>)
    ensures originSecret.Some? && originSecret.value != "" ==>
      (IsFromCloudFront(headerFromCf, originSecret) <==> headerFromCf == originSecret)
    ensures originSecret.None? || originSecret.value == "" ==>
      (IsFromCloudFront(headerFromCf, originSecret) <==> headerFromCf.Some? && headerFromCf.value != "")
  {
  }

  datatype Env = Env(originSecret: Option<string>, enforceOrigin: Option<string>, siteUrl: Option<string>)

  datatype Request = Request(pathname: string, search: string, headers: map<string, string>)

  datatype Response =
    | CanonicalRedirect(siteUrl: string, pathname: string, search: string, status: int)
    | RuleRedirect(destination: string, search: string, status: int)
    | LoginRedirect(callbackUrl: string)
    | Next(headers: map<string, string>)

  /** `requestHeaders.get('host') || ''` */
  function HostOf(req: Request): string
  {
    if "host" in req.headers then req.headers["host"] else ""
  }

  /** The secret header as `headers.get` returns it. */
  function SecretHeaderOf(req: Request): Option<string>
  {
    if "x-origin-secret" in req.headers then Some(req.headers["x-origin-secret"]) else None
  }

  /** Whether the request is sent to the canonical domain: enforcement on, App Runner host, not via CloudFront, a site URL set. */
  predicate IsDirectHit(req: Request, env: Env)
  {
    env.enforceOrigin == Some("1") && Contains(HostOf(req), "awsapprunner.com") &&
    !IsFromCloudFront(SecretHeaderOf(req), env.originSecret) && env.siteUrl.Some? && env.siteUrl.value != ""
  }

  /**
   * With enforcement on, a site URL and a secret configured, a request on the
   * App Runner host is sent to the canonical domain exactly when it does not
   * carry the secret; with enforcement off, no request is.
   */
  lemma DirectHitsRedirected(req: Request, env: Env)
    ensures (env.enforceOrigin == Some("1") && Contains(HostOf(req), "awsapprunner.com") &&
      env.siteUrl.Some? && env.siteUrl.value != "" && env.originSecret.Some? && env.originSecret.value != "") ==>
      (IsDirectHit(req, env) <==> SecretHeaderOf(req) != env.originSecret)
    ensures env.enforceOrigin != Some("1") ==> !IsDirectHit(req, env)
  {
    CloudFrontSecret(SecretHeaderOf(req), env.originSecret);
  }

  /**
   * middleware(): the first applicable of the canonical-domain redirect, the
   * rule redirect, the login redirect; otherwise the request continues with
   * normalised headers. `fetched` is what the rule fetch would return and
   * `hasToken` whether a session token is present.
   */
  method Handle(cache: RedirectCache, req: Request, env: Env, now: int,
                fetched: Option<seq<RedirectRule>>, hasToken: bool) returns (resp: Response)
    modifies cache
    ensures cache.State() ==
      if !IsDirectHit(req, env) && ShouldCheckRedirects(req.pathname)
      then AfterLookup(old(cache.State()), now, fetched)
      else old(cache.State())
    ensures IsDirectHit(req, env) ==>
      resp == CanonicalRedirect(env.siteUrl.value, req.pathname, req.search, 301)
    ensures (!IsDirectHit(req, env) && ShouldCheckRedirects(req.pathname) &&
      FindRedirect(cache.cached, req.pathname).Some?) ==>
      var k := FindRedirect(cache.cached, req.pathname).value;
      resp == RuleRedirect(cache.cached[k].destination, req.search, cache.cached[k].statusCode)
    ensures !IsDirectHit(req, env) && !(ShouldCheckRedirects(req.pathname) && FindRedirect(cache.cached, req.pathname).Some?) ==>
      resp == if StartsWith(req.pathname, "/admin") && !hasToken
        then LoginRedirect(req.pathname)
        else Next(ForwardedHostHeaders(req.headers, HostOf(req)))
  {
    var headers := new RequestHeaders(req.headers);
    var cf := headers.Get("x-origin-secret");
    var enforce := env.enforceOrigin == Some("1");
    var hostHeader := headers.Get("host");
    var host := if hostHeader.Some? then hostHeader.value else "";
    if enforce && Contains(host, "awsapprunner.com") && !IsFromCloudFront(cf, env.originSecret)
       && env.siteUrl.Some? && env.siteUrl.value != "" {
      return CanonicalRedirect(env.siteUrl.value, req.pathname, req.search, 301);
    }
    if ShouldCheckRedirects(req.pathname) {
      var rules := cache.GetRedirects(now, fetched);
      if |rules| > 0 {
        var found := FindRedirect(rules, req.pathname);
        if found.Some? {
          var rule := rules[found.value];
          return RuleRedirect(rule.destination, req.search, rule.statusCode);
        }
      }
    }
    if StartsWith(req.pathname, "/admin") && !hasToken {
      return LoginRedirect(req.pathname);
    }
    headers.NormalizeForwardedHost(host);
    resp := Next(headers.entries);
  }
}
