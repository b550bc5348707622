/**
 * The diagnostics endpoint's derived values: the origins allowed to call
 * server actions (from a comma-separated setting, with a fixed fallback)
 * and whether the request's origin disagrees with its forwarded host. The
 * environment and the request headers are inputs.
 */
module AllowedOrigins {
  import opened Text

  /** The fallback that mirrors the framework configuration's default. */
  const Fallback: seq<string> := [
    "new.surefilter.us",
    "qiypwsyuxm.us-east-1.awsapprunner.com",
    "https://new.surefilter.us",
    "https://qiypwsyuxm.us-east-1.awsapprunner.com"]

  /** parseAllowedOriginsFromEnv: nothing for a missing or empty setting, else the trimmed non-empty comma-separated entries. */
  function ParseAllowedOrigins(envVal: Option<string>): (origins: seq<string>)
    ensures envVal.None? || envVal.value == "" ==> origins == []
    ensures forall k :: 0 <= k < |origins| ==> origins[k] != "" && Trim(origins[k]) == origins[k] && ',' !in origins[k]
    ensures envVal.Some? ==> forall x :: x in origins <==> x != "" && x in TrimAll(Split(envVal.value, ','))
  {
    if envVal.None? then []
    else if envVal.value == "" then
      assert TrimAll(Split("", ',')) == [""];
      []
    else
      SplitTrimmedEntries(envVal.value, ',');
      var r := SplitTrimmed(envVal.value, ',');
      assert r == NonEmpty(TrimAll(Split(envVal.value, ',')));
      r
  }

  /** One entry without a comma gives itself, trimmed, unless it is blank. */
  lemma ParsedSingleEntry(entry: string)
    requires ',' !in entry
    ensures ParseAllowedOrigins(Some(entry)) == if Trim(entry) == "" then [] else [Trim(entry)]
  {
    SplitNoSep(entry, ',');
    assert TrimAll([entry]) == [Trim(entry)];
  }

  /** The entries of `a,b` are those of `a` followed by those of `b`: the list keeps the setting's order. */
  lemma ParsedConcat(a: string, b: string)
    ensures ParseAllowedOrigins(Some(a + "," + b)) == ParseAllowedOrigins(Some(a)) + ParseAllowedOrigins(Some(b))
  {
    var pa, pb := Split(a, ','), Split(b, ',');
    SplitConcat(a, b, ',');
    TrimAllAppend(pa, pb);
    NonEmptyAppend(TrimAll(pa), TrimAll(pb));
    ParsedPieces(a);
    ParsedPieces(b);
    ParsedPieces(a + "," + b);
  }

  /** Any setting, the empty one included, gives its trimmed non-empty pieces. */
  lemma ParsedPieces(v: string)
    ensures ParseAllowedOrigins(Some(v)) == NonEmpty(TrimAll(Split(v, ',')))
  {
    if v == "" {
      assert TrimAll(Split("", ',')) == [""];
    }
  }

  /** computeEffectiveAllowedOrigins: the parsed list when it has entries, else the fallback; never empty. */
  function EffectiveAllowedOrigins(envVal: Option<string>): (origins: seq<string>)
    ensures origins != []
    ensures ParseAllowedOrigins(envVal) != [] ==> origins == ParseAllowedOrigins(envVal)
    ensures ParseAllowedOrigins(envVal) == [] ==> origins == Fallback
  {
    var fromEnv := ParseAllowedOrigins(envVal);
    if |fromEnv| > 0 then fromEnv else Fallback
  }

  /** A setting of only commas and blanks falls back like a missing one. */
  lemma BlankSettingFallsBack(envVal: string)
    requires forall k :: 0 <= k < |envVal| ==> envVal[k] == ',' || IsJsSpace(envVal[k])
    ensures EffectiveAllowedOrigins(Some(envVal)) == Fallback
  {
    var parts := Split(envVal, ',');
    forall k | 0 <= k < |parts| ensures Trim(parts[k]) == "" {
      SplitPiecesOf(envVal, ',', k);
      TrimAllSpace(parts[k]);
    }
    var trimmed := TrimAll(parts);
    NonEmptyOfBlanks(trimmed);
  }

  /** Every piece of a split is made of characters of the text. */
  lemma {:induction false} SplitPiecesOf(s: string, c: char, k: nat)
    requires k < |Split(s, c)|
    ensures forall i :: 0 <= i < |Split(s, c)[k]| ==> Split(s, c)[k][i] in s
  {
    if s != [] {
      var rest := Split(s[1..], c);
      if s[0] == c {
        if k > 0 {
          SplitPiecesOf(s[1..], c, k - 1);
        }
      } else {
        SplitPiecesOf(s[1..], c, k);
        if k == 0 {
          assert Split(s, c)[0] == [s[0]] + rest[0];
        } else {
          assert Split(s, c)[k] == rest[k];
        }
      }
    }
  }

  /** Text made only of white space trims to nothing. */
  lemma {:induction false} TrimAllSpace(s: string)
    requires forall i :: 0 <= i < |s| ==> s[i] == ',' || IsJsSpace(s[i])
    requires ',' !in s
    ensures Trim(s) == ""
  {
    assert forall i :: 0 <= i < |s| ==> IsJsSpace(s[i]);
    assert Trim(s) == TrimWith(s, IsJsSpace);
  }

  /** `a || null` for a header value. */
  function OrNull(x: Option<string>): Option<string>
  {
    if x.Some? && x.value != "" then x else None
  }

  /**
   * originMismatch: reported only when both an origin and a forwarded host are
   * present; then it is whether the origin does not contain the host, or the
   * forwarded host differs from the host.
   */
  function OriginMismatch(origin: Option<string>, forwardedHost: Option<string>, host: Option<string>): (r: Option<bool>)
    ensures r.Some? <==> OrNull(origin).Some? && OrNull(forwardedHost).Some?
    ensures r.Some? ==>
      (r.value <==> !Contains(origin.value, if OrNull(host).Some? then host.value else "") || OrNull(forwardedHost) != OrNull(host))
  {
    var o := OrNull(origin);
    var f := OrNull(forwardedHost);
    var h := OrNull(host);
    if o.Some? && f.Some? then Some(!Contains(o.value, if h.Some? then h.value else "") || f != h)
    else None
  }

  /** With the forwarded host equal to the host and named in the origin, there is no mismatch. */
  lemma MatchingHostsAgree(origin: string, host: string)
    requires origin != "" && host != "" && Contains(origin, host)
    ensures OriginMismatch(Some(origin), Some(host), Some(host)) == Some(false)
  {
  }

  /** Without a Host header any present forwarded host is a mismatch. */
  lemma MissingHostMismatches(origin: string, forwardedHost: string)
    requires origin != "" && forwardedHost != ""
    ensures OriginMismatch(Some(origin), Some(forwardedHost), None) == Some(true)
  {
  }
}
