/** The CORS origin check of app.js: the allow-list built once at start-up
    from the built-in origins and `CORS_ORIGINS`, and the per-request decision.
    URL parsing is an input: `hostnameOf(origin)` is the hostname of
    `new URL(origin)`, or `None` when the constructor throws. */
module Cors {
  import opened Wrappers
  import opened Collections
  import opened JsStrings

  /** `defaultOrigins`. */
  const DefaultOrigins: seq<string> := ["http://localhost:3000", "http://127.0.0.1:3000", "https://ray19823.github.io"]

  /** `extraOrigins`: the comma-separated entries of `CORS_ORIGINS`, trimmed,
      blank ones dropped; no entries when the variable is unset. */
  function ExtraOrigins(corsOrigins: Option<string>): (r: seq<string>)
    ensures corsOrigins.None? ==> r == []
    ensures forall k :: 0 <= k < |r| ==> r[k] != "" && Trim(r[k]) == r[k] && ',' !in r[k]
  {
    assert Split("", ',') == [""];
    TrimOfTrimmed("");
    CommaList(corsOrigins.GetOr(""))
  }

  /** `allowList`: the built-in origins, then the configured ones, each once,
      at its first occurrence. */
  function AllowList(corsOrigins: Option<string>): (r: seq<string>)
    ensures NoDup(r)
    ensures forall k :: 0 <= k < |r| ==> r[k] in DefaultOrigins || r[k] in ExtraOrigins(corsOrigins)
  {
    var all := DefaultOrigins + ExtraOrigins(corsOrigins);
    var r := Dedup(all);
    assert forall k :: 0 <= k < |r| ==> r[k] in all;
    r
  }

  /** The built-in origins are pairwise different. */
  lemma DefaultOriginsDistinct()
    ensures NoDup(DefaultOrigins)
  {
    assert DefaultOrigins[0][7] != DefaultOrigins[1][7];
    assert DefaultOrigins[0][4] != DefaultOrigins[2][4];
    assert DefaultOrigins[1][4] != DefaultOrigins[2][4];
  }

  /** The allow-list starts with the three built-in origins, in order, whatever
      `CORS_ORIGINS` holds. */
  lemma AllowListStartsWithDefaults(corsOrigins: Option<string>)
    ensures |AllowList(corsOrigins)| >= |DefaultOrigins|
    ensures AllowList(corsOrigins)[..|DefaultOrigins|] == DefaultOrigins
  {
    DefaultOriginsDistinct();
    DedupKeepsDistinctPrefix(DefaultOrigins, ExtraOrigins(corsOrigins));
  }

  /** Every non-blank `CORS_ORIGINS` entry, trimmed, is in the allow-list. */
  lemma ConfiguredOriginListed(env: string, k: nat)
    requires k < |Split(env, ',')| && Trim(Split(env, ',')[k]) != ""
    ensures Trim(Split(env, ',')[k]) in AllowList(Some(env))
  {
    var extra := ExtraOrigins(Some(env));
    MapNonEmptyCover(Split(env, ','), Trim, k);
    var i :| 0 <= i < |extra| && extra[i] == Trim(Split(env, ',')[k]);
    var all := DefaultOrigins + extra;
    assert all[|DefaultOrigins| + i] == extra[i];
  }

  /** With `CORS_ORIGINS` unset the allow-list is exactly the built-in origins. */
  lemma AllowListWithoutConfiguration()
    ensures AllowList(None) == DefaultOrigins
  {
    assert Split("", ',') == [""];
    TrimOfTrimmed("");
    assert ExtraOrigins(None) == [];
    assert DefaultOrigins + [] == DefaultOrigins;
    DefaultOriginsDistinct();
    DedupOfDistinct(DefaultOrigins);
  }

  /** `s` ends with `suffix`: what `/\.github\.io$/` tests with `suffix == ".github.io"`. */
  predicate EndsWith(s: string, suffix: string) {
    |suffix| <= |s| && s[|s| - |suffix|..] == suffix
  }

  /** The `origin` callback: an absent or empty origin (same-origin requests,
      curl) is allowed; otherwise the origin must be listed, or parse as a URL
      whose hostname ends with `.github.io`; a URL that does not parse is refused. */
  function OriginAllowed(allowList: seq<string>, origin: Option<string>, hostnameOf: string -> Option<string>): (ok: bool)
    ensures origin.None? || origin.value == "" || origin.value in allowList ==> ok
    ensures origin.Some? && origin.value != "" && origin.value !in allowList && hostnameOf(origin.value).None? ==> !ok
  {
    if origin.None? || origin.value == "" then true
    else if origin.value in allowList then true
    else
      match hostnameOf(origin.value)
      case None => false
      case Some(hostname) => EndsWith(hostname, ".github.io")
  }

  /** The decision in full: allowed exactly when the origin is absent or empty,
      listed, or a parsable URL on a `github.io` host. */
  lemma OriginDecision(allowList: seq<string>, origin: Option<string>, hostnameOf: string -> Option<string>)
    ensures OriginAllowed(allowList, origin, hostnameOf) <==>
              || origin.None? || origin.value == ""
              || origin.value in allowList
              || (hostnameOf(origin.value).Some? && EndsWith(hostnameOf(origin.value).value, ".github.io"))
  {
  }

  /** A listed origin is allowed without consulting URL parsing. */
  lemma ListedOriginAllowed(allowList: seq<string>, origin: string, hostnameOf: string -> Option<string>)
    requires origin in allowList
    ensures OriginAllowed(allowList, Some(origin), hostnameOf)
  {
  }

  /** Each built-in origin is in the allow-list, whatever `CORS_ORIGINS` holds. */
  lemma DefaultOriginListed(corsOrigins: Option<string>, k: nat)
    requires k < |DefaultOrigins|
    ensures DefaultOrigins[k] in AllowList(corsOrigins)
  {
    var allow := AllowList(corsOrigins);
    AllowListStartsWithDefaults(corsOrigins);
    assert allow[..|DefaultOrigins|][k] == DefaultOrigins[k];
    assert allow[k] == DefaultOrigins[k];
  }

  /** The built-in origins are always allowed, whatever `CORS_ORIGINS` holds and
      however URL parsing behaves. */
  lemma DefaultOriginAllowed(corsOrigins: Option<string>, k: nat, hostnameOf: string -> Option<string>)
    requires k < |DefaultOrigins|
    ensures OriginAllowed(AllowList(corsOrigins), Some(DefaultOrigins[k]), hostnameOf)
  {
    DefaultOriginListed(corsOrigins, k);
    ListedOriginAllowed(AllowList(corsOrigins), DefaultOrigins[k], hostnameOf);
  }

  /** An origin that is neither listed nor on a `github.io` host is refused. */
  lemma UnlistedOriginRefused(corsOrigins: Option<string>, origin: string, hostnameOf: string -> Option<string>)
    requires origin != "" && origin !in DefaultOrigins && origin !in ExtraOrigins(corsOrigins)
    requires hostnameOf(origin).None? || !EndsWith(hostnameOf(origin).value, ".github.io")
    ensures !OriginAllowed(AllowList(corsOrigins), Some(origin), hostnameOf)
  {
    var allow := AllowList(corsOrigins);
    assert origin !in allow by {
      forall k | 0 <= k < |allow| ensures allow[k] != origin {
        assert allow[k] in DefaultOrigins || allow[k] in ExtraOrigins(corsOrigins);
      }
    }
    OriginDecision(allow, Some(origin), hostnameOf);
  }
}
