/** The routing guard in front of the application: which paths are public, and whether the cookies show a session. */
module ProxyAuth {
  import opened Ecma

  /** Timestamps below this bound are taken for seconds. */
  const SECONDS_BOUND: int := 10_000_000_000

  function NormalizeTimestampMs(value: int): int {
    if value < SECONDS_BOUND then value * 1000 else value
  }

  /** The check on the two cookies; `expire` is the number in the second one, if it is one. */
  predicate HasValidAuthPresence(presence: Option<string>, expire: Option<int>, now: int) {
    presence == Some("1") && expire.Some? && NormalizeTimestampMs(expire.value) > now
  }

  const LOCALES: seq<string> := ["/zh-CN", "/en"]
  const PUBLIC_PATHS: seq<string> := ["/login", "/auth/callback", "/auth/oidc/callback", "/auth/oidc/success"]

  /** `s` begins with the path segments `prefix`. */
  predicate UnderPrefix(s: string, prefix: string) {
    prefix <= s && (|s| == |prefix| || s[|prefix|] == '/')
  }

  predicate HasLocale(path: string) {
    UnderPrefix(path, LOCALES[0]) || UnderPrefix(path, LOCALES[1])
  }

  function StripLocale(path: string): string {
    var rest :=
      if UnderPrefix(path, LOCALES[0]) then path[|LOCALES[0]|..]
      else if UnderPrefix(path, LOCALES[1]) then path[|LOCALES[1]|..]
      else path;
    var rest := if rest == "" then "/" else rest;
    if rest[0] == '/' then rest else "/" + rest
  }

  predicate IsListed(path: string) {
    exists k :: 0 <= k < |PUBLIC_PATHS| && (path == PUBLIC_PATHS[k] || PUBLIC_PATHS[k] + "/" <= path)
  }

  predicate IsPublicPath(path: string) {
    IsListed(StripLocale(path))
  }

  predicate ShouldRedirectToLogin(path: string, presence: Option<string>, expire: Option<int>, now: int) {
    !IsPublicPath(path) && !HasValidAuthPresence(presence, expire, now)
  }

  lemma SecondCharacter(path: string)
    ensures HasLocale(path) ==> |path| > 1 && (path[1] == 'z' || path[1] == 'e')
    ensures IsListed(path) ==> |path| > 1 && (path[1] == 'l' || path[1] == 'a')
  {
    if IsListed(path) {
      var k :| 0 <= k < |PUBLIC_PATHS| && (path == PUBLIC_PATHS[k] || PUBLIC_PATHS[k] + "/" <= path);
      assert path[1] == PUBLIC_PATHS[k][1];
    }
  }

  lemma LocaleInFront(locale: string, path: string)
    requires locale in LOCALES && (path == "" || path[0] == '/')
    ensures StripLocale(locale + path) == if path == "" then "/" else path
  {
    assert (locale + path)[|locale|..] == path;
    assert locale <= locale + path;
    if locale == LOCALES[1] {
      assert (locale + path)[1] == 'e' && LOCALES[0][1] == 'z';
      assert !UnderPrefix(locale + path, LOCALES[0]);
    }
  }

  /** A locale in front of a path does not change whether it is public, unless a public path already has one: only one is stripped. */
  lemma LocaleIsIgnored(locale: string, path: string)
    requires locale in LOCALES && (path == "" || path[0] == '/')
    ensures IsPublicPath(locale + path) == IsPublicPath(path) <==> !(HasLocale(path) && IsPublicPath(path))
  {
    LocaleInFront(locale, path);
    SecondCharacter(path);
  }

  /** A path without a locale is public if and only if it is the login or one of the three callbacks, or lies below one of them. */
  lemma PublicIff(path: string)
    requires path != "" && path[0] == '/' && !("/zh-CN" <= path) && !("/en" <= path)
    ensures IsPublicPath(path) <==>
      || path == "/login" || "/login/" <= path
      || path == "/auth/callback" || "/auth/callback/" <= path
      || path == "/auth/oidc/callback" || "/auth/oidc/callback/" <= path
      || path == "/auth/oidc/success" || "/auth/oidc/success/" <= path
  {
    assert StripLocale(path) == path;
    assert PUBLIC_PATHS[0] + "/" == "/login/" && PUBLIC_PATHS[1] + "/" == "/auth/callback/";
    assert PUBLIC_PATHS[2] + "/" == "/auth/oidc/callback/" && PUBLIC_PATHS[3] + "/" == "/auth/oidc/success/";
  }

  /** Seconds and milliseconds denote the same instant exactly at the epoch itself and from ten million seconds after it on. */
  lemma UnitsAgreeIff(seconds: int)
    requires 0 <= seconds < 10_000_000_000
    ensures NormalizeTimestampMs(seconds) == NormalizeTimestampMs(1000 * seconds) <==> seconds == 0 || seconds >= 10_000_000
    ensures NormalizeTimestampMs(seconds) == 1000 * seconds
  {
  }

  /** A path that is not public is redirected unless the first cookie is "1" and the second one, in either unit, lies in the future. */
  lemma RedirectedIff(path: string, presence: Option<string>, expire: Option<int>, now: int)
    ensures ShouldRedirectToLogin(path, presence, expire, now) <==>
      !IsPublicPath(path)
      && !(presence == Some("1") && expire.Some?
           && (if expire.value >= 10_000_000_000 then expire.value > now else 1000 * expire.value > now))
  {
  }
}
