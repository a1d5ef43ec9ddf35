/**
 The session tokens of the browser: the copy in local storage, whose expiry the client checks, and the cookies that
 let the routing guard see the session.
 */
module TokenStorage {
  import opened Ecma
  import opened ProxyAuth

  datatype Tokens = Tokens(access: string, accessExpire: int, expire: Option<int>)

  /** A cookie and the instant from which the browser no longer sends it. */
  datatype Cookie<T> = Cookie(value: T, goneAt: int)

  datatype State = State(tokens: Option<Tokens>, presence: Option<Cookie<string>>, tokenExpire: Option<Cookie<int>>)

  const EMPTY: State := State(None, None, None)

  /** `Math.ceil(ms / 1000)`. */
  function CeilSeconds(ms: int): int { -((-ms) / 1000) }

  /** The cookie lifetime; `lifetime` is the default lifetime of a session in milliseconds. */
  function MaxAgeSeconds(tokens: Tokens, now: int, lifetime: int): int {
    var sessionExpire := if tokens.expire.Some? then tokens.expire.value else now + lifetime;
    Max(1, CeilSeconds(sessionExpire - now))
  }

  function GoneAt(tokens: Tokens, now: int, lifetime: int): int {
    now + 1000 * MaxAgeSeconds(tokens, now, lifetime)
  }

  function WithTokens(tokens: Tokens, now: int, lifetime: int): State {
    var goneAt := GoneAt(tokens, now, lifetime);
    State(Some(tokens), Some(Cookie("1", goneAt)), Some(Cookie(tokens.accessExpire, goneAt)))
  }

  predicate TokenExpired(s: State, now: int) {
    match s.tokens
    case None => true
    case Some(t) =>
      t.accessExpire == 0
      || (t.expire.Some? && t.expire.value != 0 && now >= NormalizeTimestampMs(t.expire.value))
      || now >= NormalizeTimestampMs(t.accessExpire)
  }

  function Sent<T>(cookie: Option<Cookie<T>>, now: int): Option<T> {
    match cookie
    case Some(c) => if now < c.goneAt then Some(c.value) else None
    case None => None
  }

  /** What the routing guard decides on a request sent at `now`. */
  predicate GuardAccepts(s: State, now: int) {
    HasValidAuthPresence(Sent(s.presence, now), Sent(s.tokenExpire, now), now)
  }

  class BrowserStorage {
    const lifetime: int
    var tokens: Option<Tokens>
    var presence: Option<Cookie<string>>
    var tokenExpire: Option<Cookie<int>>

    function View(): State
      reads this
    {
      State(tokens, presence, tokenExpire)
    }

    constructor (lifetime: int)
      ensures View() == EMPTY && this.lifetime == lifetime
    {
      this.lifetime := lifetime;
      tokens, presence, tokenExpire := None, None, None;
    }

    method SetTokens(tokens: Tokens, now: int)
      modifies this
      ensures View() == WithTokens(tokens, now, lifetime)
    {
      this.tokens := Some(tokens);
      var sessionExpire := match tokens.expire case Some(e) => e case None => now + lifetime;
      var maxAgeSeconds := Max(1, CeilSeconds(sessionExpire - now));
      presence := Some(Cookie("1", now + maxAgeSeconds * 1000));
      tokenExpire := Some(Cookie(tokens.accessExpire, now + maxAgeSeconds * 1000));
    }

    method IsTokenExpired(now: int) returns (expired: bool)
      ensures expired == TokenExpired(View(), now)
    {
      if tokens.None? || tokens.value.accessExpire == 0 { return true; }
      var t := tokens.value;
      if t.expire.Some? && t.expire.value != 0 && now >= NormalizeTimestampMs(t.expire.value) { return true; }
      return now >= NormalizeTimestampMs(t.accessExpire);
    }

    method ClearAll()
      modifies this
      ensures View() == EMPTY
    {
      tokens := None;
      presence := None;
      tokenExpire := None;
    }
  }

  lemma CeilSecondsMeaning(ms: int)
    ensures 1000 * (CeilSeconds(ms) - 1) < ms <= 1000 * CeilSeconds(ms)
  {
  }

  /** A session expiry in the future, given in milliseconds. */
  predicate FutureMs(tokens: Tokens, now: int) {
    0 <= now && tokens.expire.Some? && now < tokens.expire.value && SECONDS_BOUND <= tokens.expire.value
  }

  /**
   With such an expiry, whatever the client takes for valid the routing guard accepts, at every later instant; the
   two differ at most in the last started second, and never if the access token does not outlive the session.
   */
  lemma GuardAgreesWithClient(tokens: Tokens, now: int, lifetime: int, t: int)
    requires FutureMs(tokens, now) && now <= t
    ensures var s, e := WithTokens(tokens, now, lifetime), tokens.expire.value;
            && (!TokenExpired(s, t) ==> GuardAccepts(s, t))
            && (GuardAccepts(s, t) && TokenExpired(s, t) ==> e <= t < e + 1000)
            && (NormalizeTimestampMs(tokens.accessExpire) <= e ==> (GuardAccepts(s, t) <==> !TokenExpired(s, t)))
  {
    CeilSecondsMeaning(tokens.expire.value - now);
  }

  /** The first instant at which the client takes the tokens for expired, if their access token has an expiry at all. */
  function ValidUntil(tokens: Tokens): int {
    var access := NormalizeTimestampMs(tokens.accessExpire);
    if tokens.expire.Some? && tokens.expire.value != 0 then Min(access, NormalizeTimestampMs(tokens.expire.value)) else access
  }

  /** For every instant from `now` on, the guard accepts what the client takes for valid. */
  ghost predicate NeverLocksOut(tokens: Tokens, now: int, lifetime: int) {
    forall t :: now <= t && !TokenExpired(WithTokens(tokens, now, lifetime), t) ==> GuardAccepts(WithTokens(tokens, now, lifetime), t)
  }

  /** For tokens of any kind, the guard follows the client exactly if the tokens end no later than the cookie. */
  lemma NeverLocksOutIff(tokens: Tokens, now: int, lifetime: int)
    ensures NeverLocksOut(tokens, now, lifetime)
       <==> tokens.accessExpire == 0 || ValidUntil(tokens) <= GoneAt(tokens, now, lifetime)
  {
    var s, goneAt := WithTokens(tokens, now, lifetime), GoneAt(tokens, now, lifetime);
    if NeverLocksOut(tokens, now, lifetime) && tokens.accessExpire != 0 {
      assert TokenExpired(s, goneAt) || GuardAccepts(s, goneAt);
    }
  }

  /** A session expiry in seconds breaks that: after one second the guard turns away a client whose tokens are valid. */
  lemma SecondsLockOut(tokens: Tokens, now: int, lifetime: int)
    requires SECONDS_BOUND <= now && tokens.expire.Some? && 0 < tokens.expire.value < SECONDS_BOUND
    requires now + 1000 < NormalizeTimestampMs(tokens.expire.value) && now + 1000 < NormalizeTimestampMs(tokens.accessExpire)
    ensures var s := WithTokens(tokens, now, lifetime);
            !TokenExpired(s, now + 1000) && !GuardAccepts(s, now + 1000)
  {
    CeilSecondsMeaning(tokens.expire.value - now);
  }

  /** In particular no path is redirected to the login while the client takes its tokens for valid. */
  lemma ValidTokensStayLoggedIn(tokens: Tokens, now: int, lifetime: int, t: int, path: string)
    requires FutureMs(tokens, now) && now <= t
    ensures var s := WithTokens(tokens, now, lifetime);
            !TokenExpired(s, t) ==> !ShouldRedirectToLogin(path, Sent(s.presence, t), Sent(s.tokenExpire, t), t)
  {
    GuardAgreesWithClient(tokens, now, lifetime, t);
  }

  /** And once nothing is stored any more, exactly the public paths are open. */
  lemma NothingStoredRedirects(path: string, t: int)
    ensures ShouldRedirectToLogin(path, Sent(EMPTY.presence, t), Sent(EMPTY.tokenExpire, t), t) <==> !IsPublicPath(path)
  {
  }

  /**
   The cookies carry the presence mark and the end of the access token. They last as long as the session, rounded up to
   whole seconds, or for one second if it is over; without an end of its own it lasts for the default lifetime.
   */
  lemma CookiesLastAsTheSession(tokens: Tokens, now: int, lifetime: int)
    ensures var s, end := WithTokens(tokens, now, lifetime), if tokens.expire.Some? then tokens.expire.value else now + lifetime;
            && s.tokens == Some(tokens) && s.presence.Some? && s.tokenExpire.Some?
            && s.presence.value.value == "1" && s.tokenExpire.value.value == tokens.accessExpire
            && s.presence.value.goneAt == s.tokenExpire.value.goneAt
            && (end <= now ==> s.presence.value.goneAt == now + 1000)
            && (end > now ==> 0 <= s.presence.value.goneAt - end < 1000 && (s.presence.value.goneAt - now) % 1000 == 0)
  {
    var end := if tokens.expire.Some? then tokens.expire.value else now + lifetime;
    CeilSecondsMeaning(end - now);
  }

  /** Stored tokens are expired from the earlier end on that is given, and always if the access token has none. */
  lemma ExpiredIff(tokens: Tokens, now: int, lifetime: int, t: int)
    ensures TokenExpired(WithTokens(tokens, now, lifetime), t) <==> tokens.accessExpire == 0 || t >= ValidUntil(tokens)
  {
  }

  /** What is left after clearing: no tokens and no cookies, so that the client and the guard agree that the session is over. */
  lemma ClearedIsOver(t: int)
    ensures EMPTY.tokens.None? && EMPTY.presence.None? && EMPTY.tokenExpire.None?
    ensures TokenExpired(EMPTY, t) && !GuardAccepts(EMPTY, t)
  {
  }
}
