/**
 Credential redaction in log text: the `user:pass` part of `scheme://user:pass@` becomes three asterisks.

 `Reads` gives the declarative meaning of the pattern, `MatchAt` is the greedy left-to-right scanner
 that a regular-expression engine runs, and `Redact` is the global replacement built on it.
 */
module UrlRedaction {

  import opened Ecma
  import opened Patterns

  /** The boundaries of one match at the start of a text: the ends of the scheme, the user and the password. */
  datatype Match = Match(scheme: nat, user: nat, pass: nat)

  /** The pattern itself: what it means for a prefix of `s` to read as a credential URL. */
  ghost predicate Reads(s: string, m: Match) {
    && 0 < m.scheme && m.scheme + 3 <= m.user && m.user + 1 < m.pass < |s|
    && IsLetter(s[0]) && AllIn(Scheme, s, 1, m.scheme)
    && s[m.scheme] == ':' && s[m.scheme + 1] == '/' && s[m.scheme + 2] == '/'
    && AllIn(User, s, m.scheme + 3, m.user) && s[m.user] == ':'
    && AllIn(Pass, s, m.user + 1, m.pass) && s[m.pass] == '@'
  }

  /** No credential URL starts anywhere in `s`. */
  ghost predicate Clean(s: string) {
    forall i, m :: 0 <= i <= |s| ==> !Reads(s[i..], m)
  }

  /** Matches the pattern at the start of `s`; every quantifier takes all it can and never gives back. */
  function MatchAt(s: string): (r: Option<Match>) {
    if |s| == 0 || !IsLetter(s[0]) then None else
      var c := End(s, 1, Scheme);
      if c + 3 > |s| || s[c] != ':' || s[c + 1] != '/' || s[c + 2] != '/' then None else
        var u := End(s, c + 3, User);
        if u == |s| || s[u] != ':' then None else
          var a := End(s, u + 1, Pass);
          if a == |s| || s[a] != '@' || a == u + 1 then None else Some(Match(c, u, a))
  }

  /** The scanner finds a match exactly when the text reads as one; in particular there is at most one reading. */
  lemma ScannerIsThePattern(s: string, m: Match)
    ensures Reads(s, m) <==> MatchAt(s) == Some(m)
  {
    if Reads(s, m) {
      var c := End(s, 1, Scheme);
      assert c == m.scheme;
      var u := End(s, c + 3, User);
      assert u == m.user;
      var a := End(s, u + 1, Pass);
      assert a == m.pass;
    }
  }

  const MASK: string := "://***@"

  /** The global replacement: the leftmost match is masked and the search goes on behind it. */
  function Redact(s: string): string {
    if s == "" then ""
    else match MatchAt(s)
      case Some(m) => s[..m.scheme] + MASK + Redact(s[m.pass + 1..])
      case None => [s[0]] + Redact(s[1..])
  }

  /** How far the output agrees with the input: up to the `//` of the first masked URL. */
  ghost function Agreed(s: string): nat {
    if s == "" then 0
    else match MatchAt(s)
      case Some(m) => m.scheme + 3
      case None => 1 + Agreed(s[1..])
  }

  /** Output `r` copies the first `g` characters of `s`, which end in `://`, and goes on with the mask. */
  ghost predicate MaskedFrom(s: string, r: string, g: nat) {
    && 3 < g <= |s| && g + 4 <= |r| && (forall k :: 0 <= k < g ==> r[k] == s[k])
    && s[g - 3] == ':' && s[g - 2] == '/' && s[g - 1] == '/'
    && r[g] == '*' && r[g + 1] == '*' && r[g + 2] == '*' && r[g + 3] == '@'
  }

  lemma {:induction false} AgreedPrefix(s: string)
    ensures (Redact(s) == s && MatchAt(s).None?) || MaskedFrom(s, Redact(s), Agreed(s))
  {
    if s != "" {
      match MatchAt(s)
      case Some(m) =>
        ScannerIsThePattern(s, m);
        MaskBehind(s, m, Redact(s[m.pass + 1..]));
      case None =>
        AgreedPrefix(s[1..]);
        PlainInFront(s, Redact(s[1..]));
    }
  }

  lemma MaskBehind(s: string, m: Match, rest: string)
    requires Reads(s, m)
    ensures MaskedFrom(s, s[..m.scheme] + MASK + rest, m.scheme + 3)
  {
    var r := s[..m.scheme] + MASK + rest;
    assert r[..m.scheme + 7] == s[..m.scheme] + MASK;
    assert forall k :: 0 <= k < m.scheme + 7 ==> r[k] == (s[..m.scheme] + MASK)[k];
  }

  lemma PlainInFront(s: string, rest: string)
    requires s != ""
    ensures rest == s[1..] ==> [s[0]] + rest == s
    ensures forall g: nat :: MaskedFrom(s[1..], rest, g) ==> MaskedFrom(s, [s[0]] + rest, g + 1)
  {
  }

  /** A reading of an output cannot reach into a mask: it has no `//` behind its own, and the mask has no `:`. */
  lemma ReadingStaysBeforeMask(s: string, r: string, g: nat, m: Match)
    requires MaskedFrom(s, r, g) && Reads(r, m)
    ensures m.pass < g && Reads(s, m)
  {
    if g <= m.pass {
      assert false;
    }
  }

  /** No match can start at the front of an output. */
  lemma FrontIsClean(s: string, m: Match)
    ensures !Reads(Redact(s), m)
  {
    AgreedPrefix(s);
    var r := Redact(s);
    if Reads(r, m) {
      ScannerIsThePattern(s, m);
      if MaskedFrom(s, r, Agreed(s)) {
        ReadingStaysBeforeMask(s, r, Agreed(s), m);
      }
    }
  }

  /** The part of a match behind a position inside its scheme is again a match, if a letter stands there. */
  lemma InnerMatch(s: string, m: Match, i: nat)
    requires Reads(s, m) && i < m.scheme && IsLetter(s[i])
    ensures MatchAt(s[i..]) == Some(Match(m.scheme - i, m.user - i, m.pass - i))
  {
    ScannerIsThePattern(s[i..], Match(m.scheme - i, m.user - i, m.pass - i));
  }

  lemma RedactMatched(s: string, w: Match)
    requires Reads(s, w)
    ensures Redact(s) == s[..w.scheme] + MASK + Redact(s[w.pass + 1..])
  {
    ScannerIsThePattern(s, w);
  }

  lemma SliceConcat(a: string, b: string, c: string, i: nat)
    requires i <= |a|
    ensures (a + b + c)[i..] == a[i..] + b + c
  {
  }

  lemma RedactInner(s: string, w: Match, i: nat)
    requires Reads(s, w) && i < w.scheme && IsLetter(s[i])
    ensures i <= |Redact(s)| && Redact(s[i..]) == Redact(s)[i..]
  {
    var t := s[i..];
    var m := Match(w.scheme - i, w.user - i, w.pass - i);
    InnerMatch(s, w, i);
    ScannerIsThePattern(t, m);
    assert t[..m.scheme] == s[..w.scheme][i..];
    assert t[m.pass + 1..] == s[w.pass + 1..];
    RedactMatched(t, m);
    RedactMatched(s, w);
    SliceConcat(s[..w.scheme], MASK, Redact(s[w.pass + 1..]), i);
  }

  lemma MaskHasNoLetter(a: string, rest: string, i: nat)
    requires i < |a| + 7 && (i < |a| ==> !IsLetter(a[i]))
    ensures !IsLetter((a + MASK + rest)[i])
  {
    if i >= |a| { assert (a + MASK + rest)[i] == MASK[i - |a|]; }
  }

  /** A suffix of an output that starts inside the scheme or the mask of its first masked URL. */
  lemma SuffixWithinMask(s: string, w: Match, i: nat, m: Match)
    requires Reads(s, w) && i < w.scheme + 7 && i <= |Redact(s)|
    ensures !Reads(Redact(s)[i..], m)
  {
    if i < w.scheme && IsLetter(s[i]) {
      RedactInner(s, w, i);
      FrontIsClean(s[i..], m);
    } else {
      RedactMatched(s, w);
      MaskHasNoLetter(s[..w.scheme], Redact(s[w.pass + 1..]), i);
      assert Redact(s)[i..] != "" ==> Redact(s)[i..][0] == Redact(s)[i];
    }
  }

  lemma BehindMask(s: string, w: Match, i: nat)
    requires Reads(s, w) && w.scheme + 7 <= i <= |Redact(s)|
    ensures var rest := Redact(s[w.pass + 1..]);
            i - w.scheme - 7 <= |rest| && Redact(s)[i..] == rest[i - w.scheme - 7..]
  {
    RedactMatched(s, w);
    SuffixBehind(s[..w.scheme] + MASK, Redact(s[w.pass + 1..]), i);
  }

  lemma SuffixBehind(a: string, b: string, i: nat)
    requires |a| <= i <= |a + b|
    ensures (a + b)[i..] == b[i - |a|..]
  {
  }

  lemma BehindFirst(s: string, i: nat)
    requires s != "" && MatchAt(s).None? && 0 < i <= |Redact(s)|
    ensures i - 1 <= |Redact(s[1..])| && Redact(s)[i..] == Redact(s[1..])[i - 1..]
  {
  }

  /** Every suffix of an output is clean at its front. */
  lemma {:induction false} EverySuffixIsClean(s: string, i: nat, m: Match)
    requires i <= |Redact(s)|
    ensures !Reads(Redact(s)[i..], m)
  {
    var r := Redact(s);
    if s == "" {
    } else if MatchAt(s).Some? {
      var w := MatchAt(s).value;
      ScannerIsThePattern(s, w);
      if i < w.scheme + 7 {
        SuffixWithinMask(s, w, i, m);
      } else {
        BehindMask(s, w, i);
        EverySuffixIsClean(s[w.pass + 1..], i - w.scheme - 7, m);
      }
    } else if i == 0 {
      assert r[0..] == r;
      FrontIsClean(s, m);
    } else {
      BehindFirst(s, i);
      EverySuffixIsClean(s[1..], i - 1, m);
    }
  }

  /** The output of the redactor holds no credential URL, not even one that spans a mask and its surroundings. */
  lemma RedactedIsClean(s: string)
    ensures Clean(Redact(s))
  {
    forall i, m | 0 <= i <= |Redact(s)|
      ensures !Reads(Redact(s)[i..], m)
    {
      EverySuffixIsClean(s, i, m);
    }
  }

  /** Text without credential URLs, and no other text, passes unchanged. */
  lemma {:induction false} UnchangedIffClean(s: string)
    ensures Redact(s) == s <==> Clean(s)
  {
    if Redact(s) == s {
      RedactedIsClean(s);
    }
    if Clean(s) {
      CleanIsUnchanged(s);
    }
  }

  lemma {:induction false} CleanIsUnchanged(s: string)
    requires Clean(s)
    ensures Redact(s) == s
  {
    if s != "" {
      assert s[0..] == s;
      if MatchAt(s).Some? {
        ScannerIsThePattern(s, MatchAt(s).value);
      }
      forall i, m | 0 <= i <= |s[1..]|
        ensures !Reads(s[1..][i..], m)
      {
        assert s[1..][i..] == s[i + 1..];
      }
      CleanIsUnchanged(s[1..]);
    }
  }

  /** Redacting twice is redacting once. */
  lemma RedactIsIdempotent(s: string)
    ensures Redact(Redact(s)) == Redact(s)
  {
    RedactedIsClean(s);
    UnchangedIffClean(Redact(s));
  }

  /** A text cut into plain characters and credential URLs `scheme://login@`. */
  datatype Piece = Plain(c: char) | Secret(scheme: string, login: string)

  function Original(ps: seq<Piece>): string {
    if ps == [] then "" else
      (match ps[0] case Plain(c) => [c] case Secret(scheme, login) => scheme + "://" + login + "@") + Original(ps[1..])
  }

  function Masked(ps: seq<Piece>): string {
    if ps == [] then "" else
      (match ps[0] case Plain(c) => [c] case Secret(scheme, login) => scheme + MASK) + Masked(ps[1..])
  }

  /** Each piece is a credential URL where, and only where, one starts in the remaining text. */
  ghost predicate LeftmostPieces(ps: seq<Piece>) {
    ps != [] ==>
      && (match ps[0]
          case Plain(_) => forall m :: !Reads(Original(ps), m)
          case Secret(scheme, login) => exists m :: Reads(Original(ps), m) && m.scheme == |scheme| && m.pass == |scheme| + 3 + |login|)
      && LeftmostPieces(ps[1..])
  }

  lemma PlainPiece(c: char, s: string, qs: seq<Piece>)
    requires MatchAt([c] + s).None? && Original(qs) == s && Masked(qs) == Redact(s) && LeftmostPieces(qs)
    ensures var ps := [Plain(c)] + qs; Original(ps) == [c] + s && Masked(ps) == Redact([c] + s) && LeftmostPieces(ps)
  {
    var ps := [Plain(c)] + qs;
    assert ps[1..] == qs && ([c] + s)[1..] == s;
    forall m ensures !Reads([c] + s, m) { ScannerIsThePattern([c] + s, m); }
  }

  lemma CutAtLogin(s: string, m: Match)
    requires Reads(s, m)
    ensures s == s[..m.scheme] + "://" + s[m.scheme + 3..m.pass] + "@" + s[m.pass + 1..]
  {
    var t := s[..m.scheme] + "://" + s[m.scheme + 3..m.pass] + "@" + s[m.pass + 1..];
    assert |t| == |s|;
    assert forall k :: 0 <= k < |s| ==> t[k] == s[k];
  }

  lemma SecretPiece(s: string, m: Match, qs: seq<Piece>)
    requires Reads(s, m) && Original(qs) == s[m.pass + 1..] && Masked(qs) == Redact(s[m.pass + 1..]) && LeftmostPieces(qs)
    ensures var ps := [Secret(s[..m.scheme], s[m.scheme + 3..m.pass])] + qs;
            Original(ps) == s && Masked(ps) == Redact(s) && LeftmostPieces(ps)
  {
    var p := Secret(s[..m.scheme], s[m.scheme + 3..m.pass]);
    var ps := [p] + qs;
    assert ps[1..] == qs && ps[0] == p;
    CutAtLogin(s, m);
    assert Original(ps) == s;
    RedactMatched(s, m);
    assert Masked(ps) == p.scheme + MASK + Masked(qs);
  }

  /** Only credentials change: the input cuts into plain text and leftmost credential URLs, and the output masks the login of each. */
  lemma {:induction false} OnlyLoginsChange(s: string) returns (ps: seq<Piece>)
    ensures Original(ps) == s && Masked(ps) == Redact(s) && LeftmostPieces(ps)
  {
    if s == "" {
      ps := [];
    } else if MatchAt(s).Some? {
      var m := MatchAt(s).value;
      ScannerIsThePattern(s, m);
      var qs := OnlyLoginsChange(s[m.pass + 1..]);
      SecretPiece(s, m, qs);
      ps := [Secret(s[..m.scheme], s[m.scheme + 3..m.pass])] + qs;
    } else {
      var qs := OnlyLoginsChange(s[1..]);
      assert [s[0]] + s[1..] == s;
      PlainPiece(s[0], s[1..], qs);
      ps := [Plain(s[0])] + qs;
    }
  }

  // The same in characters, without the scanner and its classes.

  predicate IsSchemeChar(c: char) {
    'a' <= c <= 'z' || 'A' <= c <= 'Z' || '0' <= c <= '9' || c == '+' || c == '.' || c == '-'
  }

  /** The parts of a URL with a login: the scheme starts with a letter, the user may be missing, the password may not. */
  ghost predicate IsLogin(scheme: string, user: string, pass: string) {
    && scheme != "" && ('a' <= scheme[0] <= 'z' || 'A' <= scheme[0] <= 'Z')
    && (forall k :: 0 <= k < |scheme| ==> IsSchemeChar(scheme[k]))
    && (forall k :: 0 <= k < |user| ==> !IsSpace(user[k]) && user[k] != ':' && user[k] != '/' && user[k] != '@')
    && pass != "" && (forall k :: 0 <= k < |pass| ==> !IsSpace(pass[k]) && pass[k] != '/' && pass[k] != '@')
  }

  function LoginUrl(scheme: string, user: string, pass: string): string {
    scheme + ("://" + (user + (":" + (pass + "@"))))
  }

  /** Where the parts of such a URL stand. */
  function LoginMatch(scheme: string, user: string, pass: string): Match {
    Match(|scheme|, |scheme| + 3 + |user|, |scheme| + 4 + |user| + |pass|)
  }

  lemma LoginChars(scheme: string, user: string, pass: string, rest: string)
    ensures var s, m := LoginUrl(scheme, user, pass) + rest, LoginMatch(scheme, user, pass);
            && |s| == m.pass + 1 + |rest| && s[..m.scheme] == scheme && s[m.pass + 1..] == rest
            && s[m.scheme] == ':' && s[m.scheme + 1] == '/' && s[m.scheme + 2] == '/' && s[m.user] == ':' && s[m.pass] == '@'
  {
  }

  lemma LoginParts(scheme: string, user: string, pass: string, rest: string)
    ensures var s, m := LoginUrl(scheme, user, pass) + rest, LoginMatch(scheme, user, pass);
            && |s| > m.pass
            && (forall k :: 0 <= k < m.scheme ==> s[k] == scheme[k])
            && (forall k :: m.scheme + 3 <= k < m.user ==> s[k] == user[k - m.scheme - 3])
            && (forall k :: m.user + 1 <= k < m.pass ==> s[k] == pass[k - m.user - 1])
  {
  }

  lemma LoginIsRead(scheme: string, user: string, pass: string, rest: string)
    requires IsLogin(scheme, user, pass)
    ensures Reads(LoginUrl(scheme, user, pass) + rest, LoginMatch(scheme, user, pass))
  {
    LoginChars(scheme, user, pass, rest);
    LoginParts(scheme, user, pass, rest);
  }

  lemma ReadIsUrl(s: string, m: Match)
    requires Reads(s, m)
    ensures s == LoginUrl(s[..m.scheme], s[m.scheme + 3..m.user], s[m.user + 1..m.pass]) + s[m.pass + 1..]
  {
    var t := LoginUrl(s[..m.scheme], s[m.scheme + 3..m.user], s[m.user + 1..m.pass]) + s[m.pass + 1..];
    LoginChars(s[..m.scheme], s[m.scheme + 3..m.user], s[m.user + 1..m.pass], s[m.pass + 1..]);
    LoginParts(s[..m.scheme], s[m.scheme + 3..m.user], s[m.user + 1..m.pass], s[m.pass + 1..]);
    assert |t| == |s|;
    forall k | 0 <= k < |s| ensures t[k] == s[k] {
      if k > m.pass { assert t[m.pass + 1..][k - m.pass - 1] == s[m.pass + 1..][k - m.pass - 1]; }
    }
  }

  /** The pattern reads logins, and nothing else. */
  lemma ReadIsLogin(s: string, m: Match)
    requires Reads(s, m)
    ensures IsLogin(s[..m.scheme], s[m.scheme + 3..m.user], s[m.user + 1..m.pass])
  {
  }

  ghost predicate StartsWithLogin(s: string) {
    exists scheme, user, pass :: IsLogin(scheme, user, pass) && LoginUrl(scheme, user, pass) <= s
  }

  lemma StartsWithLoginIff(s: string)
    ensures StartsWithLogin(s) <==> exists m :: Reads(s, m)
  {
    if StartsWithLogin(s) {
      var scheme, user, pass :| IsLogin(scheme, user, pass) && LoginUrl(scheme, user, pass) <= s;
      var url := LoginUrl(scheme, user, pass);
      LoginIsRead(scheme, user, pass, s[|url|..]);
      assert url + s[|url|..] == s;
    }
    if m :| Reads(s, m) {
      ReadIsLogin(s, m);
      ReadIsUrl(s, m);
      assert LoginUrl(s[..m.scheme], s[m.scheme + 3..m.user], s[m.user + 1..m.pass]) <= s;
    }
  }

  /** Of a URL with a login, whatever stands behind it, the user and the password are masked. */
  lemma LoginIsMasked(scheme: string, user: string, pass: string, rest: string)
    requires IsLogin(scheme, user, pass)
    ensures Redact(LoginUrl(scheme, user, pass) + rest) == scheme + "://***@" + Redact(rest)
  {
    LoginIsRead(scheme, user, pass, rest);
    RedactMatched(LoginUrl(scheme, user, pass) + rest, LoginMatch(scheme, user, pass));
    LoginChars(scheme, user, pass, rest);
  }

  /** A text is changed if and only if a URL with a login starts somewhere in it. */
  lemma ChangedIffLogin(s: string)
    ensures Redact(s) != s <==> exists i :: 0 <= i <= |s| && StartsWithLogin(s[i..])
  {
    UnchangedIffClean(s);
    forall i | 0 <= i <= |s| ensures StartsWithLogin(s[i..]) <==> exists m :: Reads(s[i..], m) {
      StartsWithLoginIff(s[i..]);
    }
  }

  /** And none starts anywhere in an output. */
  lemma NoLoginIsLeft(s: string, i: nat)
    requires i <= |Redact(s)|
    ensures !StartsWithLogin(Redact(s)[i..])
  {
    RedactedIsClean(s);
    StartsWithLoginIff(Redact(s)[i..]);
  }
}
