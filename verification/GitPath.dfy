/**
 Decoding of the path names that git prints: a name with unusual bytes comes in double quotes, with backslash
 escapes. The decoder understands the octal escapes only.
 */
module GitPath {

  import opened Ecma

  const QUOTE: Byte := 34
  const BACKSLASH: Byte := 92

  predicate IsOctal(b: Byte) { 48 <= b <= 55 }

  /** Three octal digits stand at the front of `s`. */
  predicate OctalAhead(s: seq<Byte>) {
    |s| >= 3 && IsOctal(s[0]) && IsOctal(s[1]) && IsOctal(s[2])
  }

  /** The byte they denote; a larger number is cut to a byte. */
  function OctalValue(a: Byte, b: Byte, c: Byte): Byte {
    ((a - 48) * 64 + (b - 48) * 8 + (c - 48)) % 256
  }

  function DecodeBody(s: seq<Byte>): seq<Byte> {
    if s == [] then []
    else if s[0] == BACKSLASH && OctalAhead(s[1..]) then [OctalValue(s[1], s[2], s[3])] + DecodeBody(s[4..])
    else [s[0]] + DecodeBody(s[1..])
  }

  predicate IsQuoted(line: seq<Byte>) {
    line != [] && line[0] == QUOTE && line[|line| - 1] == QUOTE
  }

  /** `line.slice(1, -1)`. */
  function Inside(line: seq<Byte>): seq<Byte> {
    if |line| < 2 then [] else line[1..|line| - 1]
  }

  function Decoded(line: seq<Byte>): seq<Byte> {
    if IsQuoted(line) then DecodeBody(Inside(line)) else line
  }

  method DecodeGitPath(line: seq<Byte>) returns (path: seq<Byte>)
    ensures path == Decoded(line)
  {
    if !IsQuoted(line) { return line; }
    var s := Inside(line);
    var bytes: seq<Byte> := [];
    var i := 0;
    while i < |s|
      invariant 0 <= i <= |s|
      invariant bytes + DecodeBody(s[i..]) == DecodeBody(s)
    {
      if s[i] == BACKSLASH && i + 3 < |s| {
        var oct := s[i + 1..i + 4];
        if IsOctal(oct[0]) && IsOctal(oct[1]) && IsOctal(oct[2]) {
          assert s[i..][4..] == s[i + 4..];
          var b := OctalValue(oct[0], oct[1], oct[2]);
          assert DecodeBody(s[i..]) == [b] + DecodeBody(s[i + 4..]);
          assert bytes + ([b] + DecodeBody(s[i + 4..])) == bytes + [b] + DecodeBody(s[i + 4..]);
          bytes := bytes + [b];
          i := i + 4;
          continue;
        }
      }
      assert s[i..][1..] == s[i + 1..];
      assert DecodeBody(s[i..]) == [s[i]] + DecodeBody(s[i + 1..]);
      assert bytes + ([s[i]] + DecodeBody(s[i + 1..])) == bytes + [s[i]] + DecodeBody(s[i + 1..]);
      bytes := bytes + [s[i]];
      i := i + 1;
    }
    assert s[i..] == [];
    return bytes;
  }

  // How git quotes.

  /** The letter of a C escape for the bytes BEL, BS, TAB, LF, VT, FF and CR. */
  function Letter(c: Byte): Byte
    requires 7 <= c <= 13
  {
    [97, 98, 116, 110, 118, 102, 114][c - 7]
  }

  function Octal3(c: Byte): seq<Byte> {
    [48 + c / 64, 48 + c / 8 % 8, 48 + c % 8]
  }

  /** The bytes that git escapes by a letter or by themselves, and not by their octal number. */
  predicate Lettered(c: Byte) {
    7 <= c <= 13 || c == QUOTE || c == BACKSLASH
  }

  predicate Unusual(c: Byte) {
    c < 32 || c >= 127 || c == QUOTE || c == BACKSLASH
  }

  function QuoteByte(c: Byte): (q: seq<Byte>) {
    if 7 <= c <= 13 then [BACKSLASH, Letter(c)]
    else if c == QUOTE || c == BACKSLASH then [BACKSLASH, c]
    else if Unusual(c) then [BACKSLASH] + Octal3(c)
    else [c]
  }

  function QuoteBody(path: seq<Byte>): seq<Byte> {
    if path == [] then [] else QuoteByte(path[0]) + QuoteBody(path[1..])
  }

  function GitQuoted(path: seq<Byte>): seq<Byte> {
    if exists k :: 0 <= k < |path| && Unusual(path[k]) then [QUOTE] + QuoteBody(path) + [QUOTE] else path
  }

  ghost predicate NoLettered(path: seq<Byte>) {
    forall k :: 0 <= k < |path| ==> !Lettered(path[k])
  }

  // Decoding step by step.

  lemma DecodePlain(c: Byte, s: seq<Byte>)
    requires c != BACKSLASH
    ensures DecodeBody([c] + s) == [c] + DecodeBody(s)
  {
    assert ([c] + s)[1..] == s;
  }

  lemma DecodeSlash(s: seq<Byte>)
    requires !OctalAhead(s)
    ensures DecodeBody([BACKSLASH] + s) == [BACKSLASH] + DecodeBody(s)
  {
    assert ([BACKSLASH] + s)[1..] == s;
  }

  lemma DecodeOctal(a: Byte, b: Byte, c: Byte, s: seq<Byte>)
    requires IsOctal(a) && IsOctal(b) && IsOctal(c)
    ensures DecodeBody([BACKSLASH, a, b, c] + s) == [OctalValue(a, b, c)] + DecodeBody(s)
  {
    var t := [BACKSLASH, a, b, c] + s;
    assert t[1..][0] == a && t[1..][1] == b && t[1..][2] == c;
    assert t[4..] == s;
  }

  lemma OctalOfOctal3(c: Byte)
    ensures var o := Octal3(c); IsOctal(o[0]) && IsOctal(o[1]) && IsOctal(o[2]) && OctalValue(o[0], o[1], o[2]) == c
  {
    var q := c / 8;
    assert c == 8 * q + c % 8 && q == 8 * (q / 8) + q % 8 && q / 8 == c / 64;
  }

  /** A byte without a letter escape survives. */
  lemma DecodeGood(c: Byte, s: seq<Byte>)
    requires !Lettered(c)
    ensures DecodeBody(QuoteByte(c) + s) == [c] + DecodeBody(s)
  {
    if Unusual(c) {
      var o := Octal3(c);
      assert QuoteByte(c) + s == [BACKSLASH, o[0], o[1], o[2]] + s;
      OctalOfOctal3(c);
      DecodeOctal(o[0], o[1], o[2], s);
    } else {
      DecodePlain(c, s);
    }
  }

  /** Any other byte comes out as a backslash followed by something. */
  lemma DecodeLettered(c: Byte, s: seq<Byte>)
    requires Lettered(c)
    ensures DecodeBody(QuoteByte(c) + s) == [BACKSLASH] + DecodeBody([QuoteByte(c)[1]] + s)
  {
    var t := [QuoteByte(c)[1]] + s;
    assert QuoteByte(c) + s == [BACKSLASH] + t;
    assert !IsOctal(t[0]);
    DecodeSlash(t);
  }

  lemma QuoteCons(c: Byte, path: seq<Byte>)
    ensures QuoteBody([c] + path) == QuoteByte(c) + QuoteBody(path)
  {
    assert ([c] + path)[1..] == path;
  }

  lemma {:induction false} GoodRoundTrip(path: seq<Byte>)
    requires NoLettered(path)
    ensures DecodeBody(QuoteBody(path)) == path
  {
    if path != [] {
      GoodRoundTrip(path[1..]);
      DecodeGood(path[0], QuoteBody(path[1..]));
    }
  }

  lemma TailsDiffer(x: Byte, d: seq<Byte>, a: Byte, e: seq<Byte>)
    requires d != e
    ensures [x] + d != [a] + e
  {
    assert ([x] + d)[1..] == d && ([a] + e)[1..] == e;
  }

  lemma HeadsDiffer(x: Byte, d: seq<Byte>, a: Byte, e: seq<Byte>)
    requires x != a
    ensures [x] + d != [a] + e
  {
    assert ([x] + d)[0] == x && ([a] + e)[0] == a;
  }

  /** A text that starts with `x, y` against one with two digits in front. */
  lemma TwoInFront(x: Byte, y: Byte, d: seq<Byte>, a: Byte, b: Byte, rest: seq<Byte>)
    requires d != [a, b] + rest
    ensures [x] + ([y] + d) != [a] + ([b] + ([x, y] + rest))
  {
    if x == a && y == b {
      TailsDiffer(y, d, b, [x, y] + rest);
      TailsDiffer(x, [y] + d, a, [b] + ([x, y] + rest));
    } else if x == a {
      HeadsDiffer(y, d, b, [x, y] + rest);
      TailsDiffer(x, [y] + d, a, [b] + ([x, y] + rest));
    } else {
      HeadsDiffer(x, [y] + d, a, [b] + ([x, y] + rest));
    }
  }

  lemma TwoGoodBytes(x: Byte, y: Byte, rest: seq<Byte>)
    requires !Lettered(x) && !Lettered(y)
    ensures DecodeBody(QuoteBody([x, y] + rest)) == [x] + ([y] + DecodeBody(QuoteBody(rest)))
  {
    assert [x, y] + rest == [x] + ([y] + rest);
    QuoteCons(x, [y] + rest);
    QuoteCons(y, rest);
    DecodeGood(x, QuoteBody([y] + rest));
    DecodeGood(y, QuoteBody(rest));
  }

  /** Decoding cannot bring two octal digits in front of the path. */
  lemma {:induction false} NoDigitsInFront(a: Byte, b: Byte, path: seq<Byte>)
    requires IsOctal(a) && IsOctal(b)
    ensures DecodeBody(QuoteBody(path)) != [a, b] + path
    decreases |path|
  {
    if |path| >= 2 && !Lettered(path[0]) && !Lettered(path[1]) {
      var x, y, rest := path[0], path[1], path[2..];
      assert path == [x, y] + rest;
      NoDigitsInFront(a, b, rest);
      TwoGoodBytes(x, y, rest);
      TwoInFront(x, y, DecodeBody(QuoteBody(rest)), a, b, rest);
      assert [a, b] + path == [a] + ([b] + path);
    } else {
      NoDigitsBesideLetter(a, b, path);
    }
  }

  lemma NoDigitsBesideLetter(a: Byte, b: Byte, path: seq<Byte>)
    requires IsOctal(a) && IsOctal(b) && (|path| < 2 || Lettered(path[0]) || Lettered(path[1]))
    ensures DecodeBody(QuoteBody(path)) != [a, b] + path
  {
    var d, e := DecodeBody(QuoteBody(path)), [a, b] + path;
    assert |e| == |path| + 2 && e[0] == a && e[1] == b;
    if path != [] { FirstBytes(path); }
  }

  /** A path whose first or second byte has a letter escape decodes to a backslash there; a single byte decodes to one or two. */
  lemma FirstBytes(path: seq<Byte>)
    requires path != []
    ensures var d := DecodeBody(QuoteBody(path));
            && (Lettered(path[0]) ==> d != [] && d[0] == BACKSLASH)
            && (!Lettered(path[0]) && |path| > 1 && Lettered(path[1]) ==> |d| > 1 && d[1] == BACKSLASH)
            && (!Lettered(path[0]) && |path| == 1 ==> d == path)
  {
    if Lettered(path[0]) {
      DecodeLettered(path[0], QuoteBody(path[1..]));
    } else {
      DecodeGood(path[0], QuoteBody(path[1..]));
      if |path| > 1 && Lettered(path[1]) {
        DecodeLettered(path[1], QuoteBody(path[1..][1..]));
      }
    }
  }

  function Slashes(k: nat): seq<Byte> { seq(k, _ => BACKSLASH) }

  lemma MisreadDigits(a: Byte, b: Byte, c: Byte, rest: seq<Byte>)
    requires IsOctal(a) && IsOctal(b) && IsOctal(c)
    ensures DecodeBody([BACKSLASH, a, b, c] + QuoteBody(rest)) != [a, b, c] + rest
  {
    DecodeOctal(a, b, c, QuoteBody(rest));
    NoDigitsInFront(b, c, rest);
    TailsDiffer(OctalValue(a, b, c), DecodeBody(QuoteBody(rest)), a, [b, c] + rest);
    ThreeDigits(a, b, c, rest);
  }

  lemma ThreeDigits(a: Byte, b: Byte, c: Byte, rest: seq<Byte>)
    ensures [a, b, c] + rest == [a] + ([b, c] + rest)
  {
  }

  lemma SlashAndDigits(a: Byte, b: Byte, c: Byte, s: seq<Byte>)
    ensures [BACKSLASH] + ([a, b, c] + s) == [BACKSLASH, a, b, c] + s
  {
  }

  lemma AfterSlashDigits(path: seq<Byte>)
    requires OctalAhead(QuoteBody(path))
    ensures DecodeBody([BACKSLASH] + QuoteBody(path)) != path
  {
    DigitsArePlain(path);
    var a, b, c, rest := path[0], path[1], path[2], path[3..];
    assert path == [a, b, c] + rest;
    SlashAndDigits(a, b, c, QuoteBody(rest));
    MisreadDigits(a, b, c, rest);
  }

  /** Behind the second backslash of an escaped one: what follows can be misread as an octal escape. */
  lemma AfterSlash(path: seq<Byte>)
    requires path == [] || path[0] != BACKSLASH
    ensures DecodeBody([BACKSLASH] + QuoteBody(path)) != path
  {
    if OctalAhead(QuoteBody(path)) {
      AfterSlashDigits(path);
    } else {
      DecodeSlash(QuoteBody(path));
    }
  }

  /** Digits at the front of a quoted body are digits of the path. */
  lemma DigitsArePlain(path: seq<Byte>)
    requires OctalAhead(QuoteBody(path))
    ensures OctalAhead(path) && QuoteBody(path) == [path[0], path[1], path[2]] + QuoteBody(path[3..])
  {
    var q := QuoteBody(path);
    var p1 := if path == [] then [] else path[1..];
    DigitIsPlain(path, p1);
    var p2 := if p1 == [] then [] else p1[1..];
    DigitIsPlain(p1, p2);
    var p3 := if p2 == [] then [] else p2[1..];
    DigitIsPlain(p2, p3);
    assert p3 == path[3..];
  }

  lemma DigitIsPlain(path: seq<Byte>, rest: seq<Byte>)
    requires QuoteBody(path) != [] && IsOctal(QuoteBody(path)[0])
    requires path != [] ==> rest == path[1..]
    ensures path != [] && QuoteBody(path) == [path[0]] + QuoteBody(rest) && IsOctal(path[0])
  {
  }

  lemma DoubleSlash(rest: seq<Byte>)
    ensures DecodeBody([BACKSLASH] + QuoteBody([BACKSLASH] + rest))
         == [BACKSLASH, BACKSLASH] + DecodeBody([BACKSLASH] + QuoteBody(rest))
  {
    QuoteCons(BACKSLASH, rest);
    DecodeSlash(QuoteBody([BACKSLASH] + rest));
    DecodeLettered(BACKSLASH, QuoteBody(rest));
  }

  lemma SlashesShift(k: nat, e: seq<Byte>)
    ensures Slashes(k) + ([BACKSLASH, BACKSLASH] + e) == [BACKSLASH] + (Slashes(k + 1) + e)
  {
  }

  /** One backslash too many in front never disappears in decoding. */
  lemma {:induction false} SurplusSlash(k: nat, path: seq<Byte>)
    ensures Slashes(k) + DecodeBody([BACKSLASH] + QuoteBody(path)) != path
    decreases |path|
  {
    var d := DecodeBody([BACKSLASH] + QuoteBody(path));
    if path == [] || path[0] != BACKSLASH {
      if k == 0 {
        assert Slashes(0) + d == d;
        AfterSlash(path);
      } else {
        assert (Slashes(k) + d)[0] == BACKSLASH;
      }
    } else {
      var rest := path[1..];
      var e := DecodeBody([BACKSLASH] + QuoteBody(rest));
      assert path == [BACKSLASH] + rest;
      DoubleSlash(rest);
      SlashesShift(k, e);
      SurplusSlash(k + 1, rest);
      assert ([BACKSLASH] + (Slashes(k + 1) + e))[1..] == Slashes(k + 1) + e;
    }
  }

  lemma {:induction false} LetteredIsLost(path: seq<Byte>)
    requires !NoLettered(path)
    ensures DecodeBody(QuoteBody(path)) != path
  {
    var rest := path[1..];
    if path[0] == BACKSLASH {
      DecodeLettered(path[0], QuoteBody(rest));
      SurplusSlash(0, rest);
      var e := DecodeBody([BACKSLASH] + QuoteBody(rest));
      assert Slashes(0) + e == e;
      assert ([BACKSLASH] + e)[1..] == e;
    } else if Lettered(path[0]) {
      DecodeLettered(path[0], QuoteBody(rest));
    } else {
      DecodeGood(path[0], QuoteBody(rest));
      LetteredIsLost(rest);
      assert ([path[0]] + DecodeBody(QuoteBody(rest)))[1..] == DecodeBody(QuoteBody(rest));
    }
  }

  lemma InsideQuotes(body: seq<Byte>)
    ensures IsQuoted([QUOTE] + body + [QUOTE]) && Inside([QUOTE] + body + [QUOTE]) == body
  {
  }

  /**
   Decoding what git prints gives the path back if and only if no byte of it is escaped by a letter or by itself:
   no quote, no backslash, and none of the control characters from BEL to CR.
   */
  lemma RoundTripIff(path: seq<Byte>)
    ensures Decoded(GitQuoted(path)) == path <==> NoLettered(path)
  {
    if exists k :: 0 <= k < |path| && Unusual(path[k]) {
      InsideQuotes(QuoteBody(path));
      if NoLettered(path) { GoodRoundTrip(path); } else { LetteredIsLost(path); }
    } else {
      assert forall k :: 0 <= k < |path| ==> !Unusual(path[k]);
    }
  }

  lemma FourInFront(a: Byte, b: Byte, c: Byte, d: Byte, rest: seq<Byte>)
    ensures var t := [a, b, c, d] + rest;
            |t| >= 4 && t[0] == a && t[1] == b && t[2] == c && t[3] == d && t[4..] == rest && t[1..] == [b, c, d] + rest
  {
  }

  /** Behind a backslash, three digits from 0 to 7 make a byte, and anything else leaves the backslash as it is. */
  lemma EscapeIsOctal(a: Byte, b: Byte, c: Byte, rest: seq<Byte>)
    ensures DecodeBody([92, a, b, c] + rest) ==
      if 48 <= a <= 55 && 48 <= b <= 55 && 48 <= c <= 55
      then [((a - 48) * 64 + (b - 48) * 8 + (c - 48)) % 256] + DecodeBody(rest)
      else [92] + DecodeBody([a, b, c] + rest)
  {
    FourInFront(92, a, b, c, rest);
    var t := [92, a, b, c] + rest;
    assert OctalAhead(t[1..]) <==> IsOctal(a) && IsOctal(b) && IsOctal(c);
  }

  /** Only a line between two quotes is decoded; a single quote counts as both. */
  lemma UnquotedPasses(line: seq<Byte>)
    ensures line == [] || line[0] != 34 || line[|line| - 1] != 34 ==> Decoded(line) == line
    ensures |line| >= 2 && line[0] == 34 == line[|line| - 1] ==> Decoded(line) == DecodeBody(line[1..|line| - 1])
    ensures Decoded([34]) == []
  {
  }
}
