/** The parts of the ECMAScript library that several modules rely on. */
module Ecma {

  datatype Option<+T> = None | Some(value: T)

  function Min(a: int, b: int): int { if a <= b then a else b }

  function Max(a: int, b: int): int { if a <= b then b else a }

  /** White space, as `\s` and `trim` understand it. */
  predicate IsSpace(c: char) {
    || '\t' <= c <= '\r' || c == ' ' || c == '\U{00A0}' || c == '\U{1680}'
    || '\U{2000}' <= c <= '\U{200A}' || c == '\U{2028}' || c == '\U{2029}'
    || c == '\U{202F}' || c == '\U{205F}' || c == '\U{3000}' || c == '\U{FEFF}'
  }

  /** The code points of white space and of line ends. */
  const SPACES: set<int> := {
    9, 10, 11, 12, 13, 32, 160, 5760, 8192, 8193, 8194, 8195, 8196, 8197, 8198, 8199, 8200, 8201, 8202, 8232, 8233, 8239, 8287,
    12288, 65279}

  lemma SpacesAreListed(c: char)
    ensures IsSpace(c) <==> c as int in SPACES
  {
  }

  /** `s.split(sep)` for a separator of one character. */
  function Split(s: string, sep: char): (parts: seq<string>)
    ensures |parts| > 0
    ensures forall k :: 0 <= k < |parts| ==> sep !in parts[k]
    ensures |parts| == 1 <==> sep !in s
  {
    if s == "" then [""]
    else if s[0] == sep then [""] + Split(s[1..], sep)
    else
      var rest := Split(s[1..], sep);
      [[s[0]] + rest[0]] + rest[1..]
  }

  /** The inverse of `Split`. */
  function Join(parts: seq<string>, sep: char): string
    requires |parts| > 0
  {
    if |parts| == 1 then parts[0] else parts[0] + [sep] + Join(parts[1..], sep)
  }

  lemma ConcatAssoc<T>(a: seq<T>, b: seq<T>, c: seq<T>)
    ensures (a + b) + c == a + (b + c)
  {
  }

  lemma HeadAndTail<T>(x: T, xs: seq<T>)
    ensures ([x] + xs)[0] == x && ([x] + xs)[1..] == xs
  {
  }

  lemma SplitCons(c: char, s: string, sep: char)
    requires c != sep
    ensures Split([c] + s, sep) == [[c] + Split(s, sep)[0]] + Split(s, sep)[1..]
  {
    assert ([c] + s)[1..] == s;
  }

  lemma {:induction false} SplitHead(a: string, s: string, sep: char)
    requires sep !in a
    ensures Split(a + s, sep) == [a + Split(s, sep)[0]] + Split(s, sep)[1..]
  {
    var parts := Split(s, sep);
    if a == "" {
      assert a + s == s && a + parts[0] == parts[0];
    } else {
      SplitHead(a[1..], s, sep);
      SplitCons(a[0], a[1..] + s, sep);
      HeadAndTail(a[1..] + parts[0], parts[1..]);
      assert [a[0]] + a[1..] == a;
      ConcatAssoc([a[0]], a[1..], s);
      ConcatAssoc([a[0]], a[1..], parts[0]);
    }
  }

  /** Splitting what was joined gives the parts back. */
  lemma {:induction false} SplitJoin(parts: seq<string>, sep: char)
    requires |parts| > 0 && forall k :: 0 <= k < |parts| ==> sep !in parts[k]
    ensures Split(Join(parts, sep), sep) == parts
  {
    if |parts| == 1 {
      SplitHead(parts[0], "", sep);
      assert parts[0] + "" == parts[0];
    } else {
      var tail := Join(parts[1..], sep);
      var rest := [sep] + tail;
      SplitJoin(parts[1..], sep);
      assert rest[0] == sep && rest[1..] == tail;
      assert Split(rest, sep) == [""] + parts[1..];
      SplitHead(parts[0], rest, sep);
      assert Join(parts, sep) == parts[0] + rest;
      assert parts[0] + "" == parts[0];
    }
  }

  /** The order of strings by code units: JavaScript's `a <= b`. */
  predicate AtMost(a: string, b: string) {
    a == "" || (b != "" && (a[0] < b[0] || (a[0] == b[0] && AtMost(a[1..], b[1..]))))
  }

  lemma {:induction false} AtMostIsTotal(a: string, b: string)
    ensures AtMost(a, b) || AtMost(b, a)
    decreases a
  {
    if a != "" && b != "" { AtMostIsTotal(a[1..], b[1..]); }
  }

  lemma {:induction false} AtMostIsTransitive(a: string, b: string, c: string)
    requires AtMost(a, b) && AtMost(b, c)
    ensures AtMost(a, c)
    decreases a
  {
    if a != "" && a[0] == b[0] && b[0] == c[0] { AtMostIsTransitive(a[1..], b[1..], c[1..]); }
  }

  type Byte = b: int | 0 <= b < 256

  /** The keys of a list of properties, in order. */
  function KeysOf<T>(entries: seq<(string, T)>): (ks: seq<string>) {
    seq(|entries|, i requires 0 <= i < |entries| => entries[i].0)
  }

  /** `Array.prototype.map`. */
  function Mapped<A, B>(s: seq<A>, f: A -> B): (r: seq<B>)
    ensures |r| == |s| && forall k :: 0 <= k < |s| ==> r[k] == f(s[k])
  {
    if s == [] then [] else [f(s[0])] + Mapped(s[1..], f)
  }

  lemma WithoutFirst<T>(a: seq<T>, b: seq<T>, k: nat)
    requires a != [] && k < |b| && b[k] == a[0] && multiset(a) == multiset(b)
    ensures multiset(a[1..]) == multiset(b[..k] + b[k + 1..])
  {
    assert a == [a[0]] + a[1..];
    assert b == b[..k] + [b[k]] + b[k + 1..];
    assert multiset(b) == multiset(b[..k]) + multiset{b[k]} + multiset(b[k + 1..]);
    assert multiset(a) == multiset{a[0]} + multiset(a[1..]);
    var rest := multiset(b[..k]) + multiset(b[k + 1..]);
    assert multiset(b[..k] + b[k + 1..]) == rest;
    assert multiset(b) - multiset{a[0]} == rest;
    assert multiset(a) - multiset{a[0]} == multiset(a[1..]);
  }

  lemma {:induction false} MappedConcat<A, B>(a: seq<A>, b: seq<A>, f: A -> B)
    ensures Mapped(a + b, f) == Mapped(a, f) + Mapped(b, f)
    decreases |a|
  {
    if a == [] {
      assert a + b == b;
    } else {
      assert (a + b)[0] == a[0] && (a + b)[1..] == a[1..] + b;
      MappedConcat(a[1..], b, f);
      ConcatAssoc([f(a[0])], Mapped(a[1..], f), Mapped(b, f));
    }
  }

  lemma MappedAround<A, B>(a: seq<A>, x: A, c: seq<A>, f: A -> B)
    ensures multiset(Mapped(a + ([x] + c), f)) == multiset{f(x)} + multiset(Mapped(a + c, f))
  {
    MappedConcat(a, [x] + c, f);
    MappedConcat([x], c, f);
    MappedConcat(a, c, f);
    assert Mapped([x], f) == [f(x)];
  }

  lemma CutAround<T>(s: seq<T>, k: nat)
    requires k < |s|
    ensures s == s[..k] + ([s[k]] + s[k + 1..])
  {
  }

  lemma MappedTaken<A, B>(s: seq<A>, k: nat, f: A -> B)
    requires k < |s|
    ensures multiset(Mapped(s, f)) == multiset{f(s[k])} + multiset(Mapped(s[..k] + s[k + 1..], f))
  {
    CutAround(s, k);
    MappedAround(s[..k], s[k], s[k + 1..], f);
  }

  lemma MappedHead<A, B>(s: seq<A>, f: A -> B)
    requires s != []
    ensures multiset(Mapped(s, f)) == multiset{f(s[0])} + multiset(Mapped(s[1..], f))
  {
    assert Mapped(s, f) == [f(s[0])] + Mapped(s[1..], f);
  }

  /** Mapping permuted elements permutes the results. */
  lemma {:induction false} PermutedMapped<A, B>(a: seq<A>, b: seq<A>, f: A -> B)
    requires multiset(a) == multiset(b)
    ensures multiset(Mapped(a, f)) == multiset(Mapped(b, f))
    decreases |a|
  {
    if a == [] {
      assert |multiset(b)| == |b|;
    } else {
      assert a[0] in multiset(b);
      var k :| 0 <= k < |b| && b[k] == a[0];
      WithoutFirst(a, b, k);
      PermutedMapped(a[1..], b[..k] + b[k + 1..], f);
      MappedTaken(b, k, f);
      MappedHead(a, f);
    }
  }
}
