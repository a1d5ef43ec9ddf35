/** The directory names of generated modules: a model name in kebab case. */
module KebabNames {

  predicate IsUpper(c: char) { 'A' <= c <= 'Z' }

  predicate IsWordChar(c: char) {
    IsUpper(c) || 'a' <= c <= 'z' || '0' <= c <= '9' || c == '_'
  }

  function Lower(c: char): char {
    if IsUpper(c) then c - 'A' + 'a' else c
  }

  /** A dash in front of every capital. */
  function Dashed(s: string): string {
    if s == "" then "" else (if IsUpper(s[0]) then ['-', s[0]] else [s[0]]) + Dashed(s[1..])
  }

  function Lowered(s: string): string {
    seq(|s|, i requires 0 <= i < |s| => Lower(s[i]))
  }

  function PascalToKebab(s: string): string {
    var kebab := Lowered(Dashed(s));
    if kebab != "" && kebab[0] == '-' then kebab[1..] else kebab
  }

  /** A model name: letters, digits and underscores. */
  ghost predicate IsName(s: string) {
    s != "" && forall k :: 0 <= k < |s| ==> IsWordChar(s[k])
  }

  lemma FirstKebab(s: string)
    requires s != "" && IsWordChar(s[0])
    ensures var d, n := Lowered(Dashed(s)), if IsUpper(s[0]) then 2 else 1;
            && |d| >= n && (IsUpper(s[0]) <==> d[0] == '-') && d[n - 1] == Lower(s[0])
            && d[n..] == Lowered(Dashed(s[1..]))
  {
    var n := if IsUpper(s[0]) then 2 else 1;
    assert Dashed(s)[n..] == Dashed(s[1..]);
  }

  /** The dashes tell where the capitals were. */
  lemma {:induction false} DashedIsInjective(a: string, b: string)
    requires (forall k :: 0 <= k < |a| ==> IsWordChar(a[k])) && forall k :: 0 <= k < |b| ==> IsWordChar(b[k])
    requires Lowered(Dashed(a)) == Lowered(Dashed(b))
    ensures a == b
  {
    if a != "" { FirstKebab(a); }
    if b != "" { FirstKebab(b); }
    if a != "" && b != "" {
      DashedIsInjective(a[1..], b[1..]);
    }
  }

  lemma KebabIs(s: string)
    requires IsName(s)
    ensures PascalToKebab(s) == [Lower(s[0])] + Lowered(Dashed(s[1..]))
  {
  }

  /** Two models get the same directory exactly if their names differ at most in the case of the first letter. */
  lemma SameDirectoryIff(a: string, b: string)
    requires IsName(a) && IsName(b)
    ensures PascalToKebab(a) == PascalToKebab(b) <==> a[1..] == b[1..] && Lower(a[0]) == Lower(b[0])
  {
    KebabIs(a);
    KebabIs(b);
    if PascalToKebab(a) == PascalToKebab(b) {
      assert PascalToKebab(a)[1..] == Lowered(Dashed(a[1..]));
      assert PascalToKebab(b)[1..] == Lowered(Dashed(b[1..]));
      DashedIsInjective(a[1..], b[1..]);
    }
  }

  // The names that belong to a directory.

  function Upper(c: char): char {
    if 'a' <= c <= 'z' then c - 'a' + 'A' else c
  }

  /** Capitals instead of letters behind dashes. */
  function Undashed(s: string): string {
    if s == "" then ""
    else if s[0] == '-' && |s| > 1 then [Upper(s[1])] + Undashed(s[2..])
    else [s[0]] + Undashed(s[1..])
  }

  function KebabToPascal(s: string): string {
    if s == "" then "" else [Upper(s[0])] + Undashed(s[1..])
  }

  lemma {:induction false} UndashedGivesBack(s: string)
    requires forall k :: 0 <= k < |s| ==> IsWordChar(s[k])
    ensures Undashed(Lowered(Dashed(s))) == s
  {
    if s != "" {
      FirstKebab(s);
      UndashedGivesBack(s[1..]);
      var d := Lowered(Dashed(s));
      if IsUpper(s[0]) {
        assert Upper(Lower(s[0])) == s[0] && d[2..] == Lowered(Dashed(s[1..]));
      } else {
        assert d[0] == s[0] && d[1..] == Lowered(Dashed(s[1..]));
      }
      assert s == [s[0]] + s[1..];
    }
  }

  /** A directory has no capitals, and tells the name of its model if that starts with one. */
  lemma DirectoryTellsTheName(s: string)
    requires s != "" && 'A' <= s[0] <= 'Z' && forall k :: 0 <= k < |s| ==> IsWordChar(s[k])
    ensures KebabToPascal(PascalToKebab(s)) == s
    ensures forall k :: 0 <= k < |PascalToKebab(s)| ==> !('A' <= PascalToKebab(s)[k] <= 'Z')
  {
    KebabIs(s);
    var rest := Lowered(Dashed(s[1..]));
    assert PascalToKebab(s)[1..] == rest;
    UndashedGivesBack(s[1..]);
    assert s == [s[0]] + s[1..];
  }
}
