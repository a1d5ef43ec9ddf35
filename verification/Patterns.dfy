/** Runs of characters, as the quantifiers of regular expressions take them. */
module Patterns {
  import opened Ecma

  datatype CharClass = Scheme | User | Pass | Word | Space | NonSpace | NonBracket

  predicate IsLetter(c: char) { 'a' <= c <= 'z' || 'A' <= c <= 'Z' }

  predicate InClass(cls: CharClass, c: char) {
    match cls
    case Scheme => IsLetter(c) || '0' <= c <= '9' || c == '+' || c == '.' || c == '-'
    case User => !IsSpace(c) && c != ':' && c != '/' && c != '@'
    case Pass => !IsSpace(c) && c != '/' && c != '@'
    case Word => IsLetter(c) || '0' <= c <= '9' || c == '_'
    case Space => IsSpace(c)
    case NonSpace => !IsSpace(c)
    case NonBracket => c != ']'
  }

  predicate AllIn(cls: CharClass, s: string, i: nat, j: nat)
    requires j <= |s|
  {
    forall k :: i <= k < j ==> InClass(cls, s[k])
  }

  /** The end of the longest run of `cls` characters from `i`. */
  function End(s: string, i: nat, cls: CharClass): (j: nat)
    requires i <= |s|
    ensures i <= j <= |s| && AllIn(cls, s, i, j)
    ensures j < |s| ==> !InClass(cls, s[j])
    decreases |s| - i
  {
    if i < |s| && InClass(cls, s[i]) then End(s, i + 1, cls) else i
  }
}
