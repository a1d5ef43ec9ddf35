/** What the line parser's patterns match, in characters: a scanner finds a match exactly where a line has that form. */
module SchemaPatterns {
  import opened Ecma
  import opened Patterns
  import opened SchemaParser
  import opened SchemaPrinter
  import KebabNames

  ghost predicate IsWhite(t: string, i: nat, j: nat)
    requires j <= |t|
  {
    forall k :: i <= k < j ==> t[k] as int in SPACES
  }

  ghost predicate IsInk(t: string, i: nat, j: nat)
    requires j <= |t|
  {
    forall k :: i <= k < j ==> t[k] as int !in SPACES
  }

  ghost predicate IsNameAt(t: string, i: nat, j: nat)
    requires j <= |t|
  {
    i < j && forall k :: i <= k < j ==> KebabNames.IsWordChar(t[k])
  }

  lemma CharIs(c: char)
    ensures InClass(Space, c) <==> c as int in SPACES
    ensures InClass(NonSpace, c) <==> c as int !in SPACES
    ensures InClass(Word, c) <==> KebabNames.IsWordChar(c)
    ensures KebabNames.IsWordChar(c) ==> c as int !in SPACES && c != '{' && c != '(' && c != '['
  {
    SpacesAreListed(c);
  }

  lemma RangeIs(t: string, i: nat, j: nat)
    requires j <= |t|
    ensures AllIn(Space, t, i, j) <==> IsWhite(t, i, j)
    ensures AllIn(NonSpace, t, i, j) <==> IsInk(t, i, j)
    ensures AllIn(Word, t, i, j) <==> i >= j || IsNameAt(t, i, j)
    ensures AllIn(NonBracket, t, i, j) <==> forall k :: i <= k < j ==> t[k] != ']'
  {
    forall k | i <= k < j
      ensures (InClass(Space, t[k]) <==> t[k] as int in SPACES) && (InClass(NonSpace, t[k]) <==> t[k] as int !in SPACES)
      ensures InClass(Word, t[k]) <==> KebabNames.IsWordChar(t[k])
    {
      CharIs(t[k]);
    }
  }

  /** `model`, white space up to `i`, a name up to `j`, white space or none up to `k`, and an opening brace. */
  ghost predicate IsModelStart(t: string, i: nat, j: nat, k: nat) {
    && "model" <= t && 5 < i < j <= k < |t|
    && IsWhite(t, 5, i) && IsNameAt(t, i, j) && IsWhite(t, j, k) && t[k] == '{'
  }

  lemma ModelStartIs(t: string, i: nat, j: nat, k: nat)
    requires IsModelStart(t, i, j, k)
    ensures ModelStart(t) == Some(t[i..j])
  {
    RangeIs(t, 5, i);
    RangeIs(t, i, j);
    RangeIs(t, j, k);
    CharIs(t[i]);
    CharIs(t[j]);
    CharIs(t[k]);
    EndIs(t, 5, i, Space);
    EndIs(t, i, j, Word);
    EndIs(t, j, k, Space);
  }

  lemma ModelStartHas(t: string)
    requires ModelStart(t).Some?
    ensures exists i: nat, j: nat, k: nat :: IsModelStart(t, i, j, k) && ModelStart(t) == Some(t[i..j])
  {
    var i := End(t, 5, Space);
    var j := End(t, i, Word);
    var k := End(t, j, Space);
    RangeIs(t, 5, i);
    RangeIs(t, i, j);
    RangeIs(t, j, k);
    assert IsModelStart(t, i, j, k);
  }

  /** Which lines start a model, and which. */
  lemma ModelStartIff(t: string, name: string)
    ensures ModelStart(t) == Some(name) <==> exists i: nat, j: nat, k: nat :: IsModelStart(t, i, j, k) && name == t[i..j]
  {
    if ModelStart(t) == Some(name) { ModelStartHas(t); }
    forall i: nat, j: nat, k: nat | IsModelStart(t, i, j, k) && name == t[i..j] ensures ModelStart(t) == Some(name) {
      ModelStartIs(t, i, j, k);
    }
  }

  /** A name up to `i`, white space up to `j`, and the type up to `k`, where white space follows or the line ends. */
  ghost predicate IsFieldLine(t: string, i: nat, j: nat, k: nat) {
    && i < j < k <= |t| && IsNameAt(t, 0, i) && IsWhite(t, i, j) && IsInk(t, j, k) && (k < |t| ==> t[k] as int in SPACES)
  }

  lemma FieldLineIs(t: string, i: nat, j: nat, k: nat)
    requires IsFieldLine(t, i, j, k)
    ensures FieldMatch(t) == Some((t[..i], t[j..k]))
  {
    RangeIs(t, 0, i);
    RangeIs(t, i, j);
    RangeIs(t, j, k);
    CharIs(t[i]);
    CharIs(t[j]);
    if k < |t| { CharIs(t[k]); }
    EndIs(t, 0, i, Word);
    EndIs(t, i, j, Space);
    EndIs(t, j, k, NonSpace);
  }

  lemma FieldLineHas(t: string)
    requires FieldMatch(t).Some?
    ensures exists i: nat, j: nat, k: nat :: IsFieldLine(t, i, j, k) && FieldMatch(t) == Some((t[..i], t[j..k]))
  {
    var i := End(t, 0, Word);
    var j := End(t, i, Space);
    var k := End(t, j, NonSpace);
    RangeIs(t, 0, i);
    RangeIs(t, i, j);
    RangeIs(t, j, k);
    if k < |t| { CharIs(t[k]); }
    assert IsFieldLine(t, i, j, k);
  }

  /** Which lines read as a field, and as which. */
  lemma FieldLineIff(t: string, name: string, typ: string)
    ensures FieldMatch(t) == Some((name, typ)) <==> exists i: nat, j: nat, k: nat :: IsFieldLine(t, i, j, k) && name == t[..i] && typ == t[j..k]
  {
    if FieldMatch(t) == Some((name, typ)) { FieldLineHas(t); }
    forall i: nat, j: nat, k: nat | IsFieldLine(t, i, j, k) && name == t[..i] && typ == t[j..k] ensures FieldMatch(t) == Some((name, typ)) {
      FieldLineIs(t, i, j, k);
    }
  }

  /** `@@unique`, a parenthesis at `i`, a bracket at `j`, white space or none in between, and the closing bracket at `k`. */
  ghost predicate IsCompositeLine(t: string, i: nat, j: nat, k: nat) {
    && "@@unique" <= t && 8 <= i < j < k - 1 && k < |t|
    && IsWhite(t, 8, i) && t[i] == '(' && IsWhite(t, i + 1, j) && t[j] == '[' && t[k] == ']'
    && forall p :: j < p < k ==> t[p] != ']'
  }

  lemma CompositeEnds(t: string, i: nat, j: nat, k: nat)
    requires 8 <= i < j < k < |t| && IsWhite(t, 8, i) && t[i] == '(' && IsWhite(t, i + 1, j) && t[j] == '[' && t[k] == ']'
    requires forall p :: j < p < k ==> t[p] != ']'
    ensures End(t, 8, Space) == i && End(t, i + 1, Space) == j && End(t, j + 1, NonBracket) == k
  {
    RangeIs(t, 8, i);
    RangeIs(t, i + 1, j);
    RangeIs(t, j + 1, k);
    CharIs(t[i]);
    CharIs(t[j]);
    EndIs(t, 8, i, Space);
    EndIs(t, i + 1, j, Space);
    EndIs(t, j + 1, k, NonBracket);
  }

  lemma CompositeIs(t: string, i: nat, j: nat, k: nat)
    requires IsCompositeLine(t, i, j, k)
    ensures CompositeList(t) == Some(t[j + 1..k])
  {
    CompositeEnds(t, i, j, k);
  }

  lemma WhiteUntil(t: string, i: nat)
    requires i <= |t|
    ensures IsWhite(t, i, End(t, i, Space))
  {
    RangeIs(t, i, End(t, i, Space));
  }

  lemma CompositeHas(t: string)
    requires CompositeList(t).Some?
    ensures exists i: nat, j: nat, k: nat :: IsCompositeLine(t, i, j, k) && CompositeList(t) == Some(t[j + 1..k])
  {
    var i := End(t, 8, Space);
    var j := End(t, i + 1, Space);
    var k := End(t, j + 1, NonBracket);
    WhiteUntil(t, 8);
    WhiteUntil(t, i + 1);
    assert forall p :: j < p < k ==> InClass(NonBracket, t[p]);
    assert IsCompositeLine(t, i, j, k);
  }

  /** Which lines declare a composite key, and over which list. */
  lemma CompositeIff(t: string, list: string)
    ensures CompositeList(t) == Some(list) <==> exists i: nat, j: nat, k: nat :: IsCompositeLine(t, i, j, k) && list == t[j + 1..k]
  {
    if CompositeList(t) == Some(list) { CompositeHas(t); }
    forall i: nat, j: nat, k: nat | IsCompositeLine(t, i, j, k) && list == t[j + 1..k] ensures CompositeList(t) == Some(list) {
      CompositeIs(t, i, j, k);
    }
  }
}
