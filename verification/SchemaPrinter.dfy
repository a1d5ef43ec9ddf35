/**
 A canonical printer of Prisma schemas, what a parser should report of them, and the proof that the line parser
 reports exactly that.
 */
module SchemaPrinter {
  import opened Ecma
  import opened Patterns
  import opened SchemaParser
  import KebabNames

  /** `call` is the text between the parentheses, if there are any. */
  datatype Attr =
    | Id(call: Option<string>)
    | Unique(call: Option<string>)
    | Relation(call: Option<string>)
    | Plain(word: string, call: Option<string>)

  datatype Suffix = One | Optional | Many

  /**
   A field is padded by `pad` blanks in front of its type and `gap` blanks in front of its attributes, and a note may
   follow it. `Braced` is a line of any form that holds braces, as many closing as opening ones.
   */
  datatype Item =
    | Field(name: string, pad: nat, typ: string, suffix: Suffix, gap: nat, attrs: seq<Attr>, note: Option<string>)
    | CompositeUnique(fields: seq<string>, rest: string)
    | BlockAttr(word: string, rest: string)
    | Comment(text: string)
    | Braced(text: string)
    | Blank

  /** A model, or a stretch of lines that hold none: other blocks, comments, empty lines. */
  datatype Block = ModelBlock(name: string, items: seq<Item>) | Other(lines: seq<string>)

  // Well-formedness.

  /** A name as it may stand in a schema: letters, capital or not, digits and underscores. */
  ghost predicate IsWord(s: string) {
    KebabNames.IsName(s)
  }

  /** A name of an attribute, such as `db.VarChar`. */
  ghost predicate IsDotted(s: string) {
    s != "" && forall k :: 0 <= k < |s| ==> KebabNames.IsWordChar(s[k]) || s[k] == '.'
  }

  /** Text on one line that opens and closes no block. */
  ghost predicate Harmless(s: string) {
    forall k :: 0 <= k < |s| ==> s[k] != '{' && s[k] != '}' && s[k] != '\n'
  }

  /** Text that does not end in a blank. */
  ghost predicate EndsInInk(s: string) {
    s != "" ==> !IsSpace(s[|s| - 1])
  }

  ghost predicate GoodAttr(a: Attr) {
    && (a.call.Some? ==> Harmless(a.call.value))
    && (a.Plain? ==> IsDotted(a.word) && !("id" <= a.word) && !("unique" <= a.word) && !("relation" <= a.word))
  }

  ghost predicate GoodNote(note: Option<string>) {
    note.Some? ==> Harmless(note.value) && EndsInInk(note.value)
  }

  /** The line, once trimmed, has closing braces, as many as opening ones, and starts no model. */
  ghost predicate IsBraced(t: string) {
    '}' in t && Count(t, '{') == Count(t, '}') && ModelStart(t).None?
  }

  ghost predicate GoodItem(item: Item) {
    match item
    case Field(name, _, typ, _, _, attrs, note) =>
      IsWord(name) && IsWord(typ) && GoodNote(note) && forall k :: 0 <= k < |attrs| ==> GoodAttr(attrs[k])
    case CompositeUnique(fields, rest) =>
      fields != [] && (forall k :: 0 <= k < |fields| ==> IsWord(fields[k])) && Harmless(rest) && EndsInInk(rest)
    case BlockAttr(word, rest) =>
      IsWord(word) && word != "unique" && Harmless(rest) && EndsInInk(rest) && (rest != "" ==> !KebabNames.IsWordChar(rest[0]))
    case Comment(text) => Harmless(text)
    case Braced(text) => '\n' !in text && IsBraced(Trim(text))
    case Blank => true
  }

  ghost predicate GoodBlock(b: Block) {
    match b
    case ModelBlock(name, items) => IsWord(name) && forall k :: 0 <= k < |items| ==> GoodItem(items[k])
    case Other(lines) => forall k :: 0 <= k < |lines| ==> ModelStart(Trim(lines[k])).None? && '\n' !in lines[k]
  }

  ghost predicate GoodSchema(schema: seq<Block>) {
    forall k :: 0 <= k < |schema| ==> GoodBlock(schema[k])
  }

  // The printer.

  function AttrWord(a: Attr): string {
    match a
    case Id(_) => "id"
    case Unique(_) => "unique"
    case Relation(_) => "relation"
    case Plain(word, _) => word
  }

  function PrintCall(call: Option<string>): string {
    match call case Some(args) => "(" + args + ")" case None => ""
  }

  function PrintAttr(a: Attr): string {
    "@" + AttrWord(a) + PrintCall(a.call)
  }

  function PrintAttrs(attrs: seq<Attr>): string {
    if attrs == [] then "" else " " + PrintAttr(attrs[0]) + PrintAttrs(attrs[1..])
  }

  function PrintSuffix(s: Suffix): string {
    match s case One => "" case Optional => "?" case Many => "[]"
  }

  function PrintNote(note: Option<string>): string {
    match note case Some(text) => " //" + text case None => ""
  }

  function Blanks(n: nat): string {
    seq(n, _ => ' ')
  }

  /** `a, b, c` as the parts between the commas. */
  function CommaParts(fields: seq<string>): seq<string> {
    if fields == [] then [] else [fields[0]] + SpacedParts(fields[1..])
  }

  function SpacedParts(fields: seq<string>): seq<string> {
    if fields == [] then [] else [" " + fields[0]] + SpacedParts(fields[1..])
  }

  /** The name and the type of a field. */
  function PrintHead(f: Item): string
    requires f.Field?
  {
    f.name + " " + Blanks(f.pad) + (f.typ + PrintSuffix(f.suffix))
  }

  /** What follows them, padded only where there is something. */
  function PrintTail(f: Item): string
    requires f.Field?
  {
    (if f.attrs == [] && f.note.None? then "" else Blanks(f.gap)) + PrintAttrs(f.attrs) + PrintNote(f.note)
  }

  function PrintItem(item: Item): string {
    match item
    case Field(_, _, _, _, _, _, _) => PrintHead(item) + PrintTail(item)
    case CompositeUnique(fields, rest) => if fields == [] then "" else "@@unique([" + Join(CommaParts(fields), ',') + "]" + rest
    case BlockAttr(word, rest) => "@@" + word + rest
    case Comment(text) => "//" + text
    case Braced(text) => text
    case Blank => ""
  }

  function PrintLine(item: Item): string {
    if item.Blank? then "" else "  " + PrintItem(item)
  }

  function PrintItems(items: seq<Item>): seq<string> {
    if items == [] then [] else [PrintLine(items[0])] + PrintItems(items[1..])
  }

  function PrintBlock(b: Block): seq<string> {
    match b
    case ModelBlock(name, items) => ["model " + name + " {"] + PrintItems(items) + ["}"]
    case Other(lines) => lines
  }

  function PrintBlocks(schema: seq<Block>): seq<string> {
    if schema == [] then [] else PrintBlock(schema[0]) + PrintBlocks(schema[1..])
  }

  /** The text of a schema; it ends with a newline. */
  function Print(schema: seq<Block>): string {
    Join(PrintBlocks(schema) + [""], '\n')
  }

  // What a schema declares.

  ghost function ModelNames(schema: seq<Block>): set<string> {
    set k | 0 <= k < |schema| && schema[k].ModelBlock? :: schema[k].name
  }

  predicate IsMark(mark: string) {
    mark == "@id" || mark == "@unique" || mark == "@relation"
  }

  /** The attribute that a mark stands for. */
  predicate Marks(mark: string, a: Attr) {
    (mark == "@id" && a.Id?) || (mark == "@unique" && a.Unique?) || (mark == "@relation" && a.Relation?)
  }

  predicate Has(attrs: seq<Attr>, mark: string) {
    exists k :: 0 <= k < |attrs| && Marks(mark, attrs[k])
  }

  /** The names of the unique fields that are no ids, each once, in order. */
  function UniquesOf(items: seq<Item>): seq<string> {
    if items == [] then [] else
      var before := UniquesOf(items[..|items| - 1]);
      var last := items[|items| - 1];
      if last.Field? && Has(last.attrs, "@unique") && !Has(last.attrs, "@id") && last.name !in before then before + [last.name] else before
  }

  /** The name of the last id field. */
  function IdOf(items: seq<Item>): Option<string> {
    if items == [] then None else
      var last := items[|items| - 1];
      if last.Field? && Has(last.attrs, "@id") then Some(last.name) else IdOf(items[..|items| - 1])
  }

  function CompositesOf(items: seq<Item>): seq<seq<string>> {
    if items == [] then [] else
      CompositesOf(items[..|items| - 1]) + match items[|items| - 1] case CompositeUnique(fields, _) => [fields] case _ => []
  }

  ghost predicate HasField(items: seq<Item>, name: string) {
    exists k :: 0 <= k < |items| && items[k].Field? && items[k].name == name
  }

  ghost predicate Related(items: seq<Item>, names: set<string>) {
    exists k :: 0 <= k < |items| && items[k].Field? && (Has(items[k].attrs, "@relation") || items[k].typ in names)
  }

  /** What is read off the items of a model, before the id falls back to a unique field. */
  ghost function ReadOff(name: string, items: seq<Item>, names: set<string>): Model {
    Model(name, IdOf(items), UniquesOf(items), CompositesOf(items),
          HasField(items, "isDeleted"), HasField(items, "createdAt"), Related(items, names))
  }

  /** The record of one model. */
  ghost function Declared(b: Block, names: set<string>): Model
    requires b.ModelBlock?
  {
    var uniques := UniquesOf(b.items);
    ReadOff(b.name, b.items, names).(idField :=
      if IdOf(b.items).Some? then IdOf(b.items) else if uniques != [] then Some(uniques[0]) else None)
  }

  /** The records of a schema: one for each model, in order. */
  ghost function Records(schema: seq<Block>, names: set<string>): seq<Model> {
    if schema == [] then []
    else BlockRecords(schema[0], names) + Records(schema[1..], names)
  }

  ghost function BlockRecords(b: Block, names: set<string>): seq<Model> {
    if b.ModelBlock? then [Declared(b, names)] else []
  }

  // Lines and runs.

  lemma EndIs(s: string, i: nat, j: nat, cls: CharClass)
    requires i <= j <= |s| && AllIn(cls, s, i, j) && (j < |s| ==> !InClass(cls, s[j]))
    ensures End(s, i, cls) == j
  {
  }

  /** The line has no braces. */
  ghost predicate NoBraces(t: string) {
    forall k :: 0 <= k < |t| ==> t[k] != '{' && t[k] != '}'
  }

  lemma {:induction false} CountAbsent(t: string, c: char)
    requires c !in t
    ensures Count(t, c) == 0
  {
    if t != "" { CountAbsent(t[1..], c); }
  }

  lemma SliceOfSlice(s: string, lo: nat, hi: nat, i: nat, j: nat)
    requires lo <= hi <= |s| && i <= j <= hi - lo
    ensures s[lo..hi][i..j] == s[lo + i..lo + j]
  {
    assert forall k :: i <= k < j ==> s[lo..hi][k] == s[lo + k];
  }

  lemma {:induction false} TrimIsSlice(s: string) returns (i: nat, j: nat)
    ensures i <= j <= |s| && Trim(s) == s[i..j]
  {
    if s == "" {
      i, j := 0, 0;
    } else if IsSpace(s[0]) {
      i, j := TrimIsSlice(s[1..]);
      SliceOfSlice(s, 1, |s|, i, j);
      i, j := i + 1, j + 1;
    } else if IsSpace(s[|s| - 1]) {
      i, j := TrimIsSlice(s[..|s| - 1]);
      SliceOfSlice(s, 0, |s| - 1, i, j);
    } else {
      i, j := 0, |s|;
    }
  }

  lemma TrimIndent(s: string)
    ensures Trim("  " + s) == Trim(s)
  {
    assert ("  " + s)[1..] == " " + s && (" " + s)[1..] == s;
  }

  /** Text that begins and ends with ink is not trimmed. */
  lemma TrimInk(s: string)
    requires s != "" && !IsSpace(s[0]) && !IsSpace(s[|s| - 1])
    ensures Trim("  " + s) == s && Trim(s) == s
  {
    TrimIndent(s);
  }

  /** A line without braces is read as an item of the current model. */
  lemma StepItem(s: State, line: string, names: set<string>)
    requires s.current.Some? && s.depth == 1 && NoBraces(Trim(line))
    ensures Step(s, line, names) == s.(current := Some(LineRead(s.current.value, Trim(line), names)))
  {
    var t := Trim(line);
    CountAbsent(t, '{');
    assert ModelStart(t).None?;
  }

  // Attributes.

  lemma {:induction false} ContainsAbsent(s: string, pat: string)
    requires pat != "" && pat[0] !in s
    ensures !Contains(s, pat)
  {
    if s != "" { ContainsAbsent(s[1..], pat); }
  }

  /** A pattern that begins with `@` can only stand at the front of a text whose only `@` is there. */
  lemma ContainsAtFront(s: string, pat: string)
    requires s != "" && pat != "" && pat[0] == '@' && '@' !in s[1..]
    ensures Contains(s, pat) <==> pat <= s
  {
    ContainsAbsent(s[1..], pat);
  }

  /** A pattern does not reach across a character that it does not hold. */
  lemma {:induction false} ContainsAcross(a: string, c: char, b: string, pat: string)
    requires pat != "" && c !in pat
    ensures Contains(a + [c] + b, pat) <==> Contains(a, pat) || Contains(b, pat)
  {
    var s := a + [c] + b;
    if a == "" {
      assert s[1..] == b;
      assert s[0] == c;
    } else {
      assert s[1..] == a[1..] + [c] + b;
      ContainsAcross(a[1..], c, b, pat);
      PrefixBefore(a, c, b, pat);
    }
  }

  lemma PrefixBefore(a: string, c: char, b: string, pat: string)
    requires c !in pat
    ensures pat <= a + [c] + b <==> pat <= a
  {
    var s := a + [c] + b;
    assert s[|a|] == c;
    if |pat| <= |a| {
      assert s[..|pat|] == a[..|pat|];
    } else {
      assert pat[|a|] != s[|a|];
    }
  }

  /** Behind a common front, a pattern has to fit into the word if the word ends where the pattern cannot go on. */
  lemma MarkInWord(front: string, w: string, word: string, tail: string)
    requires tail == "" || tail[0] !in w
    ensures front + w <= front + word + tail <==> w <= word
  {
    var s, p := front + word + tail, front + w;
    assert s[|front|..] == word + tail && p[|front|..] == w;
    if |w| <= |word| {
      assert s[..|p|] == front + word[..|w|];
      assert (front + word[..|w|])[|front|..] == word[..|w|];
      if w <= word { assert word[..|w|] == w; }
    } else if tail != "" {
      assert s[|front| + |word|] == tail[0] && p[|front| + |word|] == w[|word|];
    }
  }

  /** The text between the parentheses of the attribute holds the mark. */
  predicate Mentions(mark: string, a: Attr) {
    a.call.Some? && Contains(a.call.value, mark)
  }

  /** The front of an attribute: an `@`, and behind it no other. */
  lemma WordHasMark(a: Attr, mark: string)
    requires GoodAttr(a) && IsMark(mark)
    ensures Contains("@" + AttrWord(a), mark) <==> Marks(mark, a)
  {
    var s := "@" + AttrWord(a);
    assert s[1..] == AttrWord(a) && IsDotted(AttrWord(a));
    ContainsAtFront(s, mark);
    PrefixBehindSign(mark, AttrWord(a));
    MarkFitsWord(a, mark);
  }

  lemma PrefixBehindSign(mark: string, word: string)
    requires mark != "" && mark[0] == '@'
    ensures mark <= "@" + word <==> mark[1..] <= word
  {
    var s := "@" + word;
    assert s[1..] == word;
    if mark[1..] <= word { assert mark == "@" + mark[1..] && mark[1..] == word[..|mark| - 1] && s[..|mark|] == mark; }
    if mark <= s { assert mark[1..] == s[1..][..|mark| - 1]; }
  }

  lemma MarkFitsWord(a: Attr, mark: string)
    requires GoodAttr(a) && IsMark(mark)
    ensures mark[1..] <= AttrWord(a) <==> Marks(mark, a)
  {
    assert "@id"[1..] == "id" && "@unique"[1..] == "unique" && "@relation"[1..] == "relation";
    match a
    case Id(_) => assert AttrWord(a)[0] == 'i';
    case Unique(_) => assert AttrWord(a)[0] == 'u';
    case Relation(_) => assert AttrWord(a)[0] == 'r';
    case Plain(_, _) =>
  }

  /** An attribute shows a mark if it is the mark's own, or by the text in its parentheses. */
  lemma AttrMark(a: Attr, mark: string)
    requires GoodAttr(a) && IsMark(mark)
    ensures Contains(PrintAttr(a), mark) <==> Marks(mark, a) || Mentions(mark, a)
  {
    var word := "@" + AttrWord(a);
    WordHasMark(a, mark);
    match a.call
    case None => assert word + "" == word;
    case Some(args) =>
      ContainsAcross(word, '(', args + ")", mark);
      ContainsAcross(args, ')', "", mark);
      CallText(word, args);
  }

  lemma CallText(word: string, args: string)
    ensures word + PrintCall(Some(args)) == word + ['('] + (args + ")")
    ensures args + ")" == args + [')'] + ""
  {
  }

  /** The text of an attribute disturbs no line. */
  lemma AttrText(a: Attr)
    requires GoodAttr(a)
    ensures PrintAttr(a) != "" && Harmless(PrintAttr(a)) && EndsInInk(PrintAttr(a))
  {
    WordText(a);
    var word := "@" + AttrWord(a);
    if a.call.Some? {
      CallText(word, a.call.value);
    } else {
      assert word + "" == word;
    }
  }

  lemma WordText(a: Attr)
    requires GoodAttr(a)
    ensures Harmless("@" + AttrWord(a)) && EndsInInk("@" + AttrWord(a))
  {
    assert IsDotted(AttrWord(a));
  }

  /** A mark in the texts of a field: in a call of one of its attributes or in its note. */
  ghost predicate Stray(f: Item, mark: string)
    requires f.Field?
  {
    SomeMentions(f.attrs, mark) || (f.note.Some? && Contains(f.note.value, mark))
  }

  ghost predicate SomeMentions(attrs: seq<Attr>, mark: string) {
    exists k :: 0 <= k < |attrs| && Mentions(mark, attrs[k])
  }

  lemma PrintAttrsCons(head: string, attrs: seq<Attr>)
    requires attrs != []
    ensures head + PrintAttrs(attrs) == head + [' '] + PrintAttr(attrs[0]) + PrintAttrs(attrs[1..])
  {
    assert PrintAttrs(attrs) == [' '] + PrintAttr(attrs[0]) + PrintAttrs(attrs[1..]);
    ConcatAssoc([' '], PrintAttr(attrs[0]), PrintAttrs(attrs[1..]));
    ConcatAssoc(head, [' '], PrintAttr(attrs[0]));
    ConcatAssoc(head, [' '] + PrintAttr(attrs[0]), PrintAttrs(attrs[1..]));
  }

  lemma {:induction false} AttrsMark(head: string, attrs: seq<Attr>, mark: string)
    requires IsMark(mark) && forall k :: 0 <= k < |attrs| ==> GoodAttr(attrs[k])
    ensures Contains(head + PrintAttrs(attrs), mark) <==> Contains(head, mark) || Has(attrs, mark) || SomeMentions(attrs, mark)
    decreases attrs
  {
    if attrs == [] {
      assert head + "" == head;
    } else {
      AttrMark(attrs[0], mark);
      ContainsAcross(head, ' ', PrintAttr(attrs[0]), mark);
      AttrsMark(head + [' '] + PrintAttr(attrs[0]), attrs[1..], mark);
      PrintAttrsCons(head, attrs);
      MarkedCons(attrs, mark);
    }
  }

  lemma MarkedCons(attrs: seq<Attr>, mark: string)
    requires attrs != []
    ensures Has(attrs, mark) <==> Marks(mark, attrs[0]) || Has(attrs[1..], mark)
    ensures SomeMentions(attrs, mark) <==> Mentions(mark, attrs[0]) || SomeMentions(attrs[1..], mark)
  {
    assert forall k :: 0 <= k < |attrs[1..]| ==> attrs[1..][k] == attrs[k + 1];
    assert forall k :: 0 < k < |attrs| ==> attrs[k] == attrs[1..][k - 1];
  }

  /** A note shows a mark if its text holds it. */
  lemma NoteMark(head: string, note: Option<string>, mark: string)
    requires IsMark(mark)
    ensures Contains(head + PrintNote(note), mark) <==> Contains(head, mark) || (note.Some? && Contains(note.value, mark))
  {
    match note
    case None => assert head + "" == head;
    case Some(text) =>
      ContainsAcross(head, ' ', "//" + text, mark);
      assert head + (" //" + text) == head + [' '] + ("//" + text);
      ContainsAcross("/", '/', text, mark);
      ContainsAbsent("/", mark);
      assert "//" + text == "/" + ['/'] + text;
  }

  // Fields.

  lemma {:induction false} BaseTypeOfWord(typ: string, tail: string)
    requires AllIn(Word, typ, 0, |typ|)
    ensures BaseType(typ + tail) == typ + BaseType(tail)
  {
    if typ == "" {
      assert typ + tail == tail;
    } else {
      assert (typ + tail)[1..] == typ[1..] + tail;
      BaseTypeOfWord(typ[1..], tail);
      assert typ == [typ[0]] + typ[1..];
    }
  }

  lemma BaseTypeOfSuffix(typ: string, suffix: Suffix)
    requires AllIn(Word, typ, 0, |typ|)
    ensures BaseType(typ + PrintSuffix(suffix)) == typ
  {
    BaseTypeOfWord(typ, PrintSuffix(suffix));
    assert "[]"[1..] == "]" && "]"[1..] == "" && "?"[1..] == "";
  }

  lemma {:induction false} AttrsText(attrs: seq<Attr>)
    requires forall k :: 0 <= k < |attrs| ==> GoodAttr(attrs[k])
    ensures Harmless(PrintAttrs(attrs)) && EndsInInk(PrintAttrs(attrs))
    ensures attrs != [] ==> PrintAttrs(attrs) != "" && PrintAttrs(attrs)[0] == ' '
    decreases attrs
  {
    if attrs != [] {
      var head, tail := " " + PrintAttr(attrs[0]), PrintAttrs(attrs[1..]);
      AttrText(attrs[0]);
      AttrsText(attrs[1..]);
      HarmlessConcat(" ", PrintAttr(attrs[0]));
      HarmlessConcat(head, tail);
    }
  }

  /** Two texts, one behind the other. */
  lemma HarmlessConcat(a: string, b: string)
    requires Harmless(a) && Harmless(b) && EndsInInk(b) && (b == "" ==> EndsInInk(a))
    ensures Harmless(a + b) && EndsInInk(a + b) && (a != "" ==> a + b != "" && (a + b)[0] == a[0])
  {
  }

  /** The blanks in front of the attributes. */
  function Gap(f: Item): string
    requires f.Field?
  {
    if f.attrs == [] && f.note.None? then "" else Blanks(f.gap)
  }

  lemma TailText(f: Item)
    requires f.Field? && GoodItem(f)
    ensures Harmless(PrintTail(f)) && EndsInInk(PrintTail(f)) && (PrintTail(f) != "" ==> PrintTail(f)[0] == ' ')
  {
    var attrs, note := PrintAttrs(f.attrs), PrintNote(f.note);
    AttrsText(f.attrs);
    HarmlessConcat(attrs, note);
    if attrs + note == "" {
      assert Gap(f) == "";
    } else {
      HarmlessConcat(Gap(f), attrs + note);
    }
    ConcatAssoc(Gap(f), attrs, note);
  }

  lemma HeadText(f: Item)
    requires f.Field? && GoodItem(f)
    ensures var h := PrintHead(f); h != "" && Harmless(h) && EndsInInk(h) && InClass(Word, h[0]) && '@' !in h
  {
    var h, ty := PrintHead(f), f.typ + PrintSuffix(f.suffix);
    assert h[0] == f.name[0];
    assert h[|h| - 1] == ty[|ty| - 1];
  }

  /** The head of a field line. */
  lemma FieldHead(name: string, blanks: string, ty: string, tail: string)
    requires IsWord(name) && blanks != "" && AllIn(Space, blanks, 0, |blanks|)
    requires ty != "" && AllIn(NonSpace, ty, 0, |ty|) && (tail == "" || tail[0] == ' ')
    ensures FieldMatch(name + blanks + ty + tail) == Some((name, ty))
  {
    var t, n, i := name + blanks + ty + tail, |name|, |name| + |blanks|;
    assert t[..n] == name && t[n..i] == blanks && t[i..i + |ty|] == ty;
    assert |t| > i + |ty| ==> t[i + |ty|] == ' ';
    HeadEnds(t, n, i, i + |ty|);
  }

  lemma HeadEnds(t: string, n: nat, i: nat, e: nat)
    requires n < i < e <= |t| && IsWord(t[..n]) && AllIn(Space, t[n..i], 0, i - n) && AllIn(NonSpace, t[i..e], 0, e - i)
    requires |t| > e ==> t[e] == ' '
    ensures FieldMatch(t) == Some((t[..n], t[i..e]))
  {
    assert forall k :: 0 <= k < n ==> t[k] == t[..n][k];
    assert forall k :: n <= k < i ==> t[k] == t[n..i][k - n];
    assert forall k :: i <= k < e ==> t[k] == t[i..e][k - i];
    EndIs(t, 0, n, Word);
    EndIs(t, n, i, Space);
    EndIs(t, i, e, NonSpace);
  }

  /** A field line shows a mark exactly by an attribute or by one of its texts. */
  lemma FieldMark(f: Item, mark: string)
    requires f.Field? && GoodItem(f) && IsMark(mark)
    ensures Contains(PrintItem(f), mark) <==> Has(f.attrs, mark) || Stray(f, mark)
  {
    var lead := PrintHead(f) + Gap(f);
    HeadText(f);
    ContainsAbsent(lead, mark);
    AttrsMark(lead, f.attrs, mark);
    NoteMark(lead + PrintAttrs(f.attrs), f.note, mark);
    ConcatAssoc(PrintHead(f), Gap(f), PrintAttrs(f.attrs));
    ConcatAssoc(PrintHead(f), Gap(f) + PrintAttrs(f.attrs), PrintNote(f.note));
  }

  // Reading items.

  /** What one more item adds to a model. */
  function Extended(m: Model, item: Item, names: set<string>): Model {
    match item
    case Field(name, _, typ, _, _, attrs, _) =>
      var isUnique := Has(attrs, "@unique") && !Has(attrs, "@id") && name !in m.uniqueFields;
      m.(idField := if Has(attrs, "@id") then Some(name) else m.idField,
         uniqueFields := if isUnique then m.uniqueFields + [name] else m.uniqueFields,
         hasIsDeleted := m.hasIsDeleted || name == "isDeleted",
         hasCreatedAt := m.hasCreatedAt || name == "createdAt",
         hasRelations := m.hasRelations || Has(attrs, "@relation") || typ in names)
    case CompositeUnique(fields, _) => m.(compositeUniques := m.compositeUniques + [fields])
    case _ => m
  }

  function AllExtended(m: Model, items: seq<Item>, names: set<string>): Model
    decreases items
  {
    if items == [] then m else AllExtended(Extended(m, items[0], names), items[1..], names)
  }

  /** The attributes that the texts of a field feign. */
  ghost function Strays(f: Item): seq<Attr>
    requires f.Field?
  {
    (if Stray(f, "@id") then [Id(None)] else [])
    + (if Stray(f, "@unique") then [Unique(None)] else [])
    + (if Stray(f, "@relation") then [Relation(None)] else [])
  }

  /** The item that the parser takes `item` for. */
  ghost function Revealed(item: Item): Item {
    if item.Field? then item.(attrs := item.attrs + Strays(item)) else item
  }

  lemma HasConcat(a: seq<Attr>, b: seq<Attr>, mark: string)
    ensures Has(a + b, mark) <==> Has(a, mark) || Has(b, mark)
  {
    assert forall k :: 0 <= k < |a| ==> (a + b)[k] == a[k];
    assert forall k :: 0 <= k < |b| ==> (a + b)[|a| + k] == b[k];
  }

  lemma HasSingle(a: Attr, mark: string)
    ensures Has([a], mark) <==> Marks(mark, a)
    ensures !Has([], mark)
  {
    assert [a][0] == a;
  }

  lemma StraysMark(f: Item, mark: string)
    requires f.Field? && IsMark(mark)
    ensures Has(Strays(f), mark) <==> Stray(f, mark)
  {
    var a := if Stray(f, "@id") then [Id(None)] else [];
    var b := if Stray(f, "@unique") then [Unique(None)] else [];
    var c := if Stray(f, "@relation") then [Relation(None)] else [];
    HasConcat(a, b, mark);
    HasConcat(a + b, c, mark);
    HasSingle(Id(None), mark);
    HasSingle(Unique(None), mark);
    HasSingle(Relation(None), mark);
  }

  lemma RevealedMark(f: Item, mark: string)
    requires f.Field? && IsMark(mark)
    ensures Has(Revealed(f).attrs, mark) <==> Has(f.attrs, mark) || Stray(f, mark)
  {
    StraysMark(f, mark);
    HasConcat(f.attrs, Strays(f), mark);
  }

  /** A field line, read on top of the items before it. */
  lemma ReadField(m: Model, f: Item, names: set<string>)
    requires f.Field? && GoodItem(f)
    ensures LineRead(m, PrintItem(f), names) == Extended(m, Revealed(f), names)
  {
    FieldLine(f, PrintItem(f), f.typ + PrintSuffix(f.suffix));
    FieldType(f);
    ReadMatched(m, PrintItem(f), Revealed(f), f.typ + PrintSuffix(f.suffix), names);
  }

  lemma FieldType(f: Item)
    requires f.Field? && GoodItem(f)
    ensures BaseType(f.typ + PrintSuffix(f.suffix)) == f.typ
    ensures Revealed(f).Field? && Revealed(f).name == f.name && Revealed(f).typ == f.typ
  {
    BaseTypeOfSuffix(f.typ, f.suffix);
  }

  lemma ReadMatched(m: Model, t: string, f: Item, ty: string, names: set<string>)
    requires f.Field? && CompositeFields(t).None? && !("@@" <= t) && FieldMatch(t) == Some((f.name, ty)) && BaseType(ty) == f.typ
    requires Contains(t, "@id") <==> Has(f.attrs, "@id")
    requires Contains(t, "@unique") <==> Has(f.attrs, "@unique")
    requires Contains(t, "@relation") <==> Has(f.attrs, "@relation")
    ensures LineRead(m, t, names) == Extended(m, f, names)
  {
  }

  lemma WordFirst(t: string)
    requires t != "" && InClass(Word, t[0])
    ensures CompositeFields(t).None? && !("@@" <= t)
  {
  }

  lemma BlanksAreSpace(n: nat)
    ensures " " + Blanks(n) != "" && AllIn(Space, " " + Blanks(n), 0, n + 1)
  {
  }

  lemma TypeText(f: Item, ty: string)
    requires f.Field? && GoodItem(f) && ty == f.typ + PrintSuffix(f.suffix)
    ensures ty != "" && AllIn(NonSpace, ty, 0, |ty|)
  {
  }

  lemma FieldLine(f: Item, t: string, ty: string)
    requires f.Field? && GoodItem(f) && t == PrintItem(f) && ty == f.typ + PrintSuffix(f.suffix)
    ensures CompositeFields(t).None? && !("@@" <= t) && FieldMatch(t) == Some((f.name, ty))
    ensures Contains(t, "@id") <==> Has(Revealed(f).attrs, "@id")
    ensures Contains(t, "@unique") <==> Has(Revealed(f).attrs, "@unique")
    ensures Contains(t, "@relation") <==> Has(Revealed(f).attrs, "@relation")
  {
    HeadText(f);
    TailText(f);
    WordFirst(t);
    TypeText(f, ty);
    BlanksAreSpace(f.pad);
    ConcatAssoc(f.name, " ", Blanks(f.pad));
    FieldHead(f.name, " " + Blanks(f.pad), ty, PrintTail(f));
    FieldFlags(f);
  }

  lemma FieldFlags(f: Item)
    requires f.Field? && GoodItem(f)
    ensures Contains(PrintItem(f), "@id") <==> Has(Revealed(f).attrs, "@id")
    ensures Contains(PrintItem(f), "@unique") <==> Has(Revealed(f).attrs, "@unique")
    ensures Contains(PrintItem(f), "@relation") <==> Has(Revealed(f).attrs, "@relation")
  {
    FieldMark(f, "@id");
    FieldMark(f, "@unique");
    FieldMark(f, "@relation");
    RevealedMark(f, "@id");
    RevealedMark(f, "@unique");
    RevealedMark(f, "@relation");
  }

  // Composite keys.

  lemma TrimWord(w: string)
    requires IsWord(w)
    ensures Trim(w) == w && Trim(" " + w) == w
  {
    assert (" " + w)[1..] == w;
  }

  lemma {:induction false} SpacedPartsTrim(fields: seq<string>)
    requires forall k :: 0 <= k < |fields| ==> IsWord(fields[k])
    ensures Trimmed(SpacedParts(fields)) == fields && |SpacedParts(fields)| == |fields|
    ensures forall k :: 0 <= k < |fields| ==> PlainPart(SpacedParts(fields)[k])
    decreases fields
  {
    if fields != [] {
      TrimWord(fields[0]);
      SpacedPartsTrim(fields[1..]);
    }
  }

  /** A part between commas. */
  ghost predicate PlainPart(s: string) {
    s != "" && forall k :: 0 <= k < |s| ==> s[k] != ',' && s[k] != ']' && s[k] != '{' && s[k] != '}' && s[k] != '\n'
  }

  lemma CommaPartsTrim(fields: seq<string>)
    requires fields != [] && forall k :: 0 <= k < |fields| ==> IsWord(fields[k])
    ensures Trimmed(CommaParts(fields)) == fields && |CommaParts(fields)| == |fields|
    ensures forall k :: 0 <= k < |fields| ==> PlainPart(CommaParts(fields)[k])
  {
    TrimWord(fields[0]);
    SpacedPartsTrim(fields[1..]);
    assert CommaParts(fields)[1..] == SpacedParts(fields[1..]);
  }

  lemma {:induction false} JoinText(parts: seq<string>)
    requires |parts| > 0 && forall k :: 0 <= k < |parts| ==> PlainPart(parts[k])
    ensures var s := Join(parts, ',');
            s != "" && forall k :: 0 <= k < |s| ==> s[k] != ']' && s[k] != '{' && s[k] != '}' && s[k] != '\n'
    decreases parts
  {
    if |parts| > 1 { JoinText(parts[1..]); }
  }

  lemma CompositeLine(inner: string, rest: string, t: string)
    requires inner != "" && (forall k :: 0 <= k < |inner| ==> inner[k] != ']') && t == "@@unique([" + inner + "]" + rest
    ensures CompositeFields(t) == Some(Trimmed(Split(inner, ',')))
  {
    CompositeText(inner, rest, t);
    CompositeRead(inner, t);
  }

  lemma CompositeRead(inner: string, t: string)
    requires |t| >= |inner| + 11 && "@@unique" <= t && t[8] == '(' && t[9] == '[' && t[10 + |inner|] == ']'
    requires inner != "" && t[10..10 + |inner|] == inner && forall k :: 10 <= k < 10 + |inner| ==> t[k] != ']'
    ensures CompositeList(t) == Some(inner)
  {
    CompositeEnds(inner, t);
  }

  lemma CompositeEnds(inner: string, t: string)
    requires |t| >= |inner| + 11 && t[8] == '(' && t[9] == '[' && t[10 + |inner|] == ']'
    requires inner != "" && forall k :: 10 <= k < 10 + |inner| ==> t[k] != ']'
    ensures End(t, 8, Space) == 8 && End(t, 9, Space) == 9 && End(t, 10, NonBracket) == 10 + |inner|
  {
    EndIs(t, 8, 8, Space);
    EndIs(t, 9, 9, Space);
    EndIs(t, 10, 10 + |inner|, NonBracket);
  }

  lemma CompositeText(inner: string, rest: string, t: string)
    requires t == "@@unique([" + inner + "]" + rest
    ensures |t| >= |inner| + 11 && "@@unique" <= t && t[8] == '(' && t[9] == '[' && t[10 + |inner|] == ']'
    ensures t[10..10 + |inner|] == inner && forall k :: 10 <= k < 10 + |inner| ==> t[k] == inner[k - 10]
  {
    assert t[..8] == "@@unique";
  }

  lemma ReadComposite(m: Model, item: Item, names: set<string>)
    requires item.CompositeUnique? && GoodItem(item)
    ensures LineRead(m, PrintItem(item), names) == Extended(m, item, names)
  {
    var parts := CommaParts(item.fields);
    CommaPartsTrim(item.fields);
    JoinText(parts);
    CompositeLine(Join(parts, ','), item.rest, PrintItem(item));
    SplitJoin(parts, ',');
  }

  // The other items.

  lemma ReadBlockAttr(m: Model, item: Item, names: set<string>)
    requires item.BlockAttr? && GoodItem(item)
    ensures LineRead(m, PrintItem(item), names) == Extended(m, item, names)
  {
    var t := PrintItem(item);
    assert t[..2] == "@@";
    NotComposite(item.word, item.rest);
  }

  lemma NotComposite(word: string, rest: string)
    requires IsWord(word) && word != "unique" && (rest != "" ==> !KebabNames.IsWordChar(rest[0]))
    ensures CompositeFields("@@" + word + rest).None?
  {
    var t := "@@" + word + rest;
    assert "@@" + "unique" == "@@unique";
    MarkInWord("@@", "unique", word, rest);
    if "unique" <= word {
      assert |word| > 6;
      assert t[8] == word[6] && InClass(Word, t[8]);
      EndIs(t, 8, 8, Space);
    }
  }

  lemma ReadSilent(m: Model, item: Item, t: string, names: set<string>)
    requires item.Comment? || item.Blank?
    requires t == "" || t[0] == '/'
    ensures LineRead(m, t, names) == Extended(m, item, names)
  {
    EndIs(t, 0, 0, Word);
  }

  // From lines to blocks.

  /** Line `line`, once trimmed, has no braces and is read as `item` on top of `m`. */
  ghost predicate ReadAs(line: string, m: Model, item: Item, names: set<string>) {
    NoBraces(Trim(line)) && LineRead(m, Trim(line), names) == Extended(m, item, names)
  }

  lemma ItemLine(m: Model, item: Item, names: set<string>)
    requires GoodItem(item) && !item.Braced?
    ensures ReadAs(PrintLine(item), m, Revealed(item), names)
  {
    match item
    case Field(_, _, _, _, _, _, _) =>
      FieldIsInk(item);
      ReadField(m, item, names);
    case CompositeUnique(_, _) =>
      CompositeIsInk(item);
      ReadComposite(m, item, names);
    case BlockAttr(_, _) =>
      BlockAttrIsInk(item);
      ReadBlockAttr(m, item, names);
    case Comment(text) =>
      CommentLine(text);
      ReadSilent(m, item, Trim("  " + PrintItem(item)), names);
    case Blank =>
      ReadSilent(m, item, "", names);
  }

  /** A line without braces and line ends that trimming takes for what it is. */
  ghost predicate IsInk(t: string) {
    NoBraces(t) && '\n' !in t && Trim("  " + t) == t
  }

  lemma BlockAttrIsInk(item: Item)
    requires item.BlockAttr? && GoodItem(item)
    ensures IsInk(PrintItem(item))
  {
    var head := "@@" + item.word;
    assert head[|head| - 1] == item.word[|item.word| - 1];
    InkParts(head, item.rest);
  }

  /** A harmless text of two parts that begins and ends with ink. */
  lemma InkParts(head: string, tail: string)
    requires head != "" && !IsSpace(head[0]) && Harmless(head) && EndsInInk(head) && Harmless(tail) && EndsInInk(tail)
    ensures IsInk(head + tail)
  {
    var t := head + tail;
    assert t[0] == head[0];
    assert t[|t| - 1] == if tail == "" then head[|head| - 1] else tail[|tail| - 1];
    TrimInk(t);
  }

  lemma FieldIsInk(f: Item)
    requires f.Field? && GoodItem(f)
    ensures IsInk(PrintItem(f))
  {
    HeadText(f);
    TailText(f);
    InkParts(PrintHead(f), PrintTail(f));
  }

  lemma CompositeIsInk(item: Item)
    requires item.CompositeUnique? && GoodItem(item)
    ensures IsInk(PrintItem(item))
  {
    var inner := Join(CommaParts(item.fields), ',');
    CommaPartsTrim(item.fields);
    JoinText(CommaParts(item.fields));
    WrappedIsInk(inner);
    InkParts("@@unique([" + inner + "]", item.rest);
  }

  lemma WrappedIsInk(inner: string)
    requires Harmless(inner)
    ensures var t := "@@unique([" + inner + "]"; Harmless(t) && t[0] == '@' && t[|t| - 1] == ']'
  {
  }

  lemma CommentLine(text: string)
    requires GoodItem(Comment(text))
    ensures var t := Trim("  " + ("//" + text)); NoBraces(t) && t != "" && t[0] == '/'
  {
    var s := "//" + text;
    TrimIndent(s);
    TrimFront(s);
  }

  /** Trimming keeps a front of ink. */
  lemma {:induction false} TrimFront(s: string)
    requires s != "" && !IsSpace(s[0]) && NoBraces(s)
    ensures Trim(s) != "" && Trim(s)[0] == s[0] && NoBraces(Trim(s))
    decreases s
  {
    if IsSpace(s[|s| - 1]) { TrimFront(s[..|s| - 1]); }
  }

  lemma BracedLine(m: Model, item: Item, models: seq<Model>, names: set<string>)
    requires GoodItem(item) && item.Braced?
    ensures Step(State(Some(m), 1, models), PrintLine(item), names) == State(Some(m), 1, models)
  {
    TrimIndent(item.text);
  }

  lemma StepOneItem(m: Model, item: Item, models: seq<Model>, names: set<string>)
    requires GoodItem(item)
    ensures Step(State(Some(m), 1, models), PrintLine(item), names) == State(Some(Extended(m, Revealed(item), names)), 1, models)
  {
    if item.Braced? {
      BracedLine(m, item, models, names);
    } else {
      ItemLine(m, item, names);
      StepItem(State(Some(m), 1, models), PrintLine(item), names);
    }
  }

  lemma ItemStartsNoModel(item: Item)
    requires GoodItem(item)
    ensures ModelStart(Trim(PrintLine(item))).None?
  {
    if item.Braced? {
      TrimIndent(item.text);
    } else {
      ItemLine(NewModel(""), item, {});
    }
  }

  /** The items that the parser takes those of a model for. */
  ghost function AllRevealed(items: seq<Item>): seq<Item> {
    if items == [] then [] else [Revealed(items[0])] + AllRevealed(items[1..])
  }

  lemma StepsCons(s: State, line: string, rest: seq<string>, names: set<string>)
    ensures Steps(s, [line] + rest, names) == Steps(Step(s, line, names), rest, names)
  {
    assert ([line] + rest)[1..] == rest;
  }

  lemma PrintItemsCons(items: seq<Item>, rest: seq<string>)
    requires items != []
    ensures PrintItems(items) + rest == [PrintLine(items[0])] + (PrintItems(items[1..]) + rest)
  {
  }

  lemma {:induction false} StepsItems(m: Model, items: seq<Item>, models: seq<Model>, rest: seq<string>, names: set<string>)
    requires forall k :: 0 <= k < |items| ==> GoodItem(items[k])
    ensures Steps(State(Some(m), 1, models), PrintItems(items) + rest, names)
         == Steps(State(Some(AllExtended(m, AllRevealed(items), names)), 1, models), rest, names)
    decreases items
  {
    if items == [] {
      assert PrintItems(items) + rest == rest;
    } else {
      var m' := Extended(m, Revealed(items[0]), names);
      StepOneItem(m, items[0], models, names);
      StepsItems(m', items[1..], models, rest, names);
      PrintItemsCons(items, rest);
      StepsCons(State(Some(m), 1, models), PrintLine(items[0]), PrintItems(items[1..]) + rest, names);
      AllExtendedCons(m, Revealed(items[0]), AllRevealed(items[1..]), names);
    }
  }

  lemma AllExtendedCons(m: Model, item: Item, items: seq<Item>, names: set<string>)
    ensures AllExtended(m, [item] + items, names) == AllExtended(Extended(m, item, names), items, names)
  {
    assert ([item] + items)[1..] == items;
  }

  lemma HasFieldSnoc(items: seq<Item>, item: Item, name: string)
    ensures HasField(items + [item], name) <==> HasField(items, name) || (item.Field? && item.name == name)
  {
    var all := items + [item];
    assert all[|items|] == item;
    assert forall k :: 0 <= k < |items| ==> all[k] == items[k];
  }

  lemma RelatedSnoc(items: seq<Item>, item: Item, names: set<string>)
    ensures Related(items + [item], names) <==> Related(items, names) || (item.Field? && (Has(item.attrs, "@relation") || item.typ in names))
  {
    var all := items + [item];
    assert all[|items|] == item;
    assert forall k :: 0 <= k < |items| ==> all[k] == items[k];
  }

  lemma FieldExtends(name: string, before: seq<Item>, item: Item, names: set<string>)
    ensures ReadOff(name, before + [item], names) == Extended(ReadOff(name, before, names), item, names)
  {
    assert (before + [item])[..|before|] == before;
    HasFieldSnoc(before, item, "isDeleted");
    HasFieldSnoc(before, item, "createdAt");
    RelatedSnoc(before, item, names);
  }

  /** Reading the items one by one gives what they declare. */
  lemma {:induction false} AllExtendedIsReadOff(name: string, before: seq<Item>, items: seq<Item>, names: set<string>)
    ensures AllExtended(ReadOff(name, before, names), items, names) == ReadOff(name, before + items, names)
    decreases items
  {
    if items == [] {
      assert before + items == before;
    } else {
      var m, item, rest := ReadOff(name, before, names), items[0], items[1..];
      assert items == [item] + rest;
      AllExtendedCons(m, item, rest, names);
      FieldExtends(name, before, item, names);
      AllExtendedIsReadOff(name, before + [item], rest, names);
      ConcatAssoc(before, [item], rest);
    }
  }

  lemma HeaderText(name: string, t: string)
    requires IsWord(name) && t == "model " + name + " {"
    ensures |t| == |name| + 8 && "model" <= t && t[5] == ' ' && t[6 + |name|] == ' ' && t[7 + |name|] == '{'
    ensures t[6..6 + |name|] == name && (forall k :: 6 <= k < 6 + |name| ==> t[k] == name[k - 6]) && '\n' !in t
  {
    assert t[..5] == "model";
  }

  lemma HeaderLine(name: string, t: string)
    requires IsWord(name) && t == "model " + name + " {"
    ensures Trim(t) == t && ModelStart(t) == Some(name) && '\n' !in t
  {
    var n := |name|;
    HeaderText(name, t);
    TrimInk(t);
    EndIs(t, 5, 6, Space);
    EndIs(t, 6, 6 + n, Word);
    EndIs(t, 6 + n, 7 + n, Space);
  }

  lemma ClosingLine(m: Model, models: seq<Model>, names: set<string>)
    ensures Step(State(Some(m), 1, models), "}", names) == State(None, 0, models + [Finished(m)])
  {
    assert Trim("}") == "}";
    assert "}"[1..] == "";
    CountAbsent("}", '{');
    assert Count("}", '}') == 1 + Count("", '}');
    assert !("model" <= "}");
  }

  lemma ModelRead(b: Block, names: set<string>)
    requires b.ModelBlock?
    ensures Finished(AllExtended(NewModel(b.name), b.items, names)) == Declared(b, names)
  {
    assert ReadOff(b.name, [], names) == NewModel(b.name);
    AllExtendedIsReadOff(b.name, [], b.items, names);
    assert [] + b.items == b.items;
  }

  /** The block that the parser takes `b` for. */
  ghost function BlockRevealed(b: Block): Block {
    if b.ModelBlock? then ModelBlock(b.name, AllRevealed(b.items)) else b
  }

  ghost function SchemaRevealed(schema: seq<Block>): seq<Block> {
    if schema == [] then [] else [BlockRevealed(schema[0])] + SchemaRevealed(schema[1..])
  }

  lemma ModelLines(b: Block, rest: seq<string>)
    requires b.ModelBlock?
    ensures PrintBlock(b) + rest == ["model " + b.name + " {"] + (PrintItems(b.items) + (["}"] + rest))
  {
  }

  lemma StepsHeader(b: Block, models: seq<Model>, rest: seq<string>, names: set<string>)
    requires b.ModelBlock? && GoodBlock(b)
    ensures Steps(State(None, 0, models), ["model " + b.name + " {"] + rest, names)
         == Steps(State(Some(NewModel(b.name)), 1, models), rest, names)
  {
    HeaderLine(b.name, "model " + b.name + " {");
    StepsCons(State(None, 0, models), "model " + b.name + " {", rest, names);
  }

  lemma StepsModel(b: Block, models: seq<Model>, rest: seq<string>, names: set<string>)
    requires b.ModelBlock? && GoodBlock(b)
    ensures Steps(State(None, 0, models), PrintBlock(b) + rest, names)
         == Steps(State(None, 0, models + [Declared(BlockRevealed(b), names)]), rest, names)
  {
    ModelLines(b, rest);
    StepsHeader(b, models, PrintItems(b.items) + (["}"] + rest), names);
    StepsItems(NewModel(b.name), b.items, models, ["}"] + rest, names);
    StepsClosing(AllExtended(NewModel(b.name), AllRevealed(b.items), names), models, rest, names);
    ModelRead(BlockRevealed(b), names);
  }

  lemma StepsClosing(m: Model, models: seq<Model>, rest: seq<string>, names: set<string>)
    ensures Steps(State(Some(m), 1, models), ["}"] + rest, names) == Steps(State(None, 0, models + [Finished(m)]), rest, names)
  {
    ClosingLine(m, models, names);
    StepsCons(State(Some(m), 1, models), "}", rest, names);
  }

  lemma {:induction false} StepsOther(lines: seq<string>, models: seq<Model>, rest: seq<string>, names: set<string>)
    requires forall k :: 0 <= k < |lines| ==> ModelStart(Trim(lines[k])).None?
    ensures Steps(State(None, 0, models), lines + rest, names) == Steps(State(None, 0, models), rest, names)
    decreases lines
  {
    if lines == [] {
      assert lines + rest == rest;
    } else {
      StepsOther(lines[1..], models, rest, names);
      assert lines + rest == [lines[0]] + (lines[1..] + rest);
      StepsCons(State(None, 0, models), lines[0], lines[1..] + rest, names);
    }
  }

  lemma {:induction false} StepsBlocks(schema: seq<Block>, models: seq<Model>, rest: seq<string>, names: set<string>)
    requires GoodSchema(schema)
    ensures Steps(State(None, 0, models), PrintBlocks(schema) + rest, names)
         == Steps(State(None, 0, models + Records(SchemaRevealed(schema), names)), rest, names)
    decreases schema
  {
    if schema == [] {
      assert PrintBlocks(schema) + rest == rest && models + Records([], names) == models;
    } else {
      var tail := schema[1..];
      ConcatAssoc(PrintBlock(schema[0]), PrintBlocks(tail), rest);
      StepsBlock(schema[0], models, PrintBlocks(tail) + rest, names);
      StepsBlocks(tail, models + BlockRecords(BlockRevealed(schema[0]), names), rest, names);
      RecordsCons(BlockRevealed(schema[0]), SchemaRevealed(tail), names);
      ConcatAssoc(models, BlockRecords(BlockRevealed(schema[0]), names), Records(SchemaRevealed(tail), names));
    }
  }

  lemma StepsBlock(b: Block, models: seq<Model>, rest: seq<string>, names: set<string>)
    requires GoodBlock(b)
    ensures Steps(State(None, 0, models), PrintBlock(b) + rest, names)
         == Steps(State(None, 0, models + BlockRecords(BlockRevealed(b), names)), rest, names)
  {
    if b.ModelBlock? {
      StepsModel(b, models, rest, names);
    } else {
      StepsOther(b.lines, models, rest, names);
      assert models + [] == models;
    }
  }

  lemma RecordsCons(b: Block, schema: seq<Block>, names: set<string>)
    ensures Records([b] + schema, names) == BlockRecords(b, names) + Records(schema, names)
  {
    assert ([b] + schema)[1..] == schema;
  }

  // The names of the first pass.

  lemma {:induction false} NamesInConcat(a: seq<string>, b: seq<string>)
    ensures NamesIn(a + b) == NamesIn(a) + NamesIn(b)
    decreases a
  {
    if a == [] {
      assert a + b == b;
    } else {
      assert (a + b)[1..] == a[1..] + b;
      NamesInConcat(a[1..], b);
    }
  }

  lemma {:induction false} NamesInNone(lines: seq<string>)
    requires forall k :: 0 <= k < |lines| ==> ModelStart(Trim(lines[k])).None?
    ensures NamesIn(lines) == {}
    decreases lines
  {
    if lines != [] { NamesInNone(lines[1..]); }
  }

  lemma {:induction false} ItemsNameNothing(items: seq<Item>)
    requires forall k :: 0 <= k < |items| ==> GoodItem(items[k])
    ensures NamesIn(PrintItems(items)) == {}
    decreases items
  {
    if items != [] {
      ItemsNameNothing(items[1..]);
      ItemStartsNoModel(items[0]);
    }
  }

  lemma BlockNames(b: Block)
    requires GoodBlock(b)
    ensures NamesIn(PrintBlock(b)) == if b.ModelBlock? then {b.name} else {}
  {
    if b.ModelBlock? {
      var header := "model " + b.name + " {";
      HeaderLine(b.name, header);
      ItemsNameNothing(b.items);
      ClosingNamesNothing();
      NamesInConcat(PrintItems(b.items), ["}"]);
      NamesInConcat([header], PrintItems(b.items) + ["}"]);
      assert [header][1..] == [] && PrintBlock(b) == [header] + (PrintItems(b.items) + ["}"]);
    } else {
      NamesInNone(b.lines);
    }
  }

  lemma ClosingNamesNothing()
    ensures NamesIn(["}"]) == {} && NamesIn([""]) == {}
  {
    assert Trim("}") == "}" && Trim("") == "";
    assert !("model" <= "}") && !("model" <= "");
    assert ["}"][1..] == [] && [""][1..] == [];
  }

  lemma ModelNamesCons(schema: seq<Block>)
    requires schema != []
    ensures ModelNames(schema) == (if schema[0].ModelBlock? then {schema[0].name} else {}) + ModelNames(schema[1..])
  {
    forall name | name in ModelNames(schema)
      ensures (schema[0].ModelBlock? && name == schema[0].name) || name in ModelNames(schema[1..])
    {
      var k :| 0 <= k < |schema| && schema[k].ModelBlock? && schema[k].name == name;
      if k > 0 { assert schema[1..][k - 1] == schema[k]; }
    }
    forall name | name in ModelNames(schema[1..]) ensures name in ModelNames(schema) {
      var k :| 0 <= k < |schema[1..]| && schema[1..][k].ModelBlock? && schema[1..][k].name == name;
      assert schema[k + 1] == schema[1..][k];
    }
  }

  lemma {:induction false} BlocksNames(schema: seq<Block>)
    requires GoodSchema(schema)
    ensures NamesIn(PrintBlocks(schema)) == ModelNames(schema)
    decreases schema
  {
    if schema != [] {
      BlocksNames(schema[1..]);
      BlockNames(schema[0]);
      NamesInConcat(PrintBlock(schema[0]), PrintBlocks(schema[1..]));
      ModelNamesCons(schema);
    }
  }

  // The text.

  ghost predicate OneLine(lines: seq<string>) {
    forall k :: 0 <= k < |lines| ==> '\n' !in lines[k]
  }

  lemma ItemOneLine(item: Item)
    requires GoodItem(item)
    ensures '\n' !in PrintLine(item)
  {
    match item
    case Field(_, _, _, _, _, _, _) => FieldIsInk(item);
    case CompositeUnique(_, _) => CompositeIsInk(item);
    case BlockAttr(_, _) => BlockAttrIsInk(item);
    case Comment(_) =>
    case Braced(_) =>
    case Blank =>
  }

  lemma {:induction false} ItemsOneLine(items: seq<Item>)
    requires forall k :: 0 <= k < |items| ==> GoodItem(items[k])
    ensures OneLine(PrintItems(items))
    decreases items
  {
    if items != [] {
      ItemOneLine(items[0]);
      ItemsOneLine(items[1..]);
    }
  }

  lemma {:induction false} BlocksOneLine(schema: seq<Block>)
    requires GoodSchema(schema)
    ensures OneLine(PrintBlocks(schema))
    decreases schema
  {
    if schema != [] {
      BlocksOneLine(schema[1..]);
      BlockOneLine(schema[0]);
    }
  }

  lemma BlockOneLine(b: Block)
    requires GoodBlock(b)
    ensures OneLine(PrintBlock(b))
  {
    if b.ModelBlock? {
      ItemsOneLine(b.items);
      HeaderLine(b.name, "model " + b.name + " {");
    }
  }

  /**
   Parsing any printed schema gives one record for each model, in order, with its id or else its first unique field,
   its unique fields and composite keys, its flags and whether it is related to a model anywhere in the schema: those
   of the schema in which the marks in calls and notes count as attributes, and lines with braces as nothing.
   */
  lemma ParserReadsRevealed(schema: seq<Block>)
    requires GoodSchema(schema)
    ensures Parsed(Print(schema)) == Records(SchemaRevealed(schema), ModelNames(schema))
  {
    PrintedLines(schema);
    StepsPrinted(schema, ModelNames(schema));
  }

  lemma PrintedLines(schema: seq<Block>)
    requires GoodSchema(schema)
    ensures Split(Print(schema), '\n') == PrintBlocks(schema) + [""]
    ensures NamesIn(PrintBlocks(schema) + [""]) == ModelNames(schema)
  {
    BlocksOneLine(schema);
    SplitJoin(PrintBlocks(schema) + [""], '\n');
    BlocksNames(schema);
    ClosingNamesNothing();
    NamesInConcat(PrintBlocks(schema), [""]);
  }

  lemma StepsPrinted(schema: seq<Block>, names: set<string>)
    requires GoodSchema(schema)
    ensures Steps(START, PrintBlocks(schema) + [""], names) == State(None, 0, Records(SchemaRevealed(schema), names))
  {
    StepsBlocks(schema, [], [""], names);
    EndOfText([] + Records(SchemaRevealed(schema), names), names);
    assert [] + Records(SchemaRevealed(schema), names) == Records(SchemaRevealed(schema), names);
  }

  lemma EndOfText(models: seq<Model>, names: set<string>)
    ensures Steps(State(None, 0, models), [""], names) == State(None, 0, models)
  {
    StepsOther([""], models, [], names);
    assert [""] + [] == [""];
  }

  // Which texts falsify a record.

  /** The texts of the field hold a mark that is none of its attributes. */
  ghost predicate Feigns(f: Item, mark: string)
    requires f.Field?
  {
    Stray(f, mark) && !Has(f.attrs, mark)
  }

  /** What the texts of the field feign changes nothing of what it declares. */
  ghost predicate QuietField(f: Item, names: set<string>)
    requires f.Field?
  {
    && !Feigns(f, "@id")
    && (Feigns(f, "@unique") ==> Has(f.attrs, "@id"))
    && (Feigns(f, "@relation") ==> f.typ in names)
  }

  ghost predicate QuietItems(items: seq<Item>, names: set<string>) {
    forall k :: 0 <= k < |items| && items[k].Field? ==> QuietField(items[k], names)
  }

  ghost predicate QuietSchema(schema: seq<Block>, names: set<string>) {
    forall k :: 0 <= k < |schema| && schema[k].ModelBlock? ==> QuietItems(schema[k].items, names)
  }

  lemma QuietExtends(m: Model, f: Item, names: set<string>)
    requires f.Field? && QuietField(f, names)
    ensures Extended(m, Revealed(f), names) == Extended(m, f, names)
  {
    RevealedMark(f, "@id");
    RevealedMark(f, "@unique");
    RevealedMark(f, "@relation");
  }

  lemma NewModelTells(name: string, f: Item, names: set<string>)
    requires f.Field?
    ensures Extended(NewModel(name), Revealed(f), names) == Extended(NewModel(name), f, names) <==> QuietField(f, names)
    ensures Finished(Extended(NewModel(name), Revealed(f), names)) == Finished(Extended(NewModel(name), f, names)) <==> QuietField(f, names)
  {
    RevealedMark(f, "@id");
    RevealedMark(f, "@unique");
    RevealedMark(f, "@relation");
  }

  /**
   A field line adds to every model what the field declares if and only if no call and no note of it holds a mark that
   the field does not carry, but for a unique mark on an id and a relation mark where the type already is a model.
   */
  lemma FieldIsReadIffQuiet(f: Item, names: set<string>)
    requires f.Field? && GoodItem(f)
    ensures (forall m :: LineRead(m, PrintItem(f), names) == Extended(m, f, names)) <==> QuietField(f, names)
  {
    if QuietField(f, names) {
      forall m ensures LineRead(m, PrintItem(f), names) == Extended(m, f, names) {
        ReadField(m, f, names);
        QuietExtends(m, f, names);
      }
    } else {
      ReadField(NewModel(""), f, names);
      NewModelTells("", f, names);
    }
  }

  lemma {:induction false} QuietItemsRead(m: Model, items: seq<Item>, names: set<string>)
    requires QuietItems(items, names)
    ensures AllExtended(m, AllRevealed(items), names) == AllExtended(m, items, names)
    decreases items
  {
    if items != [] {
      if items[0].Field? { QuietExtends(m, items[0], names); }
      AllExtendedCons(m, Revealed(items[0]), AllRevealed(items[1..]), names);
      QuietItemsRead(Extended(m, items[0], names), items[1..], names);
    }
  }

  lemma {:induction false} QuietSchemaRead(schema: seq<Block>, names: set<string>)
    requires QuietSchema(schema, names)
    ensures Records(SchemaRevealed(schema), names) == Records(schema, names)
    decreases schema
  {
    if schema != [] {
      QuietSchemaRead(schema[1..], names);
      RecordsCons(BlockRevealed(schema[0]), SchemaRevealed(schema[1..]), names);
      if schema[0].ModelBlock? { QuietModelRead(schema[0], names); }
    }
  }

  lemma QuietModelRead(b: Block, names: set<string>)
    requires b.ModelBlock? && QuietItems(b.items, names)
    ensures Declared(BlockRevealed(b), names) == Declared(b, names)
  {
    ModelRead(b, names);
    ModelRead(BlockRevealed(b), names);
    QuietItemsRead(NewModel(b.name), b.items, names);
  }

  /** The parser inverts the printer on every schema whose texts feign nothing. */
  lemma ParserInvertsPrinter(schema: seq<Block>)
    requires GoodSchema(schema) && QuietSchema(schema, ModelNames(schema))
    ensures Parsed(Print(schema)) == Records(schema, ModelNames(schema))
  {
    ParserReadsRevealed(schema);
    QuietSchemaRead(schema, ModelNames(schema));
  }

  /** And for a model of one field this condition is exact. */
  lemma OneFieldIsInvertedIffQuiet(name: string, f: Item)
    requires IsWord(name) && f.Field? && GoodItem(f)
    ensures var schema := [ModelBlock(name, [f])];
            Parsed(Print(schema)) == Records(schema, ModelNames(schema)) <==> QuietField(f, ModelNames(schema))
  {
    var b := ModelBlock(name, [f]);
    var names := ModelNames([b]);
    ParserReadsRevealed([b]);
    OneBlock(b, names);
    OneItem(NewModel(name), f, names);
    ModelRead(b, names);
    ModelRead(BlockRevealed(b), names);
    NewModelTells(name, f, names);
  }

  lemma OneBlock(b: Block, names: set<string>)
    requires b.ModelBlock?
    ensures Records([b], names) == [Declared(b, names)]
    ensures Records(SchemaRevealed([b]), names) == [Declared(BlockRevealed(b), names)]
  {
    assert [b][1..] == [];
    assert SchemaRevealed([b]) == [BlockRevealed(b)] + [];
    RecordsCons(b, [], names);
    RecordsCons(BlockRevealed(b), [], names);
    assert [b] + [] == [b];
  }

  lemma OneItem(m: Model, f: Item, names: set<string>)
    ensures AllExtended(m, [f], names) == Extended(m, f, names)
    ensures AllExtended(m, AllRevealed([f]), names) == Extended(m, Revealed(f), names)
  {
    assert [f][1..] == [];
    assert AllRevealed([f]) == [Revealed(f)] + [];
    AllExtendedCons(m, f, [], names);
    AllExtendedCons(m, Revealed(f), [], names);
    assert [f] + [] == [f];
  }

  // Lines with braces.

  lemma {:induction false} CountPresent(t: string, c: char)
    ensures Count(t, c) > 0 <==> c in t
  {
    if t != "" { CountPresent(t[1..], c); }
  }

  /**
   A line that a model meets at its own depth, that starts no other model and that has something to declare is read if
   and only if it has no brace. A line with braces is passed over exactly if it is closed by as many as it opens;
   otherwise it ends the model or hides what follows.
   */
  lemma LineIsReadIff(s: State, line: string, names: set<string>)
    requires s.current.Some? && s.depth == 1 && ModelStart(Trim(line)).None?
    ensures var t := Trim(line);
            var read := s.(current := Some(LineRead(s.current.value, t, names)));
            && (NoBraces(t) ==> Step(s, line, names) == read)
            && (read != s ==> (Step(s, line, names) == read <==> NoBraces(t)))
            && (!NoBraces(t) ==> (Step(s, line, names) == s <==> IsBraced(t)))
  {
    var t := Trim(line);
    CountPresent(t, '{');
    CountPresent(t, '}');
    assert NoBraces(t) <==> '{' !in t && '}' !in t;
    if NoBraces(t) { StepItem(s, line, names); }
  }

  function WithoutBraced(items: seq<Item>): seq<Item> {
    if items == [] then [] else (if items[0].Braced? then [] else [items[0]]) + WithoutBraced(items[1..])
  }

  function BlockWithoutBraced(b: Block): Block {
    if b.ModelBlock? then ModelBlock(b.name, WithoutBraced(b.items)) else b
  }

  function SchemaWithoutBraced(schema: seq<Block>): seq<Block> {
    if schema == [] then [] else [BlockWithoutBraced(schema[0])] + SchemaWithoutBraced(schema[1..])
  }

  lemma {:induction false} WithoutBracedItems(m: Model, items: seq<Item>, names: set<string>)
    requires forall k :: 0 <= k < |items| ==> GoodItem(items[k])
    ensures forall k :: 0 <= k < |WithoutBraced(items)| ==> GoodItem(WithoutBraced(items)[k])
    ensures AllExtended(m, AllRevealed(WithoutBraced(items)), names) == AllExtended(m, AllRevealed(items), names)
    decreases items
  {
    if items != [] {
      var rest := items[1..];
      AllExtendedCons(m, Revealed(items[0]), AllRevealed(rest), names);
      WithoutBracedItems(Extended(m, Revealed(items[0]), names), rest, names);
      if items[0].Braced? {
        assert WithoutBraced(items) == WithoutBraced(rest);
      } else {
        assert WithoutBraced(items)[1..] == WithoutBraced(rest);
        AllExtendedCons(m, Revealed(items[0]), AllRevealed(WithoutBraced(rest)), names);
      }
    }
  }

  lemma WithoutBracedBlock(b: Block, names: set<string>)
    requires GoodBlock(b)
    ensures GoodBlock(BlockWithoutBraced(b))
    ensures BlockRecords(BlockRevealed(BlockWithoutBraced(b)), names) == BlockRecords(BlockRevealed(b), names)
  {
    if b.ModelBlock? {
      WithoutBracedItems(NewModel(b.name), b.items, names);
      ModelRead(BlockRevealed(b), names);
      ModelRead(BlockRevealed(BlockWithoutBraced(b)), names);
    }
  }

  lemma {:induction false} WithoutBracedSchema(schema: seq<Block>, names: set<string>)
    requires GoodSchema(schema)
    ensures GoodSchema(SchemaWithoutBraced(schema)) && ModelNames(SchemaWithoutBraced(schema)) == ModelNames(schema)
    ensures Records(SchemaRevealed(SchemaWithoutBraced(schema)), names) == Records(SchemaRevealed(schema), names)
    decreases schema
  {
    if schema != [] {
      var b, rest, tail := schema[0], schema[1..], SchemaWithoutBraced(schema[1..]);
      WithoutBracedBlock(b, names);
      WithoutBracedSchema(rest, names);
      assert SchemaWithoutBraced(schema)[1..] == tail;
      RecordsCons(BlockRevealed(b), SchemaRevealed(rest), names);
      RecordsCons(BlockRevealed(BlockWithoutBraced(b)), SchemaRevealed(tail), names);
      ModelNamesCons(schema);
      ModelNamesCons(SchemaWithoutBraced(schema));
    }
  }

  /** A line with balanced braces, such as a field with the default `"{}"`, might as well not be there, whatever it declares. */
  lemma BracedLinesAreSkipped(schema: seq<Block>)
    requires GoodSchema(schema)
    ensures GoodSchema(SchemaWithoutBraced(schema)) && Parsed(Print(schema)) == Parsed(Print(SchemaWithoutBraced(schema)))
  {
    WithoutBracedSchema(schema, ModelNames(schema));
    ParserReadsRevealed(schema);
    ParserReadsRevealed(SchemaWithoutBraced(schema));
  }

  // Reordering.

  lemma {:induction false} RecordsConcat(a: seq<Block>, b: seq<Block>, names: set<string>)
    ensures Records(a + b, names) == Records(a, names) + Records(b, names)
    decreases a
  {
    if a == [] {
      assert a + b == b;
    } else {
      assert (a + b)[1..] == a[1..] + b && (a + b)[0] == a[0];
      RecordsConcat(a[1..], b, names);
      ConcatAssoc(BlockRecords(a[0], names), Records(a[1..], names), Records(b, names));
    }
  }

  lemma RecordsAround(b: seq<Block>, k: nat, names: set<string>)
    requires k < |b|
    ensures multiset(Records(b, names)) == multiset(Records([b[k]], names)) + multiset(Records(b[..k] + b[k + 1..], names))
  {
    assert b == b[..k] + ([b[k]] + b[k + 1..]);
    RecordsConcat(b[..k], [b[k]] + b[k + 1..], names);
    RecordsConcat([b[k]], b[k + 1..], names);
    RecordsConcat(b[..k], b[k + 1..], names);
  }

  lemma {:induction false} PermutedRecords(a: seq<Block>, b: seq<Block>, names: set<string>)
    requires multiset(a) == multiset(b)
    ensures multiset(Records(a, names)) == multiset(Records(b, names))
    decreases a
  {
    if a == [] {
      assert |multiset(b)| == |b|;
    } else {
      assert a[0] in multiset(b);
      var k :| 0 <= k < |b| && b[k] == a[0];
      WithoutFirst(a, b, k);
      PermutedRecords(a[1..], b[..k] + b[k + 1..], names);
      RecordsAround(b, k, names);
      RecordsAround(a, 0, names);
      assert a[..0] + a[1..] == a[1..];
    }
  }

  lemma SameMembers<T>(a: seq<T>, b: seq<T>)
    requires multiset(a) == multiset(b)
    ensures forall x :: x in a <==> x in b
  {
    forall x ensures x in a <==> x in b {
      assert x in a <==> x in multiset(a);
      assert x in b <==> x in multiset(b);
    }
  }

  lemma PermutedIsGood(a: seq<Block>, b: seq<Block>)
    requires GoodSchema(a) && forall x :: x in a <==> x in b
    ensures GoodSchema(b) && ModelNames(a) == ModelNames(b)
  {
    forall k | 0 <= k < |b| ensures GoodBlock(b[k]) { assert b[k] in b; }
    NamesWithin(a, b);
    NamesWithin(b, a);
  }

  lemma NamesWithin(a: seq<Block>, b: seq<Block>)
    requires forall x :: x in a ==> x in b
    ensures ModelNames(a) <= ModelNames(b)
  {
    forall name | name in ModelNames(a) ensures name in ModelNames(b) {
      var k :| 0 <= k < |a| && a[k].ModelBlock? && a[k].name == name;
      assert a[k] in a;
      var j :| 0 <= j < |b| && b[j] == a[k];
    }
  }

  lemma {:induction false} RevealedIsMapped(schema: seq<Block>)
    ensures SchemaRevealed(schema) == Mapped(schema, BlockRevealed)
    decreases schema
  {
    if schema != [] { RevealedIsMapped(schema[1..]); }
  }

  /** Reordering the blocks of a schema only reorders the records: references may point forward. */
  lemma ReorderingReorders(a: seq<Block>, b: seq<Block>)
    requires GoodSchema(a) && multiset(a) == multiset(b)
    ensures multiset(Parsed(Print(a))) == multiset(Parsed(Print(b)))
  {
    SameMembers(a, b);
    PermutedIsGood(a, b);
    ParserReadsRevealed(a);
    ParserReadsRevealed(b);
    RevealedIsMapped(a);
    RevealedIsMapped(b);
    PermutedMapped(a, b, BlockRevealed);
    PermutedRecords(SchemaRevealed(a), SchemaRevealed(b), ModelNames(a));
  }
}
