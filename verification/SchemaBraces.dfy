/** What a line with unbalanced braces does to the model it stands in, and to the rest of the schema. */
module SchemaBraces {
  import opened Ecma
  import opened Patterns
  import opened SchemaParser
  import opened SchemaPrinter

  /** Lines none of which starts a model. */
  ghost predicate StartNoModel(lines: seq<string>) {
    forall k :: 0 <= k < |lines| ==> ModelStart(Trim(lines[k])).None? && '\n' !in lines[k]
  }

  /** How the line changes the depth. */
  function Rise(line: string): int {
    Count(Trim(line), '{') - Count(Trim(line), '}')
  }

  /** From depth `d`, no closing brace of the lines brings the depth to 0. */
  predicate StaysOpen(d: int, lines: seq<string>)
    decreases |lines|
  {
    lines == [] || (('}' in Trim(lines[0]) ==> d + Rise(lines[0]) != 0) && StaysOpen(d + Rise(lines[0]), lines[1..]))
  }

  lemma StepOpen(m: Model, d: int, line: string, models: seq<Model>, names: set<string>)
    requires ModelStart(Trim(line)).None?
    ensures var s := Step(State(Some(m), d, models), line, names);
            if '}' in Trim(line) && d + Rise(line) == 0 then s == State(None, 0, models + [Finished(m)])
            else s.current.Some? && s.current.value.name == m.name && s.depth == d + Rise(line) && s.models == models
  {
    if '}' !in Trim(line) { CountAbsent(Trim(line), '}'); }
  }

  /** The records are followed by one of that name. */
  predicate Reported(name: string, models: seq<Model>, all: seq<Model>) {
    |all| == |models| + 1 && models <= all && all[|models|].name == name
  }

  /** A model that is open at depth `d` is reported within the lines if and only if they bring its depth to 0. */
  lemma {:induction false} StepsOpen(m: Model, d: int, lines: seq<string>, models: seq<Model>, names: set<string>)
    returns (s: State)
    requires StartNoModel(lines)
    ensures s == Steps(State(Some(m), d, models), lines, names)
    ensures if StaysOpen(d, lines) then s.current.Some? && s.models == models
            else s.current.None? && s.depth == 0 && Reported(m.name, models, s.models)
    decreases |lines|
  {
    s := Steps(State(Some(m), d, models), lines, names);
    if lines != [] {
      var next := Step(State(Some(m), d, models), lines[0], names);
      StepOpen(m, d, lines[0], models, names);
      if next.current.Some? {
        var t := StepsOpen(next.current.value, next.depth, lines[1..], models, names);
      } else {
        StepsOther(lines[1..], next.models, [], names);
        assert lines[1..] + [] == lines[1..];
      }
    }
  }

  lemma {:induction false} StepsConcat(s: State, a: seq<string>, b: seq<string>, names: set<string>)
    ensures Steps(s, a + b, names) == Steps(Steps(s, a, names), b, names)
    decreases |a|
  {
    if a == [] {
      assert a + b == b;
    } else {
      assert (a + b)[0] == a[0] && (a + b)[1..] == a[1..] + b;
      StepsConcat(Step(s, a[0], names), a[1..], b, names);
    }
  }

  /** The start of a model forgets the one that is open. */
  lemma StepsForget(s: State, b: Block, rest: seq<string>, names: set<string>)
    requires b.ModelBlock? && GoodBlock(b)
    ensures Steps(s, PrintBlock(b) + rest, names) == Steps(State(None, 0, s.models), PrintBlock(b) + rest, names)
  {
    var header := "model " + b.name + " {";
    HeaderLine(b.name, header);
    ModelLines(b, rest);
    StepsCons(s, header, PrintItems(b.items) + (["}"] + rest), names);
    StepsCons(State(None, 0, s.models), header, PrintItems(b.items) + (["}"] + rest), names);
  }

  /** The rest of a schema that is at its end or goes on with a model. */
  lemma StepsRest(s: State, post: seq<Block>, names: set<string>)
    requires GoodSchema(post) && (post == [] || post[0].ModelBlock?)
    ensures Steps(s, PrintBlocks(post) + [""], names).models == s.models + Records(SchemaRevealed(post), names)
  {
    if post == [] {
      assert PrintBlocks(post) + [""] == [""] && [""][1..] == [];
      assert s.models + Records([], names) == s.models;
    } else {
      ConcatAssoc(PrintBlock(post[0]), PrintBlocks(post[1..]), [""]);
      StepsForget(s, post[0], PrintBlocks(post[1..]) + [""], names);
      StepsBlocks(post, s.models, [""], names);
      EndOfText(s.models + Records(SchemaRevealed(post), names), names);
    }
  }

  /**
   The lines of a schema in which the model `name` has an item line of any form: behind the items `before` come the lines
   `tail`, which start with that line and reach to the next model or to the end.
   */
  function OddLines(pre: seq<Block>, name: string, before: seq<Item>, tail: seq<string>, post: seq<Block>): seq<string> {
    PrintBlocks(pre) + (["model " + name + " {"] + (PrintItems(before) + (tail + (PrintBlocks(post) + [""]))))
  }

  ghost predicate GoodOdd(pre: seq<Block>, name: string, before: seq<Item>, tail: seq<string>, post: seq<Block>) {
    && GoodSchema(pre) && GoodBlock(ModelBlock(name, before)) && StartNoModel(tail)
    && GoodSchema(post) && (post == [] || post[0].ModelBlock?)
  }

  ghost function OddNames(pre: seq<Block>, name: string, post: seq<Block>): set<string> {
    ModelNames(pre) + {name} + ModelNames(post)
  }

  lemma BehindNamesIn(before: seq<Item>, tail: seq<string>, post: seq<Block>)
    requires (forall k :: 0 <= k < |before| ==> GoodItem(before[k])) && StartNoModel(tail) && GoodSchema(post)
    ensures NamesIn(PrintItems(before) + (tail + (PrintBlocks(post) + [""]))) == ModelNames(post)
  {
    BlocksNames(post);
    ItemsNameNothing(before);
    NamesInNone(tail);
    ClosingNamesNothing();
    NamesInConcat(PrintBlocks(post), [""]);
    NamesInConcat(tail, PrintBlocks(post) + [""]);
    NamesInConcat(PrintItems(before), tail + (PrintBlocks(post) + [""]));
  }

  lemma OddNamesIn(pre: seq<Block>, name: string, before: seq<Item>, tail: seq<string>, post: seq<Block>)
    requires GoodOdd(pre, name, before, tail, post)
    ensures NamesIn(OddLines(pre, name, before, tail, post)) == OddNames(pre, name, post)
  {
    var header := "model " + name + " {";
    var behind := PrintItems(before) + (tail + (PrintBlocks(post) + [""]));
    BlocksNames(pre);
    BehindNamesIn(before, tail, post);
    HeaderLine(name, header);
    assert NamesIn([header]) == {name} by { assert [header][1..] == []; }
    NamesInConcat([header], behind);
    NamesInConcat(PrintBlocks(pre), [header] + behind);
  }

  lemma OneLineConcat(a: seq<string>, b: seq<string>)
    requires OneLine(a) && OneLine(b)
    ensures OneLine(a + b)
  {
  }

  lemma OddOneLine(pre: seq<Block>, name: string, before: seq<Item>, tail: seq<string>, post: seq<Block>)
    requires GoodOdd(pre, name, before, tail, post)
    ensures OneLine(OddLines(pre, name, before, tail, post))
  {
    var header := "model " + name + " {";
    BlocksOneLine(pre);
    BlocksOneLine(post);
    ItemsOneLine(before);
    HeaderLine(name, header);
    OneLineConcat(PrintBlocks(post), [""]);
    OneLineConcat(tail, PrintBlocks(post) + [""]);
    OneLineConcat(PrintItems(before), tail + (PrintBlocks(post) + [""]));
    OneLineConcat([header], PrintItems(before) + (tail + (PrintBlocks(post) + [""])));
  }

  lemma OddParsed(pre: seq<Block>, name: string, before: seq<Item>, tail: seq<string>, post: seq<Block>)
    requires GoodOdd(pre, name, before, tail, post)
    ensures var lines, names := OddLines(pre, name, before, tail, post), OddNames(pre, name, post);
            Parsed(Join(lines, '\n')) == Steps(START, lines, names).models
  {
    OddOneLine(pre, name, before, tail, post);
    SplitJoin(OddLines(pre, name, before, tail, post), '\n');
    OddNamesIn(pre, name, before, tail, post);
  }

  /** The model as far as it is read before the odd line. */
  ghost function ReadBefore(name: string, before: seq<Item>, names: set<string>): Model {
    AllExtended(NewModel(name), AllRevealed(before), names)
  }

  lemma {:induction false} AllExtendedName(m: Model, items: seq<Item>, names: set<string>)
    ensures AllExtended(m, items, names).name == m.name
    decreases items
  {
    if items != [] { AllExtendedName(Extended(m, items[0], names), items[1..], names); }
  }

  lemma ReadBeforeName(name: string, before: seq<Item>, names: set<string>)
    ensures ReadBefore(name, before, names).name == name
  {
    AllExtendedName(NewModel(name), AllRevealed(before), names);
  }

  lemma OddSteps(pre: seq<Block>, name: string, before: seq<Item>, tail: seq<string>, post: seq<Block>, names: set<string>)
    requires GoodOdd(pre, name, before, tail, post)
    ensures var open := State(Some(ReadBefore(name, before, names)), 1, Records(SchemaRevealed(pre), names));
            Steps(START, OddLines(pre, name, before, tail, post), names).models
              == Steps(open, tail, names).models + Records(SchemaRevealed(post), names)
  {
    var records, b := Records(SchemaRevealed(pre), names), ModelBlock(name, before);
    var rest := PrintBlocks(post) + [""];
    StepsBlocks(pre, [], ["model " + name + " {"] + (PrintItems(before) + (tail + rest)), names);
    assert [] + records == records;
    StepsHeader(b, records, PrintItems(before) + (tail + rest), names);
    StepsItems(NewModel(name), before, records, tail + rest, names);
    var open := State(Some(ReadBefore(name, before, names)), 1, records);
    StepsConcat(open, tail, rest, names);
    StepsRest(Steps(open, tail, names), post, names);
  }

  /** What an open model adds to the records within the lines: itself if they bring its depth to 0, and nothing otherwise. */
  lemma OwnRecord(m: Model, lines: seq<string>, models: seq<Model>, names: set<string>) returns (own: seq<Model>)
    requires StartNoModel(lines)
    ensures if StaysOpen(1, lines) then own == [] else |own| == 1 && own[0].name == m.name
    ensures Steps(State(Some(m), 1, models), lines, names).models == models + own
  {
    var s := StepsOpen(m, 1, lines, models, names);
    own := s.models[|models|..];
    assert s.models == models + own;
  }

  lemma OddRecords(pre: seq<Block>, name: string, before: seq<Item>, tail: seq<string>, post: seq<Block>)
    returns (own: seq<Model>)
    requires GoodOdd(pre, name, before, tail, post)
    ensures if StaysOpen(1, tail) then own == [] else |own| == 1 && own[0].name == name
    ensures var names := OddNames(pre, name, post);
            Parsed(Join(OddLines(pre, name, before, tail, post), '\n'))
              == Records(SchemaRevealed(pre), names) + own + Records(SchemaRevealed(post), names)
  {
    var names := OddNames(pre, name, post);
    OddParsed(pre, name, before, tail, post);
    OddSteps(pre, name, before, tail, post, names);
    ReadBeforeName(name, before, names);
    own := OwnRecord(ReadBefore(name, before, names), tail, Records(SchemaRevealed(pre), names), names);
  }

  /**
   Whatever line stands in a model, the models before and behind it are reported as ever, and the model itself is
   reported if and only if the braces up to the next model bring its depth to 0. A line that opens one brace too many,
   be it in a comment, therefore loses its model unless something outside closes one too many.
   */
  lemma ModelIsReportedIffClosed(pre: seq<Block>, name: string, before: seq<Item>, tail: seq<string>, post: seq<Block>)
    requires GoodOdd(pre, name, before, tail, post)
    ensures var names := OddNames(pre, name, post);
            exists own: seq<Model> ::
              && (if StaysOpen(1, tail) then own == [] else |own| == 1 && own[0].name == name)
              && Parsed(Join(OddLines(pre, name, before, tail, post), '\n'))
                 == Records(SchemaRevealed(pre), names) + own + Records(SchemaRevealed(post), names)
  {
    var own := OddRecords(pre, name, before, tail, post);
  }

  /** A line that closes one brace too many ends its model: what follows it is not read, up to the next model. */
  lemma ClosingLineTruncates(pre: seq<Block>, name: string, before: seq<Item>, tail: seq<string>, post: seq<Block>)
    requires GoodOdd(pre, name, before, tail, post) && tail != [] && '}' in Trim(tail[0]) && Rise(tail[0]) == -1
    ensures var names := OddNames(pre, name, post);
            Parsed(Join(OddLines(pre, name, before, tail, post), '\n'))
              == Records(SchemaRevealed(pre + [ModelBlock(name, before)] + post), names)
  {
    var names, b := OddNames(pre, name, post), ModelBlock(name, before);
    var m, records := ReadBefore(name, before, names), Records(SchemaRevealed(pre), names);
    OddParsed(pre, name, before, tail, post);
    OddSteps(pre, name, before, tail, post, names);
    StepOpen(m, 1, tail[0], records, names);
    StepsOther(tail[1..], records + [Finished(m)], [], names);
    assert tail[1..] + [] == tail[1..];
    ModelRead(BlockRevealed(b), names);
    RecordsOfThree(pre, b, post, names);
  }

  lemma RecordsOfThree(pre: seq<Block>, b: Block, post: seq<Block>, names: set<string>)
    requires b.ModelBlock?
    ensures Records(SchemaRevealed(pre + [b] + post), names)
         == Records(SchemaRevealed(pre), names) + [Declared(BlockRevealed(b), names)] + Records(SchemaRevealed(post), names)
  {
    RevealedIsMapped(pre + [b] + post);
    RevealedIsMapped(pre + [b]);
    RevealedIsMapped(pre);
    RevealedIsMapped([b]);
    RevealedIsMapped(post);
    MappedConcat(pre + [b], post, BlockRevealed);
    MappedConcat(pre, [b], BlockRevealed);
    RecordsConcat(SchemaRevealed(pre + [b]), SchemaRevealed(post), names);
    RecordsConcat(SchemaRevealed(pre), SchemaRevealed([b]), names);
    OneBlock(b, names);
  }

  /** From depth `d` the lines stay within a nested block, until the last one closes it. */
  predicate IsNested(d: int, lines: seq<string>)
    decreases |lines|
  {
    lines != [] &&
    (var d' := d + Rise(lines[0]);
     if |lines| == 1 then d' == 1 && '}' in Trim(lines[0]) else d' > 1 && IsNested(d', lines[1..]))
  }

  /** The lines of a nested block are not read, whatever they declare. */
  lemma {:induction false} NestedIsSkipped(m: Model, d: int, lines: seq<string>, models: seq<Model>, names: set<string>)
    requires StartNoModel(lines) && IsNested(d, lines)
    ensures Steps(State(Some(m), d, models), lines, names) == State(Some(m), 1, models)
    decreases |lines|
  {
    NestedStep(m, d, lines[0], models, names);
    if |lines| > 1 {
      NestedIsSkipped(m, d + Rise(lines[0]), lines[1..], models, names);
    } else {
      assert lines[1..] == [];
    }
  }

  lemma NestedStep(m: Model, d: int, line: string, models: seq<Model>, names: set<string>)
    requires ModelStart(Trim(line)).None?
    requires d + Rise(line) > 1 || (d + Rise(line) == 1 && '}' in Trim(line))
    ensures Step(State(Some(m), d, models), line, names) == State(Some(m), d + Rise(line), models)
  {
    if '}' !in Trim(line) { CountAbsent(Trim(line), '}'); }
  }
}
