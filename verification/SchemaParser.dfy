/**
 The line parser that extracts the models of a Prisma schema: one pass collects the model names, a second one reads
 ids, unique fields, flags and relations while it counts braces.
 */
module SchemaParser {
  import opened Ecma
  import opened Patterns

  // The matching of patterns on a line.

  function Trim(s: string): string {
    if s == "" then ""
    else if IsSpace(s[0]) then Trim(s[1..])
    else if IsSpace(s[|s| - 1]) then Trim(s[..|s| - 1])
    else s
  }

  predicate Contains(s: string, pat: string) {
    pat <= s || (s != "" && Contains(s[1..], pat))
  }

  function Count(s: string, c: char): nat {
    if s == "" then 0 else (if s[0] == c then 1 else 0) + Count(s[1..], c)
  }

  /** `/^model\s+(\w+)\s*\{/`. */
  function ModelStart(t: string): Option<string> {
    if !("model" <= t) then None else
      var i := End(t, 5, Space);
      var j := End(t, i, Word);
      var k := End(t, j, Space);
      if i > 5 && j > i && k < |t| && t[k] == '{' then Some(t[i..j]) else None
  }

  /** `/^@@unique\s*\(\s*\[\s*([^\]]+)\s*\]/`. */
  function CompositeList(t: string): Option<string> {
    if !("@@unique" <= t) then None else
      var i := End(t, 8, Space);
      if i == |t| || t[i] != '(' then None else
        var j := End(t, i + 1, Space);
        if j == |t| || t[j] != '[' then None else
          var k := End(t, j + 1, NonBracket);
          if k == |t| || k == j + 1 then None else Some(t[j + 1..k])
  }

  function CompositeFields(t: string): Option<seq<string>> {
    match CompositeList(t) case Some(list) => Some(Trimmed(Split(list, ','))) case None => None
  }

  function Trimmed(parts: seq<string>): seq<string> {
    if parts == [] then [] else [Trim(parts[0])] + Trimmed(parts[1..])
  }

  /** `/^(\w+)\s+([^\s]+)/`. */
  function FieldMatch(t: string): Option<(string, string)> {
    var i := End(t, 0, Word);
    var j := End(t, i, Space);
    var k := End(t, j, NonSpace);
    if i > 0 && j > i && k > j then Some((t[..i], t[j..k])) else None
  }

  /** The type name without brackets and question marks. */
  function BaseType(typ: string): string {
    if typ == "" then ""
    else (if typ[0] == '[' || typ[0] == ']' || typ[0] == '?' then "" else [typ[0]]) + BaseType(typ[1..])
  }

  // The parser.

  datatype Model = Model(
    name: string,
    idField: Option<string>,
    uniqueFields: seq<string>,
    compositeUniques: seq<seq<string>>,
    hasIsDeleted: bool,
    hasCreatedAt: bool,
    hasRelations: bool)

  function NewModel(name: string): Model {
    Model(name, None, [], [], false, false, false)
  }

  function FieldRead(m: Model, t: string, name: string, typ: string, names: set<string>): Model {
    var isUnique := Contains(t, "@unique") && !Contains(t, "@id") && name !in m.uniqueFields;
    m.(idField := if Contains(t, "@id") then Some(name) else m.idField,
       uniqueFields := if isUnique then m.uniqueFields + [name] else m.uniqueFields,
       hasIsDeleted := m.hasIsDeleted || name == "isDeleted",
       hasCreatedAt := m.hasCreatedAt || name == "createdAt",
       hasRelations := m.hasRelations || Contains(t, "@relation") || BaseType(typ) in names)
  }

  function LineRead(m: Model, t: string, names: set<string>): Model {
    match CompositeFields(t)
    case Some(fields) => m.(compositeUniques := m.compositeUniques + [fields])
    case None =>
      if "@@" <= t then m
      else match FieldMatch(t)
        case None => m
        case Some((name, typ)) => FieldRead(m, t, name, typ, names)
  }

  /** Without an id the first unique field takes its place. */
  function Finished(m: Model): Model {
    if m.idField.None? && |m.uniqueFields| >= 1 then m.(idField := Some(m.uniqueFields[0])) else m
  }

  datatype State = State(current: Option<Model>, depth: int, models: seq<Model>)

  const START: State := State(None, 0, [])

  function Step(s: State, line: string, names: set<string>): State {
    var t := Trim(line);
    match ModelStart(t)
    case Some(name) => State(Some(NewModel(name)), 1, s.models)
    case None =>
      if s.current.None? then s else
        var depth := s.depth + Count(t, '{');
        if '}' in t then
          var depth := depth - Count(t, '}');
          if depth == 0 then State(None, 0, s.models + [Finished(s.current.value)]) else s.(depth := depth)
        else if depth != 1 then s.(depth := depth)
        else s.(depth := depth, current := Some(LineRead(s.current.value, t, names)))
  }

  function Steps(s: State, lines: seq<string>, names: set<string>): State
    decreases lines
  {
    if lines == [] then s else Steps(Step(s, lines[0], names), lines[1..], names)
  }

  function NamesIn(lines: seq<string>): set<string> {
    if lines == [] then {} else
      (match ModelStart(Trim(lines[0])) case Some(name) => {name} case None => {}) + NamesIn(lines[1..])
  }

  function Parsed(content: string): seq<Model> {
    var lines := Split(content, '\n');
    Steps(START, lines, NamesIn(lines)).models
  }

  /** The first pass. */
  method CollectModelNames(lines: seq<string>) returns (modelNames: set<string>)
    ensures modelNames == NamesIn(lines)
  {
    modelNames := {};
    for i := 0 to |lines|
      invariant modelNames + NamesIn(lines[i..]) == NamesIn(lines)
    {
      assert lines[i..][1..] == lines[i + 1..];
      match ModelStart(Trim(lines[i]))
      case Some(name) => modelNames := modelNames + {name};
      case None =>
    }
  }

  /** One pass of the second loop. */
  method ReadLine(line: string, current: Option<Model>, braceDepth: int, models: seq<Model>, modelNames: set<string>)
    returns (current': Option<Model>, braceDepth': int, models': seq<Model>)
    ensures State(current', braceDepth', models') == Step(State(current, braceDepth, models), line, modelNames)
  {
    current', braceDepth', models' := current, braceDepth, models;
    var t := Trim(line);
    var modelStart := ModelStart(t);
    if modelStart.Some? {
      current' := Some(NewModel(modelStart.value));
      braceDepth' := 1;
      return;
    }
    if current.None? { return; }
    braceDepth' := braceDepth + Count(t, '{');
    if '}' in t {
      braceDepth' := braceDepth' - Count(t, '}');
      if braceDepth' == 0 {
        models' := models + [Finished(current.value)];
        current' := None;
      }
      return;
    }
    if braceDepth' != 1 { return; }
    current' := Some(LineRead(current.value, t, modelNames));
  }

  method ParseSchema(content: string) returns (models: seq<Model>)
    ensures models == Parsed(content)
  {
    var lines := Split(content, '\n');
    var modelNames := CollectModelNames(lines);
    models := [];
    var current: Option<Model>, braceDepth := None, 0;
    for i := 0 to |lines|
      invariant Steps(State(current, braceDepth, models), lines[i..], modelNames) == Steps(START, lines, modelNames)
    {
      StepsAt(State(current, braceDepth, models), lines, i, modelNames);
      current, braceDepth, models := ReadLine(lines[i], current, braceDepth, models, modelNames);
    }
  }

  lemma StepsAt(s: State, lines: seq<string>, i: nat, names: set<string>)
    requires i < |lines|
    ensures Steps(s, lines[i..], names) == Steps(Step(s, lines[i], names), lines[i + 1..], names)
  {
    assert lines[i..][1..] == lines[i + 1..];
  }
}
