/**
 Reading and writing nested properties by dotted paths, on a heap of mutable records. Records are shared and
 aliased by reference; a string met on the way of a read is parsed as JSON and read on.
 */
module ObjectPaths {
  import opened Ecma

  /** A property value; arrays are opaque here because no path enters one. */
  datatype Value = Undefined | Null | Bool(b: bool) | Num(n: int) | Text(s: string) | Arr(id: nat, length: nat) | Object(ref: nat)

  type Fields = map<string, Value>

  /** All records, by reference. */
  type Heap = seq<Fields>

  /** A parsed JSON text. */
  datatype Json = JNull | JBool(b: bool) | JNum(n: int) | JText(s: string) | JArr(items: seq<Json>) | JRecord(fields: map<string, Json>)

  /** The JSON parser: `None` where it throws. */
  type Parser = string -> Option<Json>

  /** What a read works on: a property value, or a part of a parsed text. The default of every read is null. */
  datatype Data = Live(v: Value) | Parsed(j: Json)

  const DEFAULT: Data := Live(Null)

  function FieldsOf(h: Heap, ref: nat): Fields {
    if ref < |h| then h[ref] else map[]
  }

  predicate BlankText(s: string) {
    forall k :: 0 <= k < |s| ==> IsSpace(s[k])
  }

  predicate Blank(h: Heap, v: Value) {
    match v
    case Undefined => true
    case Null => true
    case Bool(_) => false
    case Num(n) => n == 0
    case Text(s) => BlankText(s)
    case Arr(_, length) => length == 0
    case Object(ref) => |FieldsOf(h, ref)| == 0
  }

  predicate BlankJson(j: Json) {
    match j
    case JNull => true
    case JBool(_) => false
    case JNum(n) => n == 0
    case JText(s) => BlankText(s)
    case JArr(items) => |items| == 0
    case JRecord(fields) => |fields| == 0
  }

  /** A string stands for what it parses to, and for the default if it does not parse. */
  function Opened(json: Parser, data: Data): Data {
    match data
    case Live(Text(s)) => (match json(s) case Some(j) => Parsed(j) case None => DEFAULT)
    case Parsed(JText(s)) => (match json(s) case Some(j) => Parsed(j) case None => DEFAULT)
    case _ => data
  }

  predicate IsObject(data: Data) {
    match data
    case Live(v) => v.Object?
    case Parsed(j) => j.JRecord?
  }

  function Property(h: Heap, obj: Data, key: string): Data
    requires IsObject(obj)
  {
    match obj
    case Live(v) =>
      var fields := FieldsOf(h, v.ref);
      if key in fields && !Blank(h, fields[key]) then Live(fields[key]) else DEFAULT
    case Parsed(j) =>
      if key in j.fields && !BlankJson(j.fields[key]) then Parsed(j.fields[key]) else DEFAULT
  }

  /** `getValue` of a name without dots. */
  function GetKey(json: Parser, h: Heap, data: Data, key: string): Data {
    var obj := Opened(json, data);
    if IsObject(obj) then Property(h, obj, key) else DEFAULT
  }

  /** The reduction over the parts of a dotted name. */
  function GetAll(json: Parser, h: Heap, acc: Data, keys: seq<string>): Data
    decreases keys
  {
    if keys == [] then acc
    else GetAll(json, h, if acc != DEFAULT then GetKey(json, h, acc, keys[0]) else DEFAULT, keys[1..])
  }

  /** `getValue` with the default null. */
  function GetValue(json: Parser, h: Heap, data: Data, name: string): Data {
    var obj := Opened(json, data);
    if !IsObject(obj) then DEFAULT
    else if '.' in name then GetAll(json, h, obj, Split(name, '.'))
    else Property(h, obj, name)
  }

  /** Every reference leads to a record. */
  ghost predicate Closed(h: Heap) {
    forall r, k :: 0 <= r < |h| && k in h[r] && h[r][k].Object? ==> h[r][k].ref < |h|
  }

  /** `setNestedValue` on the heap: missing and unsuitable records on the way are replaced by new ones. */
  function SetKeys(h: Heap, ref: nat, keys: seq<string>, v: Value): Heap
    requires ref < |h| && keys != [] && Closed(h)
    decreases keys
  {
    var key := keys[0];
    if |keys| == 1 then
      if key == "" then h else h[ref := h[ref][key := v]]
    else if key == "" then SetKeys(h, ref, keys[1..], v)
    else if key in h[ref] && h[ref][key].Object? then SetKeys(h, h[ref][key].ref, keys[1..], v)
    else SetKeys(h[ref := h[ref][key := Object(|h|)]] + [map[]], |h|, keys[1..], v)
  }

  class Store {
    var objects: Heap

    method SetNestedValue(root: nat, path: string, v: Value)
      requires root < |objects| && Closed(objects)
      modifies this
      ensures objects == SetKeys(old(objects), root, Split(path, '.'), v)
    {
      var keys := Split(path, '.');
      var obj: nat := root;
      for i := 0 to |keys| - 1
        invariant obj < |objects| && Closed(objects)
        invariant SetKeys(objects, obj, keys[i..], v) == SetKeys(old(objects), root, keys, v)
      {
        assert keys[i..][1..] == keys[i + 1..];
        var key := keys[i];
        if key == "" { continue; }
        if key !in objects[obj] || !objects[obj][key].Object? {
          objects := objects[obj := objects[obj][key := Object(|objects|)]] + [map[]];
        }
        obj := objects[obj][key].ref;
      }
      var lastKey := keys[|keys| - 1];
      if lastKey != "" {
        objects := objects[obj := objects[obj][lastKey := v]];
      }
    }
  }

  /** The dotted read is the reduction over the parts of the name, whether or not there is a dot. */
  lemma GetValueIsGetAll(json: Parser, h: Heap, root: nat, name: string)
    ensures GetValue(json, h, Live(Object(root)), name) == GetAll(json, h, Live(Object(root)), Split(name, '.'))
  {
    if '.' !in name {
      var keys := Split(name, '.');
      OnePart(name, '.');
      assert keys[1..] == [];
    }
  }

  lemma {:induction false} OnePart(s: string, sep: char)
    requires sep !in s
    ensures Split(s, sep) == [s]
  {
    if s != "" {
      OnePart(s[1..], sep);
      assert s == [s[0]] + s[1..];
    }
  }

  lemma {:induction false} DefaultStays(json: Parser, h: Heap, keys: seq<string>)
    ensures GetAll(json, h, DEFAULT, keys) == DEFAULT
  {
    if keys != [] { DefaultStays(json, h, keys[1..]); }
  }

  // What a write touches.

  /** The records that a write passes, among those that exist before it. */
  function Visited(h: Heap, ref: nat, keys: seq<string>): seq<nat>
    decreases keys
  {
    if |keys| <= 1 then [ref]
    else if keys[0] == "" then Visited(h, ref, keys[1..])
    else
      var fields := FieldsOf(h, ref);
      [ref] + if keys[0] in fields && fields[keys[0]].Object? then Visited(h, fields[keys[0]].ref, keys[1..]) else []
  }

  ghost predicate Distinct(refs: seq<nat>) {
    forall i, j :: 0 <= i < j < |refs| ==> refs[i] != refs[j]
  }

  ghost predicate NoEmptyKey(keys: seq<string>) {
    forall k :: 0 <= k < |keys| ==> keys[k] != ""
  }

  /** The heap in which the record `ref` has a new empty record under `key`. */
  function WithNew(h: Heap, ref: nat, key: string): Heap
    requires ref < |h|
  {
    h[ref := h[ref][key := Object(|h|)]] + [map[]]
  }

  lemma {:induction false} WriteFrame(h: Heap, ref: nat, keys: seq<string>, v: Value)
    requires ref < |h| && keys != [] && Closed(h)
    ensures |h| <= |SetKeys(h, ref, keys, v)|
    ensures forall r :: 0 <= r < |h| && r !in Visited(h, ref, keys) ==> SetKeys(h, ref, keys, v)[r] == h[r]
    ensures keys[0] != "" ==> keys[0] in SetKeys(h, ref, keys, v)[ref]
    decreases keys
  {
    if |keys| > 1 {
      var key := keys[0];
      if key == "" {
        WriteFrame(h, ref, keys[1..], v);
      } else if key in h[ref] && h[ref][key].Object? {
        WriteFrame(h, h[ref][key].ref, keys[1..], v);
        WriteKeeps(h, h[ref][key].ref, keys[1..], v, ref, key);
      } else {
        var h0 := WithNew(h, ref, key);
        FreshVisited(h0, |h|, keys[1..]);
        WriteFrame(h0, |h|, keys[1..], v);
        WriteKeeps(h0, |h|, keys[1..], v, ref, key);
      }
    }
  }

  /** From an empty record a write passes no other. */
  lemma {:induction false} FreshVisited(h: Heap, ref: nat, keys: seq<string>)
    requires FieldsOf(h, ref) == map[]
    ensures Visited(h, ref, keys) == [ref]
    decreases keys
  {
    if |keys| > 1 && keys[0] == "" { FreshVisited(h, ref, keys[1..]); }
  }

  /** A write removes no property. */
  lemma {:induction false} WriteKeeps(h: Heap, ref: nat, keys: seq<string>, v: Value, r: nat, key: string)
    requires ref < |h| && keys != [] && Closed(h) && r < |h| && key in h[r]
    ensures r < |SetKeys(h, ref, keys, v)| && key in SetKeys(h, ref, keys, v)[r]
    decreases keys
  {
    if |keys| > 1 {
      if keys[0] == "" {
        WriteKeeps(h, ref, keys[1..], v, r, key);
      } else if keys[0] in h[ref] && h[ref][keys[0]].Object? {
        WriteKeeps(h, h[ref][keys[0]].ref, keys[1..], v, r, key);
      } else {
        WriteKeeps(WithNew(h, ref, keys[0]), |h|, keys[1..], v, r, key);
      }
    }
  }

  lemma {:induction false} WriteKeepsClosed(h: Heap, ref: nat, keys: seq<string>, v: Value)
    requires ref < |h| && keys != [] && Closed(h) && (v.Object? ==> v.ref < |h|)
    ensures Closed(SetKeys(h, ref, keys, v))
    decreases keys
  {
    if |keys| > 1 {
      if keys[0] == "" {
        WriteKeepsClosed(h, ref, keys[1..], v);
      } else if keys[0] in h[ref] && h[ref][keys[0]].Object? {
        WriteKeepsClosed(h, h[ref][keys[0]].ref, keys[1..], v);
      } else {
        WriteKeepsClosed(WithNew(h, ref, keys[0]), |h|, keys[1..], v);
      }
    }
  }

  // Law 1: a read gives back what was written at the same path.

  lemma {:induction false} ReadBackKeys(json: Parser, h: Heap, ref: nat, keys: seq<string>, v: Value)
    requires ref < |h| && keys != [] && Closed(h) && NoEmptyKey(keys)
    requires Distinct(Visited(h, ref, keys)) && !Blank(h, v)
    ensures GetAll(json, SetKeys(h, ref, keys, v), Live(Object(ref)), keys) == Live(v)
    decreases keys
  {
    var h' := SetKeys(h, ref, keys, v);
    var key := keys[0];
    NonBlankStays(h, ref, keys, v);
    if |keys| == 1 {
      assert keys[1..] == [];
    } else if key in h[ref] && h[ref][key].Object? {
      var c := h[ref][key].ref;
      VisitedTail(h, ref, keys);
      WriteFrame(h, c, keys[1..], v);
      ReadBackKeys(json, h, c, keys[1..], v);
      StepInto(json, h', ref, key, c, keys[1]);
    } else {
      var h0 := WithNew(h, ref, key);
      assert Visited(h0, |h|, keys[1..]) == [|h|];
      WriteFrame(h0, |h|, keys[1..], v);
      NonBlankInNew(h, ref, key, v);
      ReadBackKeys(json, h0, |h|, keys[1..], v);
      StepInto(json, h', ref, key, |h|, keys[1]);
    }
  }

  lemma VisitedTail(h: Heap, ref: nat, keys: seq<string>)
    requires |keys| > 1 && keys[0] != "" && ref < |h| && keys[0] in h[ref] && h[ref][keys[0]].Object?
    requires Distinct(Visited(h, ref, keys))
    ensures Distinct(Visited(h, h[ref][keys[0]].ref, keys[1..])) && ref !in Visited(h, h[ref][keys[0]].ref, keys[1..])
  {
    var tail := Visited(h, h[ref][keys[0]].ref, keys[1..]);
    assert Visited(h, ref, keys)[1..] == tail;
    forall i, j | 0 <= i < j < |tail| ensures tail[i] != tail[j] {
      assert tail[i] == Visited(h, ref, keys)[i + 1] && tail[j] == Visited(h, ref, keys)[j + 1];
    }
    forall i | 0 <= i < |tail| ensures tail[i] != ref {
      assert tail[i] == Visited(h, ref, keys)[i + 1] && ref == Visited(h, ref, keys)[0];
    }
  }

  /** A read steps into a record that holds some property. */
  lemma StepInto(json: Parser, h: Heap, ref: nat, key: string, c: nat, some: string)
    requires ref < |h| && c < |h| && key in h[ref] && h[ref][key] == Object(c) && some in h[c]
    ensures GetKey(json, h, Live(Object(ref)), key) == Live(Object(c))
  {
    assert |h[c]| > 0;
  }

  lemma NonBlankStays(h: Heap, ref: nat, keys: seq<string>, v: Value)
    requires ref < |h| && keys != [] && Closed(h) && NoEmptyKey(keys) && !Blank(h, v)
    ensures !Blank(SetKeys(h, ref, keys, v), v)
  {
    if v.Object? {
      var some :| some in FieldsOf(h, v.ref);
      WriteKeeps(h, ref, keys, v, v.ref, some);
    }
  }

  lemma NonBlankInNew(h: Heap, ref: nat, key: string, v: Value)
    requires ref < |h| && !Blank(h, v)
    ensures !Blank(WithNew(h, ref, key), v)
  {
    if v.Object? {
      var some :| some in FieldsOf(h, v.ref);
      assert some in FieldsOf(WithNew(h, ref, key), v.ref);
    }
  }

  // Law 2: a second write at the same path hides the first.

  lemma {:induction false} SecondWriteHides(h: Heap, ref: nat, keys: seq<string>, v: Value, w: Value)
    requires ref < |h| && keys != [] && Closed(h) && Distinct(Visited(h, ref, keys))
    requires v.Object? ==> v.ref < |h|
    ensures ref < |SetKeys(h, ref, keys, v)| && Closed(SetKeys(h, ref, keys, v))
    ensures SetKeys(SetKeys(h, ref, keys, v), ref, keys, w) == SetKeys(h, ref, keys, w)
    decreases keys
  {
    var key := keys[0];
    WriteFrame(h, ref, keys, v);
    WriteKeepsClosed(h, ref, keys, v);
    if |keys| == 1 {
      if key != "" { assert h[ref][key := v][key := w] == h[ref][key := w]; }
    } else if key == "" {
      SecondWriteHides(h, ref, keys[1..], v, w);
    } else if key in h[ref] && h[ref][key].Object? {
      VisitedTail(h, ref, keys);
      WriteFrame(h, h[ref][key].ref, keys[1..], v);
      SecondWriteHides(h, h[ref][key].ref, keys[1..], v, w);
    } else {
      var h0 := WithNew(h, ref, key);
      FreshVisited(h0, |h|, keys[1..]);
      WriteFrame(h0, |h|, keys[1..], v);
      SecondWriteHides(h0, |h|, keys[1..], v, w);
    }
  }

  // Law 3: a read at an unrelated path.

  /** The record that `keys` lead to through records only. */
  function Reach(h: Heap, ref: nat, keys: seq<string>): Option<nat>
    decreases keys
  {
    if keys == [] then Some(ref)
    else if keys[0] in FieldsOf(h, ref) && FieldsOf(h, ref)[keys[0]].Object? then Reach(h, FieldsOf(h, ref)[keys[0]].ref, keys[1..])
    else None
  }

  /** The records below `ref` form a tree: no record is reached in two ways. */
  ghost predicate Unshared(h: Heap, ref: nat) {
    forall ks, ls :: Reach(h, ref, ks).Some? && Reach(h, ref, ks) == Reach(h, ref, ls) ==> ks == ls
  }

  lemma ReachStep(h: Heap, ref: nat, key: string, keys: seq<string>)
    ensures Reach(h, ref, [key] + keys)
         == if key in FieldsOf(h, ref) && FieldsOf(h, ref)[key].Object? then Reach(h, FieldsOf(h, ref)[key].ref, keys) else None
  {
    assert ([key] + keys)[1..] == keys;
  }

  lemma UnsharedChild(h: Heap, ref: nat, key: string)
    requires Unshared(h, ref) && key in FieldsOf(h, ref) && FieldsOf(h, ref)[key].Object?
    ensures Unshared(h, FieldsOf(h, ref)[key].ref)
  {
    var c := FieldsOf(h, ref)[key].ref;
    forall ks, ls | Reach(h, c, ks).Some? && Reach(h, c, ks) == Reach(h, c, ls)
      ensures ks == ls
    {
      ReachStep(h, ref, key, ks);
      ReachStep(h, ref, key, ls);
      assert ([key] + ks)[1..] == ks && ([key] + ls)[1..] == ls;
    }
  }

  lemma {:induction false} ReachInHeap(h: Heap, ref: nat, keys: seq<string>)
    requires Closed(h) && ref < |h| && Reach(h, ref, keys).Some?
    ensures Reach(h, ref, keys).value < |h|
    decreases keys
  {
    if keys != [] { ReachInHeap(h, h[ref][keys[0]].ref, keys[1..]); }
  }

  lemma {:induction false} VisitedIsReach(h: Heap, ref: nat, keys: seq<string>, i: nat)
    requires keys != [] && NoEmptyKey(keys) && i < |Visited(h, ref, keys)|
    ensures i < |keys| && Reach(h, ref, keys[..i]) == Some(Visited(h, ref, keys)[i])
    decreases keys
  {
    if i > 0 {
      VisitedIsReach(h, FieldsOf(h, ref)[keys[0]].ref, keys[1..], i - 1);
      assert keys[..i][1..] == keys[1..][..i - 1];
    }
  }

  /** The same for any path: empty segments lead nowhere. */
  lemma {:induction false} VisitedIsReached(h: Heap, ref: nat, keys: seq<string>, i: nat) returns (ks: seq<string>)
    requires i < |Visited(h, ref, keys)|
    ensures |ks| == i && Reach(h, ref, ks) == Some(Visited(h, ref, keys)[i])
    decreases keys
  {
    if |keys| > 1 && keys[0] == "" {
      ks := VisitedIsReached(h, ref, keys[1..], i);
    } else if i == 0 {
      ks := [];
    } else {
      var rest := VisitedIsReached(h, FieldsOf(h, ref)[keys[0]].ref, keys[1..], i - 1);
      ReachStep(h, ref, keys[0], rest);
      ks := [keys[0]] + rest;
    }
  }

  lemma UnsharedIsDistinct(h: Heap, ref: nat, keys: seq<string>)
    requires Unshared(h, ref)
    ensures Distinct(Visited(h, ref, keys))
  {
    var refs := Visited(h, ref, keys);
    forall i, j | 0 <= i < j < |refs| ensures refs[i] != refs[j] {
      var ks := VisitedIsReached(h, ref, keys, i);
      var ls := VisitedIsReached(h, ref, keys, j);
      assert |ks| < |ls|;
    }
  }

  /** The two heaps agree on everything reached from `ref`. */
  ghost predicate AgreeBelow(h: Heap, h': Heap, ref: nat) {
    forall ks :: Reach(h, ref, ks).Some? ==> FieldsOf(h', Reach(h, ref, ks).value) == FieldsOf(h, Reach(h, ref, ks).value)
  }

  lemma AgreeOnProperty(h: Heap, h': Heap, v: Value)
    requires v.Object? ==> AgreeBelow(h, h', v.ref)
    ensures Blank(h, v) == Blank(h', v)
  {
    if v.Object? { assert Reach(h, v.ref, []) == Some(v.ref); }
  }

  lemma AgreeChild(h: Heap, h': Heap, ref: nat, key: string)
    requires AgreeBelow(h, h', ref) && key in FieldsOf(h, ref) && FieldsOf(h, ref)[key].Object?
    ensures AgreeBelow(h, h', FieldsOf(h, ref)[key].ref)
  {
    forall ks | Reach(h, FieldsOf(h, ref)[key].ref, ks).Some?
      ensures FieldsOf(h', Reach(h, FieldsOf(h, ref)[key].ref, ks).value) == FieldsOf(h, Reach(h, FieldsOf(h, ref)[key].ref, ks).value)
    {
      ReachStep(h, ref, key, ks);
    }
  }

  lemma {:induction false} AgreeingReads(json: Parser, h: Heap, h': Heap, data: Data, keys: seq<string>)
    requires data.Live? && data.v.Object? ==> AgreeBelow(h, h', data.v.ref)
    ensures GetAll(json, h', data, keys) == GetAll(json, h, data, keys)
    decreases keys
  {
    if keys != [] && data != DEFAULT {
      if data.Live? && data.v.Object? {
        var ref := data.v.ref;
        assert Reach(h, ref, []) == Some(ref);
        if keys[0] in FieldsOf(h, ref) {
          var v := FieldsOf(h, ref)[keys[0]];
          if v.Object? { AgreeChild(h, h', ref, keys[0]); }
          AgreeOnProperty(h, h', v);
        }
      }
      AgreeingReads(json, h, h', GetKey(json, h, data, keys[0]), keys[1..]);
    } else {
      DefaultStays(json, h, keys);
      DefaultStays(json, h', keys);
    }
  }

  /** Of the record it starts at, a write changes only the first key of its path. */
  lemma WriteAtRoot(h: Heap, ref: nat, keys: seq<string>, v: Value, other: string)
    requires ref < |h| && keys != [] && Closed(h) && NoEmptyKey(keys) && Distinct(Visited(h, ref, keys)) && other != keys[0]
    ensures ref < |SetKeys(h, ref, keys, v)|
    ensures other in SetKeys(h, ref, keys, v)[ref] <==> other in h[ref]
    ensures other in h[ref] ==> SetKeys(h, ref, keys, v)[ref][other] == h[ref][other]
  {
    if |keys| > 1 {
      var key := keys[0];
      if key in h[ref] && h[ref][key].Object? {
        VisitedTail(h, ref, keys);
        WriteFrame(h, h[ref][key].ref, keys[1..], v);
      } else {
        var h0 := WithNew(h, ref, key);
        assert Visited(h0, |h|, keys[1..]) == [|h|];
        WriteFrame(h0, |h|, keys[1..], v);
      }
    }
  }

  /** What hangs under another key of the starting record is not touched. */
  lemma SiblingsAgree(h: Heap, ref: nat, keys: seq<string>, v: Value, other: string)
    requires ref < |h| && keys != [] && Closed(h) && NoEmptyKey(keys) && Unshared(h, ref)
    requires other != keys[0] && other in h[ref] && h[ref][other].Object?
    ensures AgreeBelow(h, SetKeys(h, ref, keys, v), h[ref][other].ref)
  {
    var c, refs := h[ref][other].ref, Visited(h, ref, keys);
    WriteFrame(h, ref, keys, v);
    forall ks | Reach(h, c, ks).Some?
      ensures FieldsOf(SetKeys(h, ref, keys, v), Reach(h, c, ks).value) == FieldsOf(h, Reach(h, c, ks).value)
    {
      var r := Reach(h, c, ks).value;
      ReachInHeap(h, c, ks);
      ReachStep(h, ref, other, ks);
      forall i | 0 <= i < |refs| ensures refs[i] != r {
        VisitedIsReach(h, ref, keys, i);
        assert keys[..i] != [other] + ks by {
          if i > 0 { assert keys[..i][0] == keys[0]; }
        }
      }
    }
  }

  lemma ReadBesideWrite(json: Parser, h: Heap, ref: nat, p: seq<string>, q: seq<string>, v: Value)
    requires ref < |h| && Closed(h) && NoEmptyKey(p) && Unshared(h, ref) && p != [] && q != [] && p[0] != q[0]
    ensures GetAll(json, SetKeys(h, ref, p, v), Live(Object(ref)), q) == GetAll(json, h, Live(Object(ref)), q)
  {
    var h', other := SetKeys(h, ref, p, v), q[0];
    UnsharedIsDistinct(h, ref, p);
    WriteAtRoot(h, ref, p, v, other);
    if other in h[ref] {
      if h[ref][other].Object? { SiblingsAgree(h, ref, p, v, other); }
      AgreeOnProperty(h, h', h[ref][other]);
    }
    assert GetKey(json, h', Live(Object(ref)), other) == GetKey(json, h, Live(Object(ref)), other);
    AgreeingReads(json, h, h', GetKey(json, h, Live(Object(ref)), other), q[1..]);
  }

  /** How many records a write finds on its way before it has to create one. */
  function Found(h: Heap, ref: nat, keys: seq<string>): nat
    decreases keys
  {
    if |keys| > 1 && keys[0] in FieldsOf(h, ref) && FieldsOf(h, ref)[keys[0]].Object?
    then 1 + Found(h, FieldsOf(h, ref)[keys[0]].ref, keys[1..]) else 0
  }

  /** The paths part at position `n`. */
  ghost predicate ForkAt(p: seq<string>, q: seq<string>, n: nat) {
    n < |p| && n < |q| && p[..n] == q[..n] && p[n] != q[n]
  }

  lemma ForkTail(p: seq<string>, q: seq<string>, n: nat)
    requires ForkAt(p, q, n) && n > 0
    ensures p[0] == q[0] && ForkAt(p[1..], q[1..], n - 1) && [p[0]] + q[1..] == q
  {
    assert p[0] == p[..n][0] == q[..n][0] == q[0];
    assert p[..n][1..] == p[1..][..n - 1] && q[..n][1..] == q[1..][..n - 1];
  }

  lemma EmptyRecordReads(json: Parser, h: Heap, ref: nat, keys: seq<string>)
    requires keys != [] && FieldsOf(h, ref) == map[]
    ensures GetAll(json, h, Live(Object(ref)), keys) == DEFAULT
  {
    DefaultStays(json, h, keys[1..]);
  }

  lemma FreshIsUnshared(h: Heap, ref: nat)
    requires FieldsOf(h, ref) == map[]
    ensures Unshared(h, ref)
  {
    assert forall ks :: Reach(h, ref, ks).Some? ==> ks == [];
  }

  lemma StepThroughExisting(json: Parser, h: Heap, ref: nat, key: string, c: nat, keys: seq<string>)
    requires ref < |h| && c < |h| && key in h[ref] && h[ref][key] == Object(c) && keys != []
    ensures GetAll(json, h, Live(Object(ref)), [key] + keys) == GetAll(json, h, Live(Object(c)), keys)
  {
    assert ([key] + keys)[1..] == keys;
    if |h[c]| == 0 {
      EmptyRecordReads(json, h, c, keys);
      DefaultStays(json, h, keys);
    }
  }

  /** A read that parts from a write at `n`: null if the write created a record above the fork, and otherwise as before. */
  lemma {:induction false} ReadOffWrite(json: Parser, h: Heap, ref: nat, p: seq<string>, q: seq<string>, n: nat, v: Value)
    requires ref < |h| && Closed(h) && NoEmptyKey(p) && Unshared(h, ref) && ForkAt(p, q, n)
    ensures GetAll(json, SetKeys(h, ref, p, v), Live(Object(ref)), q)
         == if Found(h, ref, p) < n then DEFAULT else GetAll(json, h, Live(Object(ref)), q)
    decreases n
  {
    if n == 0 {
      ReadBesideWrite(json, h, ref, p, q, v);
    } else {
      var h', key := SetKeys(h, ref, p, v), p[0];
      ForkTail(p, q, n);
      UnsharedIsDistinct(h, ref, p);
      if key in h[ref] && h[ref][key].Object? {
        var c := h[ref][key].ref;
        UnsharedChild(h, ref, key);
        VisitedTail(h, ref, p);
        WriteFrame(h, c, p[1..], v);
        ReadOffWrite(json, h, c, p[1..], q[1..], n - 1, v);
        StepThroughExisting(json, h', ref, key, c, q[1..]);
        StepThroughExisting(json, h, ref, key, c, q[1..]);
      } else {
        var h0, c := WithNew(h, ref, key), |h|;
        assert Visited(h0, c, p[1..]) == [c];
        FreshIsUnshared(h0, c);
        WriteFrame(h0, c, p[1..], v);
        ReadOffWrite(json, h0, c, p[1..], q[1..], n - 1, v);
        EmptyRecordReads(json, h0, c, q[1..]);
        StepThroughExisting(json, h', ref, key, c, q[1..]);
      }
    }
  }

  /** The property that the write replaces by a new record, if it creates any. */
  function Replaced(h: Heap, ref: nat, keys: seq<string>): Option<Value>
    decreases keys
  {
    if |keys| <= 1 || keys[0] !in FieldsOf(h, ref) then None
    else if FieldsOf(h, ref)[keys[0]].Object? then Replaced(h, FieldsOf(h, ref)[keys[0]].ref, keys[1..])
    else Some(FieldsOf(h, ref)[keys[0]])
  }

  /** `v` is a string that holds the JSON text of a record. */
  predicate HoldsRecord(json: Parser, v: Value) {
    v.Text? && json(v.s).Some? && json(v.s).value.JRecord?
  }

  /** The record whose JSON text the write replaces, if it replaces one. */
  function ReplacedRecord(json: Parser, h: Heap, ref: nat, keys: seq<string>): Option<Json> {
    match Replaced(h, ref, keys)
    case Some(v) => if HoldsRecord(json, v) && !BlankText(v.s) then json(v.s) else None
    case None => None
  }

  /** What a read of `keys` gives in it. */
  function ReadInRecord(json: Parser, h: Heap, record: Option<Json>, keys: seq<string>): Data {
    match record case Some(j) => GetAll(json, h, Parsed(j), keys) case None => DEFAULT
  }

  /** A read through a property that is no record. */
  lemma ReadThroughValue(json: Parser, h: Heap, v: Value, keys: seq<string>)
    requires !v.Object? && !Blank(h, v) && keys != []
    ensures GetAll(json, h, Live(v), keys) == if HoldsRecord(json, v) then GetAll(json, h, Parsed(json(v.s).value), keys) else DEFAULT
  {
    DefaultStays(json, h, keys[1..]);
  }

  /** What a read of `q` finds in the record whose JSON text the write to `p` replaces. */
  function ReadInReplaced(json: Parser, h: Heap, ref: nat, p: seq<string>, q: seq<string>): Data
    requires Found(h, ref, p) < |q|
  {
    ReadInRecord(json, h, ReplacedRecord(json, h, ref, p), q[Found(h, ref, p) + 1..])
  }

  lemma ReplacedBelow(json: Parser, h: Heap, ref: nat, p: seq<string>, q: seq<string>, c: nat)
    requires ref < |h| && |p| > 1 && p[0] in h[ref] && h[ref][p[0]] == Object(c) && Found(h, ref, p) < |q|
    ensures Found(h, ref, p) == Found(h, c, p[1..]) + 1
    ensures ReadInReplaced(json, h, ref, p, q) == ReadInReplaced(json, h, c, p[1..], q[1..])
  {
    assert q[Found(h, ref, p) + 1..] == q[1..][Found(h, c, p[1..]) + 1..];
  }

  /** Before the write, a read that parts from it below the replaced property reads in the JSON text of that property. */
  lemma {:induction false} ReadThroughReplaced(json: Parser, h: Heap, ref: nat, p: seq<string>, q: seq<string>, n: nat)
    requires ref < |h| && Closed(h) && ForkAt(p, q, n) && Found(h, ref, p) < n
    ensures GetAll(json, h, Live(Object(ref)), q) == ReadInReplaced(json, h, ref, p, q)
    decreases n
  {
    var key, rest := p[0], q[1..];
    ForkTail(p, q, n);
    if key in h[ref] && h[ref][key].Object? {
      var c := h[ref][key].ref;
      ReplacedBelow(json, h, ref, p, q, c);
      ReadThroughReplaced(json, h, c, p[1..], rest, n - 1);
      StepThroughExisting(json, h, ref, key, c, rest);
    } else {
      ReadAtReplaced(json, h, ref, p, key, rest);
    }
  }

  lemma ReadAtReplaced(json: Parser, h: Heap, ref: nat, p: seq<string>, key: string, rest: seq<string>)
    requires ref < |h| && |p| > 1 && p[0] == key && rest != [] && (key in h[ref] ==> !h[ref][key].Object?)
    ensures GetAll(json, h, Live(Object(ref)), [key] + rest) == ReadInRecord(json, h, ReplacedRecord(json, h, ref, p), rest)
  {
    assert ([key] + rest)[1..] == rest;
    DefaultStays(json, h, rest);
    if key in h[ref] && !Blank(h, h[ref][key]) { ReadThroughValue(json, h, h[ref][key], rest); }
  }

  // The laws for dotted paths.

  function SetPath(h: Heap, root: nat, path: string, v: Value): Heap
    requires root < |h| && Closed(h)
  {
    SetKeys(h, root, Split(path, '.'), v)
  }

  /** The records passed on the way to `path` are pairwise different; an unshared root passes the test for every path. */
  ghost predicate PlainWay(h: Heap, root: nat, path: string) {
    Distinct(Visited(h, root, Split(path, '.')))
  }

  lemma UnsharedHasPlainWays(h: Heap, root: nat, path: string)
    requires Unshared(h, root)
    ensures PlainWay(h, root, path)
  {
    UnsharedIsDistinct(h, root, Split(path, '.'));
  }

  /** A read at the written path gives the written value, if no segment of the path is empty. */
  lemma ReadBack(json: Parser, h: Heap, root: nat, path: string, v: Value)
    requires root < |h| && Closed(h) && PlainWay(h, root, path) && NoEmptyKey(Split(path, '.')) && !Blank(h, v)
    ensures GetValue(json, SetPath(h, root, path, v), Live(Object(root)), path) == Live(v)
  {
    ReadBackKeys(json, h, root, Split(path, '.'), v);
    GetValueIsGetAll(json, SetPath(h, root, path, v), root, path);
  }

  /** No record has a property with an empty name. */
  ghost predicate NamesAreFilled(h: Heap) {
    forall r :: 0 <= r < |h| ==> "" !in h[r]
  }

  predicate JsonIsFilled(j: Json) {
    match j
    case JRecord(fields) => "" !in fields && forall k :: k in fields ==> JsonIsFilled(fields[k])
    case _ => true
  }

  /** Neither has any record that a JSON text holds. */
  ghost predicate ParsesFilled(json: Parser) {
    forall s :: json(s).Some? ==> JsonIsFilled(json(s).value)
  }

  predicate IsFilled(data: Data) {
    data.Parsed? ==> JsonIsFilled(data.j)
  }

  lemma GetKeyFilled(json: Parser, h: Heap, data: Data, key: string)
    requires NamesAreFilled(h) && ParsesFilled(json) && IsFilled(data)
    ensures IsFilled(GetKey(json, h, data, key)) && (key == "" ==> GetKey(json, h, data, key) == DEFAULT)
  {
    assert IsFilled(Opened(json, data));
  }

  lemma {:induction false} EmptySegmentReadsNull(json: Parser, h: Heap, data: Data, keys: seq<string>)
    requires NamesAreFilled(h) && ParsesFilled(json) && IsFilled(data) && !NoEmptyKey(keys)
    ensures GetAll(json, h, data, keys) == DEFAULT
    decreases keys
  {
    var next := if data != DEFAULT then GetKey(json, h, data, keys[0]) else DEFAULT;
    GetKeyFilled(json, h, data, keys[0]);
    if keys[0] == "" {
      DefaultStays(json, h, keys[1..]);
    } else {
      EmptySegmentReadsNull(json, h, next, keys[1..]);
    }
  }

  lemma {:induction false} WriteKeepsFilled(h: Heap, ref: nat, keys: seq<string>, v: Value)
    requires ref < |h| && keys != [] && Closed(h) && NamesAreFilled(h)
    ensures NamesAreFilled(SetKeys(h, ref, keys, v))
    decreases keys
  {
    if |keys| > 1 {
      if keys[0] == "" {
        WriteKeepsFilled(h, ref, keys[1..], v);
      } else if keys[0] in h[ref] && h[ref][keys[0]].Object? {
        WriteKeepsFilled(h, h[ref][keys[0]].ref, keys[1..], v);
      } else {
        WriteKeepsFilled(WithNew(h, ref, keys[0]), |h|, keys[1..], v);
      }
    }
  }

  /** Where no property has an empty name, this condition is exact: writes skip empty segments, but reads do not. */
  lemma ReadBackIff(json: Parser, h: Heap, root: nat, path: string, v: Value)
    requires root < |h| && Closed(h) && PlainWay(h, root, path) && !Blank(h, v) && NamesAreFilled(h) && ParsesFilled(json)
    ensures GetValue(json, SetPath(h, root, path, v), Live(Object(root)), path) == Live(v) <==> NoEmptyKey(Split(path, '.'))
  {
    if NoEmptyKey(Split(path, '.')) {
      ReadBack(json, h, root, path, v);
    } else {
      WriteKeepsFilled(h, root, Split(path, '.'), v);
      GetValueIsGetAll(json, SetPath(h, root, path, v), root, path);
      EmptySegmentReadsNull(json, SetPath(h, root, path, v), Live(Object(root)), Split(path, '.'));
    }
  }

  /** Writing 1 at `a.` in an empty record leaves an empty record in `a`, and reading `a.` gives null. */
  lemma TrailingDotIsLost(json: Parser)
    ensures var h: Heap := [map[]];
            && Closed(h) && SetPath(h, 0, "a.", Num(1)) == [map["a" := Object(1)], map[]]
            && GetValue(json, SetPath(h, 0, "a.", Num(1)), Live(Object(0)), "a.") == DEFAULT
  {
    var h: Heap := [map[]];
    SplitHead("a", ".", '.');
    assert "." == ['.'] + "" && "."[1..] == "" && "a" + "." == "a." && "a" + "" == "a";
    assert Split("a.", '.') == ["a", ""] && ["a", ""][1..] == [""] && [""][1..] == [];
    var h' := [map["a" := Object(1)], map[]];
    assert h[0]["a" := Object(1)] == map["a" := Object(1)];
    assert WithNew(h, 0, "a") == h';
    assert SetKeys(h', 1, [""], Num(1)) == h';
    GetValueIsGetAll(json, h', 0, "a.");
  }

  /** A second write at a path leaves exactly the heap that it would have left without the first. */
  lemma LastWriteWins(h: Heap, root: nat, path: string, v: Value, w: Value)
    requires root < |h| && Closed(h) && PlainWay(h, root, path) && (v.Object? ==> v.ref < |h|)
    ensures root < |SetPath(h, root, path, v)| && Closed(SetPath(h, root, path, v))
    ensures SetPath(SetPath(h, root, path, v), root, path, w) == SetPath(h, root, path, w)
  {
    SecondWriteHides(h, root, Split(path, '.'), v, w);
  }

  /**
   A read at a path that parts from the written one at part `n`. It is unchanged exactly if the write created no
   record above the fork or the read gave null anyway.
   */
  lemma UnrelatedRead(json: Parser, h: Heap, root: nat, path: string, other: string, n: nat, v: Value)
    requires root < |h| && Closed(h) && Unshared(h, root) && NoEmptyKey(Split(path, '.')) && ForkAt(Split(path, '.'), Split(other, '.'), n)
    ensures GetValue(json, SetPath(h, root, path, v), Live(Object(root)), other) == GetValue(json, h, Live(Object(root)), other)
       <==> Found(h, root, Split(path, '.')) >= n || GetValue(json, h, Live(Object(root)), other) == DEFAULT
  {
    ReadOffWrite(json, h, root, Split(path, '.'), Split(other, '.'), n, v);
    GetValueIsGetAll(json, h, root, other);
    GetValueIsGetAll(json, SetPath(h, root, path, v), root, other);
  }

  lemma ReadWasInRecord(json: Parser, h: Heap, root: nat, path: string, other: string, n: nat)
    requires root < |h| && Closed(h) && ForkAt(Split(path, '.'), Split(other, '.'), n) && Found(h, root, Split(path, '.')) < n
    ensures var p, q := Split(path, '.'), Split(other, '.');
            GetValue(json, h, Live(Object(root)), other) == ReadInReplaced(json, h, root, p, q)
  {
    ReadThroughReplaced(json, h, root, Split(path, '.'), Split(other, '.'), n);
    GetValueIsGetAll(json, h, root, other);
  }

  /**
   So the write loses a value exactly if it replaces, above the fork, a string that holds the JSON text of a record in
   which the rest of the other path leads to one.
   */
  lemma UnrelatedReadIff(json: Parser, h: Heap, root: nat, path: string, other: string, n: nat, v: Value)
    requires root < |h| && Closed(h) && Unshared(h, root) && NoEmptyKey(Split(path, '.')) && ForkAt(Split(path, '.'), Split(other, '.'), n)
    ensures var p, q := Split(path, '.'), Split(other, '.');
            var found := Found(h, root, p);
            (GetValue(json, SetPath(h, root, path, v), Live(Object(root)), other) == GetValue(json, h, Live(Object(root)), other)
             <==> found >= n || ReadInReplaced(json, h, root, p, q) == DEFAULT)
  {
    UnrelatedRead(json, h, root, path, other, n, v);
    if Found(h, root, Split(path, '.')) < n { ReadWasInRecord(json, h, root, path, other, n); }
  }

  /** In particular it is unchanged if the write replaces no string that holds the JSON text of a record. */
  lemma UnrelatedReadWithoutJson(json: Parser, h: Heap, root: nat, path: string, other: string, n: nat, v: Value)
    requires root < |h| && Closed(h) && Unshared(h, root) && NoEmptyKey(Split(path, '.')) && ForkAt(Split(path, '.'), Split(other, '.'), n)
    requires Replaced(h, root, Split(path, '.')).Some? ==> !HoldsRecord(json, Replaced(h, root, Split(path, '.')).value)
    ensures GetValue(json, SetPath(h, root, path, v), Live(Object(root)), other) == GetValue(json, h, Live(Object(root)), other)
  {
    NoRecordReadsNull(json, h, root, Split(path, '.'), Split(other, '.'));
    UnrelatedReadIff(json, h, root, path, other, n, v);
  }

  lemma NoRecordReadsNull(json: Parser, h: Heap, ref: nat, p: seq<string>, q: seq<string>)
    requires Replaced(h, ref, p).Some? ==> !HoldsRecord(json, Replaced(h, ref, p).value)
    ensures Found(h, ref, p) < |q| ==> ReadInReplaced(json, h, ref, p, q) == DEFAULT
  {
  }

  /** Writing `a.c` over a JSON text in `a` loses what could be read at `a.b`. */
  lemma JsonTextIsLost(json: Parser, text: string)
    requires json(text) == Some(JRecord(map["b" := JBool(true)])) && !BlankText(text)
    ensures var h := [map["a" := Text(text)]];
            && GetValue(json, h, Live(Object(0)), "a.b") == Parsed(JBool(true))
            && Closed(h) && GetValue(json, SetPath(h, 0, "a.c", Num(1)), Live(Object(0)), "a.b") == DEFAULT
  {
    assert Split("a.b", '.') == ["a", "b"] by { TwoParts('a', 'b'); }
    assert Split("a.c", '.') == ["a", "c"] by { TwoParts('a', 'c'); }
    var h: Heap := [map["a" := Text(text)]];
    assert ["a", "b"][1..] == ["b"] && ["b"][1..] == [];
    assert GetAll(json, h, Parsed(JBool(true)), []) == Parsed(JBool(true));
    assert GetAll(json, h, Live(Text(text)), ["b"]) == Parsed(JBool(true));
    TextIsReplaced(text);
    var h' := [map["a" := Object(1)], map["c" := Num(1)]];
    assert GetAll(json, h', Live(Object(1)), ["b"]) == DEFAULT;
  }

  lemma TextIsReplaced(text: string)
    ensures var h := [map["a" := Text(text)]];
            Closed(h) && SetKeys(h, 0, ["a", "c"], Num(1)) == [map["a" := Object(1)], map["c" := Num(1)]]
  {
    var h: Heap := [map["a" := Text(text)]];
    var h' := [map["a" := Object(1)], map["c" := Num(1)]];
    var h0 := WithNew(h, 0, "a");
    assert ["a", "c"][1..] == ["c"];
    assert h[0]["a" := Object(1)] == map["a" := Object(1)];
    assert h0 == [map["a" := Object(1)], map[]];
    assert map[]["c" := Num(1)] == map["c" := Num(1)];
    assert h0[1 := map["c" := Num(1)]] == h';
    assert SetKeys(h0, 1, ["c"], Num(1)) == h';
  }

  lemma TwoParts(a: char, b: char)
    requires a != '.' && b != '.'
    ensures Split([a, '.', b], '.') == [[a], [b]]
  {
    OnePart([b], '.');
    assert ['.', b][1..] == [b];
    assert Split(['.', b], '.') == ["", [b]];
    SplitHead([a], ['.', b], '.');
    assert [a] + ['.', b] == [a, '.', b] && [a] + "" == [a];
  }

  // Which values can be read.

  /** A value that does not count as missing, spelled out. */
  ghost predicate Filled(h: Heap, v: Value) {
    match v
    case Undefined => false
    case Null => false
    case Bool(_) => true
    case Num(n) => n < 0 || n > 0
    case Text(s) => exists k :: 0 <= k < |s| && s[k] as int !in SPACES
    case Arr(_, length) => length > 0
    case Object(ref) => ref < |h| && exists key :: key in h[ref]
  }

  ghost predicate FilledJson(j: Json) {
    match j
    case JNull => false
    case JBool(_) => true
    case JNum(n) => n < 0 || n > 0
    case JText(s) => exists k :: 0 <= k < |s| && s[k] as int !in SPACES
    case JArr(items) => items != []
    case JRecord(fields) => exists key :: key in fields
  }

  lemma BlankTextIff(s: string)
    ensures BlankText(s) <==> !exists k :: 0 <= k < |s| && s[k] as int !in SPACES
  {
    forall k | 0 <= k < |s| ensures IsSpace(s[k]) <==> s[k] as int in SPACES { SpacesAreListed(s[k]); }
  }

  lemma FilledIff(h: Heap, v: Value)
    ensures Filled(h, v) <==> !Blank(h, v)
  {
    if v.Text? { BlankTextIff(v.s); }
    if v.Object? && |FieldsOf(h, v.ref)| > 0 {
      var key :| key in FieldsOf(h, v.ref);
    }
  }

  lemma FilledJsonIff(j: Json)
    ensures FilledJson(j) <==> !BlankJson(j)
  {
    if j.JText? { BlankTextIff(j.s); }
    if j.JRecord? && |j.fields| > 0 {
      var key :| key in j.fields;
    }
  }

  /** A property is read as it is if it is filled, and as null if it is missing, undefined or blank. */
  lemma PropertyIsRead(json: Parser, h: Heap, ref: nat, name: string)
    requires ref < |h| && '.' !in name
    ensures GetValue(json, h, Live(Object(ref)), name)
         == if name in h[ref] && Filled(h, h[ref][name]) then Live(h[ref][name]) else Live(Null)
  {
    if name in h[ref] { FilledIff(h, h[ref][name]); }
  }

  /** In a text, a property of the record that it parses to is read if it is filled; any other text has none. So it is with a text in a text. */
  lemma TextIsRead(json: Parser, h: Heap, text: string, name: string)
    requires '.' !in name
    ensures GetValue(json, h, Live(Text(text)), name) == GetValue(json, h, Parsed(JText(text)), name) ==
      match json(text)
      case Some(JRecord(fields)) => if name in fields && FilledJson(fields[name]) then Parsed(fields[name]) else Live(Null)
      case _ => Live(Null)
  {
    match json(text)
    case Some(JRecord(fields)) => if name in fields { FilledJsonIff(fields[name]); }
    case _ =>
  }

  /** What is written under a name without dots is read back if and only if it is filled afterwards, or null. */
  lemma ReadBackIffFilled(json: Parser, h: Heap, root: nat, name: string, v: Value)
    requires root < |h| && Closed(h) && '.' !in name && name != ""
    ensures var h' := SetPath(h, root, name, v);
            |h'| == |h| && (GetValue(json, h', Live(Object(root)), name) == Live(v) <==> Filled(h', v) || v == Null)
  {
    OnePart(name, '.');
    var h' := SetPath(h, root, name, v);
    assert h' == h[root := h[root][name := v]];
    PropertyIsRead(json, h', root, name);
  }
}
