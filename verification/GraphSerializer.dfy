/**
 Serialization of an object graph that may be shared or cyclic: big integers become numbers, and a reference back
 to an object that is still being serialized becomes the text '[Circular]'.
 */
module GraphSerializer {

  import opened Ecma

  /** `Other` stands for every primitive that is neither a string nor a big integer, and for functions. */
  datatype Value = Big(n: int) | Text(s: string) | Other(id: int) | Object(ref: nat)

  datatype Node = Date | Arr(items: seq<Value>) | Rec(entries: seq<(string, Value)>)

  type Heap = map<nat, Node>

  function NodeAt(h: Heap, ref: nat): Node {
    if ref in h then h[ref] else Rec([])
  }

  /** A serialized value; dates are handed through. `N` is the type of numbers. */
  datatype Out<N> =
    | Num(n: N) | TextOut(s: string) | OtherOut(id: int) | DateOut(ref: nat)
    | ArrOut(items: seq<Out<N>>) | RecOut(entries: seq<(string, Out<N>)>)

  const CIRCULAR: string := "[Circular]"

  function SerializedItems<N>(h: Heap, items: seq<Value>, seen: set<nat>, toNumber: int -> N): (outs: seq<Out<N>>)
    ensures |outs| == |items|
    decreases h.Keys - seen, 1, |items|
  {
    if items == [] then [] else
      [Serialized(h, items[0], seen, toNumber)] + SerializedItems(h, items[1..], seen, toNumber)
  }

  function SerializedEntries<N>(h: Heap, entries: seq<(string, Value)>, seen: set<nat>, toNumber: int -> N): (outs: seq<(string, Out<N>)>)
    ensures |outs| == |entries|
    decreases h.Keys - seen, 1, |entries|
  {
    if entries == [] then [] else
      [(entries[0].0, Serialized(h, entries[0].1, seen, toNumber))] + SerializedEntries(h, entries[1..], seen, toNumber)
  }

  /** The serialization of `v` while the objects in `seen` are being serialized. */
  function Serialized<N>(h: Heap, v: Value, seen: set<nat>, toNumber: int -> N): Out<N>
    decreases h.Keys - seen, 0
  {
    match v
    case Big(n) => Num(toNumber(n))
    case Text(s) => TextOut(s)
    case Other(id) => OtherOut(id)
    case Object(ref) =>
      if ref in seen then TextOut(CIRCULAR)
      else if ref !in h then RecOut([])
      else match h[ref]
        case Date => DateOut(ref)
        case Arr(items) => ArrOut(SerializedItems(h, items, seen + {ref}, toNumber))
        case Rec(entries) => RecOut(SerializedEntries(h, entries, seen + {ref}, toNumber))
  }

  lemma {:induction false} SerializedItemAt<N>(h: Heap, items: seq<Value>, seen: set<nat>, toNumber: int -> N, k: nat)
    requires k < |items|
    ensures SerializedItems(h, items, seen, toNumber)[k] == Serialized(h, items[k], seen, toNumber)
  {
    if k > 0 { SerializedItemAt(h, items[1..], seen, toNumber, k - 1); }
  }

  lemma {:induction false} SerializedEntryAt<N>(h: Heap, entries: seq<(string, Value)>, seen: set<nat>, toNumber: int -> N, k: nat)
    requires k < |entries|
    ensures SerializedEntries(h, entries, seen, toNumber)[k] == (entries[k].0, Serialized(h, entries[k].1, seen, toNumber))
  {
    if k > 0 { SerializedEntryAt(h, entries[1..], seen, toNumber, k - 1); }
  }

  /** The traversal with its mutable set of objects in progress. */
  class Serializer<N> {
    var seen: set<nat>

    constructor ()
      ensures seen == {}
    {
      seen := {};
    }

    /** Terminates on every graph, because an object in progress is never entered again, and leaves `seen` as it was. */
    method Serialize(h: Heap, v: Value, toNumber: int -> N) returns (out: Out<N>)
      modifies this
      ensures out == Serialized(h, v, old(seen), toNumber)
      ensures seen == old(seen)
      decreases h.Keys - seen, 0
    {
      match v
      case Big(n) => out := Num(toNumber(n));
      case Text(s) => out := TextOut(s);
      case Other(id) => out := OtherOut(id);
      case Object(ref) =>
        if ref in seen { return TextOut(CIRCULAR); }
        if ref !in h { return RecOut([]); }
        match h[ref] {
          case Date =>
            out := DateOut(ref);
          case Arr(items) =>
            seen := seen + {ref};
            var result := SerializeItems(h, items, toNumber);
            seen := seen - {ref};
            out := ArrOut(result);
          case Rec(entries) =>
            seen := seen + {ref};
            var result := SerializeEntries(h, entries, toNumber);
            seen := seen - {ref};
            out := RecOut(result);
        }
    }

    method SerializeItems(h: Heap, items: seq<Value>, toNumber: int -> N) returns (outs: seq<Out<N>>)
      modifies this
      ensures outs == SerializedItems(h, items, old(seen), toNumber) && seen == old(seen)
      decreases h.Keys - seen, 1
    {
      outs := [];
      for i := 0 to |items|
        invariant seen == old(seen) && outs == SerializedItems(h, items, seen, toNumber)[..i]
      {
        var out := Serialize(h, items[i], toNumber);
        SerializedItemAt(h, items, seen, toNumber, i);
        outs := outs + [out];
      }
    }

    method SerializeEntries(h: Heap, entries: seq<(string, Value)>, toNumber: int -> N) returns (outs: seq<(string, Out<N>)>)
      modifies this
      ensures outs == SerializedEntries(h, entries, old(seen), toNumber) && seen == old(seen)
      decreases h.Keys - seen, 1
    {
      outs := [];
      for i := 0 to |entries|
        invariant seen == old(seen) && outs == SerializedEntries(h, entries, seen, toNumber)[..i]
      {
        var out := Serialize(h, entries[i].1, toNumber);
        SerializedEntryAt(h, entries, seen, toNumber, i);
        outs := outs + [(entries[i].0, out)];
      }
    }
  }

  // Observation by paths of child positions.

  function Children(h: Heap, v: Value): seq<Value> {
    match v
    case Object(ref) =>
      (match NodeAt(h, ref)
       case Date => []
       case Arr(items) => items
       case Rec(entries) => seq(|entries|, i requires 0 <= i < |entries| => entries[i].1))
    case _ => []
  }

  /** The value that `path` leads to in the graph. */
  function Walk(h: Heap, v: Value, path: seq<nat>): Option<Value>
    decreases path
  {
    if path == [] then Some(v)
    else if path[0] < |Children(h, v)| then Walk(h, Children(h, v)[path[0]], path[1..]) else None
  }

  datatype Shape<N> =
    | NumShape(n: N) | TextShape(s: string) | OtherShape(id: int) | DateShape(ref: nat)
    | ArrShape(length: nat) | RecShape(keys: seq<string>)

  function ShapeOf<N>(h: Heap, v: Value, toNumber: int -> N): Shape<N> {
    match v
    case Big(n) => NumShape(toNumber(n))
    case Text(s) => TextShape(s)
    case Other(id) => OtherShape(id)
    case Object(ref) =>
      match NodeAt(h, ref)
      case Date => DateShape(ref)
      case Arr(items) => ArrShape(|items|)
      case Rec(entries) => RecShape(KeysOf(entries))
  }

  function OutShape<N>(out: Out<N>): Shape<N> {
    match out
    case Num(n) => NumShape(n)
    case TextOut(s) => TextShape(s)
    case OtherOut(id) => OtherShape(id)
    case DateOut(ref) => DateShape(ref)
    case ArrOut(items) => ArrShape(|items|)
    case RecOut(entries) => RecShape(KeysOf(entries))
  }

  function OutChildren<N>(out: Out<N>): seq<Out<N>> {
    match out
    case ArrOut(items) => items
    case RecOut(entries) => seq(|entries|, i requires 0 <= i < |entries| => entries[i].1)
    case _ => []
  }

  function ShapeAt<N>(out: Out<N>, path: seq<nat>): Option<Shape<N>>
    decreases path
  {
    if path == [] then Some(OutShape(out))
    else if path[0] < |OutChildren(out)| then ShapeAt(OutChildren(out)[path[0]], path[1..]) else None
  }

  /** `path` ends at an object it has passed before, or that is in `seen`. */
  ghost predicate Closes(h: Heap, v: Value, seen: set<nat>, path: seq<nat>) {
    var end := Walk(h, v, path);
    && end.Some? && end.value.Object?
    && (end.value.ref in seen || exists n :: 0 <= n < |path| && Walk(h, v, path[..n]) == end)
  }

  /** A proper prefix of `path` closes. */
  ghost predicate Cut(h: Heap, v: Value, seen: set<nat>, path: seq<nat>) {
    exists n :: 0 <= n < |path| && Closes(h, v, seen, path[..n])
  }

  /** What the output must show at `path`. */
  ghost function Expected<N>(h: Heap, v: Value, seen: set<nat>, toNumber: int -> N, path: seq<nat>): Option<Shape<N>> {
    if Cut(h, v, seen, path) then None
    else if Closes(h, v, seen, path) then Some(TextShape("[Circular]"))
    else match Walk(h, v, path)
      case None => None
      case Some(end) => Some(ShapeOf(h, end, toNumber))
  }

  /** Below an object that is entered, the children are serialized with it in progress. */
  lemma ChildrenOfOutput<N>(h: Heap, v: Value, seen: set<nat>, toNumber: int -> N)
    requires v.Object? ==> v.ref !in seen
    ensures |OutChildren(Serialized(h, v, seen, toNumber))| == |Children(h, v)|
    ensures forall i :: 0 <= i < |Children(h, v)| ==>
              OutChildren(Serialized(h, v, seen, toNumber))[i] == Serialized(h, Children(h, v)[i], seen + {v.ref}, toNumber)
  {
    forall i | 0 <= i < |Children(h, v)|
      ensures OutChildren(Serialized(h, v, seen, toNumber))[i] == Serialized(h, Children(h, v)[i], seen + {v.ref}, toNumber)
    {
      match h[v.ref]
      case Arr(items) => SerializedItemAt(h, items, seen + {v.ref}, toNumber, i);
      case Rec(entries) => SerializedEntryAt(h, entries, seen + {v.ref}, toNumber, i);
    }
  }

  lemma WalkPrefix(h: Heap, v: Value, path: seq<nat>, n: nat)
    requires 0 < n <= |path|
    ensures path[..n] != [] && path[..n][0] == path[0] && path[..n][1..] == path[1..][..n - 1]
    ensures path[0] < |Children(h, v)| ==> Walk(h, v, path[..n]) == Walk(h, Children(h, v)[path[0]], path[1..][..n - 1])
  {
  }

  lemma ClosesStep(h: Heap, v: Value, seen: set<nat>, path: seq<nat>)
    requires path != [] && v.Object? && path[0] < |Children(h, v)|
    ensures Closes(h, v, seen, path) <==> Closes(h, Children(h, v)[path[0]], seen + {v.ref}, path[1..])
  {
    var c, rest := Children(h, v)[path[0]], path[1..];
    var end := Walk(h, v, path);
    if Closes(h, v, seen, path) && end.value.ref !in seen + {v.ref} {
      var n :| 0 <= n < |path| && Walk(h, v, path[..n]) == end;
      assert n > 0;
      WalkPrefix(h, v, path, n);
      assert Walk(h, c, rest[..n - 1]) == end;
    }
    if Closes(h, c, seen + {v.ref}, rest) && end.value.ref !in seen {
      if end.value.ref == v.ref {
        assert Walk(h, v, path[..0]) == end;
      } else {
        var n :| 0 <= n < |rest| && Walk(h, c, rest[..n]) == end;
        WalkPrefix(h, v, path, n + 1);
        assert Walk(h, v, path[..n + 1]) == end;
      }
    }
  }

  lemma CutStep(h: Heap, v: Value, seen: set<nat>, path: seq<nat>)
    requires path != [] && v.Object? && v.ref !in seen && path[0] < |Children(h, v)|
    ensures Cut(h, v, seen, path) <==> Cut(h, Children(h, v)[path[0]], seen + {v.ref}, path[1..])
  {
    var c, rest := Children(h, v)[path[0]], path[1..];
    if Cut(h, v, seen, path) {
      var n :| 0 <= n < |path| && Closes(h, v, seen, path[..n]);
      assert n > 0;
      ClosesStep(h, v, seen, path[..n]);
      WalkPrefix(h, v, path, n);
      assert Closes(h, c, seen + {v.ref}, rest[..n - 1]);
    }
    if Cut(h, c, seen + {v.ref}, rest) {
      var n :| 0 <= n < |rest| && Closes(h, c, seen + {v.ref}, rest[..n]);
      WalkPrefix(h, v, path, n + 1);
      ClosesStep(h, v, seen, path[..n + 1]);
      assert Closes(h, v, seen, path[..n + 1]);
    }
  }

  lemma ExpectedStep<N>(h: Heap, v: Value, seen: set<nat>, toNumber: int -> N, path: seq<nat>)
    requires path != [] && v.Object? && v.ref !in seen && path[0] < |Children(h, v)|
    ensures Expected(h, v, seen, toNumber, path) == Expected(h, Children(h, v)[path[0]], seen + {v.ref}, toNumber, path[1..])
  {
    CutStep(h, v, seen, path);
    ClosesStep(h, v, seen, path);
  }

  /** A path that leaves the graph shows nothing, and neither does one that goes on behind a closing object. */
  lemma NothingBeyond<N>(h: Heap, v: Value, seen: set<nat>, toNumber: int -> N, path: seq<nat>)
    requires path != []
    requires (v.Object? && v.ref in seen) || path[0] >= |Children(h, v)|
    ensures Expected(h, v, seen, toNumber, path) == None
  {
    if v.Object? && v.ref in seen {
      assert path[..0] == [];
      assert Closes(h, v, seen, path[..0]);
    }
  }

  lemma ExpectedTop<N>(h: Heap, v: Value, seen: set<nat>, toNumber: int -> N)
    ensures ShapeAt(Serialized(h, v, seen, toNumber), []) == Expected(h, v, seen, toNumber, [])
  {
    var out := Serialized(h, v, seen, toNumber);
    if out.RecOut? && v.ref in h {
      var entries := h[v.ref].entries;
      forall k | 0 <= k < |entries| ensures out.entries[k].0 == entries[k].0 {
        SerializedEntryAt(h, entries, seen + {v.ref}, toNumber, k);
      }
      assert KeysOf(out.entries) == KeysOf(entries);
    } else if out.RecOut? {
      assert KeysOf(out.entries) == KeysOf<Value>([]);
    }
  }

  /**
   The output, path by path: '[Circular]' exactly where an object is its own ancestor on the path, nothing behind it,
   and everywhere else the graph itself with its big integers converted. Shared objects are not marked.
   */
  lemma {:induction false} SerializedPathByPath<N>(h: Heap, v: Value, seen: set<nat>, toNumber: int -> N, path: seq<nat>)
    ensures ShapeAt(Serialized(h, v, seen, toNumber), path) == Expected(h, v, seen, toNumber, path)
    decreases path
  {
    if path == [] {
      ExpectedTop(h, v, seen, toNumber);
    } else if v.Object? && v.ref in seen {
      NothingBeyond(h, v, seen, toNumber, path);
    } else {
      ChildrenOfOutput(h, v, seen, toNumber);
      if path[0] < |Children(h, v)| {
        ExpectedStep(h, v, seen, toNumber, path);
        SerializedPathByPath(h, Children(h, v)[path[0]], seen + {v.ref}, toNumber, path[1..]);
      } else {
        NothingBeyond(h, v, seen, toNumber, path);
      }
    }
  }

  /** The plain reading of the graph at `path`: what a serializer without cycle detection would unfold. */
  function Unfolded<N>(h: Heap, v: Value, toNumber: int -> N, path: seq<nat>): Option<Shape<N>> {
    match Walk(h, v, path)
    case None => None
    case Some(end) => Some(ShapeOf(h, end, toNumber))
  }

  /** No path from `v` returns to an object it has passed. */
  ghost predicate Acyclic(h: Heap, v: Value) {
    forall path :: !Closes(h, v, {}, path)
  }

  /** The output is the plain unfolding of the graph if and only if the graph has no cycle within reach. */
  lemma PlainIffAcyclic<N>(h: Heap, v: Value, toNumber: int -> N)
    ensures (forall path :: ShapeAt(Serialized(h, v, {}, toNumber), path) == Unfolded(h, v, toNumber, path)) <==> Acyclic(h, v)
  {
    if Acyclic(h, v) {
      forall path: seq<nat>
        ensures ShapeAt(Serialized(h, v, {}, toNumber), path) == Unfolded(h, v, toNumber, path)
      {
        SerializedPathByPath(h, v, {}, toNumber, path);
      }
    } else {
      var path := FirstClosing(h, v);
      SerializedPathByPath(h, v, {}, toNumber, path);
      assert Unfolded(h, v, toNumber, path).value != TextShape(CIRCULAR);
    }
  }

  lemma FirstClosing(h: Heap, v: Value) returns (path: seq<nat>)
    requires !Acyclic(h, v)
    ensures Closes(h, v, {}, path) && !Cut(h, v, {}, path)
  {
    path :| Closes(h, v, {}, path);
    while Cut(h, v, {}, path)
      invariant Closes(h, v, {}, path)
      decreases |path|
    {
      var n :| 0 <= n < |path| && Closes(h, v, {}, path[..n]);
      path := path[..n];
    }
  }

  /** A marker in the output is always such a closing object, or the text itself stood in the graph. */
  lemma MarkersAreClosings<N>(h: Heap, v: Value, toNumber: int -> N, path: seq<nat>)
    requires ShapeAt(Serialized(h, v, {}, toNumber), path) == Some(TextShape("[Circular]"))
    ensures Walk(h, v, path) == Some(Text("[Circular]")) || (Closes(h, v, {}, path) && !Cut(h, v, {}, path))
  {
    SerializedPathByPath(h, v, {}, toNumber, path);
  }
}
