/**
 Redaction of arbitrary log metadata: strings are redacted down to a fixed depth, and a container is copied only
 when something in it changed. Containers live in a heap, so metadata may be shared or cyclic.
 */
module DeepRedaction {
  import opened Ecma
  import opened UrlRedaction

  /** A log value; `Other` stands for every primitive that is neither a string nor NaN. */
  datatype Value = Text(s: string) | NaN | Other(id: int) | Object(ref: nat)

  datatype Node = Arr(items: seq<Value>) | Rec(entries: seq<(string, Value)>)

  type Heap = map<nat, Node>

  function NodeAt(h: Heap, ref: nat): Node {
    if ref in h then h[ref] else Rec([])
  }

  /** What the redactor hands back: an existing value, or a fresh container. */
  datatype Result =
    | Kept(v: Value)
    | ArrCopy(items: seq<Result>)
    | RecCopy(entries: seq<(string, Result)>)

  /** The test `redacted !== item`: containers compare by identity, and NaN differs from itself. */
  predicate Differs(r: Result, item: Value) {
    !(r == Kept(item) && item != NaN)
  }

  const MAX_DEPTH: nat := 6

  function DeepItems(h: Heap, items: seq<Value>, depth: nat): (rs: seq<Result>)
    requires depth <= MAX_DEPTH
    ensures |rs| == |items|
    decreases MAX_DEPTH + 1 - depth, 0, |items|
  {
    if items == [] then [] else
      [Deep(h, items[0], depth + 1)] + DeepItems(h, items[1..], depth)
  }

  function DeepEntries(h: Heap, entries: seq<(string, Value)>, depth: nat): (rs: seq<(string, Result)>)
    requires depth <= MAX_DEPTH
    ensures |rs| == |entries|
    decreases MAX_DEPTH + 1 - depth, 0, |entries|
  {
    if entries == [] then [] else
      [(entries[0].0, Deep(h, entries[0].1, depth + 1))] + DeepEntries(h, entries[1..], depth)
  }

  /** The result of redacting `v`, which stands `depth` containers below the top. */
  function Deep(h: Heap, v: Value, depth: nat): (r: Result)
    decreases MAX_DEPTH + 1 - depth, 1
  {
    if depth > MAX_DEPTH then Kept(v)
    else match v
      case Text(s) => Kept(Text(Redact(s)))
      case Object(ref) =>
        (match NodeAt(h, ref)
         case Arr(items) =>
           var next := DeepItems(h, items, depth);
           if exists k :: 0 <= k < |items| && Differs(next[k], items[k]) then ArrCopy(next) else Kept(v)
         case Rec(entries) =>
           var next := DeepEntries(h, entries, depth);
           if exists k :: 0 <= k < |entries| && Differs(next[k].1, entries[k].1) then RecCopy(next) else Kept(v))
      case _ => Kept(v)
  }

  lemma {:induction false} DeepItemAt(h: Heap, items: seq<Value>, depth: nat, k: nat)
    requires depth <= MAX_DEPTH && k < |items|
    ensures DeepItems(h, items, depth)[k] == Deep(h, items[k], depth + 1)
  {
    if k > 0 { DeepItemAt(h, items[1..], depth, k - 1); }
  }

  lemma {:induction false} DeepEntryAt(h: Heap, entries: seq<(string, Value)>, depth: nat, k: nat)
    requires depth <= MAX_DEPTH && k < |entries|
    ensures DeepEntries(h, entries, depth)[k] == (entries[k].0, Deep(h, entries[k].1, depth + 1))
  {
    if k > 0 { DeepEntryAt(h, entries[1..], depth, k - 1); }
  }

  /** The redactor itself; the copying loops are below. */
  method RedactDeep(h: Heap, v: Value, depth: nat) returns (r: Result)
    ensures r == Deep(h, v, depth)
    decreases MAX_DEPTH + 1 - depth, 1
  {
    if depth > MAX_DEPTH {
      return Kept(v);
    }
    r := Kept(v);
    match v
    case Text(s) =>
      r := Kept(Text(Redact(s)));
    case Object(ref) =>
      match NodeAt(h, ref) {
        case Arr(items) =>
          var next, changed := RedactItems(h, items, depth);
          if changed { r := ArrCopy(next); }
        case Rec(entries) =>
          var next, changed := RedactEntries(h, entries, depth);
          if changed { r := RecCopy(next); }
      }
    case _ =>
  }

  method RedactItems(h: Heap, items: seq<Value>, depth: nat) returns (next: seq<Result>, changed: bool)
    requires depth <= MAX_DEPTH
    ensures next == DeepItems(h, items, depth)
    ensures changed <==> exists k :: 0 <= k < |items| && Differs(next[k], items[k])
    decreases MAX_DEPTH + 1 - depth, 0
  {
    next, changed := [], false;
    for i := 0 to |items|
      invariant next == DeepItems(h, items, depth)[..i]
      invariant changed <==> exists k :: 0 <= k < i && Differs(next[k], items[k])
    {
      var redacted := RedactDeep(h, items[i], depth + 1);
      if Differs(redacted, items[i]) { changed := true; }
      DeepItemAt(h, items, depth, i);
      next := next + [redacted];
    }
  }

  method RedactEntries(h: Heap, entries: seq<(string, Value)>, depth: nat) returns (next: seq<(string, Result)>, changed: bool)
    requires depth <= MAX_DEPTH
    ensures next == DeepEntries(h, entries, depth)
    ensures changed <==> exists k :: 0 <= k < |entries| && Differs(next[k].1, entries[k].1)
    decreases MAX_DEPTH + 1 - depth, 0
  {
    next, changed := [], false;
    for i := 0 to |entries|
      invariant next == DeepEntries(h, entries, depth)[..i]
      invariant changed <==> exists k :: 0 <= k < i && Differs(next[k].1, entries[k].1)
    {
      var redacted := RedactDeep(h, entries[i].1, depth + 1);
      if Differs(redacted, entries[i].1) { changed := true; }
      DeepEntryAt(h, entries, depth, i);
      next := next + [(entries[i].0, redacted)];
    }
  }

  /** The log record that the format rewrites field by field. */
  class LogRecord {
    var fields: seq<(string, Result)>

    ghost predicate Incoming(entries: seq<(string, Value)>)
      reads this
    {
      |fields| == |entries| && forall k :: 0 <= k < |entries| ==> fields[k] == (entries[k].0, Kept(entries[k].1))
    }

    method RedactSecretUrls(h: Heap, entries: seq<(string, Value)>)
      requires Incoming(entries)
      modifies this
      ensures |fields| == |entries|
      ensures forall k :: 0 <= k < |entries| ==> fields[k] == (entries[k].0, Deep(h, entries[k].1, 0))
    {
      for i := 0 to |entries|
        invariant |fields| == |entries|
        invariant forall k :: 0 <= k < i ==> fields[k] == (entries[k].0, Deep(h, entries[k].1, 0))
        invariant forall k :: i <= k < |entries| ==> fields[k] == (entries[k].0, Kept(entries[k].1))
      {
        var redacted := RedactDeep(h, entries[i].1, 0);
        if Differs(redacted, entries[i].1) {
          fields := fields[i := (entries[i].0, redacted)];
        }
      }
    }
  }

  /** What an observer sees of one value: a primitive, or the shape of a container. */
  datatype View = TextView(s: string) | NaNView | OtherView(id: int) | ArrView(length: nat) | RecView(keys: seq<string>)

  function Children(h: Heap, v: Value): seq<Value> {
    match v
    case Object(ref) =>
      (match NodeAt(h, ref)
       case Arr(items) => items
       case Rec(entries) => seq(|entries|, i requires 0 <= i < |entries| => entries[i].1))
    case _ => []
  }

  function ViewOf(h: Heap, v: Value): View {
    match v
    case Text(s) => TextView(s)
    case NaN => NaNView
    case Other(id) => OtherView(id)
    case Object(ref) =>
      match NodeAt(h, ref)
      case Arr(items) => ArrView(|items|)
      case Rec(entries) => RecView(KeysOf(entries))
  }

  /** The value reached by child positions `path`. */
  function ViewAt(h: Heap, v: Value, path: seq<nat>): Option<View>
    decreases path
  {
    if path == [] then Some(ViewOf(h, v))
    else if path[0] < |Children(h, v)| then ViewAt(h, Children(h, v)[path[0]], path[1..])
    else None
  }

  /** The same observation made of a result. */
  function ResultAt(h: Heap, r: Result, path: seq<nat>): Option<View>
    decreases path
  {
    match r
    case Kept(v) => ViewAt(h, v, path)
    case ArrCopy(items) =>
      if path == [] then Some(ArrView(|items|))
      else if path[0] < |items| then ResultAt(h, items[path[0]], path[1..]) else None
    case RecCopy(entries) =>
      if path == [] then Some(RecView(KeysOf(entries)))
      else if path[0] < |entries| then ResultAt(h, entries[path[0]].1, path[1..]) else None
  }

  /** What should be seen after redaction where `view` was seen `depth` levels down. */
  function Expected(view: Option<View>, depth: nat): Option<View> {
    match view
    case Some(TextView(s)) => if depth <= 6 then Some(TextView(Redact(s))) else view
    case _ => view
  }

  /** A kept container kept all its children. */
  lemma KeptChildren(h: Heap, v: Value, depth: nat, i: nat)
    requires depth <= MAX_DEPTH && i < |Children(h, v)| && Deep(h, v, depth).Kept?
    ensures Deep(h, Children(h, v)[i], depth + 1) == Kept(Children(h, v)[i])
    ensures Children(h, v)[i] != NaN
  {
    match NodeAt(h, v.ref)
    case Arr(items) =>
      var next := DeepItems(h, items, depth);
      DeepItemAt(h, items, depth, i);
      assert !Differs(next[i], items[i]);
    case Rec(entries) =>
      var next := DeepEntries(h, entries, depth);
      DeepEntryAt(h, entries, depth, i);
      assert !Differs(next[i].1, entries[i].1);
  }

  /** One step down a result is the result of one step down. */
  lemma ResultStep(h: Heap, v: Value, depth: nat, path: seq<nat>)
    requires depth <= MAX_DEPTH && path != []
    ensures ResultAt(h, Deep(h, v, depth), path)
         == if path[0] < |Children(h, v)| then ResultAt(h, Deep(h, Children(h, v)[path[0]], depth + 1), path[1..]) else None
  {
    if Deep(h, v, depth).Kept? {
      if path[0] < |Children(h, v)| {
        KeptChildren(h, v, depth, path[0]);
      }
    } else if path[0] < |Children(h, v)| {
      match NodeAt(h, v.ref)
      case Arr(items) => DeepItemAt(h, items, depth, path[0]);
      case Rec(entries) => DeepEntryAt(h, entries, depth, path[0]);
    }
  }

  lemma ResultTop(h: Heap, v: Value, depth: nat)
    ensures ResultAt(h, Deep(h, v, depth), []) == Expected(ViewAt(h, v, []), depth)
  {
    var r := Deep(h, v, depth);
    if r.RecCopy? {
      var entries := NodeAt(h, v.ref).entries;
      forall k | 0 <= k < |entries| ensures r.entries[k].0 == entries[k].0 { DeepEntryAt(h, entries, depth, k); }
      assert KeysOf(r.entries) == KeysOf(entries);
    }
  }

  /** Redaction shows what is expected at `path`. */
  ghost predicate ShowsExpected(h: Heap, v: Value, depth: nat, path: seq<nat>) {
    ResultAt(h, Deep(h, v, depth), path) == Expected(ViewAt(h, v, path), depth + |path|)
  }

  lemma ExpectedStep(h: Heap, v: Value, depth: nat, path: seq<nat>)
    requires depth <= MAX_DEPTH && path != []
    requires path[0] < |Children(h, v)| ==> ShowsExpected(h, Children(h, v)[path[0]], depth + 1, path[1..])
    ensures ShowsExpected(h, v, depth, path)
  {
    ResultStep(h, v, depth, path);
  }

  lemma ExpectedBelowLimit(h: Heap, v: Value, depth: nat, path: seq<nat>)
    requires depth > MAX_DEPTH
    ensures ShowsExpected(h, v, depth, path)
  {
    assert Deep(h, v, depth) == Kept(v);
  }

  lemma ExpectedAtTop(h: Heap, v: Value, depth: nat)
    ensures ShowsExpected(h, v, depth, [])
  {
    ResultTop(h, v, depth);
  }

  lemma {:induction false} ExpectedIsShown(h: Heap, v: Value, depth: nat, path: seq<nat>)
    ensures ShowsExpected(h, v, depth, path)
    decreases path
  {
    if path == [] {
      ExpectedAtTop(h, v, depth);
    } else if depth > MAX_DEPTH {
      ExpectedBelowLimit(h, v, depth, path);
    } else {
      if path[0] < |Children(h, v)| {
        ExpectedIsShown(h, Children(h, v)[path[0]], depth + 1, path[1..]);
      }
      ExpectedStep(h, v, depth, path);
    }
  }

  /**
   Redaction observed path by path: the shape is the same everywhere, strings down to the depth limit are redacted,
   and everything below the limit is untouched.
   */
  lemma RedactedPathByPath(h: Heap, v: Value, depth: nat, path: seq<nat>)
    ensures ResultAt(h, Deep(h, v, depth), path) == Expected(ViewAt(h, v, path), depth + |path|)
  {
    ExpectedIsShown(h, v, depth, path);
  }

  /** No string within the depth limit holds a credential URL afterwards. */
  lemma NoCredentialWithinDepth(h: Heap, v: Value, path: seq<nat>, s: string)
    requires |path| <= 6 && ResultAt(h, Deep(h, v, 0), path) == Some(TextView(s))
    ensures Clean(s) && forall i :: 0 <= i <= |s| ==> !StartsWithLogin(s[i..])
  {
    RedactedPathByPath(h, v, 0, path);
    var before := ViewAt(h, v, path).value.s;
    RedactedIsClean(before);
    forall i | 0 <= i <= |s| ensures !StartsWithLogin(s[i..]) { NoLoginIsLeft(before, i); }
  }

  /** A credential URL within the depth limit. */
  ghost predicate HasSecret(h: Heap, v: Value, depth: nat) {
    exists path, s :: depth + |path| <= 6 && ViewAt(h, v, path) == Some(TextView(s)) && !Clean(s)
  }

  /** A NaN that the comparison `redacted !== item` sees: at most one level below the limit. */
  ghost predicate HasNaN(h: Heap, v: Value, depth: nat) {
    exists path :: depth + |path| <= 7 && ViewAt(h, v, path) == Some(NaNView)
  }

  /** The result looks different from the input somewhere. */
  ghost predicate LooksDifferent(h: Heap, r: Result, v: Value) {
    exists path :: ResultAt(h, r, path) != ViewAt(h, v, path)
  }

  lemma DifferenceIsSecret(h: Heap, v: Value, path: seq<nat>)
    requires ResultAt(h, Deep(h, v, 0), path) != ViewAt(h, v, path)
    ensures HasSecret(h, v, 0)
  {
    RedactedPathByPath(h, v, 0, path);
    var s := ViewAt(h, v, path).value.s;
    UnchangedIffClean(s);
    assert 0 + |path| <= MAX_DEPTH && ViewAt(h, v, path) == Some(TextView(s)) && !Clean(s);
  }

  lemma SecretIsDifference(h: Heap, v: Value, path: seq<nat>, s: string)
    requires |path| <= MAX_DEPTH && ViewAt(h, v, path) == Some(TextView(s)) && !Clean(s)
    ensures ResultAt(h, Deep(h, v, 0), path) != ViewAt(h, v, path)
  {
    RedactedPathByPath(h, v, 0, path);
    UnchangedIffClean(s);
  }

  /** What the caller sees changes exactly when a credential URL lies within the depth limit. */
  lemma LooksDifferentIffSecret(h: Heap, v: Value)
    ensures LooksDifferent(h, Deep(h, v, 0), v) <==> HasSecret(h, v, 0)
  {
    if LooksDifferent(h, Deep(h, v, 0), v) {
      var path :| ResultAt(h, Deep(h, v, 0), path) != ViewAt(h, v, path);
      DifferenceIsSecret(h, v, path);
    }
    if HasSecret(h, v, 0) {
      var path, s :| |path| <= MAX_DEPTH && ViewAt(h, v, path) == Some(TextView(s)) && !Clean(s);
      SecretIsDifference(h, v, path, s);
    }
  }

  /** The comparison of the result with the input. */
  predicate IsChanged(h: Heap, v: Value, depth: nat) {
    Differs(Deep(h, v, depth), v)
  }

  lemma ParentIsChanged(h: Heap, v: Value, depth: nat, i: nat)
    requires depth <= MAX_DEPTH && i < |Children(h, v)| && IsChanged(h, Children(h, v)[i], depth + 1)
    ensures IsChanged(h, v, depth)
  {
    if Deep(h, v, depth).Kept? { KeptChildren(h, v, depth, i); }
  }

  /** The view is the reason for a copy. */
  ghost predicate Causes(view: Option<View>, depth: nat) {
    match view
    case Some(TextView(s)) => depth <= MAX_DEPTH && !Clean(s)
    case Some(NaNView) => depth <= MAX_DEPTH + 1
    case _ => false
  }

  lemma CauseIsChanged(h: Heap, v: Value, depth: nat)
    requires Causes(ViewAt(h, v, []), depth)
    ensures IsChanged(h, v, depth)
  {
    if v.Text? { UnchangedIffClean(v.s); }
  }

  lemma CauseBelow(h: Heap, v: Value, depth: nat, path: seq<nat>)
    requires path != [] && Causes(ViewAt(h, v, path), depth)
    ensures depth <= MAX_DEPTH + 1 && path[0] < |Children(h, v)|
    ensures Causes(ViewAt(h, Children(h, v)[path[0]], path[1..]), depth)
  {
  }

  lemma {:induction false} SecretOrNaNDiffers(h: Heap, v: Value, depth: nat, path: seq<nat>)
    requires Causes(ViewAt(h, v, path), depth + |path|)
    ensures IsChanged(h, v, depth)
    decreases path
  {
    if path == [] {
      CauseIsChanged(h, v, depth);
    } else {
      CauseBelow(h, v, depth + |path|, path);
      SecretOrNaNDiffers(h, Children(h, v)[path[0]], depth + 1, path[1..]);
      ParentIsChanged(h, v, depth, path[0]);
    }
  }

  lemma DifferingChild(h: Heap, v: Value, depth: nat) returns (i: nat)
    requires depth <= MAX_DEPTH && v.Object? && Differs(Deep(h, v, depth), v)
    ensures i < |Children(h, v)| && Differs(Deep(h, Children(h, v)[i], depth + 1), Children(h, v)[i])
  {
    match NodeAt(h, v.ref)
    case Arr(items) =>
      var next := DeepItems(h, items, depth);
      i :| 0 <= i < |items| && Differs(next[i], items[i]);
      DeepItemAt(h, items, depth, i);
    case Rec(entries) =>
      var next := DeepEntries(h, entries, depth);
      i :| 0 <= i < |entries| && Differs(next[i].1, entries[i].1);
      DeepEntryAt(h, entries, depth, i);
  }

  lemma {:induction false} DifferenceHasCause(h: Heap, v: Value, depth: nat) returns (path: seq<nat>)
    requires depth <= MAX_DEPTH + 1 && Differs(Deep(h, v, depth), v)
    ensures Causes(ViewAt(h, v, path), depth + |path|)
    decreases MAX_DEPTH + 1 - depth
  {
    if v.Object? && depth <= MAX_DEPTH {
      var i := DifferingChild(h, v, depth);
      var rest := DifferenceHasCause(h, Children(h, v)[i], depth + 1);
      path := [i] + rest;
      assert path[1..] == rest;
    } else {
      path := [];
      if v.Text? { UnchangedIffClean(v.s); }
    }
  }

  /** The changed flag, exactly: a credential URL within the limit sets it, and so does a NaN. */
  lemma ChangedIffSecretOrNaN(h: Heap, v: Value)
    ensures Differs(Deep(h, v, 0), v) <==> HasSecret(h, v, 0) || HasNaN(h, v, 0)
  {
    if Differs(Deep(h, v, 0), v) {
      var path := DifferenceHasCause(h, v, 0);
      assert ViewAt(h, v, path).Some?;
    } else if HasSecret(h, v, 0) {
      var path, s :| |path| <= MAX_DEPTH && ViewAt(h, v, path) == Some(TextView(s)) && !Clean(s);
      SecretOrNaNDiffers(h, v, 0, path);
    } else if HasNaN(h, v, 0) {
      var path :| |path| <= MAX_DEPTH + 1 && ViewAt(h, v, path) == Some(NaNView);
      SecretOrNaNDiffers(h, v, 0, path);
    }
  }

  /** So the flag tells the truth about the result unless a NaN is in reach and no credential URL is. */
  lemma FlagIsExactUnlessNaN(h: Heap, v: Value)
    ensures (Differs(Deep(h, v, 0), v) <==> LooksDifferent(h, Deep(h, v, 0), v)) <==> (HasSecret(h, v, 0) || !HasNaN(h, v, 0))
  {
    ChangedIffSecretOrNaN(h, v);
    LooksDifferentIffSecret(h, v);
  }

  /** An array holding only NaN is copied although nothing in it changes. */
  lemma NaNForcesCopy()
    ensures var h := map[0 := Arr([NaN])];
            Deep(h, Object(0), 0) == ArrCopy([Kept(NaN)]) && !LooksDifferent(h, Deep(h, Object(0), 0), Object(0))
  {
    var h := map[0 := Arr([NaN])];
    var next := DeepItems(h, [NaN], 0);
    assert next[0] == Kept(NaN) && Differs(next[0], [NaN][0]);
    assert next == [Kept(NaN)];
    LooksDifferentIffSecret(h, Object(0));
    forall path: seq<nat>, s: string | |path| <= MAX_DEPTH
      ensures ViewAt(h, Object(0), path) != Some(TextView(s))
    {
      if |path| > 0 && path[0] == 0 && |path| > 1 {
        assert Children(h, NaN) == [];
      }
    }
  }
}
