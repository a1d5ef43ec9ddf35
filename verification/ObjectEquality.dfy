/**
 Deep comparison of property trees that share no objects. The comparison checks only the keys of its first
 argument and the number of keys of both.
 */
module ObjectEquality {

  datatype Tree =
    | Undefined | Null | Bool(b: bool) | Num(n: int) | NaN | Text(s: string)
    | Arr(items: seq<Tree>) | Record(fields: map<string, Tree>)

  /** `===` on trees in distinct storage: no two objects are identical, and NaN is not identical to itself. */
  predicate Identical(a: Tree, b: Tree) {
    a == b && !a.NaN? && !a.Arr? && !a.Record?
  }

  predicate Falsy(t: Tree) {
    t == Undefined || t == Null || t == Bool(false) || t == Num(0) || t == NaN || t == Text("")
  }

  /** `typeof t === 'object'`. */
  predicate TypeofObject(t: Tree) {
    t.Null? || t.Arr? || t.Record?
  }

  function Get(fields: map<string, Tree>, key: string): Tree {
    if key in fields then fields[key] else Undefined
  }

  /** `isEqual`. */
  predicate IsEqual(a: Tree, b: Tree)
    decreases a
  {
    if Identical(a, b) then true
    else if Falsy(a) || Falsy(b) || !a.Record? || !b.Record? then false
    else |a.fields| == |b.fields| && forall k :: k in a.fields ==>
      if TypeofObject(a.fields[k]) && TypeofObject(Get(b.fields, k)) then IsEqual(a.fields[k], Get(b.fields, k))
      else Identical(a.fields[k], Get(b.fields, k))
  }

  /** The comparison with its loop over the keys, in any order of enumeration. */
  method CompareTrees(a: Tree, b: Tree) returns (equal: bool)
    ensures equal == IsEqual(a, b)
    decreases a
  {
    if Identical(a, b) { return true; }
    if Falsy(a) || Falsy(b) { return false; }
    if !a.Record? || !b.Record? { return false; }
    if |a.fields| != |b.fields| { return false; }
    var keys := a.fields.Keys;
    while keys != {}
      invariant keys <= a.fields.Keys
      invariant forall k :: k in a.fields && k !in keys ==>
        if TypeofObject(a.fields[k]) && TypeofObject(Get(b.fields, k)) then IsEqual(a.fields[k], Get(b.fields, k))
        else Identical(a.fields[k], Get(b.fields, k))
      decreases keys
    {
      var key :| key in keys;
      var val1, val2 := a.fields[key], Get(b.fields, key);
      if TypeofObject(val1) && TypeofObject(val2) {
        var same := CompareTrees(val1, val2);
        if !same { return false; }
      } else if !Identical(val1, val2) {
        return false;
      }
      keys := keys - {key};
    }
    return true;
  }

  /** No NaN, no array and, below the top, no undefined. */
  predicate Comparable(t: Tree) {
    match t
    case NaN => false
    case Arr(_) => false
    case Record(fields) => forall k :: k in fields ==> fields[k] != Undefined && Comparable(fields[k])
    case _ => true
  }

  /** No NaN and no array. */
  predicate Reflexive(t: Tree) {
    match t
    case NaN => false
    case Arr(_) => false
    case Record(fields) => forall k :: k in fields ==> Reflexive(fields[k])
    case _ => true
  }

  lemma {:induction false} EqualToItselfIffReflexive(t: Tree)
    ensures IsEqual(t, t) <==> Reflexive(t)
  {
    if t.Record? {
      forall k | k in t.fields ensures IsEqual(t.fields[k], t.fields[k]) <==> Reflexive(t.fields[k]) {
        EqualToItselfIffReflexive(t.fields[k]);
      }
    }
  }

  lemma SameKeys(a: map<string, Tree>, b: map<string, Tree>)
    requires |a| == |b| && a.Keys <= b.Keys
    ensures a.Keys == b.Keys
  {
    var rest := b.Keys - a.Keys;
    assert b.Keys == a.Keys + rest;
    assert |b.Keys| == |a.Keys| + |rest|;
  }

  lemma {:induction false} ComparableIsStructural(t: Tree, u: Tree)
    requires Comparable(t)
    ensures IsEqual(t, u) <==> t == u
    decreases t
  {
    if t.Record? && u.Record? {
      forall k | k in t.fields ensures IsEqual(t.fields[k], Get(u.fields, k)) <==> t.fields[k] == Get(u.fields, k) {
        ComparableIsStructural(t.fields[k], Get(u.fields, k));
      }
      if IsEqual(t, u) {
        assert forall k :: k in t.fields ==> t.fields[k] == Get(u.fields, k);
        assert t.fields.Keys <= u.fields.Keys;
        SameKeys(t.fields, u.fields);
        assert t.fields == u.fields;
      }
    }
  }

  /** A key that is in none of finitely many. */
  lemma {:induction false} FreshKey(keys: set<string>) returns (z: string)
    ensures z !in keys && forall k :: k in keys ==> |k| < |z|
    decreases keys
  {
    if keys == {} {
      z := "";
    } else {
      var k :| k in keys;
      var y := FreshKey(keys - {k});
      z := if |k| < |y| then y else k + "x";
    }
  }

  lemma EqualFields(t: Tree, u: Tree)
    requires t.Record? && u.Record? && |t.fields| == |u.fields|
    requires forall k :: k in t.fields ==> IsEqual(t.fields[k], Get(u.fields, k))
    ensures IsEqual(t, u)
  {
  }

  /** The undefined property under a new name. */
  lemma TwinByRenaming(t: Tree, k: string) returns (u: Tree)
    requires t.Record? && k in t.fields && t.fields[k] == Undefined
    requires forall k :: k in t.fields ==> IsEqual(t.fields[k], t.fields[k])
    ensures u != t && u != Undefined && IsEqual(t, u)
  {
    var z := FreshKey(t.fields.Keys);
    var rest := t.fields - {k};
    u := Record(rest[z := Undefined]);
    assert t.fields.Keys == rest.Keys + {k};
    assert u.fields.Keys == rest.Keys + {z};
    assert |t.fields.Keys| == |rest.Keys| + 1 == |u.fields.Keys|;
    EqualFields(t, u);
    assert z in u.fields;
  }

  /** Another tree in place of the property. */
  lemma TwinByProperty(t: Tree, k: string, w: Tree)
    requires t.Record? && k in t.fields && w != t.fields[k] && IsEqual(t.fields[k], w)
    requires forall k :: k in t.fields ==> IsEqual(t.fields[k], t.fields[k])
    ensures Record(t.fields[k := w]) != t && IsEqual(t, Record(t.fields[k := w]))
  {
    var u := Record(t.fields[k := w]);
    assert u.fields.Keys == t.fields.Keys;
    assert |u.fields.Keys| == |u.fields| && |t.fields.Keys| == |t.fields|;
    assert u.fields[k] != t.fields[k];
    EqualFields(t, u);
  }

  /** A tree with an undefined property is equal to some other tree. */
  lemma {:induction false} Twin(t: Tree) returns (u: Tree)
    requires Reflexive(t) && !Comparable(t)
    ensures u != t && u != Undefined && IsEqual(t, u)
    decreases t
  {
    forall k | k in t.fields ensures IsEqual(t.fields[k], t.fields[k]) {
      EqualToItselfIffReflexive(t.fields[k]);
    }
    if k :| k in t.fields && t.fields[k] == Undefined {
      u := TwinByRenaming(t, k);
    } else {
      var k :| k in t.fields && !Comparable(t.fields[k]);
      var w := Twin(t.fields[k]);
      u := Record(t.fields[k := w]);
      TwinByProperty(t, k, w);
    }
  }

  /**
   The comparison with `t` is structural equality if and only if `t` holds no NaN, no array and no undefined
   property. On such trees it is therefore an equivalence.
   */
  lemma StructuralIffComparable(t: Tree)
    ensures (forall u :: IsEqual(t, u) <==> t == u) <==> Comparable(t)
  {
    if Comparable(t) {
      forall u ensures IsEqual(t, u) <==> t == u { ComparableIsStructural(t, u); }
    } else if Reflexive(t) {
      var u := Twin(t);
      assert IsEqual(t, u) && t != u;
    } else {
      EqualToItselfIffReflexive(t);
      assert !IsEqual(t, t);
    }
  }

  /** Wherever two trees both have a record, the properties that only the second one names are undefined. */
  predicate ExtrasUndefined(a: Tree, b: Tree)
    decreases a
  {
    a.Record? && b.Record? ==>
      && (forall k :: k in b.fields && k !in a.fields ==> b.fields[k] == Undefined)
      && (forall k :: k in a.fields && k in b.fields ==> ExtrasUndefined(a.fields[k], b.fields[k]))
  }

  /** One property, compared as in the loop. */
  predicate SameProperty(x: Tree, y: Tree) {
    if TypeofObject(x) && TypeofObject(y) then IsEqual(x, y) else Identical(x, y)
  }

  lemma EqualRecords(a: Tree, b: Tree)
    requires a.Record? && b.Record?
    ensures IsEqual(a, b) <==> |a.fields| == |b.fields| && forall k :: k in a.fields ==> SameProperty(a.fields[k], Get(b.fields, k))
  {
  }

  /** A tree that compares as equal to another one compares so the other way round if and only if its extras are undefined. */
  lemma {:induction false} SymmetricIffExtrasUndefined(a: Tree, b: Tree)
    requires IsEqual(a, b)
    ensures IsEqual(b, a) <==> ExtrasUndefined(a, b)
    decreases a, 0
  {
    if a.Record? && b.Record? {
      EqualRecords(a, b);
      EqualRecords(b, a);
      forall k | k in b.fields
        ensures SameProperty(b.fields[k], Get(a.fields, k))
           <==> if k in a.fields then ExtrasUndefined(a.fields[k], b.fields[k]) else b.fields[k] == Undefined
      {
        if k in a.fields {
          assert SameProperty(a.fields[k], Get(b.fields, k));
          SymmetricProperty(a.fields[k], b.fields[k]);
        }
      }
    }
  }

  lemma {:induction false} SymmetricProperty(x: Tree, y: Tree)
    requires SameProperty(x, y)
    ensures SameProperty(y, x) <==> ExtrasUndefined(x, y)
    decreases x, 1
  {
    if TypeofObject(x) && TypeofObject(y) { SymmetricIffExtrasUndefined(x, y); }
  }

  /** So an undefined property makes the comparison lose its symmetry. */
  lemma UndefinedBreaksSymmetry()
    ensures var a, b := Record(map["x" := Undefined]), Record(map["y" := Num(1)]);
            IsEqual(a, b) && !IsEqual(b, a)
  {
    var a, b := Record(map["x" := Undefined]), Record(map["y" := Num(1)]);
    assert a.fields.Keys == {"x"} && b.fields.Keys == {"y"};
    assert |a.fields| == |a.fields.Keys| && |b.fields| == |b.fields.Keys|;
    assert "y" in b.fields && Get(a.fields, "y") == Undefined;
  }
}
