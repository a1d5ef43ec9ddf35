/** Combining two arrays: deduplication by a field and sorting by a numeric field. */
module ArrayCombine {
  import opened Ecma
  import opened StableSort
  import ObjectPaths

  /** What `typeof` and truthiness tell about an element. */
  datatype Element = Object(id: nat) | Null | Undefined | Scalar(id: nat, truthy: bool)

  predicate Truthy(e: Element) {
    e.Object? || (e.Scalar? && e.truthy)
  }

  predicate TypeofObject(e: Element) {
    e.Object? || e.Null?
  }

  /** The value of a field, as strict equality sees it. */
  datatype Key = Same(id: nat) | NaN

  predicate StrictlyEqual(a: Key, b: Key) {
    a == b && a != NaN
  }

  /** `Array.prototype.find` by key. */
  function Find(s: seq<Element>, key: Element -> Key, k: Key): (r: Option<Element>)
    ensures r.Some? ==> r.value in s && StrictlyEqual(key(r.value), k)
    ensures r.None? ==> forall i :: 0 <= i < |s| ==> !StrictlyEqual(key(s[i]), k)
  {
    if s == [] then None else if StrictlyEqual(key(s[0]), k) then Some(s[0]) else Find(s[1..], key, k)
  }

  /** One step of the reduction: an element is dropped when what is found for its key is truthy. */
  function Added(acc: seq<Element>, key: Element -> Key, e: Element): seq<Element> {
    var x := Find(acc, key, key(e));
    if x.None? || !Truthy(x.value) then acc + [e] else acc
  }

  function Reduced(acc: seq<Element>, s: seq<Element>, key: Element -> Key): seq<Element>
    decreases |s|
  {
    if s == [] then acc else Reduced(Added(acc, key, s[0]), s[1..], key)
  }

  function Unique(s: seq<Element>, field: string, key: Element -> Key): seq<Element> {
    if s == [] || !TypeofObject(s[0]) || ObjectPaths.BlankText(field) then s else Reduced([], s, key)
  }

  datatype Order = Order(rank: Element -> real, ascending: bool)

  /** The difference of the ranks, with its sign changed for descending order. */
  function Comparison(order: Order, a: Element, b: Element): real {
    var comparison := order.rank(a) - order.rank(b);
    if order.ascending then comparison else comparison * -1.0
  }

  function By(order: Order): (Element, Element) -> bool {
    (a: Element, b: Element) => Comparison(order, a, b) <= 0.0
  }

  function Defined(s: seq<Element>): seq<Element> {
    if s == [] then [] else (if s[0].Undefined? then [] else [s[0]]) + Defined(s[1..])
  }

  function Undefineds(s: seq<Element>): seq<Element> {
    if s == [] then [] else (if s[0].Undefined? then [s[0]] else []) + Undefineds(s[1..])
  }

  /** `Array.prototype.sort` never compares undefined elements; it moves them to the end. */
  function SortedArray(s: seq<Element>, leq: (Element, Element) -> bool): seq<Element> {
    Sorted(Defined(s), leq) + Undefineds(s)
  }

  function OrEmpty(s: Option<seq<Element>>): seq<Element> {
    match s case Some(elements) => elements case None => []
  }

  function Combined(arr1: Option<seq<Element>>, arr2: Option<seq<Element>>, field: string, key: Element -> Key, orderby: Option<Order>): seq<Element> {
    var all := OrEmpty(arr1) + OrEmpty(arr2);
    var kept := if field != "" then Unique(all, field, key) else all;
    match orderby case Some(order) => SortedArray(kept, By(order)) case None => kept
  }

  // First occurrences.

  /** The element at `i` is kept: what comes first with its key, if anything does before `i`, is falsy. */
  predicate Kept(s: seq<Element>, key: Element -> Key, i: nat)
    requires i < |s|
  {
    var x := Find(s[..i], key, key(s[i]));
    x.None? || !Truthy(x.value)
  }

  /** The kept elements among the first `n`. */
  function KeptIn(s: seq<Element>, key: Element -> Key, n: nat): seq<Element>
    requires n <= |s|
  {
    if n == 0 then [] else KeptIn(s, key, n - 1) + if Kept(s, key, n - 1) then [s[n - 1]] else []
  }

  lemma {:induction false} FindInConcat(a: seq<Element>, b: seq<Element>, key: Element -> Key, k: Key)
    ensures Find(a + b, key, k) == if Find(a, key, k).Some? then Find(a, key, k) else Find(b, key, k)
    decreases |a|
  {
    if a == [] {
      assert a + b == b;
    } else {
      assert (a + b)[0] == a[0] && (a + b)[1..] == a[1..] + b;
      FindInConcat(a[1..], b, key, k);
    }
  }

  /** Among the kept elements a key leads to the same element as among all. */
  lemma {:induction false} FindAmongKept(s: seq<Element>, key: Element -> Key, n: nat, k: Key)
    requires n <= |s|
    ensures Find(KeptIn(s, key, n), key, k) == Find(s[..n], key, k)
    decreases n
  {
    if n > 0 {
      FindAmongKept(s, key, n - 1, k);
      FindInConcat(s[..n - 1], [s[n - 1]], key, k);
      FindInConcat(KeptIn(s, key, n - 1), [s[n - 1]], key, k);
      KeptOrFound(s, key, n - 1, k);
      KeptNext(s, key, n);
    }
  }

  lemma KeptNext(s: seq<Element>, key: Element -> Key, n: nat)
    requires 0 < n <= |s|
    ensures KeptIn(s, key, n) == if Kept(s, key, n - 1) then KeptIn(s, key, n - 1) + [s[n - 1]] else KeptIn(s, key, n - 1)
    ensures s[..n] == s[..n - 1] + [s[n - 1]]
  {
  }

  lemma KeptOrFound(s: seq<Element>, key: Element -> Key, i: nat, k: Key)
    requires i < |s|
    ensures Kept(s, key, i) || Find(s[..i], key, k).Some? || Find([s[i]], key, k).None?
  {
  }

  lemma ReducedStep(s: seq<Element>, key: Element -> Key, n: nat)
    requires n < |s|
    ensures Added(KeptIn(s, key, n), key, s[n]) == KeptIn(s, key, n + 1)
  {
    FindAmongKept(s, key, n, key(s[n]));
    assert KeptIn(s, key, n) + [] == KeptIn(s, key, n);
  }

  lemma ReducedAt(acc: seq<Element>, s: seq<Element>, key: Element -> Key, n: nat)
    requires n < |s|
    ensures Reduced(acc, s[n..], key) == Reduced(Added(acc, key, s[n]), s[n + 1..], key)
  {
    assert s[n..][0] == s[n] && s[n..][1..] == s[n + 1..];
  }

  lemma {:induction false} ReducedKeeps(acc: seq<Element>, s: seq<Element>, key: Element -> Key, n: nat)
    requires n <= |s| && acc == KeptIn(s, key, n)
    ensures Reduced(acc, s[n..], key) == KeptIn(s, key, |s|)
    decreases |s| - n
  {
    if n == |s| {
      assert s[n..] == [];
    } else {
      ReducedStep(s, key, n);
      ReducedAt(acc, s, key, n);
      ReducedKeeps(Added(acc, key, s[n]), s, key, n + 1);
    }
  }

  /** The reduction keeps an element if and only if no truthy element comes first with its key. */
  lemma UniqueKeepsFirst(s: seq<Element>, field: string, key: Element -> Key)
    requires s != [] && (s[0].Object? || s[0].Null?) && exists k :: 0 <= k < |field| && field[k] as int !in SPACES
    ensures Unique(s, field, key) == KeptIn(s, key, |s|)
  {
    ObjectPaths.BlankTextIff(field);
    ReducedKeeps([], s, key, 0);
    assert s[0..] == s;
  }

  function OfKey(s: seq<Element>, key: Element -> Key, k: Key): seq<Element> {
    if s == [] then [] else (if key(s[0]) == k then [s[0]] else []) + OfKey(s[1..], key, k)
  }

  /** What is left of one key: its first element if that is truthy, and otherwise every element. */
  function LeftOfKey(s: seq<Element>, key: Element -> Key, k: Key): seq<Element> {
    var x := Find(s, key, k);
    if x.Some? && Truthy(x.value) then [x.value] else OfKey(s, key, k)
  }

  lemma {:induction false} OfKeyConcat(a: seq<Element>, b: seq<Element>, key: Element -> Key, k: Key)
    ensures OfKey(a + b, key, k) == OfKey(a, key, k) + OfKey(b, key, k)
    decreases |a|
  {
    if a == [] {
      assert a + b == b;
    } else {
      assert (a + b)[0] == a[0] && (a + b)[1..] == a[1..] + b;
      OfKeyConcat(a[1..], b, key, k);
      ConcatAssoc(if key(a[0]) == k then [a[0]] else [], OfKey(a[1..], key, k), OfKey(b, key, k));
    }
  }

  lemma {:induction false} NotFoundNotOfKey(s: seq<Element>, key: Element -> Key, k: Key)
    requires k != NaN
    ensures Find(s, key, k).None? <==> OfKey(s, key, k) == []
    decreases |s|
  {
    if s != [] { NotFoundNotOfKey(s[1..], key, k); }
  }

  /** The elements of one key among the kept ones. */
  lemma {:induction false} KeptOfKey(s: seq<Element>, key: Element -> Key, n: nat, k: Key)
    requires n <= |s|
    ensures OfKey(KeptIn(s, key, n), key, k) == LeftOfKey(s[..n], key, k)
    decreases n
  {
    if n > 0 {
      KeptOfKey(s, key, n - 1, k);
      KeptNext(s, key, n);
      OfKeyConcat(KeptIn(s, key, n - 1), [s[n - 1]], key, k);
      LeftOfKeyNext(s[..n - 1], s[n - 1], key, k);
    }
  }

  /** One more element is left of its key unless a truthy one came first. */
  lemma LeftOfKeyNext(s: seq<Element>, last: Element, key: Element -> Key, k: Key)
    ensures var x := Find(s, key, key(last));
            var kept := x.None? || !Truthy(x.value);
            LeftOfKey(s + [last], key, k) == LeftOfKey(s, key, k) + if kept then OfKey([last], key, k) else []
  {
    OfKeyConcat(s, [last], key, k);
    FindInConcat(s, [last], key, k);
    LastOfKey(s, last, key, k);
    assert LeftOfKey(s, key, k) + [] == LeftOfKey(s, key, k);
  }

  lemma LastOfKey(s: seq<Element>, last: Element, key: Element -> Key, k: Key)
    ensures key(last) != k ==> OfKey([last], key, k) == [] && Find([last], key, k).None?
    ensures key(last) == k ==> OfKey([last], key, k) == [last]
    ensures key(last) == k && k != NaN && Find(s, key, k).None? ==> OfKey(s, key, k) == []
    ensures k == NaN ==> Find(s + [last], key, k).None? && Find(s, key, k).None?
  {
    if k != NaN { NotFoundNotOfKey(s, key, k); }
  }

  // Sorting what is left.

  lemma HeadOfKey(s: seq<Element>, key: Element -> Key, k: Key)
    requires s != []
    ensures multiset(OfKey(s, key, k)) == multiset(OfKey([s[0]], key, k)) + multiset(OfKey(s[1..], key, k))
  {
    OfKeyConcat([s[0]], s[1..], key, k);
    assert [s[0]] + s[1..] == s;
  }

  lemma {:induction false} InsertedOfKey(x: Element, s: seq<Element>, leq: (Element, Element) -> bool, key: Element -> Key, k: Key)
    ensures multiset(OfKey(Inserted(x, s, leq), key, k)) == multiset(OfKey([x], key, k)) + multiset(OfKey(s, key, k))
    decreases |s|
  {
    if s == [] || leq(x, s[0]) {
      OfKeyConcat([x], s, key, k);
    } else {
      var rest := Inserted(x, s[1..], leq);
      InsertedOfKey(x, s[1..], leq, key, k);
      OfKeyConcat([s[0]], rest, key, k);
      HeadOfKey(s, key, k);
    }
  }

  lemma {:induction false} SortedOfKey(s: seq<Element>, leq: (Element, Element) -> bool, key: Element -> Key, k: Key)
    ensures multiset(OfKey(Sorted(s, leq), key, k)) == multiset(OfKey(s, key, k))
    decreases |s|
  {
    if s != [] {
      var rest := Sorted(s[1..], leq);
      SortedOfKey(s[1..], leq, key, k);
      InsertedOfKey(s[0], rest, leq, key, k);
      HeadOfKey(s, key, k);
    }
  }

  lemma DefinedOfKey(s: seq<Element>, key: Element -> Key, k: Key)
    requires s != []
    ensures OfKey(Defined(s), key, k) == (if s[0].Undefined? then [] else OfKey([s[0]], key, k)) + OfKey(Defined(s[1..]), key, k)
  {
    var rest := Defined(s[1..]);
    if s[0].Undefined? {
      assert [] + rest == rest && [] + OfKey(rest, key, k) == OfKey(rest, key, k);
    } else {
      OfKeyConcat([s[0]], rest, key, k);
    }
  }

  lemma UndefinedsOfKey(s: seq<Element>, key: Element -> Key, k: Key)
    requires s != []
    ensures OfKey(Undefineds(s), key, k) == (if s[0].Undefined? then OfKey([s[0]], key, k) else []) + OfKey(Undefineds(s[1..]), key, k)
  {
    var rest := Undefineds(s[1..]);
    if s[0].Undefined? {
      OfKeyConcat([s[0]], rest, key, k);
    } else {
      assert [] + rest == rest && [] + OfKey(rest, key, k) == OfKey(rest, key, k);
    }
  }

  lemma {:induction false} PartsOfKey(s: seq<Element>, key: Element -> Key, k: Key)
    ensures multiset(OfKey(Defined(s), key, k)) + multiset(OfKey(Undefineds(s), key, k)) == multiset(OfKey(s, key, k))
    decreases |s|
  {
    if s != [] {
      PartsOfKey(s[1..], key, k);
      HeadOfKey(s, key, k);
      DefinedOfKey(s, key, k);
      UndefinedsOfKey(s, key, k);
    }
  }

  lemma SortedArrayOfKey(s: seq<Element>, leq: (Element, Element) -> bool, key: Element -> Key, k: Key)
    ensures multiset(OfKey(SortedArray(s, leq), key, k)) == multiset(OfKey(s, key, k))
  {
    OfKeyConcat(Sorted(Defined(s), leq), Undefineds(s), key, k);
    SortedOfKey(Defined(s), leq, key, k);
    PartsOfKey(s, key, k);
  }

  /** The first element of a key if that is an object or a truthy scalar, and otherwise every element of it. */
  function FirstOrAll(s: seq<Element>, key: Element -> Key, k: Key): seq<Element> {
    match Find(s, key, k)
    case Some(Object(id)) => [Object(id)]
    case Some(Scalar(id, true)) => [Scalar(id, true)]
    case _ => OfKey(s, key, k)
  }

  lemma FirstOrAllIsLeft(s: seq<Element>, key: Element -> Key, k: Key)
    ensures FirstOrAll(s, key, k) == LeftOfKey(s, key, k)
  {
  }

  /**
   Deduplicating and sorting two arrays leaves each key whose first element in the first array and then the second is
   an object with exactly that element. Of a key that starts with a falsy element nothing is dropped.
   */
  lemma CombinedHasFirstOfEachKey(arr1: Option<seq<Element>>, arr2: Option<seq<Element>>, field: string, key: Element -> Key, orderby: Option<Order>, k: Key)
    requires exists k :: 0 <= k < |field| && field[k] as int !in SPACES
    requires var all := OrEmpty(arr1) + OrEmpty(arr2); all != [] && (all[0].Object? || all[0].Null?)
    ensures multiset(OfKey(Combined(arr1, arr2, field, key, orderby), key, k))
         == multiset(FirstOrAll(OrEmpty(arr1) + OrEmpty(arr2), key, k))
  {
    var all := OrEmpty(arr1) + OrEmpty(arr2);
    UniqueKeepsFirst(all, field, key);
    KeptOfKey(all, key, |all|, k);
    FirstOrAllIsLeft(all, key, k);
    assert all[..|all|] == all;
    if orderby.Some? { SortedArrayOfKey(Unique(all, field, key), By(orderby.value), key, k); }
  }

  lemma ByIsConsistent(order: Order)
    ensures IsConsistent(By(order))
  {
  }

  /** The elements of one rank. */
  function OfRank(s: seq<Element>, rank: Element -> real, r: real): seq<Element> {
    if s == [] then [] else (if rank(s[0]) == r then [s[0]] else []) + OfRank(s[1..], rank, r)
  }

  lemma {:induction false} TiesHaveOneRank(s: seq<Element>, order: Order, x: Element)
    ensures TiesOf(s, By(order), x) == OfRank(s, order.rank, order.rank(x))
    decreases |s|
  {
    if s != [] { TiesHaveOneRank(s[1..], order, x); }
  }

  lemma {:induction false} PartsAreMembers(s: seq<Element>)
    ensures |Defined(s)| + |Undefineds(s)| == |s|
    ensures forall i :: 0 <= i < |Undefineds(s)| ==> Undefineds(s)[i].Undefined?
    ensures forall i :: 0 <= i < |Defined(s)| ==> !Defined(s)[i].Undefined?
    decreases |s|
  {
    if s != [] { PartsAreMembers(s[1..]); }
  }

  /**
   The result is ordered in the requested direction up to the undefined elements, which come last, and elements of one
   rank keep the order in which they were combined, in descending order too.
   */
  lemma CombinedIsStable(arr1: Option<seq<Element>>, arr2: Option<seq<Element>>, field: string, key: Element -> Key, order: Order, x: Element)
    ensures var out, kept := Combined(arr1, arr2, field, key, Some(order)), Combined(arr1, arr2, field, key, None);
            var n := |Defined(kept)|;
            && |out| == |kept| && n <= |out| && (forall i :: 0 <= i < |out| ==> (i < n <==> !out[i].Undefined?))
            && (forall i, j :: 0 <= i < j < n ==>
                  if order.ascending then order.rank(out[i]) <= order.rank(out[j]) else order.rank(out[i]) >= order.rank(out[j]))
            && OfRank(out[..n], order.rank, order.rank(x)) == OfRank(Defined(kept), order.rank, order.rank(x))
  {
    var kept := Combined(arr1, arr2, field, key, None);
    PartsAreMembers(kept);
    SortedParts(kept, By(order));
    SortedByRank(Defined(kept), order, x);
  }

  lemma SortedParts(s: seq<Element>, leq: (Element, Element) -> bool)
    ensures var sorted, n := Sorted(Defined(s), leq), |Defined(s)|;
            && |sorted| == n && SortedArray(s, leq)[..n] == sorted
            && (forall i :: 0 <= i < n ==> !SortedArray(s, leq)[i].Undefined?)
            && (forall i :: n <= i < |s| ==> |SortedArray(s, leq)| == |s| && SortedArray(s, leq)[i].Undefined?)
            && |SortedArray(s, leq)| == |s|
  {
    var sorted := Sorted(Defined(s), leq);
    PartsAreMembers(s);
    SortedIsPermutation(Defined(s), leq);
    assert |multiset(sorted)| == |sorted| && |multiset(Defined(s))| == |Defined(s)|;
    forall i | 0 <= i < |sorted| ensures !sorted[i].Undefined? {
      assert sorted[i] in multiset(Defined(s));
    }
    assert SortedArray(s, leq)[..|sorted|] == sorted;
    assert forall i :: 0 <= i < |sorted| ==> SortedArray(s, leq)[i] == sorted[i];
    assert forall i :: |sorted| <= i < |s| ==> SortedArray(s, leq)[i] == Undefineds(s)[i - |sorted|];
  }

  lemma SortedByRank(s: seq<Element>, order: Order, x: Element)
    ensures var out := Sorted(s, By(order));
            && (forall i, j :: 0 <= i < j < |out| ==>
                  if order.ascending then order.rank(out[i]) <= order.rank(out[j]) else order.rank(out[i]) >= order.rank(out[j]))
            && OfRank(out, order.rank, order.rank(x)) == OfRank(s, order.rank, order.rank(x))
  {
    var out := Sorted(s, By(order));
    ByIsConsistent(order);
    SortedIsStable(s, By(order));
    assert TiesOf(out, By(order), x) == TiesOf(s, By(order), x);
    TiesHaveOneRank(out, order, x);
    TiesHaveOneRank(s, order, x);
    forall i, j | 0 <= i < j < |out|
      ensures if order.ascending then order.rank(out[i]) <= order.rank(out[j]) else order.rank(out[i]) >= order.rank(out[j])
    {
      assert By(order)(out[i], out[j]);
    }
  }

  /** Without a field, or where the combination does not start with an object or null, nothing is dropped. */
  lemma OtherwiseAllAreKept(arr1: Option<seq<Element>>, arr2: Option<seq<Element>>, field: string, key: Element -> Key)
    requires var all := OrEmpty(arr1) + OrEmpty(arr2);
             || all == [] || all[0].Undefined? || all[0].Scalar? || forall k :: 0 <= k < |field| ==> field[k] as int in SPACES
    ensures Combined(arr1, arr2, field, key, None) == OrEmpty(arr1) + OrEmpty(arr2)
  {
    ObjectPaths.BlankTextIff(field);
  }
}
