/** Stable sorting by a comparison, as section 23.1.3.30 of ECMA-262 demands it, whatever the algorithm. */
module StableSort {
  /** `leq(a, b)` says that the comparison of `a` with `b` is not positive. */
  ghost predicate IsConsistent<E(!new)>(leq: (E, E) -> bool) {
    && (forall a, b :: leq(a, b) || leq(b, a))
    && (forall a, b, c :: leq(a, b) && leq(b, c) ==> leq(a, c))
  }

  predicate IsSorted<E>(s: seq<E>, leq: (E, E) -> bool) {
    forall i, j :: 0 <= i < j < |s| ==> leq(s[i], s[j])
  }

  predicate Ties<E>(leq: (E, E) -> bool, x: E, y: E) {
    leq(x, y) && leq(y, x)
  }

  /** The elements that tie with `x`, in their order. */
  function TiesOf<E>(s: seq<E>, leq: (E, E) -> bool, x: E): seq<E> {
    if s == [] then [] else (if Ties(leq, x, s[0]) then [s[0]] else []) + TiesOf(s[1..], leq, x)
  }

  /** The two sequences differ at most in how elements that do not tie are interleaved. */
  ghost predicate SameTies<E(!new)>(a: seq<E>, b: seq<E>, leq: (E, E) -> bool) {
    forall x :: TiesOf(a, leq, x) == TiesOf(b, leq, x)
  }

  function Inserted<E>(x: E, s: seq<E>, leq: (E, E) -> bool): seq<E> {
    if s == [] || leq(x, s[0]) then [x] + s else [s[0]] + Inserted(x, s[1..], leq)
  }

  function Sorted<E>(s: seq<E>, leq: (E, E) -> bool): seq<E> {
    if s == [] then [] else Inserted(s[0], Sorted(s[1..], leq), leq)
  }

  lemma {:induction false} InsertedIsPermutation<E>(x: E, s: seq<E>, leq: (E, E) -> bool)
    ensures multiset(Inserted(x, s, leq)) == multiset{x} + multiset(s)
    decreases |s|
  {
    if s != [] && !leq(x, s[0]) {
      InsertedIsPermutation(x, s[1..], leq);
      assert s == [s[0]] + s[1..];
    }
  }

  lemma {:induction false} SortedIsPermutation<E>(s: seq<E>, leq: (E, E) -> bool)
    ensures multiset(Sorted(s, leq)) == multiset(s)
    decreases |s|
  {
    if s != [] {
      SortedIsPermutation(s[1..], leq);
      InsertedIsPermutation(s[0], Sorted(s[1..], leq), leq);
      assert s == [s[0]] + s[1..];
    }
  }

  lemma {:induction false} InsertedMember<E>(x: E, s: seq<E>, leq: (E, E) -> bool, y: E)
    ensures y in Inserted(x, s, leq) <==> y == x || y in s
    decreases |s|
  {
    if s != [] && !leq(x, s[0]) { InsertedMember(x, s[1..], leq, y); }
  }

  lemma SortedCons<E(!new)>(head: E, tail: seq<E>, leq: (E, E) -> bool)
    requires IsSorted(tail, leq) && forall y :: y in tail ==> leq(head, y)
    ensures IsSorted([head] + tail, leq)
  {
    var s := [head] + tail;
    forall i, j | 0 <= i < j < |s| ensures leq(s[i], s[j]) {
      assert s[j] == tail[j - 1] && tail[j - 1] in tail;
    }
  }

  lemma HeadIsLeast<E>(s: seq<E>, leq: (E, E) -> bool, y: E)
    requires s != [] && IsSorted(s, leq) && y in s[1..]
    ensures leq(s[0], y)
  {
    var k :| 0 <= k < |s| - 1 && s[1..][k] == y;
    assert s[k + 1] == y;
  }

  lemma InsertedAtFront<E(!new)>(x: E, s: seq<E>, leq: (E, E) -> bool)
    requires IsConsistent(leq) && IsSorted(s, leq) && (s == [] || leq(x, s[0]))
    ensures IsSorted([x] + s, leq)
  {
    forall y | y in s ensures leq(x, y) {
      assert leq(s[0], y) by { if y != s[0] { HeadIsLeast(s, leq, y); } else { assert leq(s[0], s[0]); } }
    }
    SortedCons(x, s, leq);
  }

  lemma {:induction false} InsertedIsSorted<E(!new)>(x: E, s: seq<E>, leq: (E, E) -> bool)
    requires IsConsistent(leq) && IsSorted(s, leq)
    ensures IsSorted(Inserted(x, s, leq), leq)
    decreases |s|
  {
    if s == [] || leq(x, s[0]) {
      InsertedAtFront(x, s, leq);
    } else {
      InsertedIsSorted(x, s[1..], leq);
      forall y | y in Inserted(x, s[1..], leq) ensures leq(s[0], y) {
        InsertedMember(x, s[1..], leq, y);
        if y in s[1..] { HeadIsLeast(s, leq, y); }
      }
      SortedCons(s[0], Inserted(x, s[1..], leq), leq);
    }
  }

  lemma TiesAreSymmetric<E(!new)>(leq: (E, E) -> bool, x: E, y: E, z: E)
    requires IsConsistent(leq) && Ties(leq, z, x) && Ties(leq, z, y)
    ensures Ties(leq, x, y)
  {
    assert leq(x, z) && leq(z, y) && leq(y, z) && leq(z, x);
  }

  lemma {:induction false} InsertedTies<E(!new)>(x: E, s: seq<E>, leq: (E, E) -> bool, z: E)
    requires IsConsistent(leq)
    ensures TiesOf(Inserted(x, s, leq), leq, z) == TiesOf([x] + s, leq, z)
    decreases |s|
  {
    assert ([x] + s)[1..] == s;
    if s != [] && !leq(x, s[0]) {
      InsertedTies(x, s[1..], leq, z);
      assert ([x] + s[1..])[1..] == s[1..];
      assert ([s[0]] + Inserted(x, s[1..], leq))[1..] == Inserted(x, s[1..], leq);
      if Ties(leq, z, x) && Ties(leq, z, s[0]) { TiesAreSymmetric(leq, x, s[0], z); }
    }
  }

  lemma {:induction false} SortedTies<E(!new)>(s: seq<E>, leq: (E, E) -> bool, z: E)
    requires IsConsistent(leq)
    ensures TiesOf(Sorted(s, leq), leq, z) == TiesOf(s, leq, z)
    decreases |s|
  {
    if s != [] {
      var rest := Sorted(s[1..], leq);
      SortedTies(s[1..], leq, z);
      InsertedTies(s[0], rest, leq, z);
      assert ([s[0]] + rest)[1..] == rest;
    }
  }

  lemma {:induction false} SortedInOrder<E(!new)>(s: seq<E>, leq: (E, E) -> bool)
    requires IsConsistent(leq)
    ensures IsSorted(Sorted(s, leq), leq)
    decreases |s|
  {
    if s != [] {
      SortedInOrder(s[1..], leq);
      InsertedIsSorted(s[0], Sorted(s[1..], leq), leq);
    }
  }

  /** The sorted sequence is in order, and elements that tie keep their order. */
  lemma SortedIsStable<E(!new)>(s: seq<E>, leq: (E, E) -> bool)
    requires IsConsistent(leq)
    ensures IsSorted(Sorted(s, leq), leq) && SameTies(Sorted(s, leq), s, leq)
  {
    SortedInOrder(s, leq);
    forall x ensures TiesOf(Sorted(s, leq), leq, x) == TiesOf(s, leq, x) {
      SortedTies(s, leq, x);
    }
  }

  // There is only one such sequence.

  lemma {:induction false} TiesMember<E>(s: seq<E>, leq: (E, E) -> bool, x: E, y: E)
    ensures y in TiesOf(s, leq, x) <==> y in s && Ties(leq, x, y)
    decreases |s|
  {
    if s != [] { TiesMember(s[1..], leq, x, y); }
  }

  lemma SameMember<E(!new)>(a: seq<E>, b: seq<E>, leq: (E, E) -> bool, y: E)
    requires IsConsistent(leq) && SameTies(a, b, leq) && y in a
    ensures y in b
  {
    assert leq(y, y);
    TiesMember(a, leq, y, y);
    TiesMember(b, leq, y, y);
    assert TiesOf(a, leq, y) == TiesOf(b, leq, y);
  }

  lemma LeastOf<E(!new)>(s: seq<E>, leq: (E, E) -> bool, y: E)
    requires IsConsistent(leq) && IsSorted(s, leq) && y in s
    ensures leq(s[0], y)
  {
    if y != s[0] { HeadIsLeast(s, leq, y); } else { assert leq(y, y); }
  }

  lemma SameHead<E(!new)>(a: seq<E>, b: seq<E>, leq: (E, E) -> bool)
    requires IsConsistent(leq) && a != [] && b != [] && IsSorted(a, leq) && IsSorted(b, leq) && SameTies(a, b, leq)
    ensures a[0] == b[0]
  {
    SameMember(a, b, leq, a[0]);
    SameMember(b, a, leq, b[0]);
    LeastOf(a, leq, b[0]);
    LeastOf(b, leq, a[0]);
    LeastOf(a, leq, a[0]);
    assert TiesOf(a, leq, a[0])[0] == a[0];
    assert TiesOf(b, leq, a[0])[0] == b[0];
    assert TiesOf(a, leq, a[0]) == TiesOf(b, leq, a[0]);
  }

  lemma SameTail<E(!new)>(a: seq<E>, b: seq<E>, leq: (E, E) -> bool)
    requires a != [] && b != [] && a[0] == b[0] && SameTies(a, b, leq)
    ensures SameTies(a[1..], b[1..], leq)
  {
    forall x ensures TiesOf(a[1..], leq, x) == TiesOf(b[1..], leq, x) {
      var head := if Ties(leq, x, a[0]) then [a[0]] else [];
      assert head + TiesOf(a[1..], leq, x) == TiesOf(a, leq, x) == TiesOf(b, leq, x) == head + TiesOf(b[1..], leq, x);
      assert TiesOf(a[1..], leq, x) == TiesOf(a, leq, x)[|head|..];
      assert TiesOf(b[1..], leq, x) == TiesOf(b, leq, x)[|head|..];
    }
  }

  lemma SameEmptiness<E(!new)>(a: seq<E>, b: seq<E>, leq: (E, E) -> bool)
    requires IsConsistent(leq) && SameTies(a, b, leq)
    ensures a == [] <==> b == []
  {
    if a != [] { SameMember(a, b, leq, a[0]); }
    if b != [] { SameMember(b, a, leq, b[0]); }
  }

  /** Any stable sort gives the same sequence. */
  lemma {:induction false} StableSortIsUnique<E(!new)>(a: seq<E>, b: seq<E>, leq: (E, E) -> bool)
    requires IsConsistent(leq) && IsSorted(a, leq) && IsSorted(b, leq) && SameTies(a, b, leq)
    ensures a == b
    decreases |a|
  {
    SameEmptiness(a, b, leq);
    if a != [] {
      SameHead(a, b, leq);
      SameTail(a, b, leq);
      StableSortIsUnique(a[1..], b[1..], leq);
      assert a == [a[0]] + a[1..] && b == [b[0]] + b[1..];
    }
  }

  // Making comparisons.

  function Ascending(): (int, int) -> bool {
    (a: int, b: int) => a <= b
  }

  function Reversed<E>(leq: (E, E) -> bool): (E, E) -> bool {
    (a: E, b: E) => leq(b, a)
  }

  function On<E, K>(key: E -> K, leq: (K, K) -> bool): (E, E) -> bool {
    (a: E, b: E) => leq(key(a), key(b))
  }

  /** JavaScript's `first(a, b) || second(a, b)` on comparisons: the second one breaks ties of the first. */
  function Then<E>(first: (E, E) -> bool, second: (E, E) -> bool): (E, E) -> bool {
    (a: E, b: E) => !first(b, a) || (first(a, b) && second(a, b))
  }

  lemma ReversedIsConsistent<E(!new)>(leq: (E, E) -> bool)
    requires IsConsistent(leq)
    ensures IsConsistent(Reversed(leq))
  {
    forall a, b ensures Reversed(leq)(a, b) || Reversed(leq)(b, a) {
      assert leq(a, b) || leq(b, a);
    }
    forall a, b, c | Reversed(leq)(a, b) && Reversed(leq)(b, c) ensures Reversed(leq)(a, c) {
      assert leq(c, b) && leq(b, a) ==> leq(c, a);
    }
  }

  lemma OnIsConsistent<E(!new), K(!new)>(key: E -> K, leq: (K, K) -> bool)
    requires IsConsistent(leq)
    ensures IsConsistent(On(key, leq))
  {
    forall a, b ensures On(key, leq)(a, b) || On(key, leq)(b, a) {
      assert leq(key(a), key(b)) || leq(key(b), key(a));
    }
    forall a, b, c | On(key, leq)(a, b) && On(key, leq)(b, c) ensures On(key, leq)(a, c) {
      assert leq(key(a), key(b)) && leq(key(b), key(c)) ==> leq(key(a), key(c));
    }
  }

  lemma ThenIsTransitive<E(!new)>(first: (E, E) -> bool, second: (E, E) -> bool, a: E, b: E, c: E)
    requires IsConsistent(first) && IsConsistent(second) && Then(first, second)(a, b) && Then(first, second)(b, c)
    ensures Then(first, second)(a, c)
  {
    assert first(a, b) || first(b, a);
    assert first(b, c) || first(c, b);
    assert first(a, b) && first(b, c) ==> first(a, c);
    assert first(c, a) && first(a, b) ==> first(c, b);
    assert first(b, c) && first(c, a) ==> first(b, a);
    assert second(a, b) && second(b, c) ==> second(a, c);
  }

  lemma ThenIsConsistent<E(!new)>(first: (E, E) -> bool, second: (E, E) -> bool)
    requires IsConsistent(first) && IsConsistent(second)
    ensures IsConsistent(Then(first, second))
  {
    forall a, b ensures Then(first, second)(a, b) || Then(first, second)(b, a) {
      assert first(a, b) || first(b, a);
      assert second(a, b) || second(b, a);
    }
    forall a, b, c | Then(first, second)(a, b) && Then(first, second)(b, c) ensures Then(first, second)(a, c) {
      ThenIsTransitive(first, second, a, b, c);
    }
  }
}
