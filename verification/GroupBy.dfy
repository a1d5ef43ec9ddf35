/** Grouping a list by a key in a map that remembers the order of insertion, as JavaScript's `Map` does. */
module GroupBy {
  import opened Ecma
  import opened StableSort

  datatype Table<!K(==), V> = Table(keys: seq<K>, at: map<K, V>) {
    function Set(k: K, v: V): Table<K, V> {
      Table(if k in at then keys else keys + [k], at[k := v])
    }
  }

  /** The elements with key `k`. */
  function Of<E, K(==)>(s: seq<E>, key: E -> K, k: K): seq<E> {
    if s == [] then [] else var n := |s| - 1; Of(s[..n], key, k) + if key(s[n]) == k then [s[n]] else []
  }

  function Count<E>(s: seq<E>, p: E -> bool): nat {
    if s == [] then 0 else var n := |s| - 1; Count(s[..n], p) + if p(s[n]) then 1 else 0
  }

  /** The keys in the order of their first elements. */
  function Keys<E, K(==)>(s: seq<E>, key: E -> K): seq<K> {
    if s == [] then [] else
      var n := |s| - 1;
      var keys := Keys(s[..n], key);
      if key(s[n]) in keys then keys else keys + [key(s[n])]
  }

  ghost predicate Distinct<K>(keys: seq<K>) {
    forall i, j :: 0 <= i < j < |keys| ==> keys[i] != keys[j]
  }

  /** The table that holds a summary of every group. */
  function Grouped<E, K(==), V>(s: seq<E>, key: E -> K, summary: seq<E> -> V): Table<K, V> {
    Table(Keys(s, key), map k | k in Keys(s, key) :: summary(Of(s, key, k)))
  }

  lemma {:induction false} KeysAreDistinct<E, K>(s: seq<E>, key: E -> K)
    ensures Distinct(Keys(s, key))
    decreases |s|
  {
    if s != [] { KeysAreDistinct(s[..|s| - 1], key); }
  }

  lemma {:induction false} GroupOfKey<E, K>(s: seq<E>, key: E -> K, k: K)
    ensures k in Keys(s, key) <==> Of(s, key, k) != []
    decreases |s|
  {
    if s != [] { GroupOfKey(s[..|s| - 1], key, k); }
  }

  lemma {:induction false} OfMember<E, K>(s: seq<E>, key: E -> K, k: K, e: E)
    ensures e in Of(s, key, k) <==> e in s && key(e) == k
    decreases |s|
  {
    if s != [] {
      OfMember(s[..|s| - 1], key, k, e);
      assert s == s[..|s| - 1] + [s[|s| - 1]];
    }
  }

  /** One more element changes the summary of its group and nothing else. */
  lemma GroupedNext<E, K, V>(s: seq<E>, i: nat, key: E -> K, summary: seq<E> -> V)
    requires i < |s|
    ensures var t, k := Grouped(s[..i], key, summary), key(s[i]);
            && Grouped(s[..i + 1], key, summary) == t.Set(k, summary(Of(s[..i], key, k) + [s[i]]))
            && (k in t.at <==> Of(s[..i], key, k) != [])
            && (k in t.at ==> t.at[k] == summary(Of(s[..i], key, k)))
  {
    var t, k := Grouped(s[..i], key, summary), key(s[i]);
    var next := Grouped(s[..i + 1], key, summary);
    GroupOfKey(s[..i], key, k);
    assert s[..i + 1][..i] == s[..i];
    forall k' | k' != k ensures Of(s[..i + 1], key, k') == Of(s[..i], key, k') {
      assert Of(s[..i], key, k') + [] == Of(s[..i], key, k');
    }
    assert next.keys == t.Set(k, summary(Of(s[..i], key, k) + [s[i]])).keys;
    assert next.at == t.Set(k, summary(Of(s[..i], key, k) + [s[i]])).at;
  }

  // Sums over groups.

  function Total<K>(keys: seq<K>, f: K -> int): int {
    if keys == [] then 0 else var n := |keys| - 1; Total(keys[..n], f) + f(keys[n])
  }

  /** How many elements of group `k` satisfy `p`. */
  function CountOf<E, K(==)>(s: seq<E>, key: E -> K, p: E -> bool): K -> int {
    (k: K) => Count(Of(s, key, k), p)
  }

  lemma {:induction false} TotalRaised<K>(keys: seq<K>, f: K -> int, g: K -> int, k: K, d: int)
    requires Distinct(keys) && g(k) == f(k) + d && forall k' :: k' in keys && k' != k ==> g(k') == f(k')
    ensures Total(keys, g) == Total(keys, f) + if k in keys then d else 0
    decreases |keys|
  {
    if keys != [] {
      var n := |keys| - 1;
      assert keys[n] in keys && forall k' :: k' in keys[..n] ==> k' in keys;
      TotalRaised(keys[..n], f, g, k, d);
      assert k in keys <==> k in keys[..n] || k == keys[n];
    }
  }

  lemma CountOfNext<E, K>(s: seq<E>, key: E -> K, p: E -> bool, k: K)
    requires s != []
    ensures var n := |s| - 1; var e := s[n];
            CountOf(s, key, p)(k) == CountOf(s[..n], key, p)(k) + if key(e) == k && p(e) then 1 else 0
  {
    var n := |s| - 1;
    var group := Of(s[..n], key, k);
    assert (group + [s[n]])[..|group|] == group;
    assert group + [] == group;
  }

  /** What is counted group by group adds up to the direct count. */
  lemma {:induction false} CountsAddUp<E, K(!new)>(s: seq<E>, key: E -> K, p: E -> bool)
    ensures Total(Keys(s, key), CountOf(s, key, p)) == Count(s, p)
    decreases |s|
  {
    if s != [] {
      var n := |s| - 1;
      var keys, k, f, g := Keys(s[..n], key), key(s[n]), CountOf(s[..n], key, p), CountOf(s, key, p);
      CountsAddUp(s[..n], key, p);
      KeysAreDistinct(s[..n], key);
      forall k' ensures g(k') == f(k') + if k == k' && p(s[n]) then 1 else 0 {
        CountOfNext(s, key, p, k');
      }
      TotalRaised(keys, f, g, k, if p(s[n]) then 1 else 0);
      if k !in keys {
        GroupOfKey(s[..n], key, k);
        assert (keys + [k])[..|keys|] == keys;
      }
    }
  }

  // Rows made from a table.

  function Sum<R>(rows: seq<R>, f: R -> int): int {
    if rows == [] then 0 else f(rows[0]) + Sum(rows[1..], f)
  }

  lemma {:induction false} MappedAppend<K, R>(keys: seq<K>, k: K, row: K -> R)
    ensures Mapped(keys + [k], row) == Mapped(keys, row) + [row(k)]
    decreases |keys|
  {
    if keys == [] {
      assert [k][1..] == [];
    } else {
      assert (keys + [k])[0] == keys[0] && (keys + [k])[1..] == keys[1..] + [k];
      MappedAppend(keys[1..], k, row);
    }
  }

  lemma MappedNext<K, R>(keys: seq<K>, i: nat, row: K -> R)
    requires i < |keys|
    ensures Mapped(keys[..i + 1], row) == Mapped(keys[..i], row) + [row(keys[i])]
  {
    assert keys[..i + 1] == keys[..i] + [keys[i]];
    MappedAppend(keys[..i], keys[i], row);
  }

  lemma {:induction false} InsertedSum<R>(x: R, rows: seq<R>, leq: (R, R) -> bool, f: R -> int)
    ensures Sum(Inserted(x, rows, leq), f) == f(x) + Sum(rows, f)
    decreases |rows|
  {
    assert ([x] + rows)[1..] == rows;
    if rows != [] && !leq(x, rows[0]) {
      InsertedSum(x, rows[1..], leq, f);
      assert ([rows[0]] + Inserted(x, rows[1..], leq))[1..] == Inserted(x, rows[1..], leq);
    }
  }

  /** Sorting changes no sum. */
  lemma {:induction false} SortedSum<R>(rows: seq<R>, leq: (R, R) -> bool, f: R -> int)
    ensures Sum(Sorted(rows, leq), f) == Sum(rows, f)
    decreases |rows|
  {
    if rows != [] {
      SortedSum(rows[1..], leq, f);
      InsertedSum(rows[0], Sorted(rows[1..], leq), leq, f);
    }
  }

  lemma {:induction false} TotalCons<K>(keys: seq<K>, f: K -> int)
    requires keys != []
    ensures Total(keys, f) == f(keys[0]) + Total(keys[1..], f)
    decreases |keys|
  {
    var n := |keys| - 1;
    if n > 0 {
      TotalCons(keys[..n], f);
      assert keys[..n][1..] == keys[1..][..n - 1];
    } else {
      assert keys[..0] == [] == keys[1..];
    }
  }

  /** Summing rows is summing over keys. */
  lemma {:induction false} MappedSum<K, R>(keys: seq<K>, row: K -> R, f: R -> int, g: K -> int)
    requires forall k :: k in keys ==> f(row(k)) == g(k)
    ensures Sum(Mapped(keys, row), f) == Total(keys, g)
    decreases |keys|
  {
    if keys != [] {
      assert forall k :: k in keys[1..] ==> k in keys;
      MappedSum(keys[1..], row, f, g);
      TotalCons(keys, g);
      assert keys[0] in keys;
    }
  }

  /** Counting in a group is counting in the whole list. */
  lemma {:induction false} CountInGroup<E, K>(s: seq<E>, key: E -> K, k: K, p: E -> bool, q: E -> bool)
    requires forall e :: e in s ==> (q(e) <==> key(e) == k && p(e))
    ensures Count(Of(s, key, k), p) == Count(s, q)
    decreases |s|
  {
    if s != [] {
      var n := |s| - 1;
      var group := Of(s[..n], key, k);
      assert s[n] in s && forall e :: e in s[..n] ==> e in s;
      CountInGroup(s[..n], key, k, p, q);
      assert (group + [s[n]])[..|group|] == group;
      assert group + [] == group;
    }
  }

  lemma {:induction false} CountEvery<E>(s: seq<E>, p: E -> bool)
    requires forall e :: e in s ==> p(e)
    ensures Count(s, p) == |s|
    decreases |s|
  {
    if s != [] {
      assert s[|s| - 1] in s && forall e :: e in s[..|s| - 1] ==> e in s;
      CountEvery(s[..|s| - 1], p);
    }
  }
}
