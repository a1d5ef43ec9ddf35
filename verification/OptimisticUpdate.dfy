/**
 Optimistic mutations over one entry of a query cache: each one saves the entry, overwrites it at once, and puts the
 saved value back when the request fails.
 */
module OptimisticUpdate {
  import opened Ecma

  // The mutation protocol.

  datatype Event<!T> = Mutate(id: nat, updater: Option<T> -> Option<T>) | Fail(id: nat) | Succeed(id: nat)

  /** The entry, absent until it is first populated, and the context of every mutation under way. */
  datatype State<T> = State(entry: Option<T>, contexts: map<nat, Option<T>>)

  /** The query client ignores an update to undefined. */
  function Updated<T>(entry: Option<T>, updater: Option<T> -> Option<T>): Option<T> {
    var data := updater(entry);
    if data.Some? then data else entry
  }

  function RolledBack<T>(entry: Option<T>, previous: Option<T>): Option<T> {
    if previous.Some? then previous else entry
  }

  function Step<T>(s: State<T>, e: Event<T>): State<T> {
    match e
    case Mutate(id, updater) => State(Updated(s.entry, updater), s.contexts[id := s.entry])
    case Fail(id) =>
      State(if id in s.contexts then RolledBack(s.entry, s.contexts[id]) else s.entry, s.contexts - {id})
    case Succeed(id) => State(s.entry, s.contexts - {id})
  }

  function Steps<T>(s: State<T>, run: seq<Event<T>>): State<T>
    decreases |run|
  {
    if run == [] then s else Steps(Step(s, run[0]), run[1..])
  }

  /** The cache together with the mutations that the client keeps track of. */
  class QueryCache<T> {
    var entry: Option<T>
    var contexts: map<nat, Option<T>>

    constructor (initial: Option<T>)
      ensures Now() == State(initial, map[])
    {
      entry, contexts := initial, map[];
    }

    ghost function Now(): State<T>
      reads this
    {
      State(entry, contexts)
    }

    /** What runs once the queries under way are cancelled. */
    method OnMutate(id: nat, updater: Option<T> -> Option<T>)
      modifies this
      ensures Now() == Step(old(Now()), Mutate(id, updater))
    {
      var previousData := entry;
      var data := updater(entry);
      if data.Some? { entry := data; }
      contexts := contexts[id := previousData];
    }

    /** Without a context, or with a context that saved an absent entry, nothing is put back. */
    method OnError(id: nat)
      modifies this
      ensures Now() == Step(old(Now()), Fail(id))
    {
      if id in contexts {
        var previousData := contexts[id];
        if previousData.Some? {
          entry := previousData;
        }
      }
      contexts := contexts - {id};
    }

    method OnSuccess(id: nat)
      modifies this
      ensures Now() == Step(old(Now()), Succeed(id))
    {
      contexts := contexts - {id};
    }
  }

  lemma {:induction false} StepsConcat<T>(s: State<T>, a: seq<Event<T>>, b: seq<Event<T>>)
    ensures Steps(s, a + b) == Steps(Steps(s, a), b)
    decreases |a|
  {
    if |a| == 0 {
      assert a + b == b;
    } else {
      assert (a + b)[0] == a[0] && (a + b)[1..] == a[1..] + b;
      StepsConcat(Step(s, a[0]), a[1..], b);
    }
  }

  // Runs in which the mutation that started last fails first.

  /** Every failure is that of the mutation on top of the stack, and in the end the stack is empty. */
  ghost predicate LastStartedFirstFailed<T>(run: seq<Event<T>>, stack: seq<nat>)
    decreases |run|
  {
    if run == [] then stack == []
    else match run[0]
      case Mutate(id, _) => id !in stack && LastStartedFirstFailed(run[1..], stack + [id])
      case Fail(id) => stack != [] && id == stack[|stack| - 1] && LastStartedFirstFailed(run[1..], stack[..|stack| - 1])
      case Succeed(_) => false
  }

  ghost predicate Tracks<T>(s: State<T>, stack: seq<nat>) {
    && (forall i, j :: 0 <= i < j < |stack| ==> stack[i] != stack[j])
    && (forall i :: 0 <= i < |stack| ==> stack[i] in s.contexts)
  }

  /** The entry once every mutation on the stack has failed, the last one first. */
  ghost function Unwound<T>(s: State<T>, entry: Option<T>, stack: seq<nat>): Option<T>
    requires forall i :: 0 <= i < |stack| ==> stack[i] in s.contexts
    decreases |stack|
  {
    if stack == [] then entry
    else var top := |stack| - 1; Unwound(s, RolledBack(entry, s.contexts[stack[top]]), stack[..top])
  }

  lemma {:induction false} UnwoundFrame<T>(s: State<T>, s': State<T>, entry: Option<T>, stack: seq<nat>)
    requires forall i :: 0 <= i < |stack| ==>
      stack[i] in s.contexts && stack[i] in s'.contexts && s.contexts[stack[i]] == s'.contexts[stack[i]]
    ensures Unwound(s, entry, stack) == Unwound(s', entry, stack)
    decreases |stack|
  {
    if stack != [] {
      var top := |stack| - 1;
      UnwoundFrame(s, s', RolledBack(entry, s.contexts[stack[top]]), stack[..top]);
    }
  }

  lemma MutateUnwinds<T>(s: State<T>, e: Event<T>, stack: seq<nat>)
    requires e.Mutate? && e.id !in stack && Tracks(s, stack) && s.entry.Some?
    ensures Tracks(Step(s, e), stack + [e.id])
    ensures Unwound(Step(s, e), Step(s, e).entry, stack + [e.id]) == Unwound(s, s.entry, stack)
  {
    var s' := Step(s, e);
    UnwoundFrame(s, s', s.entry, stack);
    assert (stack + [e.id])[..|stack|] == stack;
  }

  lemma FailUnwinds<T>(s: State<T>, e: Event<T>, stack: seq<nat>)
    requires e.Fail? && stack != [] && e.id == stack[|stack| - 1] && Tracks(s, stack)
    ensures Tracks(Step(s, e), stack[..|stack| - 1])
    ensures Unwound(Step(s, e), Step(s, e).entry, stack[..|stack| - 1]) == Unwound(s, s.entry, stack)
  {
    UnwoundFrame(s, Step(s, e), Step(s, e).entry, stack[..|stack| - 1]);
  }

  lemma {:induction false} BracketedUnwinds<T>(s: State<T>, run: seq<Event<T>>, stack: seq<nat>)
    requires LastStartedFirstFailed(run, stack) && Tracks(s, stack) && s.entry.Some?
    ensures Steps(s, run).entry == Unwound(s, s.entry, stack)
    decreases |run|
  {
    if run != [] {
      if run[0].Mutate? {
        MutateUnwinds(s, run[0], stack);
        BracketedUnwinds(Step(s, run[0]), run[1..], stack + [run[0].id]);
      } else {
        FailUnwinds(s, run[0], stack);
        BracketedUnwinds(Step(s, run[0]), run[1..], stack[..|stack| - 1]);
      }
    }
  }

  /** What the first update makes of an absent entry that makes anything of it. */
  ghost function FirstValue<T>(run: seq<Event<T>>): Option<T>
    decreases |run|
  {
    if run == [] then None
    else if run[0].Mutate? && run[0].updater(None).Some? then run[0].updater(None)
    else FirstValue(run[1..])
  }

  /** No mutation on the stack saved a value. */
  ghost predicate SavedNothing<T>(s: State<T>, stack: seq<nat>) {
    forall i :: 0 <= i < |stack| ==> stack[i] in s.contexts && s.contexts[stack[i]] == None
  }

  lemma {:induction false} UnwoundNothing<T>(s: State<T>, entry: Option<T>, stack: seq<nat>)
    requires SavedNothing(s, stack)
    ensures Unwound(s, entry, stack) == entry
    decreases |stack|
  {
    if stack != [] { UnwoundNothing(s, entry, stack[..|stack| - 1]); }
  }

  lemma MutateAbsent<T>(s: State<T>, e: Event<T>, stack: seq<nat>)
    requires e.Mutate? && e.id !in stack && Tracks(s, stack) && SavedNothing(s, stack) && s.entry.None?
    ensures Tracks(Step(s, e), stack + [e.id]) && SavedNothing(Step(s, e), stack + [e.id])
    ensures Step(s, e).entry == e.updater(None)
  {
  }

  lemma FailAbsent<T>(s: State<T>, e: Event<T>, stack: seq<nat>)
    requires e.Fail? && stack != [] && e.id == stack[|stack| - 1] && Tracks(s, stack) && SavedNothing(s, stack)
    ensures Tracks(Step(s, e), stack[..|stack| - 1]) && SavedNothing(Step(s, e), stack[..|stack| - 1])
    ensures Step(s, e).entry == s.entry
  {
  }

  lemma {:induction false} AbsentUnwinds<T>(s: State<T>, run: seq<Event<T>>, stack: seq<nat>)
    requires LastStartedFirstFailed(run, stack) && Tracks(s, stack) && SavedNothing(s, stack) && s.entry.None?
    ensures Steps(s, run).entry == FirstValue(run)
    decreases |run|
  {
    if run != [] {
      var e := run[0];
      var s' := Step(s, e);
      if e.Fail? {
        FailAbsent(s, e, stack);
        AbsentUnwinds(s', run[1..], stack[..|stack| - 1]);
      } else {
        MutateAbsent(s, e, stack);
        if s'.entry.None? {
          AbsentUnwinds(s', run[1..], stack + [e.id]);
        } else {
          BracketedUnwinds(s', run[1..], stack + [e.id]);
          UnwoundNothing(s', s'.entry, stack + [e.id]);
        }
      }
    }
  }

  /** An absent entry keeps the first value that an update gives it: a saved absence is never put back. */
  lemma AbsentEntryKeepsFirst<T>(s: State<T>, run: seq<Event<T>>)
    requires LastStartedFirstFailed(run, []) && s.entry.None?
    ensures Steps(s, run).entry == FirstValue(run)
  {
    AbsentUnwinds(s, run, []);
  }

  lemma {:induction false} FirstValueIsNone<T>(run: seq<Event<T>>)
    ensures FirstValue(run).None? <==> forall k :: 0 <= k < |run| && run[k].Mutate? ==> run[k].updater(None).None?
    decreases |run|
  {
    if run != [] {
      FirstValueIsNone(run[1..]);
      assert forall k :: 0 < k < |run| ==> run[k] == run[1..][k - 1];
      assert forall k :: 0 <= k < |run| - 1 ==> run[1..][k] == run[k + 1];
    }
  }

  /**
   When mutations fail in the reverse order of their start, whatever their updaters wrote, the rollbacks restore the
   entry if and only if it was populated in the beginning or no updater makes a value of an absent entry.
   */
  lemma BracketedFailuresRestore<T>(s: State<T>, run: seq<Event<T>>)
    requires LastStartedFirstFailed(run, [])
    ensures Steps(s, run).entry == s.entry
       <==> s.entry.Some? || forall k :: 0 <= k < |run| && run[k].Mutate? ==> run[k].updater(None).None?
  {
    FirstValueIsNone(run);
    if s.entry.Some? {
      BracketedUnwinds(s, run, []);
    } else {
      AbsentEntryKeepsFirst(s, run);
    }
  }

  // Runs in any order.

  lemma {:induction false} ContextIsKept<T>(s: State<T>, run: seq<Event<T>>, id: nat)
    requires id in s.contexts && forall k :: 0 <= k < |run| ==> run[k].id != id
    ensures id in Steps(s, run).contexts && Steps(s, run).contexts[id] == s.contexts[id]
    decreases |run|
  {
    if run != [] { ContextIsKept(Step(s, run[0]), run[1..], id); }
  }

  /**
   A failing mutation puts back what the populated entry was when it began, whatever happened in between: other
   failures, and also mutations that succeeded, whose effect is lost until the entry is fetched again. Where the entry
   was absent it takes nothing back.
   */
  lemma RollbackReturnsToStart<T>(s: State<T>, id: nat, updater: Option<T> -> Option<T>, between: seq<Event<T>>)
    requires forall k :: 0 <= k < |between| ==> between[k].id != id
    ensures Steps(s, [Mutate(id, updater)] + between + [Fail(id)]).entry
         == if s.entry.Some? then s.entry else Steps(s, [Mutate(id, updater)] + between).entry
  {
    var first, last := [Mutate(id, updater)], [Fail(id)];
    var s' := Step(s, first[0]);
    StepsConcat(s, first + between, last);
    StepsConcat(s, first, between);
    assert first[1..] == [] && last[1..] == [];
    assert Steps(s, first) == s';
    ContextIsKept(s', between, id);
    assert Steps(Steps(s', between), last) == Step(Steps(s', between), last[0]);
  }

  /** A mutation that succeeds changes nothing any more, and can no longer be rolled back. */
  lemma SuccessIsFinal<T>(s: State<T>, run: seq<Event<T>>, id: nat)
    ensures Steps(s, run + [Succeed(id)]).entry == Steps(s, run).entry
    ensures Steps(s, run + [Succeed(id)] + [Fail(id)]).entry == Steps(s, run).entry
  {
    var succeed: seq<Event<T>>, fail: seq<Event<T>> := [Succeed(id)], [Fail(id)];
    StepsConcat(s, run, succeed);
    StepsConcat(s, run + succeed, fail);
    assert succeed[1..] == [] && fail[1..] == [];
  }

  /**
   Two mutations that fail in the order in which they started restore the entry if and only if the first update was
   no change; otherwise the failed update of the first stays in the cache.
   */
  lemma OverlapKeepsFailedUpdate<T>(s: State<T>, a: Event<T>, b: Event<T>)
    requires a.Mutate? && b.Mutate? && a.id != b.id && s.entry.Some?
    ensures Steps(s, [a, b, Fail(a.id), Fail(b.id)]).entry == Updated(s.entry, a.updater)
    ensures Steps(s, [a, b, Fail(a.id), Fail(b.id)]).entry == s.entry <==> a.updater(s.entry) in {None, s.entry}
  {
    var run := [b, Fail(a.id), Fail(b.id)];
    assert [a, b, Fail(a.id), Fail(b.id)] == [a] + run;
    assert [a, b, Fail(a.id), Fail(b.id)][1..] == run;
    assert run == [Mutate(b.id, b.updater)] + [Fail(a.id)] + [Fail(b.id)];
    RollbackReturnsToStart(Step(s, a), b.id, b.updater, [Fail(a.id)]);
  }

  // The updaters of lists.

  /** An item is its id and its other properties; spreading variables over it overwrites the properties they name. */
  datatype Item<!I(==), !K(==), V> = Item(id: I, fields: map<K, V>)

  function Spread<I(==), K(==), V>(item: Item<I, K, V>, variables: Item<I, K, V>): Item<I, K, V> {
    if item.id == variables.id then Item(variables.id, item.fields + variables.fields) else item
  }

  function SpreadAll<I(==), K(==), V>(items: seq<Item<I, K, V>>, variables: Item<I, K, V>): (r: seq<Item<I, K, V>>)
    ensures |r| == |items| && forall k :: 0 <= k < |r| ==> r[k] == Spread(items[k], variables)
  {
    if items == [] then [] else [Spread(items[0], variables)] + SpreadAll(items[1..], variables)
  }

  function Without<I(==), K(==), V>(items: seq<Item<I, K, V>>, id: I): seq<Item<I, K, V>> {
    if items == [] then []
    else (if items[0].id != id then [items[0]] else []) + Without(items[1..], id)
  }

  function UpdateItem<I(==), K(==), V>(cached: Option<seq<Item<I, K, V>>>, variables: Item<I, K, V>): seq<Item<I, K, V>> {
    match cached case None => [] case Some(items) => SpreadAll(items, variables)
  }

  function DeleteItem<I(==), K(==), V>(cached: Option<seq<Item<I, K, V>>>, id: I): seq<Item<I, K, V>> {
    match cached case None => [] case Some(items) => Without(items, id)
  }

  function AddItem<I(==), K(==), V>(cached: Option<seq<Item<I, K, V>>>, item: Item<I, K, V>, prepend: bool): seq<Item<I, K, V>> {
    match cached case None => [item] case Some(items) => if prepend then [item] + items else items + [item]
  }

  lemma {:induction false} WithoutConcat<I, K, V>(a: seq<Item<I, K, V>>, b: seq<Item<I, K, V>>, id: I)
    ensures Without(a + b, id) == Without(a, id) + Without(b, id)
    decreases |a|
  {
    if a == [] {
      assert a + b == b;
    } else {
      assert (a + b)[0] == a[0] && (a + b)[1..] == a[1..] + b;
      WithoutConcat(a[1..], b, id);
    }
  }

  lemma {:induction false} WithoutAbsent<I, K, V>(items: seq<Item<I, K, V>>, id: I)
    ensures Without(items, id) == items <==> forall k :: 0 <= k < |items| ==> items[k].id != id
    ensures |Without(items, id)| <= |items|
    decreases |items|
  {
    if items != [] {
      WithoutAbsent(items[1..], id);
      if items[0].id != id {
        assert items == [items[0]] + items[1..];
        assert Without(items, id)[1..] == Without(items[1..], id);
      }
    }
  }

  /** Deleting what was added gives the list back, at either end, if and only if the id was new to it. */
  lemma DeleteUndoesAdd<I, K, V>(items: seq<Item<I, K, V>>, item: Item<I, K, V>, prepend: bool)
    ensures DeleteItem(Some(AddItem(Some(items), item, prepend)), item.id) == items
       <==> forall k :: 0 <= k < |items| ==> items[k].id != item.id
  {
    WithoutConcat([item], items, item.id);
    WithoutConcat(items, [item], item.id);
    WithoutAbsent(items, item.id);
  }

  /** An update never saves an item from deletion, and never changes what deletion leaves. */
  lemma {:induction false} DeleteForgetsUpdate<I, K, V>(items: seq<Item<I, K, V>>, variables: Item<I, K, V>)
    ensures DeleteItem(Some(UpdateItem(Some(items), variables)), variables.id) == DeleteItem(Some(items), variables.id)
    decreases |items|
  {
    if items != [] {
      DeleteForgetsUpdate(items[1..], variables);
      assert SpreadAll(items, variables)[1..] == SpreadAll(items[1..], variables);
    }
  }

  /** Two updates act as one with both sets of properties when they meet on an id, and commute when they do not. */
  lemma UpdatesCompose<I, K, V>(items: seq<Item<I, K, V>>, a: Item<I, K, V>, b: Item<I, K, V>)
    ensures a.id == b.id ==> UpdateItem(Some(UpdateItem(Some(items), a)), b) == UpdateItem(Some(items), Item(a.id, a.fields + b.fields))
    ensures a.id != b.id ==> UpdateItem(Some(UpdateItem(Some(items), a)), b) == UpdateItem(Some(UpdateItem(Some(items), b)), a)
  {
    forall k | 0 <= k < |items|
      ensures a.id == b.id ==> Spread(Spread(items[k], a), b) == Spread(items[k], Item(a.id, a.fields + b.fields))
    {
      assert (items[k].fields + a.fields) + b.fields == items[k].fields + (a.fields + b.fields);
    }
  }

  function Updating<I(==), K(==), V>(variables: Item<I, K, V>): Option<seq<Item<I, K, V>>> -> Option<seq<Item<I, K, V>>> {
    (cached: Option<seq<Item<I, K, V>>>) => Some(UpdateItem(cached, variables))
  }

  function Deleting<I(==), K(==), V>(id: I): Option<seq<Item<I, K, V>>> -> Option<seq<Item<I, K, V>>> {
    (cached: Option<seq<Item<I, K, V>>>) => Some(DeleteItem(cached, id))
  }

  /** A failed update or deletion turns a list that was never fetched into an empty one. */
  lemma AbsentListBecomesEmpty<I, K, V>(s: State<seq<Item<I, K, V>>>, id: nat, variables: Item<I, K, V>)
    requires s.entry.None?
    ensures Steps(s, [Mutate(id, Updating(variables)), Fail(id)]).entry == Some([])
    ensures Steps(s, [Mutate(id, Deleting<I, K, V>(variables.id)), Fail(id)]).entry == Some([])
  {
    AbsentEntryKeepsFirst(s, [Mutate(id, Updating(variables)), Fail(id)]);
    AbsentEntryKeepsFirst(s, [Mutate(id, Deleting<I, K, V>(variables.id)), Fail(id)]);
  }

  /**
   An update changes the items with the id of its variables and no others: they keep their place, id and other
   properties, and take over the properties that the variables name.
   */
  lemma UpdateOverwrites<I, K, V>(items: seq<Item<I, K, V>>, variables: Item<I, K, V>, k: nat)
    requires k < |items|
    ensures var r := UpdateItem(Some(items), variables);
            && |r| == |items| && r[k].id == items[k].id
            && (items[k].id != variables.id ==> r[k] == items[k])
            && (items[k].id == variables.id ==>
                  && (forall p :: p in r[k].fields <==> p in items[k].fields || p in variables.fields)
                  && (forall p :: p in variables.fields ==> r[k].fields[p] == variables.fields[p])
                  && (forall p :: p in items[k].fields && p !in variables.fields ==> r[k].fields[p] == items[k].fields[p]))
  {
  }

  /** An added item stands at the end that was asked for, and the others keep their order; it is alone in an absent list. */
  lemma AddedStandsAtItsEnd<I, K, V>(items: seq<Item<I, K, V>>, item: Item<I, K, V>)
    ensures var first, last := AddItem(Some(items), item, true), AddItem(Some(items), item, false);
            && |first| == |last| == |items| + 1 && first[0] == item && last[|items|] == item
            && first[1..] == items && last[..|items|] == items
    ensures AddItem(None, item, true) == AddItem(None, item, false) == [item]
  {
  }

  /** Of a list, a deletion leaves the items with other ids, each as often as before. */
  lemma {:induction false} DeletionKeepsOthers<I, K, V>(items: seq<Item<I, K, V>>, id: I, other: Item<I, K, V>)
    ensures multiset(DeleteItem(Some(items), id))[other] == if other.id == id then 0 else multiset(items)[other]
    decreases |items|
  {
    if items != [] {
      DeletionKeepsOthers(items[1..], id, other);
      assert items == [items[0]] + items[1..];
      assert multiset(items) == multiset{items[0]} + multiset(items[1..]);
    }
  }
}
