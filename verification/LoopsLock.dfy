/**
 The work lock of the loops: every call locks its issue and its repository, works, and releases them. The default
 backend is a set in one process; the Redis backend shares a store with expiring keys among processes.
 */
module LoopsLock {
  import opened Ecma

  // The Redis backend: one command per step.

  /** An entry of the store. Only the holder is stored; `call` is the call that set it. */
  datatype Lock = Lock(holder: string, call: nat)

  /** How far a call is: the next command concerns the key of index `got` or `next`, or rolls back the first `got` keys. */
  datatype Phase =
    | Acquiring(got: nat) | RollingBack(got: nat) | Working | Releasing(next: nat) | Deleting(next: nat) | Over | Aborted

  /** A call of `withIssueAndRepoLock` in the process that is called `holder`. */
  datatype Call = Call(holder: string, issueId: string, targetRepo: string, phase: Phase)

  datatype State = State(store: map<string, Lock>, calls: seq<Call>)

  datatype Event =
    | Begin(holder: string, issueId: string, targetRepo: string) | Advance(call: nat) | Abort(call: nat) | Expire(key: string)

  const START: State := State(map[], [])

  /** The keys in sorted order. */
  function Keys(c: Call): (keys: seq<string>)
    ensures |keys| == 2 && keys[0] != keys[1]
  {
    var keys := ["issue:" + c.issueId, "repo:" + c.targetRepo];
    assert keys[0][0] == 'i' && keys[1][0] == 'r';
    keys
  }

  predicate Unfinished(c: Call) {
    !c.phase.Over? && !c.phase.Aborted?
  }

  predicate InRange(c: Call) {
    match c.phase
    case Acquiring(got) => got <= 2
    case RollingBack(got) => got <= 2
    case Releasing(next) => next <= 2
    case Deleting(next) => next < 2
    case _ => true
  }

  function Moved(s: State, c: nat, phase: Phase): State
    requires c < |s.calls|
  {
    s.(calls := s.calls[c := s.calls[c].(phase := phase)])
  }

  /** Deletes the keys, whoever holds them. */
  function Deleted(s: State, keys: seq<string>): State {
    s.(store := s.store - set k | k in keys)
  }

  /** The next command of the call and what it does with the answer. */
  function Advanced(s: State, c: nat): State
    requires c < |s.calls| && Unfinished(s.calls[c]) && InRange(s.calls[c])
  {
    var call, keys := s.calls[c], Keys(s.calls[c]);
    match call.phase
    case Acquiring(got) =>
      if got == 2 then Moved(s, c, Working)
      else if keys[got] in s.store then Moved(s, c, if got > 0 then RollingBack(got) else Over)
      else Moved(s.(store := s.store[keys[got] := Lock(call.holder, c)]), c, Acquiring(got + 1))
    case RollingBack(got) => Moved(Deleted(s, keys[..got]), c, Over)
    case Working => Moved(s, c, Releasing(0))
    case Releasing(next) =>
      if next == 2 then Moved(s, c, Over)
      else if keys[next] in s.store && s.store[keys[next]].holder == call.holder then Moved(s, c, Deleting(next))
      else Moved(s, c, Releasing(next + 1))
    case Deleting(next) => Moved(Deleted(s, [keys[next]]), c, Releasing(next + 1))
  }

  predicate Valid(s: State) {
    forall c :: 0 <= c < |s.calls| ==> InRange(s.calls[c])
  }

  predicate Enabled(s: State, e: Event) {
    match e
    case Begin(_, _, _) => true
    case Advance(c) => c < |s.calls| && Unfinished(s.calls[c])
    case Abort(c) => c < |s.calls| && Unfinished(s.calls[c])
    case Expire(k) => k in s.store
  }

  /** A call is aborted when its process ends or a command is rejected. */
  function Step(s: State, e: Event): (s': State)
    requires Valid(s) && Enabled(s, e)
    ensures Valid(s')
  {
    match e
    case Begin(holder, issueId, targetRepo) => s.(calls := s.calls + [Call(holder, issueId, targetRepo, Acquiring(0))])
    case Advance(c) => Advanced(s, c)
    case Abort(c) => Moved(s, c, Aborted)
    case Expire(k) => s.(store := s.store - {k})
  }

  /** The call has set the key, and neither deleted it nor passed over it since. */
  predicate HasSet(c: Call, k: string) {
    match c.phase
    case Acquiring(got) => IsOneOf(k, Keys(c), 0, got)
    case RollingBack(got) => IsOneOf(k, Keys(c), 0, got)
    case Working => IsOneOf(k, Keys(c), 0, 2)
    case Releasing(next) => IsOneOf(k, Keys(c), next, 2)
    case Deleting(next) => IsOneOf(k, Keys(c), next, 2)
    case _ => false
  }

  /** The key is one of the two from `lo` up to `hi`. */
  predicate IsOneOf(k: string, keys: seq<string>, lo: nat, hi: nat)
    requires |keys| == 2
  {
    (lo <= 0 < hi && k == keys[0]) || (lo <= 1 < hi && k == keys[1])
  }

  predicate Claims(s: State, c: nat, k: string) {
    c < |s.calls| && HasSet(s.calls[c], k)
  }

  /** The entry of the key is the call's own. */
  predicate Backed(s: State, c: nat, k: string) {
    k in s.store && s.store[k].call == c
  }

  ghost predicate Exclusive(s: State, k: string) {
    forall c, d :: Claims(s, c, k) && Claims(s, d, k) ==> c == d
  }

  /** Whoever claims the key has set its entry. */
  ghost predicate Sound(s: State, k: string) {
    forall c :: Claims(s, c, k) ==> Backed(s, c, k)
  }

  /** The call that set the entry of the key still claims it. */
  predicate Held(s: State, k: string) {
    k in s.store && Claims(s, s.store[k].call, k)
  }

  /** The next command of call `c` deletes a key that another call holds. */
  predicate Steals(s: State, c: nat, k: string)
    requires Valid(s)
  {
    Held(s, k) && s.store[k].call != c && Enabled(s, Advance(c)) && k !in Advanced(s, c).store
  }

  // What holds in every run, whatever expires.

  /** Every entry bears its call's holder, and the call claims it unless it was aborted. */
  ghost predicate Accounted(s: State) {
    forall k :: k in s.store ==>
      && s.store[k].call < |s.calls|
      && s.store[k].holder == s.calls[s.store[k].call].holder
      && (Claims(s, s.store[k].call, k) || s.calls[s.store[k].call].phase.Aborted?)
  }

  lemma OthersStay(s: State, c: nat)
    requires Valid(s) && Enabled(s, Advance(c))
    ensures |Advanced(s, c).calls| == |s.calls|
    ensures forall d :: 0 <= d < |s.calls| && d != c ==> Advanced(s, c).calls[d] == s.calls[d]
    ensures Advanced(s, c).calls[c] == s.calls[c].(phase := Advanced(s, c).calls[c].phase)
  {
  }

  /** A command deletes claimed keys only, and sets an absent one only, which the call claims from then on. */
  lemma EntryAfter(s: State, c: nat, k: string)
    requires Valid(s) && Enabled(s, Advance(c))
    ensures k in s.store && k !in Advanced(s, c).store ==> Claims(s, c, k)
    ensures k in Advanced(s, c).store ==>
      if k in s.store then Advanced(s, c).store[k] == s.store[k]
      else Advanced(s, c).store[k] == Lock(s.calls[c].holder, c) && Claims(Step(s, Advance(c)), c, k)
  {
  }

  /** A call keeps its claim on a key that bears its holder until it deletes it. */
  lemma ClaimStays(s: State, c: nat, k: string)
    requires Valid(s) && Enabled(s, Advance(c)) && Claims(s, c, k)
    requires k in s.store && s.store[k].holder == s.calls[c].holder && k in Advanced(s, c).store
    ensures Claims(Step(s, Advance(c)), c, k)
  {
  }

  lemma AdvanceKeepsAccounted(s: State, c: nat)
    requires Valid(s) && Accounted(s) && Enabled(s, Advance(c))
    ensures Accounted(Step(s, Advance(c)))
  {
    var s' := Step(s, Advance(c));
    OthersStay(s, c);
    forall k | k in s'.store
      ensures s'.store[k].call < |s'.calls| && s'.store[k].holder == s'.calls[s'.store[k].call].holder
      ensures Claims(s', s'.store[k].call, k) || s'.calls[s'.store[k].call].phase.Aborted?
    {
      EntryAfter(s, c, k);
      if k in s.store && s.store[k].call == c { ClaimStays(s, c, k); }
    }
  }

  lemma StepKeepsAccounted(s: State, e: Event)
    requires Valid(s) && Accounted(s) && Enabled(s, e)
    ensures Accounted(Step(s, e))
  {
    if e.Advance? { AdvanceKeepsAccounted(s, e.call); }
  }

  // What expiry of a held key breaks, and nothing else.

  lemma OwnClaimAfter(s: State, c: nat, k: string)
    requires Valid(s) && Enabled(s, Advance(c)) && (Claims(s, c, k) ==> Backed(s, c, k))
    ensures Claims(Step(s, Advance(c)), c, k) ==> Backed(Step(s, Advance(c)), c, k)
  {
  }

  lemma AdvanceKeepsSound(s: State, c: nat, k: string)
    requires Valid(s) && Sound(s, k) && Enabled(s, Advance(c))
    ensures Sound(Step(s, Advance(c)), k)
  {
    var s' := Step(s, Advance(c));
    OthersStay(s, c);
    EntryAfter(s, c, k);
    OwnClaimAfter(s, c, k);
    forall d | Claims(s', d, k) && d != c ensures Backed(s', d, k) {
      assert Claims(s, d, k);
    }
  }

  lemma StepKeepsSound(s: State, e: Event, k: string)
    requires Valid(s) && Sound(s, k) && Enabled(s, e) && !(e == Expire(k) && Held(s, k))
    ensures Sound(Step(s, e), k)
  {
    match e
    case Advance(c) => AdvanceKeepsSound(s, c, k);
    case Begin(_, _, _) =>
      forall d | Claims(Step(s, e), d, k) ensures Backed(s, d, k) { assert Claims(s, d, k); }
    case Abort(_) =>
      forall d | Claims(Step(s, e), d, k) ensures Backed(s, d, k) { assert Claims(s, d, k); }
    case Expire(_) =>
      forall d | Claims(Step(s, e), d, k) ensures Backed(Step(s, e), d, k) { assert Claims(s, d, k); }
  }

  /** Of all steps, only the expiry of a held key lets a call claim what it no longer has. */
  lemma SoundnessEndsIff(s: State, e: Event, k: string)
    requires Valid(s) && Sound(s, k) && Enabled(s, e)
    ensures !Sound(Step(s, e), k) <==> e == Expire(k) && Held(s, k)
  {
    if e == Expire(k) && Held(s, k) {
      assert Claims(Step(s, e), s.store[k].call, k);
    } else {
      StepKeepsSound(s, e, k);
    }
  }

  // Runs.

  predicate Possible(s: State, es: seq<Event>)
    requires Valid(s)
    decreases es
  {
    es == [] || (Enabled(s, es[0]) && Possible(Step(s, es[0]), es[1..]))
  }

  function End(s: State, es: seq<Event>): (s': State)
    requires Valid(s) && Possible(s, es)
    ensures Valid(s')
    decreases es
  {
    if es == [] then s else End(Step(s, es[0]), es[1..])
  }

  /** The run does not let the key expire while its call claims it. */
  predicate Undisturbed(s: State, es: seq<Event>, k: string)
    requires Valid(s)
    decreases es
  {
    es == [] || (Enabled(s, es[0]) && !(es[0] == Expire(k) && Held(s, k)) && Undisturbed(Step(s, es[0]), es[1..], k))
  }

  lemma {:induction false} UndisturbedIsPossible(s: State, es: seq<Event>, k: string)
    requires Valid(s) && Undisturbed(s, es, k)
    ensures Possible(s, es)
    decreases es
  {
    if es != [] { UndisturbedIsPossible(Step(s, es[0]), es[1..], k); }
  }

  /** In every run, whatever expires, every entry belongs to a call that claims it or was aborted. */
  lemma {:induction false} EntriesAreAccounted(s: State, es: seq<Event>)
    requires Valid(s) && Accounted(s) && Possible(s, es)
    ensures Accounted(End(s, es))
    decreases es
  {
    if es != [] {
      StepKeepsAccounted(s, es[0]);
      EntriesAreAccounted(Step(s, es[0]), es[1..]);
    }
  }

  lemma {:induction false} RunKeepsSound(s: State, es: seq<Event>, k: string)
    requires Valid(s) && Sound(s, k) && Undisturbed(s, es, k)
    ensures Possible(s, es) && Sound(End(s, es), k)
    decreases es
  {
    if es != [] {
      StepKeepsSound(s, es[0], k);
      RunKeepsSound(Step(s, es[0]), es[1..], k);
    }
  }

  lemma {:induction false} RunsConcat(s: State, a: seq<Event>, b: seq<Event>, k: string)
    requires Valid(s) && Undisturbed(s, a, k) && Possible(s, a) && Undisturbed(End(s, a), b, k)
    ensures Undisturbed(s, a + b, k) && Possible(s, a + b) && Possible(End(s, a), b)
    ensures End(s, a + b) == End(End(s, a), b)
    decreases a
  {
    UndisturbedIsPossible(End(s, a), b, k);
    if a == [] {
      assert a + b == b;
    } else {
      assert (a + b)[0] == a[0] && (a + b)[1..] == a[1..] + b;
      RunsConcat(Step(s, a[0]), a[1..], b, k);
    }
  }

  lemma OneStep(s: State, e: Event, k: string)
    requires Valid(s) && Enabled(s, e) && !(e == Expire(k) && Held(s, k))
    ensures Undisturbed(s, [e], k) && Possible(s, [e]) && End(s, [e]) == Step(s, e)
  {
    assert [e][1..] == [];
  }

  // From a claim that is not backed the environment can do harm.

  /** Frees the key for everybody, if another call's entry is there. */
  lemma Vacate(s: State, c: nat, k: string) returns (es: seq<Event>)
    requires Valid(s) && Accounted(s) && Claims(s, c, k) && !Backed(s, c, k)
    ensures Undisturbed(s, es, k) && Possible(s, es) && Claims(End(s, es), c, k) && k !in End(s, es).store
  {
    if k !in s.store { return []; }
    var d := s.store[k].call;
    if Unfinished(s.calls[d]) {
      OneStep(s, Abort(d), k);
      OneStep(Step(s, Abort(d)), Expire(k), k);
      RunsConcat(s, [Abort(d)], [Expire(k)], k);
      es := [Abort(d)] + [Expire(k)];
    } else {
      OneStep(s, Expire(k), k);
      es := [Expire(k)];
    }
  }

  /** The two calls claim the key, which is the second one's and bears the holder of both. */
  predicate Shared(s: State, c: nat, d: nat, k: string) {
    Claims(s, c, k) && Claims(s, d, k) && c != d && k in s.store && s.store[k] == Lock(s.calls[c].holder, d)
  }

  lemma {:induction false} LongerThanAll(keys: set<string>) returns (n: nat)
    ensures forall k :: k in keys ==> |k| < n
    decreases keys
  {
    if keys == {} { return 0; }
    var k :| k in keys;
    n := LongerThanAll(keys - {k});
    n := Max(n, |k| + 1);
  }

  lemma FreshIssue(store: map<string, Lock>) returns (issueId: string)
    ensures "issue:" + issueId !in store
  {
    var n := LongerThanAll(store.Keys);
    issueId := seq(n, i => 'x');
    assert |"issue:" + issueId| >= n;
  }

  /** A new call of the process sets its first key. */
  lemma SetIssue(s: State, holder: string, issueId: string, targetRepo: string, k: string) returns (es: seq<Event>)
    requires Valid(s) && "issue:" + issueId !in s.store
    ensures Undisturbed(s, es, k) && Possible(s, es)
    ensures End(s, es) == State(s.store["issue:" + issueId := Lock(holder, |s.calls|)],
                                s.calls + [Call(holder, issueId, targetRepo, Acquiring(1))])
  {
    var begin, d := Begin(holder, issueId, targetRepo), |s.calls|;
    var s1 := Step(s, begin);
    OneStep(s, begin, k);
    OneStep(s1, Advance(d), k);
    RunsConcat(s, [begin], [Advance(d)], k);
    assert Step(s1, Advance(d)).calls == s.calls + [Call(holder, issueId, targetRepo, Acquiring(1))];
    es := [begin] + [Advance(d)];
  }

  /** Another call of the same process sets the free key. */
  lemma Occupy(s: State, c: nat, k: string) returns (es: seq<Event>)
    requires Valid(s) && Claims(s, c, k) && k !in s.store
    ensures Undisturbed(s, es, k) && Possible(s, es) && Shared(End(s, es), c, |s.calls|, k)
  {
    var call, d := s.calls[c], |s.calls|;
    if k == Keys(call)[0] {
      es := SetIssue(s, call.holder, call.issueId, "", k);
    } else {
      var issueId := FreshIssue(s.store);
      es := SetIssue(s, call.holder, issueId, call.targetRepo, k);
      var s1 := End(s, es);
      assert Keys(s1.calls[d])[0] == "issue:" + issueId && Keys(s1.calls[d])[1] == k;
      OneStep(s1, Advance(d), k);
      RunsConcat(s, es, [Advance(d)], k);
      es := es + [Advance(d)];
    }
  }

  lemma Invade(s: State, c: nat, k: string) returns (es: seq<Event>)
    requires Valid(s) && Accounted(s) && Claims(s, c, k) && !Backed(s, c, k)
    ensures Undisturbed(s, es, k) && Possible(s, es) && exists d :: Shared(End(s, es), c, d, k)
  {
    var first := Vacate(s, c, k);
    var second := Occupy(End(s, first), c, k);
    RunsConcat(s, first, second, k);
    es := first + second;
  }

  /**
   As long as a key does not expire while held, no two calls will claim it if and only if every call that claims it
   has its entry now.
   */
  lemma ExclusiveIffSound(es: seq<Event>, k: string)
    requires Possible(START, es)
    ensures var s := End(START, es);
            Sound(s, k) <==> forall more :: Undisturbed(s, more, k) ==> Possible(s, more) && Exclusive(End(s, more), k)
  {
    var s := End(START, es);
    EntriesAreAccounted(START, es);
    if Sound(s, k) {
      forall more | Undisturbed(s, more, k) ensures Possible(s, more) && Exclusive(End(s, more), k) {
        RunKeepsSound(s, more, k);
      }
    } else {
      var c :| Claims(s, c, k) && !Backed(s, c, k);
      var more := Invade(s, c, k);
      var d :| Shared(End(s, more), c, d, k);
      assert !Exclusive(End(s, more), k);
    }
  }

  /** The work lock excludes: no two calls hold a key that never expires while held. */
  lemma MutualExclusion(es: seq<Event>, k: string)
    requires Undisturbed(START, es, k)
    ensures Possible(START, es) && Exclusive(End(START, es), k) && Sound(End(START, es), k)
  {
    RunKeepsSound(START, es, k);
  }

  function Remaining(c: Call): int {
    match c.phase
    case Acquiring(got) => 10 - got
    case Working => 7
    case Releasing(next) => 5 - 2 * next
    case Deleting(next) => 4 - 2 * next
    case _ => 0
  }

  /** Left alone, a call that shares a key deletes it. */
  lemma {:induction false} Drive(s: State, c: nat, d: nat, k: string) returns (es: seq<Event>)
    requires Valid(s) && Shared(s, c, d, k)
    ensures Undisturbed(s, es, k) && Possible(s, es) && Steals(End(s, es), c, k)
    decreases Remaining(s.calls[c]) + 2
  {
    if k !in Advanced(s, c).store { return []; }
    var s1 := Step(s, Advance(c));
    OthersStay(s, c);
    EntryAfter(s, c, k);
    ClaimStays(s, c, k);
    var rest := Drive(s1, c, d, k);
    OneStep(s, Advance(c), k);
    RunsConcat(s, [Advance(c)], rest, k);
    es := [Advance(c)] + rest;
  }

  lemma SoundMeansOwn(s: State, c: nat, k: string)
    requires Valid(s) && Sound(s, k)
    ensures !Steals(s, c, k)
  {
    if Steals(s, c, k) { EntryAfter(s, c, k); }
  }

  /** Some continuation in which the key does not expire while held lets a call delete it from under another one. */
  ghost predicate CanBeStolen(s: State, k: string)
    requires Valid(s)
  {
    exists more, c :: Undisturbed(s, more, k) && Possible(s, more) && Steals(End(s, more), c, k)
  }

  /** The same condition decides whether a call will delete a key that another call holds. */
  lemma StolenIffUnsound(es: seq<Event>, k: string)
    requires Possible(START, es)
    ensures CanBeStolen(End(START, es), k) <==> !Sound(End(START, es), k)
  {
    var s := End(START, es);
    EntriesAreAccounted(START, es);
    if Sound(s, k) {
      forall more, c | Undisturbed(s, more, k) && Possible(s, more) ensures !Steals(End(s, more), c, k) {
        RunKeepsSound(s, more, k);
        SoundMeansOwn(End(s, more), c, k);
      }
    } else {
      var c :| Claims(s, c, k) && !Backed(s, c, k);
      var first := Invade(s, c, k);
      var d :| Shared(End(s, first), c, d, k);
      var rest := Drive(End(s, first), c, d, k);
      RunsConcat(s, first, rest, k);
      assert Steals(End(s, first + rest), c, k);
    }
  }

  /** Such a deletion is a rollback or the second half of a release, neither of which looks at the holder. */
  lemma StealsNextIff(s: State, c: nat, k: string)
    requires Valid(s)
    ensures Steals(s, c, k) <==>
      && c < |s.calls| && Held(s, k) && s.store[k].call != c
      && match s.calls[c].phase
         case RollingBack(got) => IsOneOf(k, Keys(s.calls[c]), 0, got)
         case Deleting(next) => k == Keys(s.calls[c])[next]
         case _ => false
  {
    if c < |s.calls| && s.calls[c].phase.RollingBack? {
      var got := s.calls[c].phase.got;
      assert IsOneOf(k, Keys(s.calls[c]), 0, got) <==> k in Keys(s.calls[c])[..got];
    }
  }

  // What the ownership check achieves.

  /** The call claims the key and may delete it without looking at its holder again. */
  predicate ClaimsBlindly(s: State, c: nat, k: string) {
    Claims(s, c, k)
    && match s.calls[c].phase
       case Acquiring(_) => true
       case RollingBack(_) => true
       case Deleting(next) => next < 2 && k == Keys(s.calls[c])[next]
       case _ => false
  }

  ghost predicate OneCallPerHolder(s: State) {
    forall c, d :: 0 <= c < d < |s.calls| ==> s.calls[c].holder != s.calls[d].holder
  }

  /** A new call has a new holder. */
  ghost predicate FreshHolder(s: State, e: Event) {
    e.Begin? ==> forall c :: 0 <= c < |s.calls| ==> s.calls[c].holder != e.holder
  }

  /** The key does not expire when its call may delete it blindly. */
  predicate TimelyExpiry(s: State, e: Event, k: string) {
    e == Expire(k) && Held(s, k) ==> !ClaimsBlindly(s, s.store[k].call, k)
  }

  /** A run with as much care as is asked for. */
  ghost predicate CarefulRun(s: State, es: seq<Event>, k: string, ownHolders: bool, timely: bool)
    requires Valid(s)
    decreases es
  {
    es == [] || (Enabled(s, es[0]) && (ownHolders ==> FreshHolder(s, es[0])) && (timely ==> TimelyExpiry(s, es[0], k))
                 && CarefulRun(Step(s, es[0]), es[1..], k, ownHolders, timely))
  }

  /** Whoever may delete the key without looking has its entry. */
  ghost predicate BlindOwn(s: State, k: string) {
    forall c :: ClaimsBlindly(s, c, k) ==> Backed(s, c, k)
  }

  lemma BlindAfter(s: State, c: nat, k: string)
    requires Valid(s) && Enabled(s, Advance(c)) && Accounted(s) && OneCallPerHolder(s)
    requires ClaimsBlindly(s, c, k) ==> Backed(s, c, k)
    ensures var s' := Step(s, Advance(c)); ClaimsBlindly(s', c, k) ==> Backed(s', c, k)
  {
  }

  lemma AdvanceKeepsBlindOwn(s: State, c: nat, k: string)
    requires Valid(s) && Accounted(s) && OneCallPerHolder(s) && BlindOwn(s, k) && Enabled(s, Advance(c))
    ensures BlindOwn(Step(s, Advance(c)), k)
  {
    var s' := Step(s, Advance(c));
    OthersStay(s, c);
    EntryAfter(s, c, k);
    BlindAfter(s, c, k);
    forall d | ClaimsBlindly(s', d, k) && d != c ensures Backed(s', d, k) {
      assert ClaimsBlindly(s, d, k);
      if k !in s'.store { StealsNextIff(s, c, k); }
    }
  }

  lemma StepKeepsBlindOwn(s: State, e: Event, k: string)
    requires Valid(s) && Accounted(s) && OneCallPerHolder(s) && BlindOwn(s, k)
    requires Enabled(s, e) && FreshHolder(s, e) && TimelyExpiry(s, e, k)
    ensures BlindOwn(Step(s, e), k) && OneCallPerHolder(Step(s, e))
  {
    match e
    case Advance(c) => AdvanceKeepsBlindOwn(s, c, k); OthersStay(s, c);
    case Begin(_, _, _) =>
      forall d | ClaimsBlindly(Step(s, e), d, k) ensures ClaimsBlindly(s, d, k) {}
    case Abort(_) =>
      forall d | ClaimsBlindly(Step(s, e), d, k) ensures ClaimsBlindly(s, d, k) {}
    case Expire(_) =>
      forall d | ClaimsBlindly(Step(s, e), d, k) ensures ClaimsBlindly(s, d, k) {}
  }

  lemma {:induction false} CarefulRunKeeps(s: State, es: seq<Event>, k: string)
    requires Valid(s) && Accounted(s) && OneCallPerHolder(s) && BlindOwn(s, k) && CarefulRun(s, es, k, true, true)
    ensures Possible(s, es) && BlindOwn(End(s, es), k)
    decreases es
  {
    if es != [] {
      StepKeepsAccounted(s, es[0]);
      StepKeepsBlindOwn(s, es[0], k);
      CarefulRunKeeps(Step(s, es[0]), es[1..], k);
    }
  }

  lemma StealerIsBlind(s: State, c: nat, k: string)
    requires Valid(s)
    ensures Steals(s, c, k) ==> ClaimsBlindly(s, c, k) && !Backed(s, c, k)
  {
    StealsNextIff(s, c, k);
  }

  /**
   If every call had a holder of its own, and a key expired only while its call works or is between the keys of its
   release, no call would ever delete a key that another one holds.
   */
  lemma OwnershipIsChecked(es: seq<Event>, k: string)
    requires CarefulRun(START, es, k, true, true)
    ensures Possible(START, es) && forall c :: !Steals(End(START, es), c, k)
  {
    CarefulRunKeeps(START, es, k);
    forall c ensures !Steals(End(START, es), c, k) { StealerIsBlind(End(START, es), c, k); }
  }

  lemma {:induction false} Extend(s: State, es: seq<Event>, e: Event, k: string, ownHolders: bool, timely: bool)
    requires Valid(s) && CarefulRun(s, es, k, ownHolders, timely) && Possible(s, es) && Enabled(End(s, es), e)
    requires (ownHolders ==> FreshHolder(End(s, es), e)) && (timely ==> TimelyExpiry(End(s, es), e, k))
    ensures CarefulRun(s, es + [e], k, ownHolders, timely) && Possible(s, es + [e])
    ensures End(s, es + [e]) == Step(End(s, es), e)
    decreases es
  {
    if es == [] {
      assert [e][1..] == [] && es + [e] == [e];
    } else {
      assert (es + [e])[0] == es[0] && (es + [e])[1..] == es[1..] + [e];
      Extend(Step(s, es[0]), es[1..], e, k, ownHolders, timely);
    }
  }

  lemma Then(es: seq<Event>, e: Event, k: string, ownHolders: bool, timely: bool) returns (more: seq<Event>)
    requires CarefulRun(START, es, k, ownHolders, timely) && Possible(START, es) && Enabled(End(START, es), e)
    requires (ownHolders ==> FreshHolder(End(START, es), e)) && (timely ==> TimelyExpiry(End(START, es), e, k))
    ensures CarefulRun(START, more, k, ownHolders, timely) && Possible(START, more)
    ensures End(START, more) == Step(End(START, es), e)
  {
    Extend(START, es, e, k, ownHolders, timely);
    more := es + [e];
  }

  const ISSUE_KEY: string := Keys(Call("", "", "", Over))[0]
  const REPO_KEY: string := Keys(Call("", "", "", Over))[1]

  lemma BothSet(holder: string, issueId: string, ownHolders: bool, timely: bool) returns (es: seq<Event>)
    ensures CarefulRun(START, es, ISSUE_KEY, ownHolders, timely) && Possible(START, es)
    ensures var call := Call(holder, issueId, "", Acquiring(2)); var entry := Lock(holder, 0);
            End(START, es) == State(map[Keys(call)[0] := entry, REPO_KEY := entry], [call])
  {
    es := Then([], Begin(holder, issueId, ""), ISSUE_KEY, ownHolders, timely);
    es := Then(es, Advance(0), ISSUE_KEY, ownHolders, timely);
    es := Then(es, Advance(0), ISSUE_KEY, ownHolders, timely);
    var call := Call(holder, issueId, "", Acquiring(2));
    assert End(START, es).calls == [call];
  }

  lemma SetsFirst(s: State, c: nat)
    requires c < |s.calls| && s.calls[c].phase == Acquiring(0) && Keys(s.calls[c])[0] !in s.store
    ensures Advanced(s, c) == State(s.store[Keys(s.calls[c])[0] := Lock(s.calls[c].holder, c)],
                                    s.calls[c := s.calls[c].(phase := Acquiring(1))])
  {
  }

  lemma SetsAgain(s: State, holder: string)
    requires Valid(s) && ISSUE_KEY in s.store
    ensures var s1 := Step(Step(s, Expire(ISSUE_KEY)), Begin(holder, "", "x"));
            && s1.calls == s.calls + [Call(holder, "", "x", Acquiring(0))] && ISSUE_KEY !in s1.store
            && Step(s1, Advance(|s.calls|)) == State(s.store[ISSUE_KEY := Lock(holder, |s.calls|)],
                                                     s.calls + [Call(holder, "", "x", Acquiring(1))])
  {
    var entry, call := Lock(holder, |s.calls|), Call(holder, "", "x", Acquiring(0));
    SetsFirst(Step(Step(s, Expire(ISSUE_KEY)), Begin(holder, "", "x")), |s.calls|);
    assert (s.calls + [call])[|s.calls| := call.(phase := Acquiring(1))] == s.calls + [call.(phase := Acquiring(1))];
    assert (s.store - {ISSUE_KEY})[ISSUE_KEY := entry] == s.store[ISSUE_KEY := entry];
  }

  /** The key expires, and a new call sets it. */
  lemma Retaken(before: seq<Event>, holder: string, ownHolders: bool, timely: bool) returns (es: seq<Event>)
    requires CarefulRun(START, before, ISSUE_KEY, ownHolders, timely)
    requires Possible(START, before) && ISSUE_KEY in End(START, before).store
    requires ownHolders ==> FreshHolder(End(START, before), Begin(holder, "", "x"))
    requires timely ==> TimelyExpiry(End(START, before), Expire(ISSUE_KEY), ISSUE_KEY)
    ensures CarefulRun(START, es, ISSUE_KEY, ownHolders, timely) && Possible(START, es)
    ensures var s := End(START, before);
            End(START, es) == State(s.store[ISSUE_KEY := Lock(holder, |s.calls|)],
                                    s.calls + [Call(holder, "", "x", Acquiring(1))])
  {
    var s := End(START, before);
    SetsAgain(s, holder);
    es := Then(before, Expire(ISSUE_KEY), ISSUE_KEY, ownHolders, timely);
    es := Then(es, Begin(holder, "", "x"), ISSUE_KEY, ownHolders, timely);
    es := Then(es, Advance(|s.calls|), ISSUE_KEY, ownHolders, timely);
  }

  /** A process that shares its holder among its calls releases what another of its calls has set. */
  lemma SharedHolderSteals()
    ensures exists es, k, c :: CarefulRun(START, es, k, false, true) && Possible(START, es) && Steals(End(START, es), c, k)
  {
    var es := BothSet("h", "", false, true);
    es := Then(es, Advance(0), ISSUE_KEY, false, true);
    es := Retaken(es, "h", false, true);
    es := ReleasesShared(es);
    StealsNextIff(End(START, es), 0, ISSUE_KEY);
  }

  lemma ReleasesShared(before: seq<Event>) returns (es: seq<Event>)
    requires CarefulRun(START, before, ISSUE_KEY, false, true) && Possible(START, before)
    requires End(START, before) == State(map[ISSUE_KEY := Lock("h", 1), REPO_KEY := Lock("h", 0)],
                                         [Call("h", "", "", Working), Call("h", "", "x", Acquiring(1))])
    ensures CarefulRun(START, es, ISSUE_KEY, false, true) && Possible(START, es)
    ensures End(START, es) == State(map[ISSUE_KEY := Lock("h", 1), REPO_KEY := Lock("h", 0)],
                                    [Call("h", "", "", Deleting(0)), Call("h", "", "x", Acquiring(1))])
  {
    es := Then(before, Advance(0), ISSUE_KEY, false, true);
    es := Then(es, Advance(0), ISSUE_KEY, false, true);
    assert End(START, es).calls == [Call("h", "", "", Deleting(0)), Call("h", "", "x", Acquiring(1))];
  }

  /** A key that expires between the two commands of its release is deleted from under its next holder. */
  lemma WindowSteals()
    ensures exists es, k, c: nat :: CarefulRun(START, es, k, true, false) && Possible(START, es)
                                    && Steals(End(START, es), c, k) && End(START, es).calls[c].phase.Deleting?
  {
    var es := BothSet("h", "", true, false);
    es := SeesItsOwn(es);
    es := Retaken(es, "g", true, false);
    StealsNextIff(End(START, es), 0, ISSUE_KEY);
  }

  lemma SeesItsOwn(before: seq<Event>) returns (es: seq<Event>)
    requires CarefulRun(START, before, ISSUE_KEY, true, false) && Possible(START, before)
    requires var entry := Lock("h", 0);
             End(START, before) == State(map[ISSUE_KEY := entry, REPO_KEY := entry], [Call("h", "", "", Acquiring(2))])
    ensures CarefulRun(START, es, ISSUE_KEY, true, false) && Possible(START, es)
    ensures End(START, es).calls == [Call("h", "", "", Deleting(0))] && ISSUE_KEY in End(START, es).store
  {
    es := Then(before, Advance(0), ISSUE_KEY, true, false);
    es := Then(es, Advance(0), ISSUE_KEY, true, false);
    es := Then(es, Advance(0), ISSUE_KEY, true, false);
  }

  /** So is a key that expires before a failed acquisition is rolled back. */
  lemma RollbackSteals()
    ensures exists es, k, c: nat :: CarefulRun(START, es, k, true, false) && Possible(START, es)
                                    && Steals(End(START, es), c, k) && End(START, es).calls[c].phase.RollingBack?
  {
    var es := BothSet("f", "x", true, false);
    es := FailsOnRepo(es);
    es := Retaken(es, "g", true, false);
    StealsNextIff(End(START, es), 1, ISSUE_KEY);
  }

  lemma FailsOnRepo(before: seq<Event>) returns (es: seq<Event>)
    requires CarefulRun(START, before, ISSUE_KEY, true, false) && Possible(START, before)
    requires var call := Call("f", "x", "", Acquiring(2)); var entry := Lock("f", 0);
             End(START, before) == State(map[Keys(call)[0] := entry, REPO_KEY := entry], [call])
    ensures CarefulRun(START, es, ISSUE_KEY, true, false) && Possible(START, es)
    ensures End(START, es).calls == [Call("f", "x", "", Acquiring(2)), Call("h", "", "", RollingBack(1))]
    ensures ISSUE_KEY in End(START, es).store
  {
    assert Keys(Call("f", "x", "", Acquiring(2)))[0] != ISSUE_KEY;
    es := Then(before, Begin("h", "", ""), ISSUE_KEY, true, false);
    es := Then(es, Advance(1), ISSUE_KEY, true, false);
    es := Then(es, Advance(1), ISSUE_KEY, true, false);
  }

  // The default backend, whose operations are not interrupted.

  function FirstHeld(locks: set<string>, keys: seq<string>): (held: Option<string>)
    ensures held.None? <==> forall k :: k in keys ==> k !in locks
    ensures held.Some? ==> held.value in keys && held.value in locks
  {
    if keys == [] then None else if keys[0] in locks then Some(keys[0]) else FirstHeld(locks, keys[1..])
  }

  /** It is the first one. */
  lemma {:induction false} FirstHeldIsFirst(locks: set<string>, keys: seq<string>, i: nat)
    requires i < |keys| && keys[i] in locks && forall j :: 0 <= j < i ==> keys[j] !in locks
    ensures FirstHeld(locks, keys) == Some(keys[i])
  {
    if i > 0 {
      assert forall j :: 0 <= j < i - 1 ==> keys[1..][j] == keys[j + 1];
      FirstHeldIsFirst(locks, keys[1..], i - 1);
    }
  }

  class InMemoryLoopsLockBackend {
    var locks: set<string>

    constructor ()
      ensures locks == {}
    {
      locks := {};
    }

    /** The key that is named in the conflict, if there is one. */
    method Acquire(keys: seq<string>) returns (held: Option<string>)
      modifies this
      ensures held == FirstHeld(old(locks), keys)
      ensures locks == if held.None? then old(locks) + set k | k in keys else old(locks)
    {
      for i := 0 to |keys|
        invariant locks == old(locks) && FirstHeld(locks, keys[i..]) == FirstHeld(locks, keys)
      {
        if keys[i] in locks { return Some(keys[i]); }
        assert keys[i..][1..] == keys[i + 1..];
      }
      held := None;
      for i := 0 to |keys|
        invariant locks == old(locks) + set k | k in keys[..i]
      {
        locks := locks + {keys[i]};
        assert keys[..i + 1] == keys[..i] + [keys[i]];
      }
      assert keys[..|keys|] == keys;
    }

    method Release(keys: seq<string>)
      modifies this
      ensures locks == old(locks) - set k | k in keys
    {
      for i := 0 to |keys|
        invariant locks == old(locks) - set k | k in keys[..i]
      {
        locks := locks - {keys[i]};
        assert keys[..i + 1] == keys[..i] + [keys[i]];
      }
      assert keys[..|keys|] == keys;
    }
  }

  /** The call takes `n` steps in a row, to `t`. */
  ghost predicate Alone(s: State, c: nat, n: nat, t: State)
    requires Valid(s)
    decreases n
  {
    if n == 0 then t == s else Enabled(s, Advance(c)) && Alone(Step(s, Advance(c)), c, n - 1, t)
  }

  /** Uninterrupted, a Redis call acquires like the default backend: all of its keys, or none and the store is as before. */
  lemma UninterruptedAcquire(s: State, c: nat) returns (n: nat, t: State)
    requires Valid(s) && c < |s.calls| && s.calls[c].phase == Acquiring(0)
    ensures Alone(s, c, n, t) && |t.calls| == |s.calls|
    ensures var keys := Keys(s.calls[c]);
            if FirstHeld(s.store.Keys, keys).None?
            then t.calls[c].phase == Working && t.store.Keys == s.store.Keys + (set k | k in keys)
                 && forall k :: k in keys ==> Backed(t, c, k)
            else t.calls[c].phase == Over && t.store == s.store
  {
    var keys, e := Keys(s.calls[c]), Advance(c);
    assert keys[0] in keys && keys[1] in keys;
    var s1 := Step(s, e);
    if keys[0] in s.store {
      n, t := 1, s1;
      assert Alone(s1, c, 0, t);
    } else {
      var s2 := Step(s1, e);
      n, t := 3, Step(s2, e);
      assert Alone(t, c, 0, t) && Alone(s2, c, 1, t) && Alone(s1, c, 2, t);
    }
  }

  /** The two commands that release a key of the call's own. */
  lemma ReleaseOne(s: State, c: nat, next: nat) returns (t: State)
    requires Valid(s) && Accounted(s) && c < |s.calls| && s.calls[c].phase == Releasing(next) && next < 2
    requires Backed(s, c, Keys(s.calls[c])[next])
    ensures t == Moved(Deleted(s, [Keys(s.calls[c])[next]]), c, Releasing(next + 1))
    ensures Accounted(t) && forall n: nat, u :: Valid(u) && Alone(t, c, n, u) ==> Alone(s, c, n + 2, u)
  {
    var s1 := Step(s, Advance(c));
    t := Step(s1, Advance(c));
    AdvanceKeepsAccounted(s, c);
    AdvanceKeepsAccounted(s1, c);
    forall n: nat, u | Valid(u) && Alone(t, c, n, u) ensures Alone(s, c, n + 2, u) {
      assert Alone(s1, c, n + 1, u);
    }
  }

  /** Uninterrupted, a call that has all its keys releases like the default backend. */
  lemma UninterruptedRelease(s: State, c: nat) returns (n: nat, t: State)
    requires Valid(s) && Accounted(s) && c < |s.calls| && s.calls[c].phase == Working
    requires forall k :: k in Keys(s.calls[c]) ==> Backed(s, c, k)
    ensures Alone(s, c, n, t) && |t.calls| == |s.calls| && t.calls[c].phase == Over
    ensures t.store == s.store - set k | k in Keys(s.calls[c])
  {
    var keys := Keys(s.calls[c]);
    assert Backed(s, c, keys[0]) && Backed(s, c, keys[1]);
    var s1 := Step(s, Advance(c));
    assert s1 == Moved(s, c, Releasing(0));
    AdvanceKeepsAccounted(s, c);
    n, t := ReleaseBoth(s1, c);
    n := n + 1;
  }

  lemma ReleaseBoth(s: State, c: nat) returns (n: nat, t: State)
    requires Valid(s) && Accounted(s) && c < |s.calls| && s.calls[c].phase == Releasing(0)
    requires Backed(s, c, Keys(s.calls[c])[0]) && Backed(s, c, Keys(s.calls[c])[1])
    ensures Alone(s, c, n, t) && |t.calls| == |s.calls| && t.calls[c].phase == Over
    ensures t.store == s.store - set k | k in Keys(s.calls[c])
  {
    var keys := Keys(s.calls[c]);
    var s1 := ReleaseOne(s, c, 0);
    assert Keys(s1.calls[c]) == keys;
    var s2 := ReleaseOne(s1, c, 1);
    t := Step(s2, Advance(c));
    assert Alone(t, c, 0, t) && Alone(s2, c, 1, t) && Alone(s1, c, 3, t);
    n := 5;
  }

  // Which calls block each other, by their issues and repositories alone.

  predicate Related(c: Call, d: Call) {
    c.issueId == d.issueId || c.targetRepo == d.targetRepo
  }

  lemma PrefixedEqual(prefix: string, a: string, b: string)
    ensures prefix + a == prefix + b <==> a == b
  {
    assert (prefix + a)[|prefix|..] == a && (prefix + b)[|prefix|..] == b;
  }

  /** Two calls have a key in common if and only if they work on the same issue or in the same repository. */
  lemma KeysMeetIff(c: Call, d: Call)
    ensures (exists k :: k in Keys(c) && k in Keys(d)) <==> Related(c, d)
  {
    PrefixedEqual("issue:", c.issueId, d.issueId);
    PrefixedEqual("repo:", c.targetRepo, d.targetRepo);
    assert Keys(c)[0][0] == 'i' && Keys(d)[0][0] == 'i' && Keys(c)[1][0] == 'r' && Keys(d)[1][0] == 'r';
    assert Keys(c)[0] in Keys(c) && Keys(c)[1] in Keys(c) && Keys(d)[0] in Keys(d) && Keys(d)[1] in Keys(d);
  }

  /** Every entry is for a key of its call. */
  ghost predicate OwnKeys(s: State) {
    forall k :: k in s.store ==> s.store[k].call < |s.calls| && k in Keys(s.calls[s.store[k].call])
  }

  lemma StepKeepsOwnKeys(s: State, e: Event)
    requires Valid(s) && OwnKeys(s) && Enabled(s, e)
    ensures OwnKeys(Step(s, e))
  {
    if e.Advance? {
      OthersStay(s, e.call);
      forall k | k in Step(s, e).store ensures k in s.store || k in Keys(s.calls[e.call]) { EntryAfter(s, e.call, k); }
      forall k | k in Step(s, e).store
        ensures Step(s, e).store[k] == if k in s.store then s.store[k] else Lock(s.calls[e.call].holder, e.call)
      {
        EntryAfter(s, e.call, k);
      }
    }
  }

  lemma {:induction false} EntriesAreOwnKeys(s: State, es: seq<Event>)
    requires Valid(s) && OwnKeys(s) && Possible(s, es)
    ensures OwnKeys(End(s, es))
    decreases es
  {
    if es != [] {
      StepKeepsOwnKeys(s, es[0]);
      EntriesAreOwnKeys(Step(s, es[0]), es[1..]);
    }
  }

  predicate HasEntry(s: State, d: nat) {
    exists k :: k in s.store && s.store[k].call == d
  }

  /** The next command of the call finds its key taken. */
  predicate IsRejected(s: State, c: nat)
    requires Valid(s)
  {
    Enabled(s, Advance(c)) && s.calls[c].phase.Acquiring? && Advanced(s, c).calls[c].phase in {RollingBack(1), Over}
  }

  /** Another call on the same issue or repository has an entry. */
  ghost predicate HasRival(s: State, c: nat)
    requires c < |s.calls|
  {
    exists d: nat :: d < |s.calls| && d != c && HasEntry(s, d) && Related(s.calls[d], s.calls[c])
  }

  lemma RejectedHasRival(s: State, c: nat)
    requires Valid(s) && OwnKeys(s) && Accounted(s) && IsRejected(s, c)
    ensures HasRival(s, c)
  {
    SetByAnother(s, c);
    var k := Keys(s.calls[c])[s.calls[c].phase.got];
    var d := s.store[k].call;
    assert k in Keys(s.calls[d]) && k in Keys(s.calls[c]);
    KeysMeetIff(s.calls[d], s.calls[c]);
    assert HasEntry(s, d);
  }

  /** In every run, a call is rejected only while another call on the same issue or repository has an entry. */
  lemma RejectionHasCause(es: seq<Event>, c: nat)
    requires Possible(START, es) && IsRejected(End(START, es), c)
    ensures HasRival(End(START, es), c)
  {
    EntriesAreOwnKeys(START, es);
    EntriesAreAccounted(START, es);
    RejectedHasRival(End(START, es), c);
  }

  /** A call has no entry for the key that it has yet to set. */
  lemma SetByAnother(s: State, c: nat)
    requires Valid(s) && Accounted(s) && IsRejected(s, c)
    ensures var k := Keys(s.calls[c])[s.calls[c].phase.got]; k in s.store && s.store[k].call != c
  {
  }

  /** Every call that has an entry has both. */
  ghost predicate Complete(s: State) {
    forall k, k' :: k in s.store && s.store[k].call < |s.calls| && k' in Keys(s.calls[s.store[k].call])
                    ==> Backed(s, s.store[k].call, k')
  }

  /** No entry is of a call on the same issue or repository. */
  ghost predicate Unrelated(s: State, c: nat)
    requires c < |s.calls|
  {
    forall d :: 0 <= d < |s.calls| && HasEntry(s, d) ==> !Related(s.calls[d], s.calls[c])
  }

  lemma FreeIffUnrelated(s: State, c: nat)
    requires c < |s.calls| && OwnKeys(s)
    ensures Unrelated(s, c) ==> FirstHeld(s.store.Keys, Keys(s.calls[c])).None?
    ensures Complete(s) ==> (Unrelated(s, c) <==> FirstHeld(s.store.Keys, Keys(s.calls[c])).None?)
  {
    forall k | k in s.store
      ensures (exists k' :: k' in Keys(s.calls[s.store[k].call]) && k' in Keys(s.calls[c]))
         <==> Related(s.calls[s.store[k].call], s.calls[c])
    {
      KeysMeetIff(s.calls[s.store[k].call], s.calls[c]);
    }
  }

  /**
   Uninterrupted, a call gets to work, or is over without a trace. It works whenever no entry is of a call on the same
   issue or repository, and only then if every call that has an entry has both of its own.
   */
  lemma CallWorksIff(es: seq<Event>, c: nat) returns (n: nat, t: State)
    requires Possible(START, es) && c < |End(START, es).calls| && End(START, es).calls[c].phase == Acquiring(0)
    ensures Alone(End(START, es), c, n, t) && |t.calls| == |End(START, es).calls|
    ensures t.calls[c].phase == Working || (t.calls[c].phase == Over && t.store == End(START, es).store)
    ensures Unrelated(End(START, es), c) ==> t.calls[c].phase == Working
    ensures Complete(End(START, es)) ==> (t.calls[c].phase == Working <==> Unrelated(End(START, es), c))
  {
    EntriesAreOwnKeys(START, es);
    FreeIffUnrelated(End(START, es), c);
    n, t := UninterruptedAcquire(End(START, es), c);
  }
}
