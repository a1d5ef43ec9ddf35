/**
 The event stream of one loop issue: connects that wait for a token, a guarded retry timer with exponential
 backoff, a periodic token check and disposal. Each step runs from one suspension point to the next.
 */
module AdvanceStream {

  import opened Ecma

  const INITIAL_RETRY_DELAY_MS := 1000
  const MAX_RETRY_DELAY_MS := 30_000

  /**
   `timers` counts the retry timeouts that can still fire and `armedDelay` is the delay of the last one armed;
   `awaiting` counts the connects that wait for their token, and `live` holds those of the `created` streams that
   the hook has not closed.
   */
  datatype State = State(
    disposed: bool,
    retryDelay: int,
    retryTimer: bool,
    timers: nat,
    armedDelay: int,
    tickArmed: bool,
    current: Option<nat>,
    connected: bool,
    awaiting: nat,
    created: nat,
    live: set<nat>)

  /** How the token await of a connect ends; `Fails` also covers a stream that cannot be constructed. */
  datatype TokenResult = Token | NoToken | Fails

  datatype Event =
    | Resume(result: TokenResult)
    | Open(stream: nat)
    | Error(stream: nat)
    | RetryFires
    | TokenTick(expired: bool)
    | Dispose

  // The steps as functions on states.

  function Closed(s: State): State {
    if s.current.Some? then s.(live := s.live - {s.current.value}, current := None) else s
  }

  function Scheduled(s: State): State {
    if s.disposed || s.retryTimer then s else s.(retryTimer := true, timers := s.timers + 1, armedDelay := s.retryDelay)
  }

  function Connecting(s: State): State {
    Closed(s).(connected := false, awaiting := s.awaiting + 1)
  }

  function Resumed(s: State, result: TokenResult): State
    requires s.awaiting > 0
  {
    var s := s.(awaiting := s.awaiting - 1);
    if result == Fails then Scheduled(s)
    else if s.disposed || result == NoToken then s
    else s.(current := Some(s.created), created := s.created + 1, live := s.live + {s.created})
  }

  predicate Enabled(s: State, e: Event) {
    match e
    case Resume(_) => s.awaiting > 0
    case Open(k) => k in s.live
    case Error(k) => k in s.live
    case RetryFires => s.timers > 0
    case TokenTick(_) => s.tickArmed
    case Dispose => !s.disposed
  }

  function Step(s: State, e: Event): State
    requires Enabled(s, e)
  {
    match e
    case Resume(result) => Resumed(s, result)
    case Open(_) => s.(retryDelay := INITIAL_RETRY_DELAY_MS, connected := true)
    case Error(k) => if s.disposed || s.current != Some(k) then s else Scheduled(Closed(s.(connected := false)))
    case RetryFires =>
      Connecting(s.(retryTimer := false, timers := s.timers - 1, retryDelay := Min(s.retryDelay * 2, MAX_RETRY_DELAY_MS)))
    case TokenTick(expired) => if expired then Connecting(s) else s
    case Dispose => Closed(s.(disposed := true, tickArmed := false,
                                 timers := if s.retryTimer && s.timers > 0 then s.timers - 1 else s.timers))
  }

  /** The state after the effect has run: the token check is armed and the first connect waits. */
  const START: State := Connecting(State(false, INITIAL_RETRY_DELAY_MS, false, 0, 0, true, None, false, 0, 0, {}))

  /** What every step keeps. */
  ghost predicate Consistent(s: State) {
    && (if s.disposed then s.timers == 0 && !s.tickArmed && s.current.None?
        else s.timers == (if s.retryTimer then 1 else 0) && s.tickArmed)
    && (s.current.Some? ==> s.current.value in s.live)
    && (forall k :: k in s.live ==> k < s.created)
  }

  lemma StepKeepsConsistent(s: State, e: Event)
    requires Consistent(s) && Enabled(s, e)
    ensures Consistent(Step(s, e))
  {
  }

  /** The closures of the effect and the variables they share. */
  class Hook {
    var disposed: bool
    var retryDelay: int
    var retryTimer: bool
    var current: Option<nat>
    var connected: bool
    // The environment: timers, suspended connects and streams.
    var timers: nat
    var armedDelay: int
    var tickArmed: bool
    var awaiting: nat
    var created: nat
    var live: set<nat>

    function View(): State
      reads this
    {
      State(disposed, retryDelay, retryTimer, timers, armedDelay, tickArmed, current, connected, awaiting, created, live)
    }

    constructor ()
      ensures View() == START && Consistent(View())
    {
      disposed, retryDelay, retryTimer, current, connected := false, INITIAL_RETRY_DELAY_MS, false, None, false;
      timers, armedDelay, tickArmed, awaiting, created, live := 0, 0, true, 0, 0, {};
      new;
      Connect();
    }

    method Close()
      modifies this
      ensures View() == Closed(old(View()))
    {
      if current.Some? { live := live - {current.value}; }
      current := None;
    }

    method ScheduleReconnect()
      modifies this
      ensures View() == Scheduled(old(View()))
    {
      if disposed || retryTimer { return; }
      retryTimer := true;
      timers, armedDelay := timers + 1, retryDelay;
    }

    /** Runs up to the token await. */
    method Connect()
      modifies this
      ensures View() == Connecting(old(View()))
    {
      Close();
      connected := false;
      awaiting := awaiting + 1;
    }

    method OnToken(result: TokenResult)
      requires Consistent(View()) && Enabled(View(), Resume(result))
      modifies this
      ensures View() == Step(old(View()), Resume(result)) && Consistent(View())
    {
      awaiting := awaiting - 1;
      if result == Fails {
        ScheduleReconnect();
      } else {
        if disposed || result == NoToken { return; }
        var source := created;
        created, live := created + 1, live + {source};
        current := Some(source);
      }
    }

    method OnOpen(source: nat)
      requires Consistent(View()) && Enabled(View(), Open(source))
      modifies this
      ensures View() == Step(old(View()), Open(source)) && Consistent(View())
    {
      retryDelay := INITIAL_RETRY_DELAY_MS;
      connected := true;
    }

    method OnError(source: nat)
      requires Consistent(View()) && Enabled(View(), Error(source))
      modifies this
      ensures View() == Step(old(View()), Error(source)) && Consistent(View())
    {
      if disposed || current != Some(source) { return; }
      connected := false;
      Close();
      ScheduleReconnect();
    }

    method OnRetryTimer()
      requires Consistent(View()) && Enabled(View(), RetryFires)
      modifies this
      ensures View() == Step(old(View()), RetryFires) && Consistent(View())
    {
      timers := timers - 1;
      retryTimer := false;
      retryDelay := Min(retryDelay * 2, MAX_RETRY_DELAY_MS);
      Connect();
    }

    method OnTokenTick(expired: bool)
      requires Consistent(View()) && Enabled(View(), TokenTick(expired))
      modifies this
      ensures View() == Step(old(View()), TokenTick(expired)) && Consistent(View())
    {
      if expired { Connect(); }
    }

    method OnDispose()
      requires Consistent(View()) && Enabled(View(), Dispose)
      modifies this
      ensures View() == Step(old(View()), Dispose) && Consistent(View())
    {
      disposed := true;
      tickArmed := false;
      if retryTimer { timers := timers - 1; }
      Close();
    }
  }

  // Runs: every finite sequence of events that the environment can produce.

  ghost predicate Run(es: seq<Event>)
    decreases |es|, 0
  {
    es == [] || (Run(es[..|es| - 1]) && Enabled(After(es[..|es| - 1]), es[|es| - 1]))
  }

  ghost function After(es: seq<Event>): State
    requires Run(es)
    decreases |es|, 1
  {
    if es == [] then START else Step(After(es[..|es| - 1]), es[|es| - 1])
  }

  /** Whether `e`, taken in `s`, opens a stream while another one is still referenced. */
  ghost predicate Overwrites(s: State, e: Event) {
    e == Resume(Token) && !s.disposed && s.current.Some?
  }

  ghost function Overwritten(es: seq<Event>): nat
    requires Run(es)
  {
    if es == [] then 0 else
      Overwritten(es[..|es| - 1]) + if Overwrites(After(es[..|es| - 1]), es[|es| - 1]) then 1 else 0
  }

  lemma {:induction false} RunIsConsistent(es: seq<Event>)
    requires Run(es)
    ensures Consistent(After(es))
  {
    if es != [] {
      RunIsConsistent(es[..|es| - 1]);
      StepKeepsConsistent(After(es[..|es| - 1]), es[|es| - 1]);
    }
  }

  lemma ClosedCount(s: State)
    requires s.current.Some? ==> s.current.value in s.live
    ensures Closed(s).current.None? && |Closed(s).live| == |s.live| - (if s.current.Some? then 1 else 0)
  {
  }

  lemma ResumedCount(s: State, result: TokenResult)
    requires s.awaiting > 0 && s.created !in s.live
    ensures var s' := Resumed(s, result);
            if result == Token && !s.disposed then s'.current.Some? && |s'.live| == |s.live| + 1
            else s'.current == s.current && s'.live == s.live
  {
  }

  lemma StepLiveCount(s: State, e: Event)
    requires Consistent(s) && Enabled(s, e)
    ensures |Step(s, e).live| - (if Step(s, e).current.Some? then 1 else 0)
         == |s.live| - (if s.current.Some? then 1 else 0) + (if Overwrites(s, e) then 1 else 0)
  {
    ClosedCount(s);
    if e.Resume? { ResumedCount(s, e.result); }
  }

  /** Streams created and not closed: one if the reference is set, and one for each overwritten reference. */
  lemma {:induction false} LiveStreams(es: seq<Event>)
    requires Run(es)
    ensures |After(es).live| == (if After(es).current.Some? then 1 else 0) + Overwritten(es)
  {
    if es != [] {
      var before := es[..|es| - 1];
      LiveStreams(before);
      RunIsConsistent(before);
      StepLiveCount(After(before), es[|es| - 1]);
    }
  }

  /** After disposal the only streams still open are the overwritten ones. */
  lemma DisposalLeavesTheOverwritten(es: seq<Event>)
    requires Run(es) && After(es).disposed
    ensures |After(es).live| == Overwritten(es)
  {
    RunIsConsistent(es);
    LiveStreams(es);
  }

  // Connects that overlap.

  predicate StartsConnect(e: Event) {
    e == RetryFires || e == TokenTick(true)
  }

  /** No connect of the run starts while another one waits for its token. */
  ghost predicate OneAtATime(es: seq<Event>)
    requires Run(es)
  {
    es == [] || (OneAtATime(es[..|es| - 1]) && (StartsConnect(es[|es| - 1]) ==> After(es[..|es| - 1]).awaiting == 0))
  }

  /** At most one connect waits, and while it does no stream is referenced. */
  predicate WaitsAlone(s: State) {
    s.awaiting <= 1 && (s.awaiting == 1 ==> s.current.None?)
  }

  lemma StepWaitsAlone(s: State, e: Event)
    requires Enabled(s, e) && WaitsAlone(s) && (StartsConnect(e) ==> s.awaiting == 0)
    ensures WaitsAlone(Step(s, e)) && !Overwrites(s, e)
  {
  }

  lemma {:induction false} WaitingHoldsNoStream(es: seq<Event>)
    requires Run(es) && OneAtATime(es)
    ensures WaitsAlone(After(es)) && Overwritten(es) == 0
  {
    if es != [] {
      WaitingHoldsNoStream(es[..|es| - 1]);
      StepWaitsAlone(After(es[..|es| - 1]), es[|es| - 1]);
    }
  }

  /** If connects do not overlap, at most one stream is open, it is the referenced one, and disposal leaves none. */
  lemma OneStreamAtATime(es: seq<Event>)
    requires Run(es) && OneAtATime(es)
    ensures |After(es).live| <= 1
    ensures After(es).live == (if After(es).current.Some? then {After(es).current.value} else {})
    ensures After(es).disposed ==> After(es).live == {}
  {
    WaitingHoldsNoStream(es);
    LiveStreams(es);
    RunIsConsistent(es);
    var s := After(es);
    if s.current.Some? {
      var rest := s.live - {s.current.value};
      assert |rest| == 0;
      assert s.live == {s.current.value} + rest;
    }
  }

  /** If connects do not overlap, the hook reports a connection only while it holds a stream. */
  lemma {:induction false} ConnectedMeansStream(es: seq<Event>)
    requires Run(es) && OneAtATime(es)
    ensures After(es).connected && !After(es).disposed ==> After(es).current.Some?
  {
    if es != [] {
      var before := es[..|es| - 1];
      ConnectedMeansStream(before);
      OneStreamAtATime(before);
    }
  }

  /** The hook reports a connection although it holds no stream. */
  predicate Misreports(s: State) {
    s.connected && s.current.None?
  }

  lemma StepMisreports(s: State, e: Event)
    requires Enabled(s, e) && !Misreports(s)
    ensures Misreports(Step(s, e)) && !Step(s, e).disposed ==> e.Open? && s.current.None?
  {
  }

  /** A live hook can come to report a connection that it does not hold if and only if it holds none and has lost one before. */
  lemma MisreportsNextIff(es: seq<Event>)
    requires Run(es) && !After(es).disposed && !Misreports(After(es))
    ensures (exists e :: Enabled(After(es), e) && !Step(After(es), e).disposed && Misreports(Step(After(es), e)))
       <==> After(es).current.None? && Overwritten(es) > 0
  {
    var s := After(es);
    LiveStreams(es);
    if s.current.None? && Overwritten(es) > 0 {
      var k :| k in s.live;
      assert Misreports(Step(s, Open(k)));
    }
    forall e | Enabled(s, e) && !Step(s, e).disposed && Misreports(Step(s, e))
      ensures s.current.None? && Overwritten(es) > 0
    {
      StepMisreports(s, e);
      assert e.stream in s.live;
    }
  }

  // Concrete runs.

  lemma Extend(es: seq<Event>, e: Event)
    requires Run(es) && Enabled(After(es), e)
    ensures Run(es + [e]) && After(es + [e]) == Step(After(es), e)
    ensures Overwritten(es + [e]) == Overwritten(es) + (if Overwrites(After(es), e) then 1 else 0)
    ensures OneAtATime(es + [e]) <==> OneAtATime(es) && (StartsConnect(e) ==> After(es).awaiting == 0)
  {
    assert (es + [e])[..|es|] == es;
  }

  /**
   A token check during the first connect makes two connects overlap: the first stream is overwritten, survives
   disposal, and had let the hook report a connection it did not hold.
   */
  lemma OverlapLeaks()
    ensures exists es :: Run(es) && After(es).connected && After(es).current.None? && !After(es).disposed
    ensures exists es :: Run(es) && After(es).disposed && After(es).live != {}
  {
    var e1 := [] + [TokenTick(true)];
    Extend([], TokenTick(true));
    var e2 := e1 + [Resume(Token)];
    Extend(e1, Resume(Token));
    var e3 := e2 + [Resume(Token)];
    Extend(e2, Resume(Token));
    var e4 := e3 + [Error(1)];
    Extend(e3, Error(1));
    var e5 := e4 + [Open(0)];
    Extend(e4, Open(0));
    assert After(e5).connected && After(e5).current.None? && !After(e5).disposed;
    var e6 := e5 + [Dispose];
    Extend(e5, Dispose);
    assert 0 in After(e6).live && After(e6).disposed;
  }

  // After disposal.

  lemma {:induction false} RunOfPrefix(es: seq<Event>, n: nat)
    requires Run(es) && n <= |es|
    ensures Run(es[..n])
  {
    if n < |es| {
      RunOfPrefix(es[..|es| - 1], n);
      assert es[..|es| - 1][..n] == es[..n];
    } else {
      assert es[..n] == es;
    }
  }

  /** From disposal on, no stream is created or closed and no timer is armed. */
  lemma {:induction false} NothingAfterDisposal(es: seq<Event>, n: nat)
    requires Run(es) && n <= |es| && Run(es[..n]) && After(es[..n]).disposed
    ensures After(es).disposed && After(es).timers == 0 && !After(es).tickArmed
    ensures After(es).created == After(es[..n]).created && After(es).live == After(es[..n]).live
  {
    if n < |es| {
      var before := es[..|es| - 1];
      assert before[..n] == es[..n];
      NothingAfterDisposal(before, n);
      RunIsConsistent(before);
    } else {
      assert es[..n] == es;
      RunIsConsistent(es);
    }
  }

  lemma StepKeepsLeak(s: State, e: Event, k: nat)
    requires Consistent(s) && Enabled(s, e) && k in s.live && s.current != Some(k)
    ensures k in Step(s, e).live && Step(s, e).current != Some(k)
  {
  }

  /** The hook never closes an overwritten stream, however the run goes on. */
  lemma {:induction false} LeakIsForever(es: seq<Event>, n: nat, k: nat)
    requires Run(es) && n <= |es| && Run(es[..n])
    requires k in After(es[..n]).live && After(es[..n]).current != Some(k)
    ensures k in After(es).live && After(es).current != Some(k)
  {
    if n < |es| {
      var before := es[..|es| - 1];
      assert before[..n] == es[..n];
      LeakIsForever(before, n, k);
      RunIsConsistent(before);
      StepKeepsLeak(After(before), es[|es| - 1], k);
    } else {
      assert es[..n] == es;
    }
  }

  // Backoff.

  function Pow2(k: nat): nat { if k == 0 then 1 else 2 * Pow2(k - 1) }

  /** How many retries have fired since a stream last opened. */
  ghost function Retries(es: seq<Event>): nat {
    if es == [] then 0
    else match es[|es| - 1]
      case Open(_) => 0
      case RetryFires => Retries(es[..|es| - 1]) + 1
      case _ => Retries(es[..|es| - 1])
  }

  function Capped(k: nat): int {
    Min(1000 * Pow2(k), 30_000)
  }

  lemma CappedDoubles(k: nat)
    ensures Min(Capped(k) * 2, MAX_RETRY_DELAY_MS) == Capped(k + 1) && Capped(0) == INITIAL_RETRY_DELAY_MS
  {
  }

  lemma StepDelay(s: State, e: Event)
    requires Enabled(s, e)
    ensures Step(s, e).retryDelay ==
      if e.Open? then INITIAL_RETRY_DELAY_MS
      else if e.RetryFires? then Min(s.retryDelay * 2, MAX_RETRY_DELAY_MS)
      else s.retryDelay
  {
  }

  /** The delay doubles with every retry that fires, up to the cap, and any opened stream resets it. */
  lemma {:induction false} BackoffDoubles(es: seq<Event>)
    requires Run(es)
    ensures After(es).retryDelay == Capped(Retries(es))
  {
    CappedDoubles(0);
    if es != [] {
      var before, e := es[..|es| - 1], es[|es| - 1];
      BackoffDoubles(before);
      StepDelay(After(before), e);
      CappedDoubles(Retries(before));
    }
  }

  lemma StepArms(s: State, e: Event)
    requires Enabled(s, e)
    ensures Step(s, e).timers > s.timers ==> Step(s, e).armedDelay == Step(s, e).retryDelay
  {
  }

  /** At most one retry is ever pending, and it was armed with the current backoff delay. */
  lemma OneRetryWithBackoff(es: seq<Event>)
    requires Run(es)
    ensures After(es).timers <= 1
    ensures es != [] && After(es).timers > After(es[..|es| - 1]).timers
            ==> After(es).armedDelay == Capped(Retries(es))
  {
    RunIsConsistent(es);
    BackoffDoubles(es);
    if es != [] { StepArms(After(es[..|es| - 1]), es[|es| - 1]); }
  }

  // A hook that has no stream is either connecting, waiting for a retry, or was refused a token.

  ghost function LastResume(es: seq<Event>): Option<TokenResult> {
    if es == [] then None
    else match es[|es| - 1]
      case Resume(r) => Some(r)
      case _ => LastResume(es[..|es| - 1])
  }

  /** A dropped or failed stream is always retried; only a connect that got no token may leave the hook idle. */
  lemma {:induction false} IdleOnlyWithoutToken(es: seq<Event>)
    requires Run(es)
    requires !After(es).disposed && After(es).current.None? && After(es).awaiting == 0 && After(es).timers == 0
    ensures LastResume(es) == Some(NoToken)
  {
    if es != [] {
      var before := es[..|es| - 1];
      RunIsConsistent(before);
      RunIsConsistent(es);
      var s := After(before);
      if !s.disposed && s.current.None? && s.awaiting == 0 && s.timers == 0 {
        IdleOnlyWithoutToken(before);
      }
    }
  }

  // Expired tokens.

  /** An expired token, whenever it is noticed, closes the stream, reports no connection and awaits a fresh token. */
  lemma ExpiryEndsTheStream(es: seq<Event>)
    requires Run(es + [TokenTick(true)])
    ensures Run(es)
    ensures var before, s := After(es), After(es + [TokenTick(true)]);
            && s.current.None? && !s.connected && s.awaiting == before.awaiting + 1
            && s.live == before.live - (if before.current.Some? then {before.current.value} else {})
  {
    assert (es + [TokenTick(true)])[..|es|] == es;
  }

  /** How many streams had been created when a token was last found to have expired. */
  ghost function CreatedAtExpiry(es: seq<Event>): nat
    requires Run(es)
  {
    if es == [] then 0
    else if es[|es| - 1] == TokenTick(true) then After(es[..|es| - 1]).created
    else CreatedAtExpiry(es[..|es| - 1])
  }

  /** So the stream that a hook references was never created before a token was found to have expired. */
  lemma {:induction false} CurrentIsFresh(es: seq<Event>)
    requires Run(es)
    ensures CreatedAtExpiry(es) <= After(es).created
    ensures After(es).current.Some? ==> CreatedAtExpiry(es) <= After(es).current.value < After(es).created
  {
    if es != [] {
      var before := es[..|es| - 1];
      CurrentIsFresh(before);
      RunIsConsistent(before);
    }
  }

  // Balances, counted by the events alone.

  /** How many events of the run are of that kind. */
  ghost function CountOf(es: seq<Event>, kind: set<Event>): nat {
    if es == [] then 0 else CountOf(es[..|es| - 1], kind) + if es[|es| - 1] in kind then 1 else 0
  }

  /** Every connect awaits one token: the first one, one for each retry that fired and one for each expired token. */
  lemma {:induction false} EveryConnectAwaitsAToken(es: seq<Event>)
    requires Run(es)
    ensures After(es).awaiting + CountOf(es, {Resume(Token), Resume(NoToken), Resume(Fails)})
         == 1 + CountOf(es, {RetryFires, TokenTick(true)})
  {
    if es != [] { EveryConnectAwaitsAToken(es[..|es| - 1]); }
  }

  /** How many tokens arrived before the hook was disposed. */
  ghost function TokensInTime(es: seq<Event>): nat {
    if es == [] then 0
    else TokensInTime(es[..|es| - 1]) + if es[|es| - 1] == Resume(Token) && Dispose !in es then 1 else 0
  }

  /** How many awaits failed, or referenced streams broke off, while no retry was pending and the hook was not disposed. */
  ghost function Failures(es: seq<Event>): nat
    requires Run(es)
  {
    if es == [] then 0 else
      var before, e := es[..|es| - 1], es[|es| - 1];
      Failures(before) + if (e == Resume(Fails) || (e.Error? && After(before).current == Some(e.stream)))
                            && After(before).timers == 0 && Dispose !in before then 1 else 0
  }

  lemma LastIn(es: seq<Event>, e: Event)
    requires es != []
    ensures e in es <==> e in es[..|es| - 1] || e == es[|es| - 1]
  {
    assert es == es[..|es| - 1] + [es[|es| - 1]];
  }

  lemma StepDisposes(s: State, e: Event)
    requires Enabled(s, e)
    ensures Step(s, e).disposed <==> s.disposed || e == Dispose
  {
  }

  lemma {:induction false} DisposedIff(es: seq<Event>)
    requires Run(es)
    ensures After(es).disposed <==> Dispose in es
  {
    if es != [] {
      DisposedIff(es[..|es| - 1]);
      StepDisposes(After(es[..|es| - 1]), es[|es| - 1]);
      LastIn(es, Dispose);
    }
  }

  /** A stream is created for each token that arrives in time, and for nothing else. */
  lemma {:induction false} StreamsAreTokens(es: seq<Event>)
    requires Run(es)
    ensures After(es).created == TokensInTime(es)
  {
    if es != [] {
      StreamsAreTokens(es[..|es| - 1]);
      DisposedIff(es[..|es| - 1]);
      LastIn(es, Dispose);
    }
  }

  /** Up to disposal a retry is armed for each failure, and for nothing else, not even a refused token. */
  lemma {:induction false} RetriesAreFailures(es: seq<Event>)
    requires Run(es) && Dispose !in es
    ensures After(es).timers + CountOf(es, {RetryFires}) == Failures(es)
  {
    if es != [] {
      var before := es[..|es| - 1];
      LastIn(es, Dispose);
      RetriesAreFailures(before);
      RunIsConsistent(before);
      DisposedIff(before);
    }
  }

  /** The last event that reports or withdraws a connection is the opening of a stream. */
  ghost predicate OpenedLast(es: seq<Event>)
    requires Run(es)
  {
    es != [] &&
    (var before, e := es[..|es| - 1], es[|es| - 1];
     e.Open? || (OpenedLast(before) && e != RetryFires && e != TokenTick(true)
                 && (e.Error? ==> Dispose in before || After(before).current != Some(e.stream))))
  }

  /** A connection is reported from the opening of a stream to the next connect or the error of the referenced stream. */
  lemma {:induction false} ConnectedIffOpened(es: seq<Event>)
    requires Run(es)
    ensures After(es).connected <==> OpenedLast(es)
  {
    if es != [] {
      ConnectedIffOpened(es[..|es| - 1]);
      DisposedIff(es[..|es| - 1]);
    }
  }
}
