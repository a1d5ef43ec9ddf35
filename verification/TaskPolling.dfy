/**
 Polling of a remote task: an interval whose polls may overlap in flight, a poll limit, and sessions that end by
 an outcome or by the user. Each step runs from one suspension point to the next.
 */
module TaskPolling {

  import opened Ecma

  datatype Status = Success | Failure | Pending | Throws
  datatype Outcome = Succeeded | Failed | TimedOut

  /** `interval` holds the session whose poll the interval runs, `inFlight` the session of every unanswered request. */
  datatype State = State(
    interval: Option<nat>,
    polling: bool,
    count: nat,
    maxReached: bool,
    session: nat,
    inFlight: multiset<nat>)

  datatype Event = Start | Tick | Respond(session: nat, status: Status) | Stop(reset: bool)

  /** What the user of the hook is told: how a session ended. */
  datatype Report = Report(session: nat, outcome: Outcome)

  const INIT: State := State(None, false, 0, false, 0, multiset{})

  // The steps as functions on states; `max` is the poll limit and 0 means none.

  function Stopped(s: State): State {
    s.(interval := None, polling := false, count := 0)
  }

  predicate LimitReached(s: State, max: nat) {
    max > 0 && s.count >= max
  }

  function Polled(s: State, max: nat, session: nat): State {
    if LimitReached(s, max) then Stopped(s).(maxReached := true)
    else s.(count := s.count + 1, inFlight := s.inFlight + multiset{session})
  }

  function Started(s: State, max: nat): State {
    if s.polling then s else
      var s := s.(polling := true, count := 0, maxReached := false, session := s.session + 1);
      Polled(s, max, s.session).(interval := Some(s.session))
  }

  function Responded(s: State, session: nat, status: Status): State {
    var s := s.(inFlight := s.inFlight - multiset{session});
    if status == Pending then s else Stopped(s)
  }

  predicate Enabled(s: State, e: Event) {
    match e
    case Start => true
    case Tick => s.interval.Some?
    case Respond(session, _) => session in s.inFlight
    case Stop(_) => true
  }

  function Step(s: State, max: nat, e: Event): State
    requires Enabled(s, e)
  {
    match e
    case Start => Started(s, max)
    case Tick => Polled(s, max, s.interval.value)
    case Respond(session, status) => Responded(s, session, status)
    case Stop(reset) => Stopped(s).(maxReached := s.maxReached && !reset)
  }

  /** The outcome that a step reports, and for which session. */
  function Reported(s: State, max: nat, e: Event): Option<Report>
    requires Enabled(s, e)
  {
    match e
    case Tick => if LimitReached(s, max) then Some(Report(s.interval.value, TimedOut)) else None
    case Respond(session, Success) => Some(Report(session, Succeeded))
    case Respond(session, Failure) => Some(Report(session, Failed))
    case Respond(session, Throws) => Some(Report(session, Failed))
    case _ => None
  }

  /** The refs of the hook and the requests it has in flight. */
  class TaskHook {
    const max: nat
    var interval: Option<nat>
    var polling: bool
    var count: nat
    var maxReached: bool
    var session: nat
    var inFlight: multiset<nat>

    function View(): State
      reads this
    {
      State(interval, polling, count, maxReached, session, inFlight)
    }

    constructor (max: nat)
      ensures this.max == max && View() == INIT
    {
      this.max := max;
      interval, polling, count, maxReached, session, inFlight := None, false, 0, false, 0, multiset{};
    }

    method StopPolling()
      modifies this
      ensures View() == Stopped(old(View()))
    {
      if interval.Some? { interval := None; }
      polling := false;
      count := 0;
    }

    /** One poll up to its request. */
    method Poll(id: nat) returns (report: Option<Report>)
      modifies this
      ensures View() == Polled(old(View()), max, id)
      ensures report == if LimitReached(old(View()), max) then Some(Report(id, TimedOut)) else None
    {
      if max > 0 && count >= max {
        StopPolling();
        maxReached := true;
        return Some(Report(id, TimedOut));
      }
      count := count + 1;
      inFlight := inFlight + multiset{id};
      return None;
    }

    method StartPolling() returns (report: Option<Report>)
      modifies this
      ensures View() == Step(old(View()), max, Start) && report == Reported(old(View()), max, Start)
    {
      if polling { return None; }
      polling := true;
      count := 0;
      maxReached := false;
      session := session + 1;
      report := Poll(session);
      interval := Some(session);
    }

    method OnTick() returns (report: Option<Report>)
      requires Enabled(View(), Tick)
      modifies this
      ensures View() == Step(old(View()), max, Tick) && report == Reported(old(View()), max, Tick)
    {
      report := Poll(interval.value);
    }

    /** The rest of a poll, once its request of session `id` is answered. */
    method OnResponse(id: nat, status: Status) returns (report: Option<Report>)
      requires Enabled(View(), Respond(id, status))
      modifies this
      ensures View() == Step(old(View()), max, Respond(id, status))
      ensures report == Reported(old(View()), max, Respond(id, status))
    {
      inFlight := inFlight - multiset{id};
      match status
      case Success =>
        StopPolling();
        report := Some(Report(id, Succeeded));
      case Pending =>
        report := None;
      case _ =>
        StopPolling();
        report := Some(Report(id, Failed));
    }

    /** The user stops the hook or the component unmounts; a reset also clears what is shown. */
    method OnStop(reset: bool)
      modifies this
      ensures View() == Step(old(View()), max, Stop(reset))
    {
      StopPolling();
      if reset { maxReached := false; }
    }
  }

  // Runs.

  ghost predicate Run(max: nat, es: seq<Event>)
    decreases |es|, 0
  {
    es == [] || (Run(max, es[..|es| - 1]) && Enabled(After(max, es[..|es| - 1]), es[|es| - 1]))
  }

  ghost function After(max: nat, es: seq<Event>): State
    requires Run(max, es)
    decreases |es|, 1
  {
    if es == [] then INIT else Step(After(max, es[..|es| - 1]), max, es[|es| - 1])
  }

  /** What one session did during a run: requests issued, outcomes and among them timeouts reported, ticks, stops by the user. */
  datatype Tally = Tally(requests: nat, outcomes: nat, timeouts: nat, ticks: nat, stops: nat)

  function One(b: bool): nat { if b then 1 else 0 }

  ghost function Tallied(s: State, max: nat, e: Event, session: nat, t: Tally): Tally
    requires Enabled(s, e)
  {
    var report := Reported(s, max, e);
    Tally(
      t.requests + One(Step(s, max, e).inFlight[session] > s.inFlight[session]),
      t.outcomes + One(report.Some? && report.value.session == session),
      t.timeouts + One(report == Some(Report(session, TimedOut))),
      t.ticks + One(e == Tick && s.interval == Some(session)),
      t.stops + One(e.Stop? && s.interval == Some(session)))
  }

  ghost function TallyOf(max: nat, es: seq<Event>, session: nat): Tally
    requires Run(max, es)
  {
    if es == [] then Tally(0, 0, 0, 0, 0)
    else Tallied(After(max, es[..|es| - 1]), max, es[|es| - 1], session, TallyOf(max, es[..|es| - 1], session))
  }

  /** The state is coherent: the interval is set exactly while the hook polls, and it serves the newest session. */
  ghost predicate Coherent(s: State) {
    && (s.interval.Some? <==> s.polling)
    && (s.polling ==> s.interval == Some(s.session) && s.session > 0 && s.count > 0)
  }

  /** The books of one session agree with the state. */
  ghost predicate Balanced(s: State, max: nat, session: nat, t: Tally) {
    && Coherent(s)
    && (max > 0 ==> t.requests <= max)
    && (s.interval == Some(session) ==> t.requests == s.count && t.ticks == s.count - 1 && t.timeouts == 0 && t.stops == 0)
    && (session > s.session ==> t == Tally(0, 0, 0, 0, 0) && s.inFlight[session] == 0)
    && (session == s.session && s.maxReached ==> t.timeouts == 1)
    && t.timeouts <= 1 && (max == 0 ==> t.timeouts == 0)
    && t.ticks <= (if t.requests > 0 then t.requests - 1 else 0) + t.timeouts
    && t.outcomes + s.inFlight[session] <= t.requests + t.timeouts
  }

  lemma PollKeepsBalance(s: State, max: nat, e: Event, session: nat, t: Tally)
    requires Balanced(s, max, session, t) && Enabled(s, e) && (e == Start || e == Tick)
    ensures Balanced(Step(s, max, e), max, session, Tallied(s, max, e, session, t))
  {
  }

  lemma StepKeepsBalance(s: State, max: nat, e: Event, session: nat, t: Tally)
    requires Balanced(s, max, session, t) && Enabled(s, e)
    ensures Balanced(Step(s, max, e), max, session, Tallied(s, max, e, session, t))
  {
    if e == Start || e == Tick { PollKeepsBalance(s, max, e, session, t); }
  }

  lemma {:induction false} RunIsBalanced(max: nat, es: seq<Event>, session: nat)
    requires Run(max, es)
    ensures Balanced(After(max, es), max, session, TallyOf(max, es, session))
  {
    if es != [] {
      RunIsBalanced(max, es[..|es| - 1], session);
      StepKeepsBalance(After(max, es[..|es| - 1]), max, es[|es| - 1], session, TallyOf(max, es[..|es| - 1], session));
    }
  }

  /**
   Whatever the order of the responses, a session issues at most `max` requests, ends within `max` ticks of its
   interval, and the interval is set exactly while the hook polls.
   */
  lemma SessionsAreBounded(max: nat, es: seq<Event>, session: nat)
    requires Run(max, es) && max > 0
    ensures TallyOf(max, es, session).requests <= max
    ensures TallyOf(max, es, session).ticks <= max
    ensures TallyOf(max, es, session).ticks == max ==> After(max, es).interval != Some(session)
    ensures After(max, es).interval.Some? <==> After(max, es).polling
  {
    RunIsBalanced(max, es, session);
  }

  /** The hook shows that the limit was reached only if its newest session timed out. */
  lemma LimitShownOnlyAfterTimeout(max: nat, es: seq<Event>)
    requires Run(max, es) && After(max, es).maxReached
    ensures TallyOf(max, es, After(max, es).session).timeouts == 1
  {
    RunIsBalanced(max, es, After(max, es).session);
  }

  // Runs in which every request settles before the next poll.

  predicate StartsPoll(s: State, e: Event) {
    e == Tick || (e == Start && !s.polling)
  }

  ghost predicate Sequential(max: nat, es: seq<Event>)
    requires Run(max, es)
  {
    es == [] ||
    (var before := es[..|es| - 1];
     Sequential(max, before) && (StartsPoll(After(max, before), es[|es| - 1]) ==> After(max, before).inFlight == multiset{}))
  }

  ghost predicate AtMostInFlight(s: State, k: nat) {
    s.inFlight == multiset{} || s.inFlight == multiset{k}
  }

  /** One session of a sequential run: it reports at most once, last of all, and reports unless the user stops it. */
  ghost predicate Orderly(s: State, session: nat, t: Tally) {
    && Coherent(s)
    && |s.inFlight| <= 1 && (s.polling ==> AtMostInFlight(s, s.session))
    && t.outcomes <= 1
    && (t.outcomes == 1 ==> s.inFlight[session] == 0 && s.interval != Some(session) && session <= s.session)
    && (0 < session <= s.session && s.interval != Some(session) && t.stops == 0 ==> t.outcomes == 1)
    && (session > s.session ==> s.inFlight[session] == 0)
  }

  lemma SingleInFlight(s: State, k: nat)
    requires |s.inFlight| <= 1 && k in s.inFlight
    ensures s.inFlight == multiset{k} && s.inFlight - multiset{k} == multiset{}
  {
    var rest := s.inFlight - multiset{k};
    assert s.inFlight == rest + multiset{k};
    assert |rest| == 0;
  }

  lemma ResponseKeepsOrder(s: State, max: nat, k: nat, status: Status, session: nat, t: Tally)
    requires Orderly(s, session, t) && k in s.inFlight
    ensures Orderly(Step(s, max, Respond(k, status)), session, Tallied(s, max, Respond(k, status), session, t))
  {
    SingleInFlight(s, k);
    assert s.polling ==> k == s.session;
  }

  lemma PollKeepsOrder(s: State, max: nat, e: Event, session: nat, t: Tally)
    requires Orderly(s, session, t) && Enabled(s, e) && StartsPoll(s, e) && s.inFlight == multiset{}
    ensures Orderly(Step(s, max, e), session, Tallied(s, max, e, session, t))
  {
    var s' := Step(s, max, e);
    assert s'.inFlight == multiset{} || s'.inFlight == multiset{s'.session};
  }

  lemma StepKeepsOrder(s: State, max: nat, e: Event, session: nat, t: Tally)
    requires Orderly(s, session, t) && Enabled(s, e)
    requires StartsPoll(s, e) ==> s.inFlight == multiset{}
    ensures Orderly(Step(s, max, e), session, Tallied(s, max, e, session, t))
  {
    if StartsPoll(s, e) {
      PollKeepsOrder(s, max, e, session, t);
    } else if e.Respond? {
      ResponseKeepsOrder(s, max, e.session, e.status, session, t);
    }
  }

  lemma {:induction false} RunIsOrderly(max: nat, es: seq<Event>, session: nat)
    requires Run(max, es) && Sequential(max, es)
    ensures Orderly(After(max, es), session, TallyOf(max, es, session))
  {
    if es != [] {
      var before := es[..|es| - 1];
      RunIsOrderly(max, before, session);
      StepKeepsOrder(After(max, before), max, es[|es| - 1], session, TallyOf(max, before, session));
    }
  }

  /** A sequential session reports at most one outcome; once over, it reported exactly one unless the user stopped it. */
  lemma OneOutcomePerSession(max: nat, es: seq<Event>, session: nat)
    requires Run(max, es) && Sequential(max, es)
    ensures TallyOf(max, es, session).outcomes <= 1
    ensures 0 < session <= After(max, es).session && After(max, es).interval != Some(session) && TallyOf(max, es, session).stops == 0
            ==> TallyOf(max, es, session).outcomes == 1
  {
    RunIsOrderly(max, es, session);
  }

  lemma StepAfterOutcome(s: State, max: nat, e: Event, session: nat, t: Tally)
    requires Orderly(s, session, t) && Enabled(s, e) && t.outcomes == 1
    ensures Tallied(s, max, e, session, t) == t
  {
  }

  /** After its outcome a sequential session issues no request, gets no tick and reports nothing. */
  lemma {:induction false} NothingFollowsTheOutcome(max: nat, es: seq<Event>, n: nat, session: nat)
    requires Run(max, es) && Sequential(max, es) && n <= |es| && Run(max, es[..n])
    requires TallyOf(max, es[..n], session).outcomes == 1
    ensures TallyOf(max, es, session) == TallyOf(max, es[..n], session)
  {
    if n == |es| {
      assert es[..n] == es;
    } else {
      var before := es[..|es| - 1];
      assert before[..n] == es[..n];
      NothingFollowsTheOutcome(max, before, n, session);
      RunIsOrderly(max, before, session);
      StepAfterOutcome(After(max, before), max, es[|es| - 1], session, TallyOf(max, before, session));
    }
  }

  // Without that assumption.

  lemma Extend(max: nat, es: seq<Event>, e: Event)
    requires Run(max, es) && Enabled(After(max, es), e)
    ensures Run(max, es + [e]) && After(max, es + [e]) == Step(After(max, es), max, e)
    ensures forall session :: TallyOf(max, es + [e], session) == Tallied(After(max, es), max, e, session, TallyOf(max, es, session))
  {
    assert (es + [e])[..|es|] == es;
  }

  /** The session began once and its interval is gone, for good. */
  predicate Over(s: State, session: nat) {
    session <= s.session && s.interval != Some(session)
  }

  lemma StepStaysOver(s: State, max: nat, e: Event, session: nat)
    requires Coherent(s) && Enabled(s, e) && Over(s, session)
    ensures Over(Step(s, max, e), session) && Step(s, max, e).inFlight[session] <= s.inFlight[session]
  {
  }

  lemma StepReportsNothing(s: State, max: nat, e: Event, session: nat, t: Tally)
    requires Coherent(s) && Enabled(s, e) && Over(s, session) && s.inFlight[session] == 0
    ensures Tallied(s, max, e, session, t).outcomes == t.outcomes
  {
  }

  lemma StepOutcomeEnds(s: State, max: nat, e: Event, session: nat, t: Tally)
    requires Coherent(s) && Enabled(s, e) && (session in s.inFlight ==> session <= s.session)
    requires Tallied(s, max, e, session, t).outcomes > t.outcomes
    ensures Over(Step(s, max, e), session)
  {
  }

  lemma {:induction false} OutcomeMeansOver(max: nat, es: seq<Event>, session: nat)
    requires Run(max, es) && TallyOf(max, es, session).outcomes > 0
    ensures Over(After(max, es), session)
    decreases |es|
  {
    var before, e := es[..|es| - 1], es[|es| - 1];
    RunIsBalanced(max, before, session);
    if TallyOf(max, before, session).outcomes > 0 {
      OutcomeMeansOver(max, before, session);
      StepStaysOver(After(max, before), max, e, session);
    } else {
      StepOutcomeEnds(After(max, before), max, e, session, TallyOf(max, before, session));
    }
  }

  /** From the end of the prefix on, the session reports nothing. */
  lemma {:induction false} SilentFrom(max: nat, es: seq<Event>, n: nat, session: nat)
    requires Run(max, es) && n <= |es| && Run(max, es[..n])
    requires Over(After(max, es[..n]), session) && After(max, es[..n]).inFlight[session] == 0
    ensures Over(After(max, es), session) && After(max, es).inFlight[session] == 0
    ensures TallyOf(max, es, session).outcomes == TallyOf(max, es[..n], session).outcomes
  {
    if n == |es| {
      assert es[..n] == es;
    } else {
      var before := es[..|es| - 1];
      assert before[..n] == es[..n];
      SilentFrom(max, before, n, session);
      SilentStep(max, before, es[|es| - 1], session);
    }
  }

  lemma NoMoreOutcomes(max: nat, es: seq<Event>, more: seq<Event>, session: nat)
    requires Run(max, es + more) && Run(max, es)
    requires Over(After(max, es), session) && After(max, es).inFlight[session] == 0
    ensures TallyOf(max, es + more, session).outcomes == TallyOf(max, es, session).outcomes
  {
    assert (es + more)[..|es|] == es;
    SilentFrom(max, es + more, |es|, session);
  }

  lemma SilentStep(max: nat, es: seq<Event>, e: Event, session: nat)
    requires Run(max, es) && Enabled(After(max, es), e) && Over(After(max, es), session) && After(max, es).inFlight[session] == 0
    ensures Over(Step(After(max, es), max, e), session) && Step(After(max, es), max, e).inFlight[session] == 0
    ensures Tallied(After(max, es), max, e, session, TallyOf(max, es, session)).outcomes == TallyOf(max, es, session).outcomes
  {
    RunIsBalanced(max, es, session);
    StepStaysOver(After(max, es), max, e, session);
    StepReportsNothing(After(max, es), max, e, session, TallyOf(max, es, session));
  }

  /** The run can go on so that the session reports more. */
  ghost predicate CanReportMore(max: nat, es: seq<Event>, session: nat)
    requires Run(max, es)
  {
    exists more :: Run(max, es + more) && TallyOf(max, es + more, session).outcomes > TallyOf(max, es, session).outcomes
  }

  lemma InFlightReportsMore(max: nat, es: seq<Event>, session: nat)
    requires Run(max, es) && session in After(max, es).inFlight
    ensures CanReportMore(max, es, session)
  {
    Extend(max, es, Respond(session, Success));
    var more := [Respond(session, Success)];
    assert Run(max, es + more) && TallyOf(max, es + more, session).outcomes > TallyOf(max, es, session).outcomes;
  }

  /** A session that has reported an outcome can report another one if and only if it has a request in flight. */
  lemma OutcomeRepeatsIff(max: nat, es: seq<Event>, session: nat)
    requires Run(max, es) && TallyOf(max, es, session).outcomes > 0
    ensures CanReportMore(max, es, session) <==> session in After(max, es).inFlight
  {
    if session in After(max, es).inFlight { InFlightReportsMore(max, es, session); }
    if CanReportMore(max, es, session) {
      var more :| Run(max, es + more) && TallyOf(max, es + more, session).outcomes > TallyOf(max, es, session).outcomes;
      OutcomeMeansOver(max, es, session);
      if session !in After(max, es).inFlight { NoMoreOutcomes(max, es, more, session); }
    }
  }

  /** So the outcome of a sequential session is final in every continuation, be it sequential or not. */
  lemma SequentialOutcomeIsFinal(max: nat, es: seq<Event>, more: seq<Event>, session: nat)
    requires Run(max, es) && Sequential(max, es) && TallyOf(max, es, session).outcomes > 0 && Run(max, es + more)
    ensures TallyOf(max, es + more, session).outcomes == 1
  {
    OneOutcomePerSession(max, es, session);
    RunIsOrderly(max, es, session);
    OutcomeMeansOver(max, es, session);
    NoMoreOutcomes(max, es, more, session);
  }

  /** Two polls in flight can both succeed, so a session may report twice. */
  lemma OverlapReportsTwice()
    ensures exists es, session :: Run(0, es) && TallyOf(0, es, session).outcomes == 2
  {
    var e1 := [] + [Start];
    Extend(0, [], Start);
    var e2 := e1 + [Tick];
    Extend(0, e1, Tick);
    var e3 := e2 + [Respond(1, Success)];
    Extend(0, e2, Respond(1, Success));
    var e4 := e3 + [Respond(1, Success)];
    Extend(0, e3, Respond(1, Success));
    assert TallyOf(0, e4, 1).outcomes == 2;
  }

  /** The step ends the running session, which does not report it. */
  predicate EndsSilently(s: State, max: nat, e: Event)
    requires Enabled(s, e)
  {
    && s.polling && Step(s, max, e).interval != s.interval
    && !(Reported(s, max, e).Some? && Reported(s, max, e).value.session == s.session)
  }

  lemma StepEndsSilently(s: State, max: nat, e: Event)
    requires Coherent(s) && Enabled(s, e) && !e.Stop? && EndsSilently(s, max, e)
    ensures e.Respond? && e.session in s.inFlight && e.session != s.session
  {
  }

  /** A running session can end without a report, and without the user, if and only if another session has a request in flight. */
  lemma EndsSilentlyIff(max: nat, es: seq<Event>)
    requires Run(max, es) && After(max, es).polling
    ensures (exists e :: Enabled(After(max, es), e) && !e.Stop? && EndsSilently(After(max, es), max, e))
       <==> exists j :: j in After(max, es).inFlight && j != After(max, es).session
  {
    var s := After(max, es);
    RunIsBalanced(max, es, s.session);
    forall e | Enabled(s, e) && !e.Stop? && EndsSilently(s, max, e)
      ensures exists j :: j in s.inFlight && j != s.session
    {
      StepEndsSilently(s, max, e);
      assert e.session in s.inFlight;
    }
    if j :| j in s.inFlight && j != s.session {
      assert EndsSilently(s, max, Respond(j, Success));
    }
  }

  /** Every session of the run starts when no request is in flight. */
  ghost predicate StartsClean(max: nat, es: seq<Event>)
    requires Run(max, es)
  {
    es == [] ||
    (var before := es[..|es| - 1];
     StartsClean(max, before) && (es[|es| - 1] == Start && !After(max, before).polling ==> After(max, before).inFlight == multiset{}))
  }

  /** What such runs keep: only the running session has requests in flight, and one that is over reported or was stopped. */
  ghost predicate Accounted(s: State, session: nat, t: Tally) {
    && Coherent(s)
    && (s.polling ==> forall j :: j in s.inFlight ==> j == s.session)
    && (0 < session <= s.session && s.interval != Some(session) && t.stops == 0 ==> t.outcomes > 0)
  }

  lemma PollKeepsAccount(s: State, max: nat, e: Event, session: nat, t: Tally)
    requires Accounted(s, session, t) && Enabled(s, e) && (e == Start || e == Tick)
    requires e == Start && !s.polling ==> s.inFlight == multiset{}
    ensures Accounted(Step(s, max, e), session, Tallied(s, max, e, session, t))
  {
  }

  lemma StepKeepsAccount(s: State, max: nat, e: Event, session: nat, t: Tally)
    requires Accounted(s, session, t) && Enabled(s, e) && (e == Start && !s.polling ==> s.inFlight == multiset{})
    ensures Accounted(Step(s, max, e), session, Tallied(s, max, e, session, t))
  {
    if e == Start || e == Tick { PollKeepsAccount(s, max, e, session, t); }
  }

  /** If no session starts while a request of an earlier one is in flight, every session that is over reported or was stopped. */
  lemma {:induction false} CleanSessionsReport(max: nat, es: seq<Event>, session: nat)
    requires Run(max, es) && StartsClean(max, es)
    ensures Accounted(After(max, es), session, TallyOf(max, es, session))
  {
    if es != [] {
      var before := es[..|es| - 1];
      CleanSessionsReport(max, before, session);
      StepKeepsAccount(After(max, before), max, es[|es| - 1], session, TallyOf(max, before, session));
    }
  }

  /** A late answer to a stopped session ends the session started after it, which then never reports. */
  lemma LateAnswerEndsNextSession()
    ensures exists es :: Run(0, es) && After(0, es).session == 2 && !After(0, es).polling
                         && TallyOf(0, es, 2).stops == 0 && TallyOf(0, es, 2).outcomes == 0
  {
    var e1 := [] + [Start];
    Extend(0, [], Start);
    var e2 := e1 + [Stop(false)];
    Extend(0, e1, Stop(false));
    var e3 := e2 + [Start];
    Extend(0, e2, Start);
    var e4 := e3 + [Respond(1, Success)];
    Extend(0, e3, Respond(1, Success));
    assert TallyOf(0, e4, 2).outcomes == 0;
  }

  // Which outcome is reported, counted by the events alone.

  /** How many answers of the session have that status. */
  function Answers(es: seq<Event>, session: nat, status: Status): nat {
    if es == [] then 0
    else Answers(es[..|es| - 1], session, status) + One(es[|es| - 1] == Respond(session, status))
  }

  /** How often the session was reported to have ended that way. */
  ghost function Told(max: nat, es: seq<Event>, session: nat, outcome: Outcome): nat
    requires Run(max, es)
  {
    if es == [] then 0 else
      var before, e := es[..|es| - 1], es[|es| - 1];
      Told(max, before, session, outcome) + One(Reported(After(max, before), max, e) == Some(Report(session, outcome)))
  }

  lemma StepTells(s: State, max: nat, e: Event, session: nat, t: Tally)
    requires Enabled(s, e)
    ensures var report := Reported(s, max, e);
            && (report == Some(Report(session, Succeeded)) <==> e == Respond(session, Success))
            && (report == Some(Report(session, Failed)) <==> e == Respond(session, Failure) || e == Respond(session, Throws))
    ensures var report, next := Reported(s, max, e), Tallied(s, max, e, session, t);
            && next.timeouts == t.timeouts + One(report == Some(Report(session, TimedOut)))
            && next.outcomes == t.outcomes + One(report == Some(Report(session, Succeeded)))
                              + One(report == Some(Report(session, Failed))) + One(report == Some(Report(session, TimedOut)))
  {
  }

  /**
   In every run a session is reported to have succeeded once for each of its answers that says so, and to have failed
   once for each that says so or throws; with its timeouts these are all its outcomes.
   */
  lemma {:induction false} OutcomesAreAnswers(max: nat, es: seq<Event>, session: nat)
    requires Run(max, es)
    ensures Told(max, es, session, Succeeded) == Answers(es, session, Success)
    ensures Told(max, es, session, Failed) == Answers(es, session, Failure) + Answers(es, session, Throws)
    ensures Told(max, es, session, TimedOut) == TallyOf(max, es, session).timeouts
    ensures TallyOf(max, es, session).outcomes == Told(max, es, session, Succeeded) + Told(max, es, session, Failed)
                                                + Told(max, es, session, TimedOut)
  {
    if es != [] {
      var before := es[..|es| - 1];
      OutcomesAreAnswers(max, before, session);
      StepTells(After(max, before), max, es[|es| - 1], session, TallyOf(max, before, session));
    }
  }

  /** How often the interval fired for the session, the one with which it ends included. */
  ghost predicate SpendsItsLimit(max: nat, session: nat, t: Tally) {
    t.timeouts == 1 ==> max > 0 && t.requests == max && t.ticks == max
  }

  lemma StepSpendsLimit(s: State, max: nat, e: Event, session: nat, t: Tally)
    requires Balanced(s, max, session, t) && Enabled(s, e) && SpendsItsLimit(max, session, t)
    ensures SpendsItsLimit(max, session, Tallied(s, max, e, session, t))
  {
    if t.timeouts == 0 { StepKeepsBalance(s, max, e, session, t); }
  }

  /** A session times out exactly when its interval fires after `max` requests, and not earlier. */
  lemma {:induction false} TimeoutSpendsTheLimit(max: nat, es: seq<Event>, session: nat)
    requires Run(max, es)
    ensures SpendsItsLimit(max, session, TallyOf(max, es, session))
  {
    if es != [] {
      var before := es[..|es| - 1];
      TimeoutSpendsTheLimit(max, before, session);
      RunIsBalanced(max, before, session);
      StepSpendsLimit(After(max, before), max, es[|es| - 1], session, TallyOf(max, before, session));
    }
  }

  /** The user has reset the hook since its newest session began. */
  ghost predicate ResetSince(max: nat, es: seq<Event>)
    requires Run(max, es)
  {
    es != [] &&
    (var before, e := es[..|es| - 1], es[|es| - 1];
     After(max, es).session == After(max, before).session && (e == Stop(true) || ResetSince(max, before)))
  }

  /** What a step makes of the display: a new session clears it, a timeout sets it, a reset clears it. */
  ghost predicate ShowsLimit(s: State, max: nat, e: Event, t: Tally)
    requires Enabled(s, e)
  {
    var s' := Step(s, max, e);
    if s'.session != s.session then !s'.maxReached && s'.session == s.session + 1
    else s'.maxReached <==> e != Stop(true) && (s.maxReached || Tallied(s, max, e, s.session, t).timeouts > t.timeouts)
  }

  lemma StartShowsLimit(s: State, max: nat, t: Tally)
    requires Coherent(s)
    ensures ShowsLimit(s, max, Start, t)
  {
  }

  lemma TickShowsLimit(s: State, max: nat, t: Tally)
    requires Coherent(s) && Enabled(s, Tick)
    ensures ShowsLimit(s, max, Tick, t)
  {
  }

  lemma StepShowsLimit(s: State, max: nat, e: Event, t: Tally)
    requires Coherent(s) && Enabled(s, e)
    ensures ShowsLimit(s, max, e, t)
  {
    match e
    case Start => StartShowsLimit(s, max, t);
    case Tick => TickShowsLimit(s, max, t);
    case Respond(_, _) =>
    case Stop(_) =>
  }

  /** Only a new session makes an idle hook poll, and only a polling one times out. */
  lemma StepEndsPolling(s: State, max: nat, e: Event, t: Tally)
    requires Balanced(s, max, s.session, t) && Enabled(s, e)
    ensures var s' := Step(s, max, e);
            && (e == Stop(true) ==> !s'.polling) && (s'.polling && !s.polling ==> s'.session != s.session)
            && (Tallied(s, max, e, s.session, t).timeouts > t.timeouts ==> s.polling)
  {
  }

  lemma NewSessionHasNoTimeout(max: nat, es: seq<Event>)
    requires Run(max, es) && es != [] && After(max, es).session != After(max, es[..|es| - 1]).session
    ensures TallyOf(max, es, After(max, es).session).timeouts == 0
  {
    RunIsBalanced(max, es[..|es| - 1], After(max, es).session);
    RunIsBalanced(max, es, After(max, es).session);
  }

  /** The limit is shown as reached if and only if the newest session timed out and the user has not reset the hook since. */
  lemma {:induction false} LimitShownIff(max: nat, es: seq<Event>)
    requires Run(max, es)
    ensures ResetSince(max, es) ==> !After(max, es).polling
    ensures After(max, es).maxReached <==> TallyOf(max, es, After(max, es).session).timeouts == 1 && !ResetSince(max, es)
  {
    if es != [] {
      var before := es[..|es| - 1];
      var s, e := After(max, before), es[|es| - 1];
      var t := TallyOf(max, before, s.session);
      LimitShownIff(max, before);
      RunIsBalanced(max, before, s.session);
      RunIsBalanced(max, es, After(max, es).session);
      StepShowsLimit(s, max, e, t);
      StepEndsPolling(s, max, e, t);
      if After(max, es).session != s.session { NewSessionHasNoTimeout(max, es); }
    }
  }
}
