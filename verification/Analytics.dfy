/**
 The client that tracks analytics events: a queue that is flushed in batches, and the time spent on each page.
 */
module Analytics {
  import opened Ecma

  datatype Value = Undefined | Number(number: int) | Text(text: string)

  type Properties = map<string, Value>

  datatype Event = Event(kind: string, properties: Properties)

  const MAX_QUEUE_SIZE: nat := 10

  /** `batches` are the request bodies handed to the API client, oldest first. */
  datatype State = State(queue: seq<Event>, batches: seq<seq<Event>>, page: Option<string>, start: Option<int>)

  /**
   The calls on the tracker. Every reading of the clock is a parameter: `left` measures the stay on the old page,
   `now` stamps the event, `arrived` starts the stay on the new page. The browser's part of the base properties is `env`.
   */
  datatype Call =
    | SetPageContext(path: string, left: int, env: Properties, now: int, arrived: int)
    | Track(kind: string, properties: Properties, env: Properties, now: int)
    | Flush

  predicate IsTruthy(page: Option<string>) {
    page.Some? && page.value != ""
  }

  /** The stay on the current page is measured: neither the page nor its start is missing, empty or zero. */
  predicate Measures(s: State) {
    IsTruthy(s.page) && s.start.Some? && s.start.value != 0
  }

  function Base(page: Option<string>, env: Properties, now: int): Properties {
    env["timestamp" := Number(now)]["path" := if IsTruthy(page) then Text(page.value) else Undefined]
  }

  /** JavaScript's `Math.floor(ms / 1000)`. */
  function Seconds(ms: int): int {
    ms / 1000
  }

  function LeaveProperties(s: State, left: int): Properties
    requires Measures(s)
  {
    map["path" := Text(s.page.value), "timeSpent" := Number(Seconds(left - s.start.value))]
  }

  /** The events that a call tracks. */
  function Tracked(s: State, c: Call): seq<Event> {
    match c
    case SetPageContext(_, left, env, now, _) =>
      if Measures(s) then [Event("PAGE_VIEW", Base(s.page, env, now) + LeaveProperties(s, left))] else []
    case Track(kind, properties, env, now) => [Event(kind, Base(s.page, env, now) + properties)]
    case Flush => []
  }

  function Flushed(s: State): State {
    if s.queue == [] then s else s.(queue := [], batches := s.batches + [s.queue])
  }

  function Pushed(s: State, events: seq<Event>): State
    requires |events| <= 1
  {
    if events == [] then s else
      var s := s.(queue := s.queue + events);
      if |s.queue| >= MAX_QUEUE_SIZE then Flushed(s) else s
  }

  function Step(s: State, c: Call): State {
    var s' := if c.Flush? then Flushed(s) else Pushed(s, Tracked(s, c));
    if c.SetPageContext? then s'.(page := Some(c.path), start := Some(c.arrived)) else s'
  }

  function Steps(s: State, run: seq<Call>): State
    decreases run
  {
    if run == [] then s else Steps(Step(s, run[0]), run[1..])
  }

  const START: State := State([], [], None, None)

  class Tracker {
    var eventQueue: seq<Event>
    var batches: seq<seq<Event>>
    var currentPage: Option<string>
    var pageStartTime: Option<int>

    constructor ()
      ensures Now() == START
    {
      eventQueue, batches, currentPage, pageStartTime := [], [], None, None;
    }

    ghost function Now(): State
      reads this
    {
      State(eventQueue, batches, currentPage, pageStartTime)
    }

    method SetPageContext(path: string, left: int, env: Properties, now: int, arrived: int)
      modifies this
      ensures Now() == Step(old(Now()), Call.SetPageContext(path, left, env, now, arrived))
    {
      if currentPage.Some? && currentPage.value != "" && pageStartTime.Some? && pageStartTime.value != 0 {
        var timeSpent := left - pageStartTime.value;
        Track("PAGE_VIEW", map["path" := Text(currentPage.value), "timeSpent" := Number(Seconds(timeSpent))], env, now);
      }
      currentPage := Some(path);
      pageStartTime := Some(arrived);
    }

    method Track(kind: string, properties: Properties, env: Properties, now: int)
      modifies this
      ensures Now() == Step(old(Now()), Call.Track(kind, properties, env, now))
    {
      eventQueue := eventQueue + [Event(kind, Base(currentPage, env, now) + properties)];
      if |eventQueue| >= MAX_QUEUE_SIZE {
        Flush();
      }
    }

    /** `title` is the caller's, or else that of the document. */
    method PageView(path: string, title: Value, left: int, env: Properties, now: int, arrived: int, viewed: int)
      modifies this
      ensures Now() == Steps(old(Now()),
        [ Call.SetPageContext(path, left, env, now, arrived),
          Call.Track("PAGE_VIEW", map["path" := Text(path), "title" := title], env, viewed)])
    {
      ghost var call := Call.Track("PAGE_VIEW", map["path" := Text(path), "title" := title], env, viewed);
      SetPageContext(path, left, env, now, arrived);
      ghost var between := Now();
      Track("PAGE_VIEW", map["path" := Text(path), "title" := title], env, viewed);
      assert Steps(between, [call]) == Step(between, call);
    }

    /** What runs up to the request; the answer to it changes nothing. */
    method Flush()
      modifies this
      ensures Now() == Step(old(Now()), Call.Flush)
    {
      if |eventQueue| == 0 { return; }
      var eventsToSend := eventQueue;
      eventQueue := [];
      batches := batches + [eventsToSend];
    }
  }

  // Every event is sent once, in order.

  function Flat(batches: seq<seq<Event>>): seq<Event> {
    if batches == [] then [] else batches[0] + Flat(batches[1..])
  }

  function TrackedIn(s: State, run: seq<Call>): seq<Event>
    decreases run
  {
    if run == [] then [] else Tracked(s, run[0]) + TrackedIn(Step(s, run[0]), run[1..])
  }

  function Sent(s: State): seq<Event> {
    Flat(s.batches) + s.queue
  }

  lemma {:induction false} FlatAppend(batches: seq<seq<Event>>, last: seq<Event>)
    ensures Flat(batches + [last]) == Flat(batches) + last
    decreases batches
  {
    if batches == [] {
      assert Flat([last]) == last + Flat([]);
    } else {
      assert (batches + [last])[1..] == batches[1..] + [last];
      FlatAppend(batches[1..], last);
    }
  }

  lemma FlushKeepsSent(s: State)
    ensures Sent(Flushed(s)) == Sent(s)
  {
    FlatAppend(s.batches, s.queue);
  }

  lemma StepSends(s: State, c: Call)
    ensures Sent(Step(s, c)) == Sent(s) + Tracked(s, c)
  {
    FlushKeepsSent(s);
    FlushKeepsSent(s.(queue := s.queue + Tracked(s, c)));
  }

  /** Between calls fewer than ten events wait, and no batch is empty or has more than ten events. */
  predicate WithinLimits(s: State) {
    |s.queue| < 10 && forall k :: 0 <= k < |s.batches| ==> 1 <= |s.batches[k]| <= 10
  }

  lemma StepWithinLimits(s: State, c: Call)
    requires WithinLimits(s)
    ensures WithinLimits(Step(s, c)) && s.batches <= Step(s, c).batches
  {
  }

  /**
   The batches, in order, followed by the queue are exactly the events that the run tracked after those from before it.
   No batch that was sent is ever changed, and the limits are kept.
   */
  lemma {:induction false} EveryEventIsSentOnce(s: State, run: seq<Call>)
    requires WithinLimits(s)
    ensures Sent(Steps(s, run)) == Sent(s) + TrackedIn(s, run)
    ensures WithinLimits(Steps(s, run)) && s.batches <= Steps(s, run).batches
    decreases run
  {
    if run != [] {
      StepSends(s, run[0]);
      StepWithinLimits(s, run[0]);
      EveryEventIsSentOnce(Step(s, run[0]), run[1..]);
    }
  }

  lemma {:induction false} FlatSize(batches: seq<seq<Event>>)
    requires forall k :: 0 <= k < |batches| ==> |batches[k]| == MAX_QUEUE_SIZE
    ensures |Flat(batches)| == MAX_QUEUE_SIZE * |batches|
    decreases batches
  {
    if batches != [] { FlatSize(batches[1..]); }
  }

  lemma {:induction false} FullBatches(s: State, run: seq<Call>)
    requires WithinLimits(s) && forall k :: 0 <= k < |s.batches| ==> |s.batches[k]| == MAX_QUEUE_SIZE
    requires Flush !in run
    ensures forall k :: 0 <= k < |Steps(s, run).batches| ==> |Steps(s, run).batches[k]| == MAX_QUEUE_SIZE
    decreases run
  {
    if run != [] { FullBatches(Step(s, run[0]), run[1..]); }
  }

  /** As long as neither the timer nor the page's end flushes, n events make n / 10 batches and leave n % 10 waiting. */
  lemma OnlyFullBatchesWithoutFlush(run: seq<Call>)
    requires Flush !in run
    ensures var n := |TrackedIn(START, run)|; var end := Steps(START, run);
            |end.batches| == n / 10 && |end.queue| == n % 10
  {
    var end := Steps(START, run);
    FullBatches(START, run);
    EveryEventIsSentOnce(START, run);
    FlatSize(end.batches);
  }

  // The time spent on pages.

  /** The seconds that an event reports. */
  function Reported(e: Event): int {
    if "timeSpent" in e.properties && e.properties["timeSpent"].Number? then e.properties["timeSpent"].number else 0
  }

  function ReportedIn(events: seq<Event>): int {
    if events == [] then 0 else Reported(events[0]) + ReportedIn(events[1..])
  }

  /** The caller's own events and the browser's properties report no time. */
  predicate ReportsNoTime(c: Call) {
    (c.Track? ==> "timeSpent" !in c.properties) && (c.Flush? || "timeSpent" !in c.env)
  }

  predicate Leaves(s: State, c: Call) {
    c.SetPageContext? && Measures(s)
  }

  /** How often a measured page is left in a run. */
  function PagesLeft(s: State, run: seq<Call>): nat
    decreases run
  {
    if run == [] then 0 else (if Leaves(s, run[0]) then 1 else 0) + PagesLeft(Step(s, run[0]), run[1..])
  }

  /** The milliseconds spent on them. */
  function Stayed(s: State, run: seq<Call>): int
    decreases run
  {
    if run == [] then 0
    else (if Leaves(s, run[0]) then run[0].left - s.start.value else 0) + Stayed(Step(s, run[0]), run[1..])
  }

  lemma {:induction false} ReportedConcat(a: seq<Event>, b: seq<Event>)
    ensures ReportedIn(a + b) == ReportedIn(a) + ReportedIn(b)
    decreases a
  {
    if a == [] {
      assert a + b == b;
    } else {
      assert (a + b)[1..] == a[1..] + b;
      ReportedConcat(a[1..], b);
    }
  }

  lemma StepReports(s: State, c: Call)
    requires ReportsNoTime(c)
    ensures ReportedIn(Tracked(s, c)) == if Leaves(s, c) then Seconds(c.left - s.start.value) else 0
  {
    var events := Tracked(s, c);
    assert events != [] ==> ReportedIn(events) == Reported(events[0]) + ReportedIn([]);
  }

  /**
   In any run, with any clock, the reported seconds fall short of the time spent on measured pages by 0 to 999
   milliseconds for every page left.
   */
  lemma {:induction false} ReportedTimeIsClose(s: State, run: seq<Call>)
    requires forall k :: 0 <= k < |run| ==> ReportsNoTime(run[k])
    ensures 0 <= Stayed(s, run) - 1000 * ReportedIn(TrackedIn(s, run)) <= 999 * PagesLeft(s, run)
    decreases run
  {
    if run != [] {
      var s' := Step(s, run[0]);
      StepReports(s, run[0]);
      ReportedConcat(Tracked(s, run[0]), TrackedIn(s', run[1..]));
      ReportedTimeIsClose(s', run[1..]);
    }
  }

  /** The pages have names, and no stay starts at the clock's zero. */
  predicate Regular(c: Call) {
    c.SetPageContext? ==> c.path != "" && c.arrived != 0
  }

  /** The time between leaving one page and starting the next one, inside the calls. */
  function Switching(run: seq<Call>): int {
    if run == [] then 0 else (if run[0].SetPageContext? then run[0].arrived - run[0].left else 0) + Switching(run[1..])
  }

  lemma {:induction false} StaysAddUp(s: State, run: seq<Call>)
    requires Measures(s) && forall k :: 0 <= k < |run| ==> Regular(run[k])
    ensures Measures(Steps(s, run)) && Stayed(s, run) + Switching(run) == Steps(s, run).start.value - s.start.value
    decreases run
  {
    if run != [] { StaysAddUp(Step(s, run[0]), run[1..]); }
  }

  /**
   From the start of one page to the start of a later one no time is lost but what switching takes: the difference
   of the two starts, less the reported seconds and the switching, is 0 to 999 milliseconds for every page left.
   */
  lemma ElapsedTimeIsReported(s: State, run: seq<Call>)
    requires Measures(s) && forall k :: 0 <= k < |run| ==> Regular(run[k]) && ReportsNoTime(run[k])
    ensures var end := Steps(s, run);
            end.start.Some? &&
            0 <= end.start.value - s.start.value - Switching(run) - 1000 * ReportedIn(TrackedIn(s, run)) <= 999 * PagesLeft(s, run)
  {
    StaysAddUp(s, run);
    ReportedTimeIsClose(s, run);
  }

  // What an event carries.

  /**
   A tracked event has its kind and exactly the caller's properties, the time stamp, the current page, if there is one,
   and the browser's properties, in this order of precedence.
   */
  lemma EventCarriesItsCall(s: State, kind: string, properties: Properties, env: Properties, now: int)
    ensures var events := Tracked(s, Call.Track(kind, properties, env, now));
            && |events| == 1 && events[0].kind == kind
            && (forall p :: p in events[0].properties <==> p in properties || p in env || p == "timestamp" || p == "path")
            && (forall p :: p in properties ==> events[0].properties[p] == properties[p])
            && ("timestamp" !in properties ==> events[0].properties["timestamp"] == Number(now))
            && ("path" !in properties ==>
                  events[0].properties["path"] == if s.page.Some? && s.page.value != "" then Text(s.page.value) else Undefined)
            && (forall p :: p in env && p !in properties && p != "timestamp" && p != "path" ==> events[0].properties[p] == env[p])
  {
  }

  /** Leaving a page tracks a view of it with the whole seconds spent there, if the page and its start are known. */
  lemma LeavingTracksTheStay(s: State, path: string, left: int, env: Properties, now: int, arrived: int)
    ensures var events := Tracked(s, Call.SetPageContext(path, left, env, now, arrived));
            if s.page.Some? && s.page.value != "" && s.start.Some? && s.start.value != 0
            then |events| == 1 && events[0].kind == "PAGE_VIEW"
                 && (forall p :: p in events[0].properties <==> p in env || p in {"timestamp", "path", "timeSpent"})
                 && events[0].properties["path"] == Text(s.page.value)
                 && events[0].properties["timestamp"] == Number(now)
                 && events[0].properties["timeSpent"].Number?
                 && 0 <= left - s.start.value - 1000 * events[0].properties["timeSpent"].number < 1000
            else events == []
  {
  }

  /** The first page leaves none behind. */
  lemma FirstPageTracksNothing(path: string, left: int, env: Properties, now: int, arrived: int)
    ensures Tracked(START, Call.SetPageContext(path, left, env, now, arrived)) == []
    ensures Step(START, Call.SetPageContext(path, left, env, now, arrived)) == State([], [], Some(path), Some(arrived))
  {
  }
}
