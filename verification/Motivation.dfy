/** The daily motivation: a single upstream fetch at a time, cached for its date, with a pause after a
    failure. Dates are day numbers and clock readings are milliseconds. */
module Motivation {
  import opened Prelude

  const NEGATIVE_CACHE_MS := 300_000
  const FALLBACK_COUNT := 7

  // ----- The fallback of a day -----

  /** JavaScript's %: the remainder takes the sign of the dividend. */
  function JsRemainder(a: int, n: int): int
    requires n > 0
  {
    if a >= 0 then a % n else -((-a) % n)
  }

  function MotivationIndexFor(day: int, length: int): int {
    if length <= 0 then 0 else JsRemainder(JsRemainder(day, length) + length, length)
  }

  lemma MultipleGrows(n: int, d: int)
    requires n > 0
    ensures d >= 1 ==> n * d >= n
    ensures d <= -1 ==> n * d <= -n
  {
    assert n * d == n + n * (d - 1);
    assert n * d == -n + n * (d + 1);
  }

  lemma ModuloIs(a: int, n: int, q: int, r: int)
    requires n > 0 && a == n * q + r && 0 <= r < n
    ensures a % n == r
  {
    var d := a / n - q;
    assert a == n * (a / n) + a % n;
    assert n * d == r - a % n;
    MultipleGrows(n, d);
  }

  lemma IndexIsDayModulo(day: int, length: int)
    requires length > 0
    ensures MotivationIndexFor(day, length) == day % length
  {
    if day < 0 {
      var q, r := (-day) / length, (-day) % length;
      assert day == length * -q - r;
      if r == 0 {
        ModuloIs(day, length, -q, 0);
        ModuloIs(length, length, 1, 0);
      } else {
        ModuloIs(day, length, -q - 1, length - r);
        ModuloIs(length - r, length, 0, length - r);
      }
    } else {
      var r := day % length;
      ModuloIs(r + length, length, 1, r);
    }
  }

  lemma IndexOfLaterDay(day: int, later: int, n: int)
    requires 0 < n && day <= later < day + n
    ensures
      var r := day % n + (later - day);
      MotivationIndexFor(later, n) == if r < n then r else r - n
  {
    var r := day % n + (later - day);
    assert day == n * (day / n) + day % n;
    IndexIsDayModulo(later, n);
    if r < n {
      ModuloIs(later, n, day / n, r);
    } else {
      assert n * (day / n + 1) == n * (day / n) + n;
      ModuloIs(later, n, day / n + 1, r - n);
    }
  }

  /** Over any n consecutive days, before or after the epoch, every index is used exactly once. */
  lemma EveryIndexOnce(day: int, n: int, index: int)
    requires 0 <= index < n
    ensures exists d ::
      day <= d < day + n && MotivationIndexFor(d, n) == index
      && (forall e :: day <= e < day + n && MotivationIndexFor(e, n) == index ==> e == d)
  {
    var r := day % n;
    var d := day + if index >= r then index - r else index - r + n;
    forall e | day <= e < day + n
      ensures MotivationIndexFor(e, n) == index <==> e == d
    {
      IndexOfLaterDay(day, e, n);
    }
    assert MotivationIndexFor(d, n) == index;
  }

  // ----- Module state -----

  datatype Quote = Upstream(text: string, author: string) | Fallback(index: int)

  /** What a successful fetch brings. */
  datatype Fetched = Fetched(text: string, author: string)

  datatype Payload = Payload(quote: Quote, date: int)

  /** The shared promise: the date of its fetch, and its value once the fetch has ended. */
  datatype Flight = Flight(date: int, value: Option<Payload>)

  datatype State = State(dayCache: Option<Payload>, inFlight: Option<Flight>, retryAfter: int)

  datatype Reply = Answer(payload: Payload) | Joined(started: bool)

  function FallbackPayload(date: int): Payload {
    Payload(Fallback(MotivationIndexFor(date, FALLBACK_COUNT)), date)
  }

  /** getDailyMotivation up to its first await. `enabled` is false when another source is configured. */
  function Get(s: State, date: int, clock: int, enabled: bool): (State, Reply) {
    if s.dayCache.Some? && s.dayCache.value.date == date then (s, Answer(s.dayCache.value)) else
      var t := s.(dayCache := None);
      if !enabled || clock < s.retryAfter then (t, Answer(FallbackPayload(date)))
      else if t.inFlight.None? then (t.(inFlight := Some(Flight(date, None))), Joined(true))
      else (t, Joined(false))
  }

  /** The upstream fetch of the flight ends, with a quote or without one. */
  function Settle(s: State, quote: Option<Fetched>, clock: int): State
    requires s.inFlight.Some? && s.inFlight.value.value.None?
  {
    var date := s.inFlight.value.date;
    match quote
    case Some(q) =>
      var quoted := Payload(Upstream(q.text, q.author), date);
      State(Some(quoted), Some(Flight(date, Some(quoted))), 0)
    case None =>
      State(s.dayCache, Some(Flight(date, Some(FallbackPayload(date)))), clock + NEGATIVE_CACHE_MS)
  }

  /** The `finally` callback, which may run later than the code that ended the fetch. */
  function Clear(s: State): State { s.(inFlight := None) }

  class MotivationCache {
    var dayCache: Option<Payload>
    var inFlight: Option<Flight>
    var retryAfter: int

    function Current(): State
      reads this
    {
      State(dayCache, inFlight, retryAfter)
    }

    constructor ()
      ensures Current() == State(None, None, 0)
    {
      dayCache, inFlight, retryAfter := None, None, 0;
    }

    method GetDailyMotivation(date: int, clock: int, enabled: bool) returns (reply: Reply)
      modifies this
      ensures (Current(), reply) == Get(old(Current()), date, clock, enabled)
    {
      if dayCache.Some? && dayCache.value.date == date {
        return Answer(dayCache.value);
      }
      dayCache := None;
      if !enabled {
        return Answer(FallbackPayload(date));
      }
      if clock < retryAfter {
        return Answer(FallbackPayload(date));
      }
      var started := inFlight.None?;
      if started {
        inFlight := Some(Flight(date, None));
      }
      return Joined(started);
    }

    method FetchEnded(quote: Option<Fetched>, clock: int)
      requires inFlight.Some? && inFlight.value.value.None?
      modifies this
      ensures Current() == Settle(old(Current()), quote, clock)
    {
      var date := inFlight.value.date;
      if quote.Some? {
        var quoted := Payload(Upstream(quote.value.text, quote.value.author), date);
        dayCache := Some(quoted);
        retryAfter := 0;
        inFlight := Some(Flight(date, Some(quoted)));
      } else {
        retryAfter := clock + NEGATIVE_CACHE_MS;
        inFlight := Some(Flight(date, Some(FallbackPayload(date))));
      }
    }

    method FlightCleared()
      modifies this
      ensures Current() == Clear(old(Current()))
    {
      inFlight := None;
    }
  }

  // ----- Runs: any interleaving of calls, ends of fetches and callbacks -----

  datatype Event =
    | Call(date: int, enabled: bool)
    | FetchEnds(quote: Option<Fetched>)
    | CallbackRuns

  datatype Timed = Timed(event: Event, clock: int)

  datatype Mark = Started(at: int) | Failed(at: int)

  datatype Outcome = Pending | Ended(quote: Option<Fetched>)

  /** What the world sees of one upstream fetch: the date it was started for and how it ended. */
  datatype Fetch = Fetch(date: int, outcome: Outcome)

  /** A call as its caller made it. */
  datatype Asked = Asked(date: int, enabled: bool, clock: int)

  /** An answer given to a caller; `joined` is the number of the fetch it waited for, if it waited. */
  datatype Given = Given(asked: Asked, payload: Payload, joined: Option<nat>)

  /** The module state with what the world has seen of it. */
  datatype World = World(
    s: State,
    clock: int,
    outstanding: nat,
    fetches: seq<Fetch>,
    marks: seq<Mark>,
    waiting: seq<Asked>,
    given: seq<Given>)

  const START := World(State(None, None, 0), 0, 0, [], [], [], [])

  function AnswerAll(waiting: seq<Asked>, payload: Payload, joined: nat): (r: seq<Given>)
    ensures |r| == |waiting| && forall i :: 0 <= i < |r| ==> r[i] == Given(waiting[i], payload, Some(joined))
  {
    seq(|waiting|, i requires 0 <= i < |waiting| => Given(waiting[i], payload, Some(joined)))
  }

  function AfterCall(w: World, date: int, enabled: bool, clock: int): World {
    var (s, reply) := Get(w.s, date, clock, enabled);
    var asked := Asked(date, enabled, clock);
    match reply
    case Answer(payload) => w.(s := s, clock := clock, given := w.given + [Given(asked, payload, None)])
    case Joined(started) =>
      w.(s := s, clock := clock, waiting := w.waiting + [asked],
         outstanding := if started then w.outstanding + 1 else w.outstanding,
         fetches := if started then w.fetches + [Fetch(date, Pending)] else w.fetches,
         marks := if started then w.marks + [Started(clock)] else w.marks)
  }

  predicate Fetching(s: State) { s.inFlight.Some? && s.inFlight.value.value.None? }

  /** The latest fetch ended like this. */
  function Recorded(fetches: seq<Fetch>, quote: Option<Fetched>): seq<Fetch>
    requires fetches != []
  {
    fetches[|fetches| - 1 := fetches[|fetches| - 1].(outcome := Ended(quote))]
  }

  predicate FetchIsDue(w: World) { Fetching(w.s) && w.outstanding > 0 && w.fetches != [] }

  function AfterFetch(w: World, quote: Option<Fetched>, clock: int): World
    requires FetchIsDue(w)
  {
    w.(s := Settle(w.s, quote, clock), clock := clock, outstanding := w.outstanding - 1,
       fetches := Recorded(w.fetches, quote),
       marks := if quote.None? then w.marks + [Failed(clock)] else w.marks)
  }

  predicate CallbackIsDue(w: World) { w.s.inFlight.Some? && w.s.inFlight.value.value.Some? && w.fetches != [] }

  function AfterCallback(w: World, clock: int): World
    requires CallbackIsDue(w)
  {
    w.(s := Clear(w.s), clock := clock, waiting := [],
       given := w.given + AnswerAll(w.waiting, w.s.inFlight.value.value.value, |w.fetches| - 1))
  }

  /** One event; an end of a fetch or a callback that is not due changes nothing but the clock. */
  function After(w: World, e: Timed): World {
    match e.event
    case Call(date, enabled) => AfterCall(w, date, enabled, e.clock)
    case FetchEnds(quote) => if FetchIsDue(w) then AfterFetch(w, quote, e.clock) else w.(clock := e.clock)
    case CallbackRuns => if CallbackIsDue(w) then AfterCallback(w, e.clock) else w.(clock := e.clock)
  }

  function Run(events: seq<Timed>): World {
    if events == [] then START else After(Run(events[..|events| - 1]), events[|events| - 1])
  }

  predicate ClockNeverGoesBack(events: seq<Timed>) {
    (forall i :: 0 <= i < |events| ==> events[i].clock >= 0)
    && forall i, j :: 0 <= i < j < |events| ==> events[i].clock <= events[j].clock
  }

  // ----- What every run keeps -----

  /** No fetch starts within the pause after a failure. */
  predicate PausesAfterFailures(marks: seq<Mark>) {
    forall i, j :: 0 <= i < j < |marks| && marks[i].Failed? && marks[j].Started? ==> marks[j].at >= marks[i].at + NEGATIVE_CACHE_MS
  }

  /** Every failure is over, or the pause it ordered is still in force; and a pause in force was ordered by one. */
  predicate PauseInForce(w: World) {
    (forall i :: 0 <= i < |w.marks| && w.marks[i].Failed? ==>
      w.clock >= w.marks[i].at + NEGATIVE_CACHE_MS || (w.s.retryAfter >= w.marks[i].at + NEGATIVE_CACHE_MS && !Fetching(w.s)))
    && (forall i :: 0 <= i < |w.marks| && w.marks[i].Failed? ==> w.marks[i].at <= w.clock)
    && (w.s.retryAfter > 0 ==>
          exists i :: 0 <= i < |w.marks| && w.marks[i].Failed? && w.marks[i].at + NEGATIVE_CACHE_MS == w.s.retryAfter)
  }

  predicate SingleFlight(w: World) {
    && w.clock >= 0 && w.outstanding == (if Fetching(w.s) then 1 else 0)
    && (w.waiting != [] ==> w.s.inFlight.Some?) && (w.s.inFlight.Some? ==> w.fetches != [])
    && (forall i :: 0 <= i < |w.fetches| - 1 ==> w.fetches[i].outcome.Ended?)
    && (w.fetches != [] ==> (w.fetches[|w.fetches| - 1].outcome.Pending? <==> Fetching(w.s)))
  }

  /** The answer that a fetch brings to those who joined it: its quote, or the fallback of its date. */
  function Brought(f: Fetch): Payload
    requires f.outcome.Ended?
  {
    if f.outcome.quote.Some? then Payload(Upstream(f.outcome.quote.value.text, f.outcome.quote.value.author), f.date)
    else Payload(Fallback(MotivationIndexFor(f.date, FALLBACK_COUNT)), f.date)
  }

  /** The fetch with this number brought this quote. */
  predicate BroughtBy(fetches: seq<Fetch>, n: nat, p: Payload) {
    n < |fetches| && fetches[n].outcome.Ended? && fetches[n].outcome.quote.Some? && p == Brought(fetches[n])
  }

  /** The flight in the state is the latest fetch, and holds what that brought once it has ended. */
  predicate FlightIsLatest(w: World) {
    w.s.inFlight.Some? && w.fetches != [] ==>
      var f := w.fetches[|w.fetches| - 1];
      w.s.inFlight.value.date == f.date && (w.s.inFlight.value.value.Some? ==> f.outcome.Ended? && w.s.inFlight.value.value.value == Brought(f))
  }

  ghost predicate CacheIsBrought(w: World) {
    w.s.dayCache.Some? ==> exists n :: BroughtBy(w.fetches, n, w.s.dayCache.value)
  }

  /** A failure within the pause before this clock reading. */
  predicate RecentFailure(marks: seq<Mark>, clock: int) {
    exists i :: 0 <= i < |marks| && marks[i].Failed? && marks[i].at <= clock < marks[i].at + NEGATIVE_CACHE_MS
  }

  /** An answer of a fetch is what that fetch brought; an answer given at once carries the date asked for, and is the
      quote some fetch brought, or the fallback because fetching was disabled or a fetch had failed recently. */
  ghost predicate Justified(fetches: seq<Fetch>, marks: seq<Mark>, g: Given) {
    if g.joined.Some? then
      g.joined.value < |fetches| && fetches[g.joined.value].outcome.Ended? && g.payload == Brought(fetches[g.joined.value])
    else
      g.payload.date == g.asked.date
      && ((exists n :: BroughtBy(fetches, n, g.payload))
          || (g.payload == FallbackPayload(g.asked.date) && (!g.asked.enabled || RecentFailure(marks, g.asked.clock))))
  }

  ghost predicate AllJustified(w: World) {
    forall i :: 0 <= i < |w.given| ==> Justified(w.fetches, w.marks, w.given[i])
  }

  ghost predicate Inv(w: World) {
    SingleFlight(w) && PausesAfterFailures(w.marks) && PauseInForce(w) && FlightIsLatest(w) && CacheIsBrought(w) && AllJustified(w)
  }

  /** What has ended stays as it was. */
  predicate Extends(before: seq<Fetch>, after: seq<Fetch>) {
    |before| <= |after| && forall n :: 0 <= n < |before| && before[n].outcome.Ended? ==> after[n] == before[n]
  }

  lemma StaysJustified(before: seq<Fetch>, after: seq<Fetch>, marks: seq<Mark>, more: seq<Mark>, g: Given)
    requires Extends(before, after) && Justified(before, marks, g)
    ensures Justified(after, marks + more, g)
  {
    if g.joined.None? {
      if n :| BroughtBy(before, n, g.payload) {
        assert BroughtBy(after, n, g.payload);
      } else if g.asked.enabled {
        var i :| 0 <= i < |marks| && marks[i].Failed? && marks[i].at <= g.asked.clock < marks[i].at + NEGATIVE_CACHE_MS;
        assert (marks + more)[i] == marks[i];
      }
    }
  }

  lemma StaysBrought(before: seq<Fetch>, after: seq<Fetch>, p: Payload)
    requires Extends(before, after) && exists n :: BroughtBy(before, n, p)
    ensures exists n :: BroughtBy(after, n, p)
  {
    var n :| BroughtBy(before, n, p);
    assert BroughtBy(after, n, p);
  }

  /** An answer given at once. */
  lemma ImmediateAnswer(w: World, date: int, enabled: bool, clock: int)
    requires Inv(w) && w.clock <= clock && Get(w.s, date, clock, enabled).1.Answer?
    ensures Justified(w.fetches, w.marks, Given(Asked(date, enabled, clock), Get(w.s, date, clock, enabled).1.payload, None))
  {
    if !(w.s.dayCache.Some? && w.s.dayCache.value.date == date) && enabled {
      assert clock < w.s.retryAfter;
      var i :| 0 <= i < |w.marks| && w.marks[i].Failed? && w.marks[i].at + NEGATIVE_CACHE_MS == w.s.retryAfter;
      assert RecentFailure(w.marks, clock);
    }
  }

  lemma CallKeepsState(w: World, date: int, enabled: bool, clock: int)
    requires Inv(w) && w.clock <= clock
    ensures
      var n := AfterCall(w, date, enabled, clock);
      SingleFlight(n) && PausesAfterFailures(n.marks) && FlightIsLatest(n) && Extends(w.fetches, n.fetches)
  {
  }

  lemma CallKeepsPause(w: World, date: int, enabled: bool, clock: int)
    requires Inv(w) && w.clock <= clock
    ensures PauseInForce(AfterCall(w, date, enabled, clock))
  {
    var n := AfterCall(w, date, enabled, clock);
    assert forall i :: 0 <= i < |w.marks| ==> n.marks[i] == w.marks[i];
  }

  lemma CallKeepsInv(w: World, date: int, enabled: bool, clock: int)
    requires Inv(w) && w.clock <= clock
    ensures Inv(AfterCall(w, date, enabled, clock))
  {
    var n := AfterCall(w, date, enabled, clock);
    CallKeepsState(w, date, enabled, clock);
    CallKeepsPause(w, date, enabled, clock);
    if n.s.dayCache.Some? {
      StaysBrought(w.fetches, n.fetches, n.s.dayCache.value);
    }
    var more := n.marks[|w.marks|..];
    assert n.marks == w.marks + more;
    forall i | 0 <= i < |n.given|
      ensures Justified(n.fetches, n.marks, n.given[i])
    {
      if i < |w.given| {
        StaysJustified(w.fetches, n.fetches, w.marks, more, w.given[i]);
      } else {
        ImmediateAnswer(w, date, enabled, clock);
      }
    }
  }

  lemma FetchKeepsState(w: World, quote: Option<Fetched>, clock: int)
    requires Inv(w) && w.clock <= clock && FetchIsDue(w)
    ensures
      var n := AfterFetch(w, quote, clock);
      SingleFlight(n) && PausesAfterFailures(n.marks) && FlightIsLatest(n) && Extends(w.fetches, n.fetches)
  {
  }

  lemma FetchKeepsPause(w: World, quote: Option<Fetched>, clock: int)
    requires Inv(w) && w.clock <= clock && FetchIsDue(w)
    ensures PauseInForce(AfterFetch(w, quote, clock))
  {
    var n := AfterFetch(w, quote, clock);
    assert forall i :: 0 <= i < |w.marks| ==> n.marks[i] == w.marks[i];
    if quote.None? {
      assert n.marks[|w.marks|].Failed? && n.marks[|w.marks|].at + NEGATIVE_CACHE_MS == n.s.retryAfter;
    }
  }

  lemma FetchKeepsInv(w: World, quote: Option<Fetched>, clock: int)
    requires Inv(w) && w.clock <= clock && FetchIsDue(w)
    ensures Inv(AfterFetch(w, quote, clock))
  {
    var n := AfterFetch(w, quote, clock);
    FetchKeepsState(w, quote, clock);
    FetchKeepsPause(w, quote, clock);
    if quote.Some? {
      assert BroughtBy(n.fetches, |w.fetches| - 1, n.s.dayCache.value);
    } else if n.s.dayCache.Some? {
      StaysBrought(w.fetches, n.fetches, n.s.dayCache.value);
    }
    var more := n.marks[|w.marks|..];
    assert n.marks == w.marks + more;
    forall i | 0 <= i < |n.given|
      ensures Justified(n.fetches, n.marks, n.given[i])
    {
      StaysJustified(w.fetches, n.fetches, w.marks, more, w.given[i]);
    }
  }

  lemma CallbackKeepsInv(w: World, clock: int)
    requires Inv(w) && w.clock <= clock && CallbackIsDue(w)
    ensures Inv(AfterCallback(w, clock))
  {
  }

  lemma ClockKeepsInv(w: World, clock: int)
    requires Inv(w) && w.clock <= clock
    ensures Inv(w.(clock := clock))
  {
  }

  predicate IsCall(e: Timed) { e.event.Call? }

  function Calls(events: seq<Timed>): nat {
    if events == [] then 0 else Calls(events[..|events| - 1]) + if IsCall(events[|events| - 1]) then 1 else 0
  }

  function AllAsked(w: World): nat { |w.given| + |w.waiting| }

  lemma EventCounts(w: World, e: Timed)
    ensures After(w, e).clock == e.clock
    ensures AllAsked(After(w, e)) == AllAsked(w) + if IsCall(e) then 1 else 0
  {
  }

  lemma EventKeepsInv(w: World, e: Timed)
    requires Inv(w) && w.clock <= e.clock
    ensures Inv(After(w, e))
  {
    match e.event
    case Call(date, enabled) => CallKeepsInv(w, date, enabled, e.clock);
    case FetchEnds(quote) => if FetchIsDue(w) { FetchKeepsInv(w, quote, e.clock); } else { ClockKeepsInv(w, e.clock); }
    case CallbackRuns => if CallbackIsDue(w) { CallbackKeepsInv(w, e.clock); } else { ClockKeepsInv(w, e.clock); }
  }

  lemma {:induction false} RunKeepsInv(events: seq<Timed>)
    requires ClockNeverGoesBack(events)
    ensures Inv(Run(events))
    ensures Run(events).clock == if events == [] then 0 else events[|events| - 1].clock
    ensures AllAsked(Run(events)) == Calls(events)
    decreases |events|
  {
    if events != [] {
      var earlier := events[..|events| - 1];
      RunKeepsInv(earlier);
      EventKeepsInv(Run(earlier), events[|events| - 1]);
      EventCounts(Run(earlier), events[|events| - 1]);
    }
  }

  /** Over every interleaving of calls, ends of fetches and callbacks with a clock that never goes back: at most
      one fetch is outstanding, none starts within the pause after a failure, and every call is answered once or
      still waits for the fetch in flight. */
  lemma RunsAreOrderly(events: seq<Timed>)
    requires ClockNeverGoesBack(events)
    ensures
      var w := Run(events);
      && w.outstanding <= 1
      && (forall i :: 0 <= i < |w.fetches| - 1 ==> w.fetches[i].outcome.Ended?)
      && PausesAfterFailures(w.marks)
      && |w.given| + |w.waiting| == Calls(events)
      && (w.waiting != [] ==> w.s.inFlight.Some?)
  {
    RunKeepsInv(events);
  }

  /** Over every such run, every answer is the right one. Whoever joined a fetch gets its quote if it brought one, and
      the fallback of its date if it did not. Whoever is answered at once gets an answer dated as asked: a quote that
      some fetch brought for that date, or the fallback of that date, and this only when fetching was disabled or a
      fetch had failed within the pause before the call. */
  lemma AnswersAreRight(events: seq<Timed>, i: nat)
    requires ClockNeverGoesBack(events) && i < |Run(events).given|
    ensures Justified(Run(events).fetches, Run(events).marks, Run(events).given[i])
  {
    RunKeepsInv(events);
  }

  /** Once the callback has run, no flight is left; the next call that finds no quote for its date, with fetching
      enabled and no failure within the pause, starts a fetch for its date and waits for it. */
  lemma NextCallFetchesAgain(events: seq<Timed>, callback: int, date: int, clock: int)
    requires ClockNeverGoesBack(events) && CallbackIsDue(Run(events)) && Run(events).clock <= callback <= clock
    requires !(Run(events).s.dayCache.Some? && Run(events).s.dayCache.value.date == date)
    requires !RecentFailure(Run(events).marks, clock)
    ensures
      var cleared := After(Run(events), Timed(CallbackRuns, callback));
      var n := After(cleared, Timed(Call(date, true), clock));
      && cleared.waiting == [] && cleared.s.inFlight.None?
      && n.fetches == Run(events).fetches + [Fetch(date, Pending)] && n.waiting == [Asked(date, true, clock)]
  {
    var w := Run(events);
    RunKeepsInv(events);
    if clock < w.s.retryAfter {
      var i :| 0 <= i < |w.marks| && w.marks[i].Failed? && w.marks[i].at + NEGATIVE_CACHE_MS == w.s.retryAfter;
      assert RecentFailure(w.marks, clock);
    }
  }

  // ----- The record of fetches is what the events say -----

  predicate StartedByCall(events: seq<Timed>, date: int) {
    exists i :: 0 <= i < |events| && events[i].event.Call? && events[i].event.date == date && events[i].event.enabled
  }

  predicate EndedByEvent(events: seq<Timed>, quote: Option<Fetched>) {
    exists i :: 0 <= i < |events| && events[i].event == FetchEnds(quote)
  }

  predicate FromEvents(events: seq<Timed>, f: Fetch) {
    StartedByCall(events, f.date) && (f.outcome.Ended? ==> EndedByEvent(events, f.outcome.quote))
  }

  lemma StaysFromEvents(events: seq<Timed>, e: Timed, f: Fetch)
    requires FromEvents(events, f)
    ensures FromEvents(events + [e], f)
  {
    var i :| 0 <= i < |events| && events[i].event.Call? && events[i].event.date == f.date && events[i].event.enabled;
    assert (events + [e])[i] == events[i];
    if f.outcome.Ended? {
      var k :| 0 <= k < |events| && events[k].event == FetchEnds(f.outcome.quote);
      assert (events + [e])[k] == events[k];
    }
  }

  /** Every fetch was started by an enabled call for its date, and ended as some end of a fetch in the run says. So
      every quote that is answered came from upstream in this run, for the date it is answered under. */
  lemma {:induction false} FetchesComeFromEvents(events: seq<Timed>, n: nat)
    requires n < |Run(events).fetches|
    ensures FromEvents(events, Run(events).fetches[n])
    decreases |events|
  {
    if events != [] {
      var earlier, e := events[..|events| - 1], events[|events| - 1];
      var before, w := Run(earlier), Run(events);
      assert events == earlier + [e];
      if n < |before.fetches| {
        FetchesComeFromEvents(earlier, n);
        StaysFromEvents(earlier, e, before.fetches[n]);
        if w.fetches[n] != before.fetches[n] {
          assert e.event == FetchEnds(w.fetches[n].outcome.quote) && w.fetches[n].date == before.fetches[n].date;
          assert events[|earlier|] == e;
        }
      } else {
        assert e.event.Call? && w.fetches[n] == Fetch(e.event.date, Pending);
        assert events[|earlier|] == e && e.event.enabled;
      }
    }
  }

  // ----- The cache serves its day -----

  /** A quote has been fetched for the date, and nothing has replaced it. */
  predicate Holds(w: World, p: Payload) {
    w.s.dayCache == Some(p) && !Fetching(w.s) && (w.s.inFlight.Some? ==> w.s.inFlight.value.value == Some(p))
  }

  function RunFrom(w: World, events: seq<Timed>): World
    decreases |events|
  {
    if events == [] then w else RunFrom(After(w, events[0]), events[1..])
  }

  /** The calls among the events are all for this date. */
  predicate CallsOnly(events: seq<Timed>, date: int) {
    forall i :: 0 <= i < |events| && events[i].event.Call? ==> events[i].event.date == date
  }

  /** All answers after the first n are this one. */
  predicate AnsweredWith(given: seq<Given>, n: nat, p: Payload) {
    n <= |given| && forall i :: n <= i < |given| ==> given[i].payload == p
  }

  /** Asking for a date forgets the quote of any other date. */
  lemma CallForgetsOtherDates(events: seq<Timed>)
    requires events != [] && events[|events| - 1].event.Call?
    ensures Run(events).s.dayCache.Some? ==> Run(events).s.dayCache.value.date == events[|events| - 1].event.date
  {
  }

  lemma {:induction false} CacheServes(w: World, events: seq<Timed>, p: Payload)
    requires Holds(w, p) && CallsOnly(events, p.date)
    ensures
      var n := RunFrom(w, events);
      Holds(n, p) && n.marks == w.marks && n.fetches == w.fetches && AnsweredWith(n.given, |w.given|, p)
      && n.given[..|w.given|] == w.given
    decreases |events|
  {
    if events != [] {
      var next := After(w, events[0]);
      assert Holds(next, p) && AnsweredWith(next.given, |w.given|, p) && next.given[..|w.given|] == w.given;
      CacheServes(next, events[1..], p);
      var n := RunFrom(w, events);
      assert n == RunFrom(next, events[1..]);
      assert n.given[..|w.given|] == n.given[..|next.given|][..|w.given|];
      forall i | |w.given| <= i < |n.given|
        ensures n.given[i].payload == p
      {
        if i < |next.given| {
          assert n.given[i] == n.given[..|next.given|][i];
        }
      }
    }
  }

  /** Once a fetch has brought a quote, and until somebody asks for another date, every answer is that quote, for
      those who waited and for those who come later, and no other fetch starts; whatever events come in between. */
  lemma QuoteLastsItsDay(events: seq<Timed>, q: Fetched, clock: int, later: seq<Timed>)
    requires FetchIsDue(Run(events))
    requires CallsOnly(later, Run(events).s.inFlight.value.date)
    ensures
      var before := Run(events);
      var p := Payload(Upstream(q.text, q.author), before.s.inFlight.value.date);
      var n := RunFrom(After(before, Timed(FetchEnds(Some(q)), clock)), later);
      AnsweredWith(n.given, |before.given|, p) && n.marks == before.marks && |n.fetches| == |before.fetches|
  {
    var before := Run(events);
    var ended := After(before, Timed(FetchEnds(Some(q)), clock));
    var p := Payload(Upstream(q.text, q.author), before.s.inFlight.value.date);
    assert Holds(ended, p);
    CacheServes(ended, later, p);
  }
}
