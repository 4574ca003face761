/** Business dates in a zone. A calendar date is its day number, an instant is milliseconds since the
    epoch, and a zone is an arbitrary function from instants to its offset from UTC in milliseconds. */
module ReportingDate {

  const SECOND := 1000
  const DAY := 86_400_000

  type Zone = int -> int

  /** zonedParts read back with Date.UTC: the local reading, cut to whole seconds. */
  function LocalReading(zone: Zone, instant: int): int {
    (instant + zone(instant)) / SECOND * SECOND
  }

  function BusinessDate(zone: Zone, instant: int): int {
    LocalReading(zone, instant) / DAY
  }

  function AddDays(date: int, days: int): int { date + days }

  function DaysBetween(a: int, b: int): int { b - a }

  /** One correction of the guess by the offset found at `instant`. */
  function Correct(zone: Zone, guess: int, instant: int): int {
    guess - (LocalReading(zone, instant) - instant)
  }

  function StartOfBusinessDay(zone: Zone, date: int): int {
    var guess := date * DAY;
    Correct(zone, guess, Correct(zone, guess, guess))
  }

  method ComputeStartOfBusinessDay(zone: Zone, date: int) returns (instant: int)
    ensures instant == StartOfBusinessDay(zone, date)
  {
    var utcGuess := date * DAY;
    instant := utcGuess;
    for i := 0 to 2
      invariant i == 0 ==> instant == utcGuess
      invariant i == 1 ==> instant == Correct(zone, utcGuess, utcGuess)
      invariant i == 2 ==> instant == StartOfBusinessDay(zone, date)
    {
      var asUtc := LocalReading(zone, instant);
      instant := utcGuess - (asUtc - instant);
    }
  }

  // ----- Zones that change their offset at most once around a date -----

  /** Offsets are whole seconds and stay within a day. */
  ghost predicate IsZone(zone: Zone) {
    forall i {:trigger zone(i)} :: zone(i) % SECOND == 0 && -DAY < zone(i) < DAY
  }

  /** Within a day of UTC midnight of `date`, the offset is `before` until `change` and `after` from then. */
  ghost predicate ChangesOnceNear(zone: Zone, date: int, change: int, before: int, after: int) {
    && -DAY < before < DAY && -DAY < after < DAY
    && forall i {:trigger zone(i)} :: date * DAY - DAY <= i <= date * DAY + DAY ==> zone(i) == if i < change then before else after
  }

  ghost predicate IsLocalMidnight(zone: Zone, date: int, instant: int) {
    instant + zone(instant) == date * DAY
  }

  lemma WholeSecondOffsets(zone: Zone, instant: int)
    requires IsZone(zone) && instant % SECOND == 0
    ensures LocalReading(zone, instant) == instant + zone(instant)
  {
    assert zone(instant) % SECOND == 0;
  }

  /** What the two corrections compute: the offset at UTC midnight picks a first candidate, and the
      offset there picks the result. */
  lemma StartUnfolds(zone: Zone, date: int)
    requires IsZone(zone)
    ensures
      var guess := date * DAY;
      var first := guess - zone(guess);
      StartOfBusinessDay(zone, date) == guess - zone(first) && -DAY < first - guess < DAY
  {
    var guess := date * DAY;
    assert guess % SECOND == 0;
    WholeSecondOffsets(zone, guess);
    var first := guess - zone(guess);
    assert zone(guess) % SECOND == 0;
    assert first % SECOND == 0;
    WholeSecondOffsets(zone, first);
  }

  /** The result by cases: with the change not after UTC midnight the later candidate is kept whenever
      it lies after the change, and otherwise the earlier one; and the other way round. */
  lemma StartByCases(zone: Zone, date: int, change: int, before: int, after: int)
    requires IsZone(zone) && ChangesOnceNear(zone, date, change, before, after)
    ensures
      var guess := date * DAY;
      StartOfBusinessDay(zone, date) ==
        if guess < change then (if guess - before < change then guess - before else guess - after)
        else if guess - after < change then guess - before else guess - after
  {
    StartUnfolds(zone, date);
    var guess := date * DAY;
    assert zone(guess) == if guess < change then before else after;
    var first := guess - zone(guess);
    assert zone(first) == if first < change then before else after;
  }

  lemma MidnightsNear(zone: Zone, date: int, change: int, before: int, after: int, instant: int)
    requires IsZone(zone) && ChangesOnceNear(zone, date, change, before, after)
    ensures IsLocalMidnight(zone, date, instant)
      <==> (instant == date * DAY - before && instant < change) || (instant == date * DAY - after && instant >= change)
  {
    assert -DAY < zone(instant) < DAY;
  }

  /** The two-iteration loop finds a local midnight whenever there is one: the result reads exactly that
      date at 00:00:00 if and only if some instant does. */
  lemma StartFindsMidnight(zone: Zone, date: int, change: int, before: int, after: int)
    requires IsZone(zone) && ChangesOnceNear(zone, date, change, before, after)
    ensures IsLocalMidnight(zone, date, StartOfBusinessDay(zone, date))
      <==> exists instant :: IsLocalMidnight(zone, date, instant)
  {
    StartByCases(zone, date, change, before, after);
    if instant :| IsLocalMidnight(zone, date, instant) {
      MidnightsNear(zone, date, change, before, after, instant);
      MidnightsNear(zone, date, change, before, after, StartOfBusinessDay(zone, date));
    }
  }

  /** There is none exactly when a forward jump skips it. */
  predicate SkipsMidnight(date: int, change: int, before: int, after: int) {
    date * DAY - after < change <= date * DAY - before
  }

  predicate RepeatsMidnight(date: int, change: int, before: int, after: int) {
    date * DAY - before < change <= date * DAY - after
  }

  lemma NoMidnightMeansSkipped(zone: Zone, date: int, change: int, before: int, after: int)
    requires IsZone(zone) && ChangesOnceNear(zone, date, change, before, after)
    ensures (exists instant :: IsLocalMidnight(zone, date, instant)) <==> !SkipsMidnight(date, change, before, after)
  {
    var guess := date * DAY;
    MidnightsNear(zone, date, change, before, after, guess - before);
    MidnightsNear(zone, date, change, before, after, guess - after);
    if instant :| IsLocalMidnight(zone, date, instant) {
      MidnightsNear(zone, date, change, before, after, instant);
    }
  }

  // ----- Start of day as a boundary -----

  /** `start` separates the instants whose business date is at least `date` from the earlier ones. */
  ghost predicate Separates(zone: Zone, date: int, start: int) {
    forall i :: i >= start <==> BusinessDate(zone, i) >= date
  }

  lemma SecondsOrder(n: int, local: int)
    requires local >= n * SECOND
    ensures local / SECOND * SECOND >= n * SECOND
  {
  }

  lemma DayOrder(date: int, cut: int)
    ensures cut / DAY >= date <==> cut >= date * DAY
  {
  }

  lemma DateOfReading(zone: Zone, date: int, i: int)
    ensures BusinessDate(zone, i) >= date <==> i + zone(i) >= date * DAY
  {
    var local := i + zone(i);
    var cut := local / SECOND * SECOND;
    assert local == cut + local % SECOND;
    assert date * DAY == date * 86_400 * SECOND;
    if local >= date * DAY {
      SecondsOrder(date * 86_400, local);
    }
    DayOrder(date, cut);
  }

  /** On which side of the boundary an instant lies, given one change of offset near the date. */
  lemma SideOfMidnight(zone: Zone, date: int, change: int, before: int, after: int, i: int)
    requires IsZone(zone) && ChangesOnceNear(zone, date, change, before, after)
    ensures BusinessDate(zone, i) >= date
      <==> if date * DAY - DAY <= i <= date * DAY + DAY then i >= date * DAY - (if i < change then before else after)
           else i > date * DAY
  {
    DateOfReading(zone, date, i);
    assert -DAY < zone(i) < DAY;
  }

  /** The exact condition under which startOfBusinessDay is the boundary of its date. Usually local
      midnight is neither skipped nor repeated. It may be skipped by a jump at that very midnight that
      is not after UTC midnight, or repeated by a jump back to that very midnight that is after UTC
      midnight. (A zone west of UTC that skips midnight gets 23:00 of the day before.) */
  predicate CleanStart(date: int, change: int, before: int, after: int) {
    (RepeatsMidnight(date, change, before, after) ==> change == date * DAY - after && date * DAY < change)
    && (SkipsMidnight(date, change, before, after) ==> change == date * DAY - before && change <= date * DAY)
  }

  lemma CleanStartSeparates(zone: Zone, date: int, change: int, before: int, after: int)
    requires IsZone(zone) && ChangesOnceNear(zone, date, change, before, after)
    requires CleanStart(date, change, before, after)
    ensures Separates(zone, date, StartOfBusinessDay(zone, date))
  {
    var start := StartOfBusinessDay(zone, date);
    StartByCases(zone, date, change, before, after);
    forall i
      ensures i >= start <==> BusinessDate(zone, i) >= date
    {
      SideOfMidnight(zone, date, change, before, after, i);
    }
  }

  lemma UncleanStartFails(zone: Zone, date: int, change: int, before: int, after: int)
    requires IsZone(zone) && ChangesOnceNear(zone, date, change, before, after)
    requires !CleanStart(date, change, before, after)
    ensures !Separates(zone, date, StartOfBusinessDay(zone, date))
  {
    var guess, start := date * DAY, StartOfBusinessDay(zone, date);
    StartByCases(zone, date, change, before, after);
    SideOfMidnight(zone, date, change, before, after, change);
    SideOfMidnight(zone, date, change, before, after, change - 1);
    SideOfMidnight(zone, date, change, before, after, guess - before);
    SideOfMidnight(zone, date, change, before, after, start);
  }

  /** startOfBusinessDay is the boundary of its date if and only if the start is clean. */
  lemma StartIsBoundary(zone: Zone, date: int, change: int, before: int, after: int)
    requires IsZone(zone) && ChangesOnceNear(zone, date, change, before, after)
    ensures Separates(zone, date, StartOfBusinessDay(zone, date)) <==> CleanStart(date, change, before, after)
  {
    if CleanStart(date, change, before, after) {
      CleanStartSeparates(zone, date, change, before, after);
    } else {
      UncleanStartFails(zone, date, change, before, after);
    }
  }

  // ----- Windows -----

  datatype BusinessWindow = BusinessWindow(startDate: int, endDate: int, start: int, endExclusive: int)

  function WindowOf(zone: Zone, now: int, days: int): BusinessWindow {
    var endDate := BusinessDate(zone, now);
    var startDate := AddDays(endDate, -(days - 1));
    BusinessWindow(startDate, endDate, StartOfBusinessDay(zone, startDate), StartOfBusinessDay(zone, AddDays(endDate, 1)))
  }

  /** The offset changes at most once near the date, and its start is clean. */
  ghost predicate CleanDate(zone: Zone, date: int) {
    exists change, before, after :: ChangesOnceNear(zone, date, change, before, after) && CleanStart(date, change, before, after)
  }

  lemma CleanDateSeparates(zone: Zone, date: int)
    requires IsZone(zone) && CleanDate(zone, date)
    ensures Separates(zone, date, StartOfBusinessDay(zone, date))
  {
    var change, before, after :| ChangesOnceNear(zone, date, change, before, after) && CleanStart(date, change, before, after);
    CleanStartSeparates(zone, date, change, before, after);
  }

  /** An instant lies in the window if and only if its business date lies in the window's dates; there
      are exactly `days` of them and `now` is on the last. */
  lemma WindowHoldsItsDates(zone: Zone, now: int, days: int, i: int)
    requires IsZone(zone)
    requires CleanDate(zone, WindowOf(zone, now, days).startDate) && CleanDate(zone, WindowOf(zone, now, days).endDate + 1)
    ensures
      var w := WindowOf(zone, now, days);
      (w.start <= i < w.endExclusive <==> w.startDate <= BusinessDate(zone, i) <= w.endDate)
      && DaysBetween(w.startDate, w.endDate) + 1 == days && BusinessDate(zone, now) == w.endDate
  {
    var w := WindowOf(zone, now, days);
    CleanDateSeparates(zone, w.startDate);
    CleanDateSeparates(zone, w.endDate + 1);
  }

  /** Offset -3 hours that becomes -2 hours at 03:00 UTC of day 0, when the clock would show midnight. */
  function SkippingZone(): Zone { i => if i < 10_800_000 then -10_800_000 else -7_200_000 }

  /** In this zone the start of day 0 comes out as 23:00 of the day before. */
  lemma SkippedMidnightExample()
    ensures IsZone(SkippingZone()) && ChangesOnceNear(SkippingZone(), 0, 10_800_000, -10_800_000, -7_200_000)
    ensures StartOfBusinessDay(SkippingZone(), 0) == 7_200_000
    ensures BusinessDate(SkippingZone(), StartOfBusinessDay(SkippingZone(), 0)) == -1
    ensures !Separates(SkippingZone(), 0, StartOfBusinessDay(SkippingZone(), 0))
  {
    StartIsBoundary(SkippingZone(), 0, 10_800_000, -10_800_000, -7_200_000);
  }
}
