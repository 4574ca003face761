/** The fixed-window rate limiter with its sweep of expired buckets. Times are whole milliseconds. */
module RateLimit {
  import opened Prelude

  datatype Rule = Rule(limit: int, windowMs: int)

  datatype Bucket = Bucket(count: int, resetAt: int)

  type Buckets = map<string, Bucket>

  datatype Verdict = Verdict(ok: bool, retryAfterSeconds: int)

  datatype Call = Call(key: string, rule: Rule, now: int)

  const SWEEP_ABOVE := 10_000

  function Swept(m: Buckets, now: int): Buckets {
    if |m| > SWEEP_ABOVE then map k | k in m && m[k].resetAt > now :: m[k] else m
  }

  /** Math.ceil(ms / 1000) */
  function CeilSeconds(ms: int): int { -((-ms) / 1000) }

  predicate Live(m: Buckets, key: string, now: int) {
    key in m && m[key].resetAt > now
  }

  /** The limiter without its sweep. */
  function Hit(m: Buckets, c: Call): (Buckets, Verdict) {
    if !Live(m, c.key, c.now) then
      (m[c.key := Bucket(1, c.now + c.rule.windowMs)], Verdict(true, 0))
    else
      var b := Bucket(m[c.key].count + 1, m[c.key].resetAt);
      (m[c.key := b], if b.count > c.rule.limit then Verdict(false, CeilSeconds(b.resetAt - c.now)) else Verdict(true, 0))
  }

  function Consumed(m: Buckets, c: Call): (Buckets, Verdict) {
    Hit(Swept(m, c.now), c)
  }

  class Limiter {
    var buckets: Buckets

    constructor ()
      ensures buckets == map[]
    {
      buckets := map[];
    }

    method Consume(key: string, rule: Rule, now: int) returns (verdict: Verdict)
      modifies this
      ensures (buckets, verdict) == Consumed(old(buckets), Call(key, rule, now))
    {
      if |buckets| > SWEEP_ABOVE {
        var unseen := buckets.Keys;
        while unseen != {}
          invariant unseen <= old(buckets).Keys
          invariant buckets == map k | k in old(buckets) && (k in unseen || old(buckets)[k].resetAt > now) :: old(buckets)[k]
          decreases unseen
        {
          var k :| k in unseen;
          unseen := unseen - {k};
          if buckets[k].resetAt <= now {
            buckets := map k' | k' in buckets && k' != k :: buckets[k'];
          }
        }
      }
      assert buckets == Swept(old(buckets), now);
      if key !in buckets || buckets[key].resetAt <= now {
        buckets := buckets[key := Bucket(1, now + rule.windowMs)];
        return Verdict(true, 0);
      }
      var b := Bucket(buckets[key].count + 1, buckets[key].resetAt);
      buckets := buckets[key := b];
      if b.count > rule.limit {
        return Verdict(false, CeilSeconds(b.resetAt - now));
      }
      return Verdict(true, 0);
    }

    method ResetRateLimits()
      modifies this
      ensures buckets == map[]
    {
      buckets := map[];
    }
  }

  // ----- Runs -----

  predicate ClockNeverGoesBack(calls: seq<Call>) {
    forall i, j :: 0 <= i < j < |calls| ==> calls[i].now <= calls[j].now
  }

  /** The buckets after a run of calls, with the sweep (`Consumed`) or without it (`Hit`). */
  function After(calls: seq<Call>, sweeping: bool): Buckets {
    if calls == [] then map[] else
      var before := After(calls[..|calls| - 1], sweeping);
      var c := calls[|calls| - 1];
      if sweeping then Consumed(before, c).0 else Hit(before, c).0
  }

  function VerdictAt(calls: seq<Call>, i: nat, sweeping: bool): Verdict
    requires i < |calls|
  {
    var before := After(calls[..i], sweeping);
    if sweeping then Consumed(before, calls[i]).1 else Hit(before, calls[i]).1
  }

  // ----- The sweep changes no answer -----

  ghost predicate SameLive(m: Buckets, p: Buckets, now: int) {
    forall k :: (Live(m, k, now) <==> Live(p, k, now)) && (Live(m, k, now) ==> m[k] == p[k])
  }

  lemma SweepKeepsLive(m: Buckets, now: int)
    ensures SameLive(Swept(m, now), m, now)
  {
  }

  lemma StepKeepsSameLive(m: Buckets, p: Buckets, c: Call)
    requires SameLive(m, p, c.now)
    ensures Consumed(m, c).1 == Hit(p, c).1
    ensures SameLive(Consumed(m, c).0, Hit(p, c).0, c.now)
  {
    var swept := Swept(m, c.now);
    SweepKeepsLive(m, c.now);
    assert SameLive(swept, p, c.now);
    var m', p' := Hit(swept, c).0, Hit(p, c).0;
    assert m'[c.key] == p'[c.key];
    forall k
      ensures (Live(m', k, c.now) <==> Live(p', k, c.now)) && (Live(m', k, c.now) ==> m'[k] == p'[k])
    {
      if k != c.key {
        assert Live(m', k, c.now) <==> Live(swept, k, c.now);
        assert Live(p', k, c.now) <==> Live(p, k, c.now);
      }
    }
  }

  lemma SameLiveLater(m: Buckets, p: Buckets, now: int, later: int)
    requires SameLive(m, p, now) && now <= later
    ensures SameLive(m, p, later)
  {
    forall k
      ensures (Live(m, k, later) <==> Live(p, k, later)) && (Live(m, k, later) ==> m[k] == p[k])
    {
      assert Live(m, k, later) ==> Live(m, k, now);
      assert Live(p, k, later) ==> Live(p, k, now);
    }
  }

  lemma {:induction false} RunKeepsSameLive(calls: seq<Call>, now: int)
    requires ClockNeverGoesBack(calls) && (calls != [] ==> calls[|calls| - 1].now <= now)
    ensures SameLive(After(calls, true), After(calls, false), now)
    decreases |calls|
  {
    if calls != [] {
      var c := calls[|calls| - 1];
      var earlier := calls[..|calls| - 1];
      RunKeepsSameLive(earlier, c.now);
      StepKeepsSameLive(After(earlier, true), After(earlier, false), c);
      SameLiveLater(After(calls, true), After(calls, false), c.now, now);
    }
  }

  /** Refinement: on every run whose clock never goes back, with any rules, each answer of the sweeping
      limiter is the answer of a limiter that never deletes a bucket. */
  lemma SweepChangesNoVerdict(calls: seq<Call>, i: nat)
    requires ClockNeverGoesBack(calls) && i < |calls|
    ensures VerdictAt(calls, i, true) == VerdictAt(calls, i, false)
  {
    RunKeepsSameLive(calls[..i], calls[i].now);
    StepKeepsSameLive(After(calls[..i], true), After(calls[..i], false), calls[i]);
  }

  // ----- How many calls are let through -----

  /** An accepted call of one key and the time its bucket was opened. */
  datatype Admission = Admission(time: int, openedAt: int)

  /** At least one call per bucket is let through, because the first one is never compared with the limit. */
  function Quota(rule: Rule): int { Max(rule.limit, 1) }

  function Logged(log: seq<Admission>, m: Buckets, c: Call, key: string): (r: seq<Admission>)
    ensures |r| <= |log| + 1
  {
    var (m', verdict) := Consumed(m, c);
    if c.key == key && verdict.ok then log + [Admission(c.now, m'[key].resetAt - c.rule.windowMs)] else log
  }

  function Admissions(calls: seq<Call>, key: string): (log: seq<Admission>)
    ensures |log| <= |calls|
  {
    if calls == [] then [] else
      var earlier := calls[..|calls| - 1];
      Logged(Admissions(earlier, key), After(earlier, true), calls[|calls| - 1], key)
  }

  predicate OneRule(calls: seq<Call>, key: string, rule: Rule) {
    forall i :: 0 <= i < |calls| && calls[i].key == key ==> calls[i].rule == rule
  }

  /** Buckets of the log are a window apart once a quota of calls lies between. */
  predicate Spaced(log: seq<Admission>, rule: Rule) {
    (forall i :: 0 <= i < |log| ==> log[i].openedAt <= log[i].time < log[i].openedAt + rule.windowMs)
    && (forall i, j :: 0 <= i && i + Quota(rule) <= j < |log| ==> log[i].openedAt + rule.windowMs <= log[j].openedAt)
  }

  predicate AllExpired(log: seq<Admission>, rule: Rule, now: int) {
    forall i :: 0 <= i < |log| ==> log[i].openedAt + rule.windowMs <= now
  }

  /** The log against the current bucket of the key: its last entries are the bucket's accepted calls,
      and all earlier ones belong to buckets at least a window older. */
  predicate LogMatches(log: seq<Admission>, m: Buckets, key: string, rule: Rule, now: int) {
    if key !in m then AllExpired(log, rule, now) else
      var b := m[key];
      var since := b.resetAt - rule.windowMs;
      var current := Min(b.count, Quota(rule));
      b.count >= 1 && current <= |log|
      && (forall i :: |log| - current <= i < |log| ==> log[i].openedAt == since)
      && (forall i :: 0 <= i < |log| - current ==> log[i].openedAt + rule.windowMs <= since)
  }

  lemma ExpiredLog(log: seq<Admission>, m: Buckets, key: string, rule: Rule, now: int, later: int)
    requires rule.windowMs > 0
    requires LogMatches(log, m, key, rule, now) && now <= later && !Live(m, key, later)
    ensures AllExpired(log, rule, later)
  {
  }

  lemma SweptLog(log: seq<Admission>, m: Buckets, key: string, rule: Rule, now: int, later: int)
    requires rule.windowMs > 0
    requires LogMatches(log, m, key, rule, now) && now <= later
    ensures LogMatches(log, Swept(m, later), key, rule, later)
  {
    if !Live(m, key, later) {
      ExpiredLog(log, m, key, rule, now, later);
    }
  }

  lemma OpenedLog(log: seq<Admission>, rule: Rule, now: int)
    requires rule.windowMs > 0
    requires Spaced(log, rule) && AllExpired(log, rule, now)
    ensures Spaced(log + [Admission(now, now)], rule)
  {
  }

  lemma CountedLog(log: seq<Admission>, m: Buckets, key: string, rule: Rule, now: int)
    requires rule.windowMs > 0 && Live(m, key, now) && m[key].count < rule.limit
    requires Spaced(log, rule) && LogMatches(log, m, key, rule, now)
    requires m[key].resetAt - rule.windowMs <= now
    ensures Spaced(log + [Admission(now, m[key].resetAt - rule.windowMs)], rule)
  {
    var since := m[key].resetAt - rule.windowMs;
    var longer := log + [Admission(now, since)];
    forall i, j | 0 <= i && i + Quota(rule) <= j < |longer|
      ensures longer[i].openedAt + rule.windowMs <= longer[j].openedAt
    {
      assert longer[i] == log[i];
    }
  }

  predicate LogInvariant(log: seq<Admission>, m: Buckets, key: string, rule: Rule, now: int) {
    Spaced(log, rule) && LogMatches(log, m, key, rule, now) && (key in m ==> m[key].resetAt - rule.windowMs <= now)
  }

  lemma OtherKeyStep(log: seq<Admission>, m: Buckets, c: Call, key: string, rule: Rule, now: int)
    requires rule.windowMs > 0 && c.key != key && now <= c.now && LogInvariant(log, m, key, rule, now)
    ensures LogInvariant(Logged(log, m, c, key), Consumed(m, c).0, key, rule, c.now)
  {
    SweptLog(log, m, key, rule, now, c.now);
  }

  function LoggedHit(log: seq<Admission>, m: Buckets, c: Call): seq<Admission> {
    var (m', verdict) := Hit(m, c);
    if verdict.ok then log + [Admission(c.now, m'[c.key].resetAt - c.rule.windowMs)] else log
  }

  lemma HitStep(log: seq<Admission>, swept: Buckets, c: Call)
    requires c.rule.windowMs > 0 && LogInvariant(log, swept, c.key, c.rule, c.now)
    ensures LogInvariant(LoggedHit(log, swept, c), Hit(swept, c).0, c.key, c.rule, c.now)
  {
    if !Live(swept, c.key, c.now) {
      ExpiredLog(log, swept, c.key, c.rule, c.now, c.now);
      OpenedLog(log, c.rule, c.now);
    } else if swept[c.key].count < c.rule.limit {
      CountedLog(log, swept, c.key, c.rule, c.now);
    }
  }

  lemma LoggedIsLoggedHit(log: seq<Admission>, m: Buckets, c: Call)
    ensures Logged(log, m, c, c.key) == LoggedHit(log, Swept(m, c.now), c)
    ensures Consumed(m, c).0 == Hit(Swept(m, c.now), c).0
  {
  }

  lemma SameKeyStep(log: seq<Admission>, m: Buckets, c: Call, now: int)
    requires c.rule.windowMs > 0 && now <= c.now && LogInvariant(log, m, c.key, c.rule, now)
    ensures LogInvariant(Logged(log, m, c, c.key), Consumed(m, c).0, c.key, c.rule, c.now)
  {
    SweptLog(log, m, c.key, c.rule, now, c.now);
    HitStep(log, Swept(m, c.now), c);
    LoggedIsLoggedHit(log, m, c);
  }

  lemma LogStep(log: seq<Admission>, m: Buckets, c: Call, key: string, rule: Rule, now: int)
    requires rule.windowMs > 0 && now <= c.now && LogInvariant(log, m, key, rule, now)
    requires c.key == key ==> c.rule == rule
    ensures LogInvariant(Logged(log, m, c, key), Consumed(m, c).0, key, rule, c.now)
  {
    if c.key == key {
      SameKeyStep(log, m, c, now);
    } else {
      OtherKeyStep(log, m, c, key, rule, now);
    }
  }

  lemma {:induction false} RunKeepsLog(calls: seq<Call>, key: string, rule: Rule, now: int)
    requires ClockNeverGoesBack(calls) && OneRule(calls, key, rule) && rule.windowMs > 0
    requires calls != [] ==> calls[|calls| - 1].now == now
    ensures LogInvariant(Admissions(calls, key), After(calls, true), key, rule, now)
    decreases |calls|
  {
    if calls != [] {
      var earlier := calls[..|calls| - 1];
      var before := if earlier == [] then now else earlier[|earlier| - 1].now;
      RunKeepsLog(earlier, key, rule, before);
      LogStep(Admissions(earlier, key), After(earlier, true), calls[|calls| - 1], key, rule, before);
    }
  }

  function CountIf(log: seq<Admission>, p: Admission -> bool): nat {
    |Filter(log, p)|
  }

  lemma {:induction false} CountNone(log: seq<Admission>, p: Admission -> bool)
    requires forall i :: 0 <= i < |log| ==> !p(log[i])
    ensures CountIf(log, p) == 0
  {
    if log != [] {
      CountNone(log[1..], p);
    }
  }

  /** Entries that always lie less than n apart are at most n. */
  lemma {:induction false} CountWithinReach(log: seq<Admission>, p: Admission -> bool, n: nat)
    requires forall i, j :: 0 <= i < j < |log| && p(log[i]) && p(log[j]) ==> j - i < n
    requires n >= 1
    ensures CountIf(log, p) <= n
    decreases |log|
  {
    if log != [] {
      if !p(log[0]) {
        CountWithinReach(log[1..], p, n);
      } else if n < |log| {
        assert log == log[..n] + log[n..];
        FilterConcat(log[..n], log[n..], p);
        forall i | 0 <= i < |log[n..]|
          ensures !p(log[n..][i])
        {
          assert log[n..][i] == log[n + i];
        }
        CountNone(log[n..], p);
      }
    }
  }

  function InSpan(from: int, to: int): Admission -> bool { (a: Admission) => from <= a.time <= to }

  function OpenedAt(time: int): Admission -> bool { (a: Admission) => a.openedAt == time }

  lemma TwoQuotasApart(log: seq<Admission>, rule: Rule, i: int, j: int)
    requires Spaced(log, rule) && 0 <= i && i + 2 * Quota(rule) <= j < |log|
    ensures log[i].time + rule.windowMs < log[j].time
  {
    var between := i + Quota(rule);
    assert log[i].openedAt + rule.windowMs <= log[between].openedAt;
    assert log[between].openedAt + rule.windowMs <= log[j].openedAt;
  }

  lemma SpacedLogIsSparse(log: seq<Admission>, rule: Rule, from: int)
    requires Spaced(log, rule)
    ensures forall i, j :: 0 <= i < j < |log| && from <= log[i].time && log[j].time <= from + rule.windowMs ==> j - i < 2 * Quota(rule)
  {
    forall i, j | 0 <= i && i + 2 * Quota(rule) <= j < |log|
      ensures log[i].time + rule.windowMs < log[j].time
    {
      TwoQuotasApart(log, rule, i, j);
    }
  }

  /** How many calls of the key are let through in the span of one window from `from`, both ends included. */
  function AcceptedWithin(calls: seq<Call>, key: string, windowMs: int, from: int): nat {
    CountIf(Admissions(calls, key), InSpan(from, from + windowMs))
  }

  /** How many calls of the key its bucket opened at that time lets through. */
  function AcceptedByBucket(calls: seq<Call>, key: string, openedAt: int): nat {
    CountIf(Admissions(calls, key), OpenedAt(openedAt))
  }

  /** The guarantee of the limiter over every run whose clock never goes back and that uses one rule for
      the key: any time span of one window, both ends included, holds at most twice the quota of accepted
      calls, and the lifetime of one bucket at most the quota. */
  lemma AcceptedCallsAreBounded(calls: seq<Call>, key: string, rule: Rule, from: int, openedAt: int)
    requires ClockNeverGoesBack(calls) && OneRule(calls, key, rule) && rule.windowMs > 0
    ensures AcceptedWithin(calls, key, rule.windowMs, from) <= 2 * Quota(rule)
    ensures AcceptedByBucket(calls, key, openedAt) <= Quota(rule)
  {
    var log := Admissions(calls, key);
    RunKeepsLog(calls, key, rule, if calls == [] then 0 else calls[|calls| - 1].now);
    SpacedLogIsSparse(log, rule, from);
    CountWithinReach(log, InSpan(from, from + rule.windowMs), 2 * Quota(rule));
    CountWithinReach(log, OpenedAt(openedAt), Quota(rule));
  }

  /** Over every run of this rule for the key, no bucket lets more calls through than the limit. */
  ghost predicate BucketsKeepTheLimit(key: string, rule: Rule) {
    forall calls, openedAt :: ClockNeverGoesBack(calls) && OneRule(calls, key, rule) ==>
      AcceptedByBucket(calls, key, openedAt) <= rule.limit
  }

  /** Over every run of this rule for the key, no span of one window lets through more than twice the limit. */
  ghost predicate SpansKeepTwiceTheLimit(key: string, rule: Rule) {
    forall calls, from :: ClockNeverGoesBack(calls) && OneRule(calls, key, rule) ==>
      AcceptedWithin(calls, key, rule.windowMs, from) <= 2 * rule.limit
  }

  /** A single call is let through whatever the limit. */
  lemma FirstCallIsAdmitted(key: string, rule: Rule)
    requires rule.windowMs > 0
    ensures ClockNeverGoesBack([Call(key, rule, 0)]) && OneRule([Call(key, rule, 0)], key, rule)
    ensures AcceptedByBucket([Call(key, rule, 0)], key, 0) == 1
    ensures AcceptedWithin([Call(key, rule, 0)], key, rule.windowMs, 0) == 1
  {
    var calls := [Call(key, rule, 0)];
    assert calls[..0] == [];
    assert Admissions([], key) == [] && After([], true) == map[];
    var log := Admissions(calls, key);
    assert log == [Admission(0, 0)];
    assert log[1..] == [];
  }

  /** The limit itself is kept, by every bucket and (twice) by every window, if and only if it is at least 1. */
  lemma LimitIsKeptFromOne(key: string, rule: Rule)
    requires rule.windowMs > 0
    ensures BucketsKeepTheLimit(key, rule) <==> rule.limit >= 1
    ensures SpansKeepTwiceTheLimit(key, rule) <==> rule.limit >= 1
  {
    if rule.limit >= 1 {
      forall calls, at | ClockNeverGoesBack(calls) && OneRule(calls, key, rule)
        ensures AcceptedByBucket(calls, key, at) <= rule.limit
        ensures AcceptedWithin(calls, key, rule.windowMs, at) <= 2 * rule.limit
      {
        AcceptedCallsAreBounded(calls, key, rule, at, at);
      }
    } else {
      FirstCallIsAdmitted(key, rule);
    }
  }

  // ----- Which calls are refused -----

  lemma {:induction false} CountEvery(log: seq<Admission>, p: Admission -> bool)
    requires forall i :: 0 <= i < |log| ==> p(log[i])
    ensures CountIf(log, p) == |log|
  {
    if log != [] {
      CountEvery(log[1..], p);
    }
  }

  /** The log of a key with a bucket holds, for the time the bucket was opened, its accepted calls and no others. */
  lemma CurrentBucketCount(log: seq<Admission>, m: Buckets, key: string, rule: Rule, now: int)
    requires rule.windowMs > 0 && LogMatches(log, m, key, rule, now) && key in m
    ensures CountIf(log, OpenedAt(m[key].resetAt - rule.windowMs)) == Min(m[key].count, Quota(rule))
  {
    var since, current := m[key].resetAt - rule.windowMs, Min(m[key].count, Quota(rule));
    var n := |log| - current;
    assert log == log[..n] + log[n..];
    FilterConcat(log[..n], log[n..], OpenedAt(since));
    CountNone(log[..n], OpenedAt(since));
    CountEvery(log[n..], OpenedAt(since));
  }

  /** A bucket time that lies within a window of now and is not that of the current bucket has no calls. */
  lemma OtherBucketCount(log: seq<Admission>, m: Buckets, key: string, rule: Rule, now: int, at: int)
    requires rule.windowMs > 0 && LogInvariant(log, m, key, rule, now) && at <= now < at + rule.windowMs
    requires key in m ==> m[key].resetAt - rule.windowMs != at
    ensures CountIf(log, OpenedAt(at)) == 0
  {
    CountNone(log, OpenedAt(at));
  }

  /** What the verdict of a call with this rule is, in terms of the log. */
  lemma VerdictFromLog(log: seq<Admission>, m: Buckets, c: Call)
    requires c.rule.windowMs > 0 && LogInvariant(log, m, c.key, c.rule, c.now)
    ensures Hit(m, c).1.ok <==>
      forall at :: at <= c.now < at + c.rule.windowMs ==> CountIf(log, OpenedAt(at)) < Quota(c.rule)
  {
    if c.key in m {
      var since := m[c.key].resetAt - c.rule.windowMs;
      CurrentBucketCount(log, m, c.key, c.rule, c.now);
      assert Live(m, c.key, c.now) <==> c.now < since + c.rule.windowMs;
    }
    forall at | at <= c.now < at + c.rule.windowMs && !(c.key in m && m[c.key].resetAt - c.rule.windowMs == at)
      ensures CountIf(log, OpenedAt(at)) == 0
    {
      OtherBucketCount(log, m, c.key, c.rule, c.now, at);
    }
  }

  /** Exactly which calls are refused, over every run whose clock never goes back and that uses one rule for the
      key: a call is accepted if and only if no bucket opened within the last window has let a full quota through. */
  lemma RefusedOnlyAfterAFullQuota(calls: seq<Call>, i: nat, key: string, rule: Rule)
    requires ClockNeverGoesBack(calls) && OneRule(calls, key, rule) && rule.windowMs > 0
    requires i < |calls| && calls[i].key == key
    ensures VerdictAt(calls, i, true).ok <==>
      forall openedAt :: openedAt <= calls[i].now < openedAt + rule.windowMs ==>
        AcceptedByBucket(calls[..i], key, openedAt) < Quota(rule)
  {
    var earlier, c := calls[..i], calls[i];
    var before := if earlier == [] then c.now else earlier[i - 1].now;
    var log, m := Admissions(earlier, key), After(earlier, true);
    RunKeepsLog(earlier, key, rule, before);
    SweptLog(log, m, key, rule, before, c.now);
    VerdictFromLog(log, Swept(m, c.now), c);
    assert VerdictAt(calls, i, true).ok <==>
      forall at :: at <= c.now < at + rule.windowMs ==> CountIf(log, OpenedAt(at)) < Quota(rule);
    forall openedAt
      ensures AcceptedByBucket(earlier, key, openedAt) == CountIf(log, OpenedAt(openedAt))
    {
    }
  }

  // ----- Retry-After -----

  lemma CeilIsLeast(ms: int, s: int)
    ensures s >= CeilSeconds(ms) <==> 1000 * s >= ms
  {
  }

  /** The reported wait is exact: the same call repeated s whole seconds later, with no call in between,
      is accepted if and only if s is at least that wait. */
  lemma RetryAfterIsExact(m: Buckets, c: Call, s: nat)
    requires !Consumed(m, c).1.ok
    ensures Consumed(Consumed(m, c).0, c.(now := c.now + 1000 * s)).1.ok <==> s >= Consumed(m, c).1.retryAfterSeconds
  {
    var (m', verdict) := Consumed(m, c);
    var later := c.(now := c.now + 1000 * s);
    var reset := m'[c.key].resetAt;
    SweepKeepsLive(m', later.now);
    CeilIsLeast(reset - c.now, s);
    assert Live(Swept(m', later.now), c.key, later.now) <==> Live(m', c.key, later.now);
  }

  function RunFrom(m: Buckets, calls: seq<Call>): Buckets
    decreases |calls|
  {
    if calls == [] then m else RunFrom(Consumed(m, calls[0]).0, calls[1..])
  }

  /** Until `resetAt` the key has its bucket with that reset time; from then on it may be gone. */
  predicate KeepsReset(m: Buckets, key: string, resetAt: int, now: int) {
    (now < resetAt ==> key in m) && (key in m ==> m[key].resetAt == resetAt)
  }

  lemma KeepsResetStep(m: Buckets, c: Call, key: string, resetAt: int, now: int)
    requires KeepsReset(m, key, resetAt, now) && now <= c.now && (c.key == key ==> c.now < resetAt)
    ensures KeepsReset(Consumed(m, c).0, key, resetAt, c.now)
  {
  }

  lemma {:induction false} KeepsResetRun(m: Buckets, calls: seq<Call>, key: string, resetAt: int, now: int, later: int)
    requires KeepsReset(m, key, resetAt, now) && now <= later && ClockNeverGoesBack(calls)
    requires forall i :: 0 <= i < |calls| ==> now <= calls[i].now <= later && (calls[i].key == key ==> calls[i].now < resetAt)
    ensures KeepsReset(RunFrom(m, calls), key, resetAt, later)
    decreases |calls|
  {
    if calls != [] {
      KeepsResetStep(m, calls[0], key, resetAt, now);
      KeepsResetRun(Consumed(m, calls[0]).0, calls[1..], key, resetAt, calls[0].now, later);
    }
  }

  /** The wait is not lengthened by calls made too early: after a rejection, whatever other keys do and
      however often the same key calls before its bucket expires, a call made once the reported wait
      is over is accepted. */
  lemma EarlyCallsDoNotExtendTheWait(m: Buckets, c: Call, between: seq<Call>, later: Call)
    requires !Consumed(m, c).1.ok && later.key == c.key
    requires later.now >= c.now + 1000 * Consumed(m, c).1.retryAfterSeconds
    requires ClockNeverGoesBack(between)
    requires forall i :: 0 <= i < |between| ==>
      c.now <= between[i].now <= later.now && (between[i].key == c.key ==> between[i].now < Consumed(m, c).0[c.key].resetAt)
    ensures Consumed(RunFrom(Consumed(m, c).0, between), later).1.ok
  {
    var (rejected, verdict) := Consumed(m, c);
    var resetAt := rejected[c.key].resetAt;
    CeilIsLeast(resetAt - c.now, verdict.retryAfterSeconds);
    KeepsResetRun(rejected, between, c.key, resetAt, c.now, later.now);
  }
}
