/**
 * The sliding-window limiter on gateway connections. The stored per-key lists are
 * pruned by every accepted attempt and by a background cleanup; the specification
 * keeps every accepted attempt forever. Each critical section is one step.
 */
module RateLimiter {
  import opened Common

  /** One minute in nanoseconds. */
  const WINDOW: int := 60_000_000_000

  /** A point in time, as a number of nanoseconds. */
  datatype Time = Time(ns: int) {
    function MinuteBefore(): Time {
      Time(ns - WINDOW)
    }
  }

  type Attempts = map<string, seq<Time>>

  function After(cutoff: Time): Time -> bool {
    (t: Time) => t.ns > cutoff.ns
  }

  function Recent(times: seq<Time>, cutoff: Time): seq<Time> {
    Filter(times, After(cutoff))
  }

  function Stored(m: Attempts, key: string): seq<Time> {
    if key in m then m[key] else []
  }

  /** One attempt: the new lists and whether the connection is allowed. */
  function Check(m: Attempts, limit: int, key: string, now: Time): (Attempts, bool) {
    var recent := Recent(Stored(m, key), now.MinuteBefore());
    if |recent| >= limit then (m, false) else (m[key := recent + [now]], true)
  }

  /** One cleanup: lists keep their recent entries, keys without any go. */
  function Cleanup(m: Attempts, now: Time): Attempts {
    map k | k in m && Recent(m[k], now.MinuteBefore()) != [] :: Recent(m[k], now.MinuteBefore())
  }

  // ---- The controller's code ---------------------------------------------------------

  method KeepRecent(times: seq<Time>, cutoff: Time) returns (recent: seq<Time>)
    ensures recent == Recent(times, cutoff)
  {
    recent := [];
    for i := 0 to |times|
      invariant recent == Recent(times[..i], cutoff)
    {
      FilterSnoc(times[..i], times[i], After(cutoff));
      assert times[..i + 1] == times[..i] + [times[i]];
      if times[i].ns > cutoff.ns {
        recent := recent + [times[i]];
      }
    }
    assert times[..|times|] == times;
  }

  class Limiter {
    var attempts: Attempts
    const limit: int

    constructor (limit: int)
      ensures this.limit == limit && attempts == map[]
    {
      this.limit := limit;
      attempts := map[];
    }

    method CheckRateLimit(key: string, now: Time) returns (allowed: bool)
      modifies this
      ensures (attempts, allowed) == Check(old(attempts), limit, key, now)
    {
      var recent := KeepRecent(Stored(attempts, key), now.MinuteBefore());
      if |recent| >= limit {
        return false;
      }
      attempts := attempts[key := recent + [now]];
      return true;
    }

    method CleanupRateLimitMap(now: Time)
      modifies this
      ensures attempts == Cleanup(old(attempts), now)
    {
      var cutoff := now.MinuteBefore();
      ghost var before := attempts;
      var keys := attempts.Keys;
      while keys != {}
        invariant keys <= attempts.Keys <= before.Keys
        invariant forall k | k in keys :: attempts[k] == before[k]
        invariant forall k | k in before && k !in keys ::
                    if Recent(before[k], cutoff) == [] then k !in attempts
                    else k in attempts && attempts[k] == Recent(before[k], cutoff)
        decreases keys
      {
        var key :| key in keys;
        keys := keys - {key};
        var recent := KeepRecent(attempts[key], cutoff);
        if |recent| == 0 {
          attempts := attempts - {key};
        } else if |recent| < |attempts[key]| {
          attempts := attempts[key := recent];
        } else {
          NothingFiltered(attempts[key], cutoff);
        }
      }
      assert attempts == Cleanup(before, now);
    }
  }

  /** A filter that keeps as many entries as there are keeps them all. */
  lemma {:induction false} NothingFiltered(times: seq<Time>, cutoff: Time)
    requires |Recent(times, cutoff)| >= |times|
    ensures Recent(times, cutoff) == times
  {
    if times != [] {
      NothingFiltered(times[1..], cutoff);
    }
  }

  // ---- The specification: an unbounded log of accepted attempts --------------------------

  datatype Event = Attempt(key: string, now: Time) | Sweep(now: Time)

  datatype Entry = Entry(key: string, time: Time)

  function TimesOf(log: seq<Entry>, key: string): seq<Time> {
    if log == [] then []
    else
      var earlier, last := TimesOf(log[..|log| - 1], key), log[|log| - 1];
      if last.key == key then earlier + [last.time] else earlier
  }

  /** Fewer than `limit` accepted attempts of the key lie within the last minute. */
  predicate Allowed(log: seq<Entry>, limit: int, key: string, now: Time) {
    |Recent(TimesOf(log, key), now.MinuteBefore())| < limit
  }

  function NextLog(log: seq<Entry>, limit: int, e: Event): seq<Entry> {
    if e.Attempt? && Allowed(log, limit, e.key, e.now) then log + [Entry(e.key, e.now)] else log
  }

  function Log(events: seq<Event>, limit: int): seq<Entry> {
    if events == [] then [] else NextLog(Log(events[..|events| - 1], limit), limit, events[|events| - 1])
  }

  function NextLists(m: Attempts, limit: int, e: Event): Attempts {
    match e
    case Attempt(key, now) => Check(m, limit, key, now).0
    case Sweep(now) => Cleanup(m, now)
  }

  /** The lists the controller holds after a run. */
  function Lists(events: seq<Event>, limit: int): Attempts {
    if events == [] then map[] else NextLists(Lists(events[..|events| - 1], limit), limit, events[|events| - 1])
  }

  /** Whether the controller allows the last attempt of a run. */
  predicate LastAllowed(events: seq<Event>, limit: int)
    requires events != [] && events[|events| - 1].Attempt?
  {
    var e := events[|events| - 1];
    Check(Lists(events[..|events| - 1], limit), limit, e.key, e.now).1
  }

  predicate ClockRuns(events: seq<Event>) {
    forall i, j | 0 <= i < j < |events| :: events[i].now.ns <= events[j].now.ns
  }

  // ---- Refinement -----------------------------------------------------------------------

  /** The lists and the log agree on everything newer than the cutoff. */
  ghost predicate Agree(m: Attempts, log: seq<Entry>, cutoff: Time) {
    forall key :: Recent(Stored(m, key), cutoff) == Recent(TimesOf(log, key), cutoff)
  }

  lemma RecentOfRecent(times: seq<Time>, cutoff: Time, later: Time)
    requires cutoff.ns <= later.ns
    ensures Recent(Recent(times, cutoff), later) == Recent(times, later)
  {
    FilterFilter(times, After(cutoff), After(later), After(later));
  }

  lemma AgreeLater(m: Attempts, log: seq<Entry>, cutoff: Time, later: Time)
    requires Agree(m, log, cutoff) && cutoff.ns <= later.ns
    ensures Agree(m, log, later)
  {
    forall key ensures Recent(Stored(m, key), later) == Recent(TimesOf(log, key), later) {
      RecentOfRecent(Stored(m, key), cutoff, later);
      RecentOfRecent(TimesOf(log, key), cutoff, later);
    }
  }

  lemma TimesOfSnoc(log: seq<Entry>, x: Entry, key: string)
    ensures TimesOf(log + [x], key) == if x.key == key then TimesOf(log, key) + [x.time] else TimesOf(log, key)
  {
    assert (log + [x])[..|log|] == log;
  }

  lemma AttemptAgrees(m: Attempts, log: seq<Entry>, limit: int, key: string, now: Time)
    requires Agree(m, log, now.MinuteBefore())
    ensures Check(m, limit, key, now).1 == Allowed(log, limit, key, now)
    ensures Agree(Check(m, limit, key, now).0, NextLog(log, limit, Attempt(key, now)), now.MinuteBefore())
  {
    assert Recent(Stored(m, key), now.MinuteBefore()) == Recent(TimesOf(log, key), now.MinuteBefore());
    if Allowed(log, limit, key, now) {
      var cutoff, m', log' := now.MinuteBefore(), Check(m, limit, key, now).0, log + [Entry(key, now)];
      forall k ensures Recent(Stored(m', k), cutoff) == Recent(TimesOf(log', k), cutoff) {
        TimesOfSnoc(log, Entry(key, now), k);
        if k == key {
          FilterSnoc(TimesOf(log, k), now, After(cutoff));
          FilterSnoc(Recent(Stored(m, k), cutoff), now, After(cutoff));
          RecentOfRecent(Stored(m, k), cutoff, cutoff);
        }
      }
    }
  }

  lemma SweepAgrees(m: Attempts, log: seq<Entry>, now: Time)
    requires Agree(m, log, now.MinuteBefore())
    ensures Agree(Cleanup(m, now), log, now.MinuteBefore())
  {
    forall k ensures Recent(Stored(Cleanup(m, now), k), now.MinuteBefore()) == Recent(TimesOf(log, k), now.MinuteBefore()) {
      RecentOfRecent(Stored(m, k), now.MinuteBefore(), now.MinuteBefore());
    }
  }

  lemma EventAgrees(m: Attempts, log: seq<Entry>, limit: int, e: Event)
    requires Agree(m, log, e.now.MinuteBefore())
    ensures Agree(NextLists(m, limit, e), NextLog(log, limit, e), e.now.MinuteBefore())
  {
    match e
    case Attempt(key, now) => AttemptAgrees(m, log, limit, key, now);
    case Sweep(now) => SweepAgrees(m, log, now);
  }

  lemma {:induction false} RunAgrees(events: seq<Event>, limit: int, now: Time)
    requires ClockRuns(events) && (events != [] ==> events[|events| - 1].now.ns <= now.ns)
    ensures Agree(Lists(events, limit), Log(events, limit), now.MinuteBefore())
    decreases |events|
  {
    if events != [] {
      var rest, e := events[..|events| - 1], events[|events| - 1];
      RunAgrees(rest, limit, e.now);
      EventAgrees(Lists(rest, limit), Log(rest, limit), limit, e);
      AgreeLater(Lists(events, limit), Log(events, limit), e.now.MinuteBefore(), now.MinuteBefore());
    }
  }

  /**
   * For any run with a clock that does not go back, cleanups anywhere: an attempt is
   * allowed iff fewer than `limit` accepted attempts of its key lie in the last minute.
   */
  lemma LimiterRefinesLog(events: seq<Event>, limit: int)
    requires ClockRuns(events) && events != [] && events[|events| - 1].Attempt?
    ensures var e := events[|events| - 1];
            LastAllowed(events, limit) <==> Allowed(Log(events[..|events| - 1], limit), limit, e.key, e.now)
  {
    var rest, e := events[..|events| - 1], events[|events| - 1];
    RunAgrees(rest, limit, e.now);
    AttemptAgrees(Lists(rest, limit), Log(rest, limit), limit, e.key, e.now);
  }

  lemma {:induction false} CountEntries(log: seq<Entry>, key: string, p: Time -> bool, q: Entry -> bool)
    requires forall x | x in log :: q(x) <==> x.key == key && p(x.time)
    ensures |Filter(log, q)| == |Filter(TimesOf(log, key), p)|
    decreases |log|
  {
    if log != [] {
      var rest, last := log[..|log| - 1], log[|log| - 1];
      assert log == rest + [last];
      CountEntries(rest, key, p, q);
      FilterSnoc(rest, last, q);
      FilterSnoc(TimesOf(rest, key), last.time, p);
    }
  }

  /** What the controller itself accepted: its decisions on its own lists, along the run. */
  function Admitted(events: seq<Event>, limit: int): seq<Entry> {
    if events == [] then []
    else
      var rest, e := events[..|events| - 1], events[|events| - 1];
      if e.Attempt? && Check(Lists(rest, limit), limit, e.key, e.now).1 then Admitted(rest, limit) + [Entry(e.key, e.now)]
      else Admitted(rest, limit)
  }

  /** With a clock that does not go back, the controller accepts exactly what the specification does. */
  lemma {:induction false} AdmittedIsLog(events: seq<Event>, limit: int)
    requires ClockRuns(events)
    ensures Admitted(events, limit) == Log(events, limit)
    decreases |events|
  {
    if events != [] {
      AdmittedIsLog(events[..|events| - 1], limit);
      if events[|events| - 1].Attempt? {
        LimiterRefinesLog(events, limit);
      }
    }
  }

  function NewerThan(key: string, ns: int): Entry -> bool {
    (x: Entry) => x.key == key && x.time.ns > ns
  }

  lemma AllowedMeaning(log: seq<Entry>, limit: int, key: string, now: Time)
    ensures Allowed(log, limit, key, now) <==> |Filter(log, NewerThan(key, now.ns - 60_000_000_000))| < limit
  {
    CountEntries(log, key, After(now.MinuteBefore()), NewerThan(key, now.ns - 60_000_000_000));
  }

  /**
   * The rule, in numbers: after any run, an attempt is allowed iff fewer than `limit` attempts
   * of its key that the controller accepted are less than 60 seconds old.
   */
  lemma AllowedIff(events: seq<Event>, limit: int, key: string, now: Time)
    requires ClockRuns(events) && (events != [] ==> events[|events| - 1].now.ns <= now.ns)
    ensures Check(Lists(events, limit), limit, key, now).1
            <==> |Filter(Admitted(events, limit), NewerThan(key, now.ns - 60_000_000_000))| < limit
  {
    RunAgrees(events, limit, now);
    AttemptAgrees(Lists(events, limit), Log(events, limit), limit, key, now);
    AdmittedIsLog(events, limit);
    AllowedMeaning(Log(events, limit), limit, key, now);
  }

  /** An allowed attempt is recorded with its key and time; nothing else is. */
  lemma AdmittedNext(events: seq<Event>, e: Event, limit: int)
    ensures Admitted(events + [e], limit)
            == if e.Attempt? && LastAllowed(events + [e], limit) then Admitted(events, limit) + [Entry(e.key, e.now)] else Admitted(events, limit)
  {
    AdmittedSnoc(events, e, limit);
    assert (events + [e])[..|events|] == events;
  }

  // ---- Windows ---------------------------------------------------------------------------

  function Within(from: Time, to: Time): Time -> bool {
    (t: Time) => from.ns < t.ns <= to.ns
  }

  /** How many entries of a key satisfy `p`. */
  function Count(log: seq<Entry>, key: string, p: Time -> bool): nat {
    |Filter(TimesOf(log, key), p)|
  }

  lemma {:induction false} LogWindowBound(events: seq<Event>, limit: int, key: string, end: Time)
    ensures Count(Log(events, limit), key, Within(end.MinuteBefore(), end)) <= Max(limit, 0)
    decreases |events|
  {
    if events != [] {
      var rest, e := events[..|events| - 1], events[|events| - 1];
      LogWindowBound(rest, limit, key, end);
      var log, w := Log(rest, limit), Within(end.MinuteBefore(), end);
      if e.Attempt? && Allowed(log, limit, e.key, e.now) {
        TimesOfSnoc(log, Entry(e.key, e.now), key);
        FilterSnoc(TimesOf(log, key), e.now, w);
        if e.key == key && w(e.now) {
          FilterWeaker(TimesOf(log, key), w, After(e.now.MinuteBefore()));
        }
      }
    }
  }

  /** Attempts of a key that the controller accepted after `from` and not after `to`. */
  function Accepted(events: seq<Event>, limit: int, key: string, from: Time, to: Time): nat {
    Count(Admitted(events, limit), key, Within(from, to))
  }

  /** No window of one minute, open at its start, holds more accepted attempts of a key than the limit. */
  lemma WindowBound(events: seq<Event>, limit: int, key: string, end: Time)
    requires ClockRuns(events)
    ensures Accepted(events, limit, key, end.MinuteBefore(), end) <= Max(limit, 0)
  {
    AdmittedIsLog(events, limit);
    LogWindowBound(events, limit, key, end);
  }

  /** In any 60_000_000_000 nanoseconds at most `limit` attempts of a key are accepted. */
  lemma AtMostLimitPerMinute(events: seq<Event>, limit: nat, key: string, from: int)
    requires ClockRuns(events)
    ensures |Filter(Admitted(events, limit), (x: Entry) => x.key == key && from < x.time.ns <= from + 60_000_000_000)| <= limit
  {
    var end := Time(from + WINDOW);
    WindowBound(events, limit, key, end);
    CountEntries(Admitted(events, limit), key, Within(end.MinuteBefore(), end),
                 (x: Entry) => x.key == key && from < x.time.ns <= from + 60_000_000_000);
  }

  lemma AdmittedSnoc(events: seq<Event>, e: Event, limit: int)
    ensures Lists(events + [e], limit) == NextLists(Lists(events, limit), limit, e)
    ensures Admitted(events + [e], limit)
            == if e.Attempt? && Check(Lists(events, limit), limit, e.key, e.now).1 then Admitted(events, limit) + [Entry(e.key, e.now)]
               else Admitted(events, limit)
  {
    assert (events + [e])[..|events|] == events;
  }

  /** An attempt, a cleanup a minute or more later, and the clock back at the attempt. */
  function ClockBack(key: string, t: Time): seq<Event> {
    [] + [Attempt(key, t)] + [Sweep(Time(t.ns + WINDOW))] + [Attempt(key, t)]
  }

  /** The bound needs the clock: when it goes back after a cleanup, the limit can be exceeded. */
  lemma ClockBackExceeds(key: string, t: Time)
    ensures Accepted(ClockBack(key, t), 1, key, t.MinuteBefore(), t) == 2
    ensures !ClockRuns(ClockBack(key, t))
  {
    var sweep := Sweep(Time(t.ns + WINDOW));
    AdmittedSnoc([], Attempt(key, t), 1);
    assert Recent([t], t) == [];
    AdmittedSnoc([] + [Attempt(key, t)], sweep, 1);
    assert Stored(Lists([] + [Attempt(key, t)] + [sweep], 1), key) == [];
    AdmittedSnoc([] + [Attempt(key, t)] + [sweep], Attempt(key, t), 1);
    TimesOfSnoc([], Entry(key, t), key);
    TimesOfSnoc([] + [Entry(key, t)], Entry(key, t), key);
    FilterSnoc([], t, Within(t.MinuteBefore(), t));
    FilterSnoc([] + [t], t, Within(t.MinuteBefore(), t));
    assert ClockBack(key, t)[1].now.ns > ClockBack(key, t)[2].now.ns;
  }

  function Around(from: Time, to: Time): Time -> bool {
    (t: Time) => from.ns <= t.ns <= to.ns
  }

  function Exactly(at: Time): Time -> bool {
    (t: Time) => t.ns == at.ns
  }

  /** Attempts of a key that the controller accepted in a window closed at both ends. */
  function AcceptedClosed(events: seq<Event>, limit: int, key: string, from: Time, to: Time): nat {
    Count(Admitted(events, limit), key, Around(from, to))
  }

  function AcceptedAt(events: seq<Event>, limit: int, key: string, at: Time): nat {
    Count(Admitted(events, limit), key, Exactly(at))
  }

  /**
   * A minute closed at both ends holds what the half-open one holds and what was accepted
   * exactly at its start: never more than twice the limit, and more than the limit only
   * when attempts were accepted exactly at its start.
   */
  lemma ClosedWindowBound(events: seq<Event>, limit: int, key: string, end: Time)
    requires ClockRuns(events)
    ensures var closed, start := AcceptedClosed(events, limit, key, end.MinuteBefore(), end), AcceptedAt(events, limit, key, end.MinuteBefore());
            && closed == Accepted(events, limit, key, end.MinuteBefore(), end) + start
            && closed <= 2 * Max(limit, 0)
            && (start == 0 ==> closed <= Max(limit, 0))
  {
    var times, start := TimesOf(Admitted(events, limit), key), end.MinuteBefore();
    FilterSplit(times, Around(start, end), Within(start, end), Exactly(start));
    WindowBound(events, limit, key, end);
    WindowBound(events, limit, key, start);
    FilterWeaker(times, Exactly(start), Within(start.MinuteBefore(), start));
  }

  /** A run followed by `n` attempts at the same moment. */
  function Burst(before: seq<Event>, key: string, n: nat, at: Time): seq<Event> {
    if n == 0 then before else Burst(before, key, n - 1, at) + [Attempt(key, at)]
  }

  function Repeated(n: nat, at: Time): seq<Time> {
    if n == 0 then [] else Repeated(n - 1, at) + [at]
  }

  lemma {:induction false} FilterRepeated(n: nat, at: Time, p: Time -> bool)
    ensures Filter(Repeated(n, at), p) == if p(at) then Repeated(n, at) else []
    ensures |Repeated(n, at)| == n
  {
    if n > 0 {
      FilterRepeated(n - 1, at, p);
      FilterSnoc(Repeated(n - 1, at), at, p);
    }
  }

  lemma RecentWithBurst(earlier: seq<Time>, n: nat, at: Time)
    requires Recent(earlier, at.MinuteBefore()) == []
    ensures |Recent(earlier + Repeated(n, at), at.MinuteBefore())| == n
  {
    FilterAppend(earlier, Repeated(n, at), After(at.MinuteBefore()));
    FilterRepeated(n, at, After(at.MinuteBefore()));
  }

  function BurstLog(log: seq<Entry>, limit: int, key: string, n: nat, at: Time): seq<Entry> {
    if n == 0 then log else NextLog(BurstLog(log, limit, key, n - 1, at), limit, Attempt(key, at))
  }

  ghost predicate HasLog(events: seq<Event>, limit: int, log: seq<Entry>) {
    Log(events, limit) == log
  }

  lemma HasLogSnoc(events: seq<Event>, limit: int, log: seq<Entry>, e: Event)
    requires HasLog(events, limit, log)
    ensures HasLog(events + [e], limit, NextLog(log, limit, e))
  {
    LogSnoc(events, e, limit);
  }

  lemma {:induction false} LogOfBurst(before: seq<Event>, limit: int, log: seq<Entry>, key: string, n: nat, at: Time)
    requires HasLog(before, limit, log)
    ensures HasLog(Burst(before, key, n, at), limit, BurstLog(log, limit, key, n, at))
  {
    if n > 0 {
      LogOfBurst(before, limit, log, key, n - 1, at);
      HasLogSnoc(Burst(before, key, n - 1, at), limit, BurstLog(log, limit, key, n - 1, at), Attempt(key, at));
    }
  }

  /** Nothing was accepted in the minute before `at`. */
  ghost predicate Quiet(log: seq<Entry>, key: string, at: Time) {
    Recent(TimesOf(log, key), at.MinuteBefore()) == []
  }

  /** After `n` attempts at a moment all of them are in the log. */
  ghost predicate BurstInLog(log: seq<Entry>, limit: int, key: string, n: nat, at: Time) {
    TimesOf(BurstLog(log, limit, key, n, at), key) == TimesOf(log, key) + Repeated(n, at)
  }

  lemma RepeatedSnoc(earlier: seq<Time>, n: nat, at: Time)
    ensures earlier + Repeated(n + 1, at) == (earlier + Repeated(n, at)) + [at]
  {
  }

  lemma OneMoreAccepted(log: seq<Entry>, limit: int, key: string, n: nat, at: Time)
    requires n < limit && Quiet(log, key, at) && BurstInLog(log, limit, key, n, at)
    ensures BurstInLog(log, limit, key, n + 1, at)
  {
    RecentWithBurst(TimesOf(log, key), n, at);
    TimesOfSnoc(BurstLog(log, limit, key, n, at), Entry(key, at), key);
    RepeatedSnoc(TimesOf(log, key), n, at);
  }

  /** Up to `limit` attempts at a moment are accepted when nothing was accepted in the minute before it. */
  lemma {:induction false} BurstAccepted(log: seq<Entry>, limit: int, key: string, n: nat, at: Time)
    requires n <= limit && Quiet(log, key, at)
    ensures BurstInLog(log, limit, key, n, at)
  {
    if n == 0 {
      assert TimesOf(log, key) + Repeated(0, at) == TimesOf(log, key);
    } else {
      BurstAccepted(log, limit, key, n - 1, at);
      OneMoreAccepted(log, limit, key, n - 1, at);
    }
  }

  lemma TwoBurstsLog(limit: nat, key: string, start: Time, end: Time) returns (log: seq<Entry>)
    requires end.MinuteBefore() == start
    ensures HasLog(Burst(Burst([], key, limit, start), key, limit, end), limit, log)
    ensures TimesOf(log, key) == Repeated(limit, start) + Repeated(limit, end)
  {
    var first := BurstLog([], limit, key, limit, start);
    assert HasLog([], limit, []);
    LogOfBurst([], limit, [], key, limit, start);
    BurstAccepted([], limit, key, limit, start);
    assert TimesOf(first, key) == [] + Repeated(limit, start) == Repeated(limit, start);
    FilterRepeated(limit, start, After(start));
    LogOfBurst(Burst([], key, limit, start), limit, first, key, limit, end);
    BurstAccepted(first, limit, key, limit, end);
    log := BurstLog(first, limit, key, limit, end);
  }

  lemma {:induction false} BurstClock(before: seq<Event>, key: string, n: nat, at: Time)
    requires ClockRuns(before) && forall e | e in before :: e.now.ns <= at.ns
    ensures var events := Burst(before, key, n, at);
            ClockRuns(events) && forall e | e in events :: e.now.ns <= at.ns
  {
    if n > 0 {
      BurstClock(before, key, n - 1, at);
      ClockSnoc(Burst(before, key, n - 1, at), Attempt(key, at));
    }
  }

  lemma ClockSnoc(events: seq<Event>, e: Event)
    requires ClockRuns(events) && forall x | x in events :: x.now.ns <= e.now.ns
    ensures ClockRuns(events + [e])
  {
  }

  /** Two bursts of `limit` attempts exactly a minute apart. */
  function TwoBurstsOf(limit: nat, key: string, start: Time): seq<Event> {
    Burst(Burst([], key, limit, start), key, limit, Time(start.ns + WINDOW))
  }

  lemma TwoBurstsClock(limit: nat, key: string, start: Time)
    ensures ClockRuns(TwoBurstsOf(limit, key, start))
  {
    BurstClock([], key, limit, start);
    BurstClock(Burst([], key, limit, start), key, limit, Time(start.ns + WINDOW));
  }

  /** Two bursts of that kind are accepted in full, and counted as such. */
  lemma CountTwoBursts(events: seq<Event>, limit: nat, key: string, start: Time, end: Time, log: seq<Entry>)
    requires start.ns < end.ns && ClockRuns(events) && HasLog(events, limit, log)
    requires TimesOf(log, key) == Repeated(limit, start) + Repeated(limit, end)
    ensures AcceptedClosed(events, limit, key, start, end) == 2 * limit
    ensures Accepted(events, limit, key, start, end) == limit
  {
    AdmittedIsLog(events, limit);
    CountInBursts(limit, start, end, Around(start, end));
    CountInBursts(limit, start, end, Within(start, end));
  }

  /** The bound for closed windows is reached, for every limit, by a run with a running clock. */
  lemma ClosedWindowHoldsTwice(limit: nat, key: string, start: Time)
    ensures var end, events := Time(start.ns + WINDOW), TwoBurstsOf(limit, key, start);
            && ClockRuns(events)
            && AcceptedClosed(events, limit, key, start, end) == 2 * limit
            && Accepted(events, limit, key, start, end) == limit
  {
    var end := Time(start.ns + WINDOW);
    TwoBurstsClock(limit, key, start);
    var log := TwoBurstsLog(limit, key, start, end);
    CountTwoBursts(TwoBurstsOf(limit, key, start), limit, key, start, end, log);
  }

  lemma CountInBursts(n: nat, start: Time, end: Time, p: Time -> bool)
    ensures |Filter(Repeated(n, start) + Repeated(n, end), p)| == (if p(start) then n else 0) + (if p(end) then n else 0)
  {
    FilterAppend(Repeated(n, start), Repeated(n, end), p);
    FilterRepeated(n, start, p);
    FilterRepeated(n, end, p);
  }

  predicate ForKey(e: Event, key: string) {
    e.Attempt? && e.key == key
  }

  function OfKey(key: string): Event -> bool {
    (e: Event) => ForKey(e, key)
  }

  lemma OtherAttempt(log: seq<Entry>, limit: int, key: string, e: Event)
    requires !ForKey(e, key)
    ensures TimesOf(NextLog(log, limit, e), key) == TimesOf(log, key)
  {
    if e.Attempt? {
      TimesOfSnoc(log, Entry(e.key, e.now), key);
    }
  }

  lemma OwnAttempt(log: seq<Entry>, limit: int, key: string, now: Time)
    ensures TimesOf(NextLog(log, limit, Attempt(key, now)), key)
            == if |Recent(TimesOf(log, key), now.MinuteBefore())| < limit then TimesOf(log, key) + [now] else TimesOf(log, key)
  {
    TimesOfSnoc(log, Entry(key, now), key);
  }

  lemma EventIsIndependent(log: seq<Entry>, own: seq<Entry>, limit: int, key: string, e: Event)
    requires TimesOf(log, key) == TimesOf(own, key)
    ensures TimesOf(NextLog(log, limit, e), key)
            == TimesOf(if ForKey(e, key) then NextLog(own, limit, e) else own, key)
  {
    if ForKey(e, key) {
      OwnAttempt(log, limit, key, e.now);
      OwnAttempt(own, limit, key, e.now);
    } else {
      OtherAttempt(log, limit, key, e);
    }
  }

  lemma OwnLogSnoc(rest: seq<Event>, e: Event, limit: int, key: string)
    ensures var own := Log(Filter(rest, OfKey(key)), limit);
            Log(Filter(rest + [e], OfKey(key)), limit) == if ForKey(e, key) then NextLog(own, limit, e) else own
  {
    FilterSnoc(rest, e, OfKey(key));
    LogSnoc(Filter(rest, OfKey(key)), e, limit);
  }

  lemma {:induction false} KeyDecidesLog(events: seq<Event>, limit: int, key: string)
    ensures TimesOf(Log(events, limit), key) == TimesOf(Log(Filter(events, OfKey(key)), limit), key)
    decreases |events|
  {
    if events != [] {
      var rest, e := events[..|events| - 1], events[|events| - 1];
      KeyDecidesLog(rest, limit, key);
      EventIsIndependent(Log(rest, limit), Log(Filter(rest, OfKey(key)), limit), limit, key, e);
      OwnLogSnoc(rest, e, limit, key);
      assert events == rest + [e];
    }
  }

  lemma {:induction false} FilterKeepsClock(events: seq<Event>, p: Event -> bool)
    requires ClockRuns(events)
    ensures ClockRuns(Filter(events, p))
    decreases |events|
  {
    if events != [] {
      var rest, e := events[..|events| - 1], events[|events| - 1];
      assert events == rest + [e];
      FilterKeepsClock(rest, p);
      FilterSnoc(rest, e, p);
      ClockSnoc(Filter(rest, p), e);
    }
  }

  /**
   * The controller accepts of a key exactly what it would accept if there were no attempts
   * of other keys and no cleanups at all.
   */
  lemma KeysAreIndependent(events: seq<Event>, limit: int, key: string)
    requires ClockRuns(events)
    ensures TimesOf(Admitted(events, limit), key) == TimesOf(Admitted(Filter(events, OfKey(key)), limit), key)
  {
    FilterKeepsClock(events, OfKey(key));
    AdmittedIsLog(events, limit);
    AdmittedIsLog(Filter(events, OfKey(key)), limit);
    KeyDecidesLog(events, limit, key);
  }

  lemma LogSnoc(events: seq<Event>, e: Event, limit: int)
    ensures Log(events + [e], limit) == NextLog(Log(events, limit), limit, e)
  {
    assert (events + [e])[..|events|] == events;
  }

  lemma EventKeepsListShort(m: Attempts, limit: int, e: Event, key: string)
    requires |Stored(m, key)| <= Max(limit, 0)
    ensures |Stored(NextLists(m, limit, e), key)| <= Max(limit, 0)
  {
  }

  /** No stored list grows beyond the limit. */
  lemma {:induction false} ListsStayShort(events: seq<Event>, limit: int, key: string)
    ensures |Stored(Lists(events, limit), key)| <= Max(limit, 0)
    decreases |events|
  {
    if events != [] {
      var rest := events[..|events| - 1];
      ListsStayShort(rest, limit, key);
      EventKeepsListShort(Lists(rest, limit), limit, events[|events| - 1], key);
    }
  }

  /** After a cleanup exactly the keys with an accepted attempt in the last minute are stored. */
  lemma CleanupKeepsActiveKeys(events: seq<Event>, limit: int, now: Time, key: string)
    requires ClockRuns(events) && (events != [] ==> events[|events| - 1].now.ns <= now.ns)
    ensures key in Lists(events + [Sweep(now)], limit)
            <==> Recent(TimesOf(Admitted(events, limit), key), now.MinuteBefore()) != []
  {
    AdmittedIsLog(events, limit);
    RunAgrees(events, limit, now);
    assert (events + [Sweep(now)])[..|events|] == events;
    var m := Lists(events, limit);
    assert Recent(Stored(m, key), now.MinuteBefore()) == Recent(TimesOf(Log(events, limit), key), now.MinuteBefore());
  }
}
