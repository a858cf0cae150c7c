/**
 * The aggregations of scores, in terms of the stored rows: which scores a series selects,
 * what the numbers of a trace and of a bucket are, and where buckets begin.
 */
module ScoreMeans {
  import opened Common
  import opened Sums
  import opened ScoreTables
  import opened ScoreAggregation

  // ---- One trace --------------------------------------------------------------------------------

  /** `m` times the number of elements is the sum of their values; no elements, no `m`. */
  ghost predicate IsMean<T(!new)>(m: Option<real>, s: set<T>, values: T -> real) {
    && (m.None? <==> s == {})
    && (m.Some? ==> m.value * |s| as real == Sum(s, values))
  }

  lemma AverageIsMean<T(!new)>(s: set<T>, f: T -> real, values: T -> real)
    requires forall x | x in s :: values(x) == f(x)
    ensures IsMean(if s == {} then None else Some(Average(s, f)), s, values)
  {
    SumCongruence(s, f, values);
    if s != {} {
      assert |s| > 0;
      ProductOfQuotient(Sum(s, f), |s| as real);
    }
  }

  /** `values` gives the stored score values. */
  ghost predicate Reads(db: ScoreDb, values: ScoreKey -> real) {
    forall k | k in db.scores && db.scores[k].score.Some? :: values(k) == db.scores[k].score.value
  }

  /** The mean of a group is that of its scores with a value and without skip reason; it is missing iff there are none. */
  lemma MeanOfScores(db: ScoreDb, group: set<ScoreKey>, values: ScoreKey -> real)
    requires Reads(db, values)
    ensures IsMean(MeanScore(db, group),
                   (set k | k in group && k in db.scores && db.scores[k].skipReason.None? && db.scores[k].score.Some?),
                   values)
  {
    AverageIsMean(Counted(db, group), ScoreOf(db), values);
    assert Counted(db, group) == set k | k in group && k in db.scores && db.scores[k].skipReason.None? && db.scores[k].score.Some?;
  }

  /** Scores with a skip reason or without a value never change a mean, however many there are. */
  lemma SkippedNeverCount(db: ScoreDb, group: set<ScoreKey>, other: set<ScoreKey>)
    requires forall k | k in db.scores && db.scores[k].skipReason.None? && db.scores[k].score.Some? :: k in group <==> k in other
    ensures MeanScore(db, group) == MeanScore(db, other)
  {
    assert Counted(db, group) == Counted(db, other);
  }

  /** The scores of a trace that a series is about: those of the monitor, in the window, of an evaluator of that name in any run. */
  ghost predicate Contributes(db: ScoreDb, monitor: Id, name: string, from: int, to: int, trace: string, k: ScoreKey) {
    && k in db.scores && k.trace == trace
    && db.scores[k].monitor == monitor
    && from <= db.scores[k].startTime && db.scores[k].startTime <= to
    && exists run :: EvaluatorKey(run, name) in db.evaluators && db.evaluators[EvaluatorKey(run, name)].id == k.evaluator
  }

  lemma GroupMeaning(db: ScoreDb, monitor: Id, name: string, from: int, to: int, trace: string, k: ScoreKey)
    ensures k in OfTrace(Selected(db, monitor, name, from, to), trace) <==> Contributes(db, monitor, name, from, to, trace, k)
  {
  }

  lemma TraceListed(db: ScoreDb, monitor: Id, name: string, from: int, to: int, trace: string)
    ensures trace in TraceRows(db, monitor, name, from, to) <==> exists k :: Contributes(db, monitor, name, from, to, trace, k)
  {
    var selected := Selected(db, monitor, name, from, to);
    if k :| Contributes(db, monitor, name, from, to, trace, k) {
      GroupMeaning(db, monitor, name, from, to, trace, k);
      assert k in selected && k.trace == trace;
    }
    if trace in TraceRows(db, monitor, name, from, to) {
      var k :| k in selected && k.trace == trace;
      GroupMeaning(db, monitor, name, from, to, trace, k);
    }
  }

  lemma TraceStart(db: ScoreDb, monitor: Id, name: string, from: int, to: int, trace: string)
    requires trace in TraceRows(db, monitor, name, from, to)
    ensures var start := TraceRows(db, monitor, name, from, to)[trace].start;
            && (exists k :: Contributes(db, monitor, name, from, to, trace, k) && db.scores[k].startTime == start)
            && (forall k | Contributes(db, monitor, name, from, to, trace, k) :: start <= db.scores[k].startTime)
  {
    var group := OfTrace(Selected(db, monitor, name, from, to), trace);
    forall k ensures k in group <==> Contributes(db, monitor, name, from, to, trace, k) {
      GroupMeaning(db, monitor, name, from, to, trace, k);
    }
    var k :| k in Selected(db, monitor, name, from, to) && k.trace == trace;
    assert k in group;
    EarliestExists(db, group);
    assert IsEarliest(db, group, Earliest(db, group));
  }

  /**
   * A trace is in a series iff some score of it contributes; its time is the least of their
   * start times and its mean that of the contributing scores that are not skipped.
   */
  lemma TraceMeaning(db: ScoreDb, monitor: Id, name: string, from: int, to: int, trace: string, values: ScoreKey -> real)
    requires Reads(db, values)
    ensures var rows := TraceRows(db, monitor, name, from, to);
            && (trace in rows <==> exists k :: Contributes(db, monitor, name, from, to, trace, k))
            && (trace in rows ==>
                  && (exists k :: Contributes(db, monitor, name, from, to, trace, k) && db.scores[k].startTime == rows[trace].start)
                  && (forall k | Contributes(db, monitor, name, from, to, trace, k) :: rows[trace].start <= db.scores[k].startTime)
                  && IsMean(rows[trace].mean,
                            (set k | k in db.scores && Contributes(db, monitor, name, from, to, trace, k)
                                     && db.scores[k].skipReason.None? && db.scores[k].score.Some?),
                            values))
  {
    TraceListed(db, monitor, name, from, to, trace);
    if trace in TraceRows(db, monitor, name, from, to) {
      TraceStart(db, monitor, name, from, to, trace);
      TraceMeanIs(db, monitor, name, from, to, trace, values);
    }
  }

  lemma TraceMeanIs(db: ScoreDb, monitor: Id, name: string, from: int, to: int, trace: string, values: ScoreKey -> real)
    requires Reads(db, values) && trace in TraceRows(db, monitor, name, from, to)
    ensures IsMean(TraceRows(db, monitor, name, from, to)[trace].mean,
                   (set k | k in db.scores && Contributes(db, monitor, name, from, to, trace, k)
                            && db.scores[k].skipReason.None? && db.scores[k].score.Some?),
                   values)
  {
    var group := OfTrace(Selected(db, monitor, name, from, to), trace);
    forall k ensures k in group <==> Contributes(db, monitor, name, from, to, trace, k) {
      GroupMeaning(db, monitor, name, from, to, trace, k);
    }
    MeanOfScores(db, group, values);
    assert (set k | k in group && k in db.scores && db.scores[k].skipReason.None? && db.scores[k].score.Some?)
        == (set k | k in db.scores && Contributes(db, monitor, name, from, to, trace, k)
                    && db.scores[k].skipReason.None? && db.scores[k].score.Some?);
  }

  // ---- One bucket -----------------------------------------------------------------------------------

  /**
   * A bucket is in a series iff some trace starts in it. It counts the traces that do, and
   * those of them without a mean; its mean is that of the others' means.
   */
  lemma BucketMeaning(rows: map<string, TraceRow>, g: Granularity, b: Moment, means: string -> real)
    requires forall t | t in rows && rows[t].mean.Some? :: means(t) == rows[t].mean.value
    ensures var series := Buckets(rows, g);
            && (b in series <==> exists t | t in rows :: Trunc(g, rows[t].start) == b)
            && (b in series ==>
                  && series[b].total == |set t | t in rows && Trunc(g, rows[t].start) == b|
                  && series[b].skipped == |set t | t in rows && Trunc(g, rows[t].start) == b && rows[t].mean.None?|
                  && IsMean(series[b].mean, (set t | t in rows && Trunc(g, rows[t].start) == b && rows[t].mean.Some?), means))
  {
    var ids := InBucket(rows, g, b);
    assert ids == set t | t in rows && Trunc(g, rows[t].start) == b;
    assert Scored(rows, ids) == set t | t in rows && Trunc(g, rows[t].start) == b && rows[t].mean.Some?;
    assert SkippedRows(rows, ids) == set t | t in rows && Trunc(g, rows[t].start) == b && rows[t].mean.None?;
    AverageIsMean(Scored(rows, ids), MeanOf(rows), means);
  }

  // ---- Texts and borders --------------------------------------------------------------------------------

  /** A series is given for four texts and refused for any other. */
  lemma GranularityTexts(db: ScoreDb, monitor: Id, name: string, names: seq<string>, from: int, to: int, text: string)
    ensures TimeSeries(db, monitor, name, from, to, text).Some? <==> text == "minute" || text == "hour" || text == "day" || text == "week"
    ensures BatchTimeSeries(db, monitor, names, from, to, text).Some? <==> text == "minute" || text == "hour" || text == "day" || text == "week"
  {
  }

  /** `b` is a border of buckets that begin every `length` microseconds from `origin`, and `us` lies in the bucket that begins there. */
  predicate BeginsAt(length: int, origin: int, us: int, b: int)
    requires length > 0
  {
    b <= us < b + length && (b - origin) % length == 0
  }

  lemma FloorBegins(length: int, origin: int, us: int)
    requires length > 0
    ensures BeginsAt(length, origin, us, Floor(length, origin, us))
  {
    var q := (us - origin) / length;
    FloorUnique(length, origin, us, q);
    MultipleOf(length, q);
  }

  lemma MultipleOf(d: int, q: int)
    requires d > 0
    ensures (d * q) % d == 0
  {
    QuotientUnique(d * q, d, q);
    assert d * q == d * (d * q / d) + (d * q) % d;
  }

  lemma ShiftedBorder(length: int, origin: int, us: int, b: int)
    requires length > 0 && BeginsAt(length, origin, us, b)
    ensures BeginsAt(length, origin + length, us, b)
  {
    var q := (b - origin) / length;
    assert b - origin == length * q;
    assert b - (origin + length) == length * (q - 1);
    MultipleOf(length, q - 1);
  }

  /**
   * Buckets are 60 seconds, 3600 seconds, 86400 seconds and 7 days long, in microseconds from
   * the beginning of 1970; weeks begin on Mondays, as 5 January 1970, four days later, was.
   */
  lemma BucketBorders(us: int)
    ensures ParseGranularity("minute").Some? && BeginsAt(60_000_000, 0, us, Trunc(ParseGranularity("minute").value, us).us)
    ensures ParseGranularity("hour").Some? && BeginsAt(3_600_000_000, 0, us, Trunc(ParseGranularity("hour").value, us).us)
    ensures ParseGranularity("day").Some? && BeginsAt(86_400_000_000, 0, us, Trunc(ParseGranularity("day").value, us).us)
    ensures ParseGranularity("week").Some? && BeginsAt(604_800_000_000, 345_600_000_000, us, Trunc(ParseGranularity("week").value, us).us)
  {
    FloorBegins(Length(Minute), Origin(Minute), us);
    FloorBegins(Length(Hour), Origin(Hour), us);
    FloorBegins(Length(Day), Origin(Day), us);
    FloorBegins(Length(Week), Origin(Week), us);
    ShiftedBorder(Length(Week), Origin(Week), us, Trunc(Week, us).us);
  }

  /** The series of several evaluators has rows of those evaluators only. */
  lemma BatchOnlyListed(db: ScoreDb, monitor: Id, names: seq<string>, from: int, to: int, text: string, b: NameBucket)
    requires BatchTimeSeries(db, monitor, names, from, to, text).Some?
    requires b in BatchTimeSeries(db, monitor, names, from, to, text).value
    ensures b.name in names
  {
    var rows := BatchTraceRows(db, monitor, names, from, to);
    var x :| x in rows && NameBucket(x.name, Trunc(ParseGranularity(text).value, rows[x].start)) == b;
  }
}
