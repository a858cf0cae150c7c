/**
 * The time series of evaluator scores: scores are averaged per trace, traces are put
 * into time buckets in UTC. Scores are exact; times count microseconds since 1970.
 */
module ScoreAggregation {
  import opened Common
  import opened Sums
  import opened ScoreTables

  // ---- date_trunc in UTC ------------------------------------------------------------------------

  datatype Moment = Moment(us: int)

  datatype Granularity = Minute | Hour | Day | Week

  const MINUTE: int := 60_000_000
  const HOUR: int := 60 * MINUTE
  const DAY: int := 24 * HOUR
  const WEEK: int := 7 * DAY

  /** None for a granularity the repository rejects. */
  function ParseGranularity(text: string): Option<Granularity> {
    if text == "minute" then Some(Minute)
    else if text == "hour" then Some(Hour)
    else if text == "day" then Some(Day)
    else if text == "week" then Some(Week)
    else None
  }

  function Length(g: Granularity): int {
    match g case Minute => MINUTE case Hour => HOUR case Day => DAY case Week => WEEK
  }

  /** Weeks start on Mondays; the first day of 1970 was a Thursday. */
  function Origin(g: Granularity): int {
    if g == Week then -3 * DAY else 0
  }

  /** The last multiple of `length`, counted from `origin`, that is not after `x`. */
  function Floor(length: int, origin: int, x: int): int
    requires length > 0
  {
    origin + length * ((x - origin) / length)
  }

  function Trunc(g: Granularity, us: int): Moment {
    Moment(Floor(Length(g), Origin(g), us))
  }

  lemma FloorUnique(length: int, origin: int, x: int, k: int)
    requires length > 0
    ensures Floor(length, origin, x) == origin + length * k <==> origin + length * k <= x < origin + length * k + length
  {
    var q := (x - origin) / length;
    assert length * q <= x - origin < length * q + length;
    if origin + length * k <= x < origin + length * k + length {
      QuotientUnique(x - origin, length, k);
    }
    if Floor(length, origin, x) == origin + length * k {
      assert length * k == length * q;
    }
  }

  /** When every coarse border is a fine border, cutting finely first makes no difference. */
  lemma FloorNests(length: int, origin: int, times: int, shift: int, x: int)
    requires length > 0 && times > 0
    ensures times * length > 0
    ensures var coarseOrigin := origin + length * shift;
            Floor(times * length, coarseOrigin, Floor(length, origin, x)) == Floor(times * length, coarseOrigin, x)
  {
    var coarse, coarseOrigin := times * length, origin + length * shift;
    assert coarse > 0;
    var k, q := (x - origin) / length, (x - coarseOrigin) / coarse;
    FloorUnique(length, origin, x, k);
    FloorUnique(coarse, coarseOrigin, x, q);
    var p := shift + times * q;
    assert coarseOrigin + coarse * q == origin + length * p by {
      assert coarse * q == length * (times * q);
    }
    ProductsOrdered(length, k + 1, p);
    ProductsOrdered(length, p, k);
    assert length * p <= length * k;
    FloorUnique(coarse, coarseOrigin, origin + length * k, q);
  }

  lemma NestsBy(fine: Granularity, coarse: Granularity, times: int, shift: int, us: int)
    requires times > 0
    requires Length(coarse) == times * Length(fine) && Origin(coarse) == Origin(fine) + Length(fine) * shift
    ensures Trunc(coarse, Trunc(fine, us).us) == Trunc(coarse, us)
  {
    FloorNests(Length(fine), Origin(fine), times, shift, us);
  }

  /** Finer buckets do not cross the borders of coarser ones. */
  lemma BucketsNest(fine: Granularity, coarse: Granularity, us: int)
    requires Length(fine) <= Length(coarse)
    ensures Trunc(coarse, Trunc(fine, us).us) == Trunc(coarse, us)
  {
    match (fine, coarse)
    case (Minute, Hour) => NestsBy(fine, coarse, 60, 0, us);
    case (Minute, Day) => NestsBy(fine, coarse, 1440, 0, us);
    case (Minute, Week) => NestsBy(fine, coarse, 10080, -4320, us);
    case (Hour, Day) => NestsBy(fine, coarse, 24, 0, us);
    case (Hour, Week) => NestsBy(fine, coarse, 168, -72, us);
    case (Day, Week) => NestsBy(fine, coarse, 7, -3, us);
    case _ => NestsBy(fine, coarse, 1, 0, us);
  }

  /** A moment lies in its bucket. */
  lemma InOwnBucket(g: Granularity, us: int)
    ensures Trunc(g, us).us <= us < Trunc(g, us).us + Length(g)
  {
    FloorUnique(Length(g), Origin(g), us, (us - Origin(g)) / Length(g));
  }

  // ---- First level: one row per trace ---------------------------------------------------------------

  datatype TraceRow = TraceRow(start: int, mean: Option<real>)

  /** The join with the evaluator table finds a row of that name. */
  ghost predicate Named(db: ScoreDb, evaluator: Id, name: string) {
    exists run :: EvaluatorKey(run, name) in db.evaluators && db.evaluators[EvaluatorKey(run, name)].id == evaluator
  }

  predicate InWindow(db: ScoreDb, k: ScoreKey, monitor: Id, from: int, to: int) {
    k in db.scores && db.scores[k].monitor == monitor && from <= db.scores[k].startTime <= to
  }

  /** Scores that AVG(CASE WHEN skip_reason IS NULL THEN score END) counts. */
  function Counted(db: ScoreDb, group: set<ScoreKey>): set<ScoreKey> {
    set k | k in group && k in db.scores && db.scores[k].skipReason.None? && db.scores[k].score.Some?
  }

  function ScoreOf(db: ScoreDb): ScoreKey -> real {
    (k: ScoreKey) => if k in db.scores && db.scores[k].score.Some? then db.scores[k].score.value else 0.0
  }

  ghost function MeanScore(db: ScoreDb, group: set<ScoreKey>): Option<real> {
    if Counted(db, group) == {} then None else Some(Average(Counted(db, group), ScoreOf(db)))
  }

  ghost predicate IsEarliest(db: ScoreDb, group: set<ScoreKey>, start: int) {
    && (exists k | k in group && k in db.scores :: db.scores[k].startTime == start)
    && (forall k | k in group && k in db.scores :: start <= db.scores[k].startTime)
  }

  lemma {:induction false} EarliestExists(db: ScoreDb, group: set<ScoreKey>)
    requires group != {} && group <= db.scores.Keys
    ensures exists start :: IsEarliest(db, group, start)
    decreases |group|
  {
    var k := Pick(group);
    var rest := group - {k};
    if rest == {} {
      assert group == {k};
      assert IsEarliest(db, group, db.scores[k].startTime);
    } else {
      EarliestExists(db, rest);
      var start :| IsEarliest(db, rest, start);
      var here := db.scores[k].startTime;
      assert IsEarliest(db, group, if here < start then here else start);
    }
  }

  /** MIN(trace_start_time); groups are never empty. */
  ghost function Earliest(db: ScoreDb, group: set<ScoreKey>): int {
    if group != {} && group <= db.scores.Keys then
      EarliestExists(db, group);
      var start :| IsEarliest(db, group, start);
      start
    else 0
  }

  ghost function TraceRowOf(db: ScoreDb, group: set<ScoreKey>): TraceRow {
    TraceRow(Earliest(db, group), MeanScore(db, group))
  }

  ghost function Selected(db: ScoreDb, monitor: Id, name: string, from: int, to: int): set<ScoreKey> {
    set k | k in db.scores && InWindow(db, k, monitor, from, to) && Named(db, k.evaluator, name)
  }

  function OfTrace(rows: set<ScoreKey>, trace: string): set<ScoreKey> {
    set k | k in rows && k.trace == trace
  }

  ghost function TraceRows(db: ScoreDb, monitor: Id, name: string, from: int, to: int): map<string, TraceRow> {
    var rows := Selected(db, monitor, name, from, to);
    map t | t in (set k | k in rows :: k.trace) :: TraceRowOf(db, OfTrace(rows, t))
  }

  // ---- Second level: one row per bucket ------------------------------------------------------------

  datatype Bucket = Bucket(total: nat, skipped: nat, mean: Option<real>)

  function Scored<T>(rows: map<T, TraceRow>, ids: set<T>): set<T> {
    set t | t in ids && t in rows && rows[t].mean.Some?
  }

  function SkippedRows<T>(rows: map<T, TraceRow>, ids: set<T>): set<T> {
    set t | t in ids && t in rows && rows[t].mean.None?
  }

  ghost function MeanOf<T(!new)>(rows: map<T, TraceRow>): T -> real {
    t => if t in rows && rows[t].mean.Some? then rows[t].mean.value else 0.0
  }

  ghost function BucketOf<T(!new)>(rows: map<T, TraceRow>, ids: set<T>): Bucket {
    Bucket(|ids|, |SkippedRows(rows, ids)|,
           if Scored(rows, ids) == {} then None else Some(Average(Scored(rows, ids), MeanOf(rows))))
  }

  function InBucket(rows: map<string, TraceRow>, g: Granularity, b: Moment): set<string> {
    set t | t in rows && Trunc(g, rows[t].start) == b
  }

  function BucketTimes(rows: map<string, TraceRow>, g: Granularity): set<Moment> {
    set t | t in rows :: Trunc(g, rows[t].start)
  }

  ghost function Buckets(rows: map<string, TraceRow>, g: Granularity): map<Moment, Bucket> {
    map b | b in BucketTimes(rows, g) :: BucketOf(rows, InBucket(rows, g, b))
  }

  ghost function TimeSeries(db: ScoreDb, monitor: Id, name: string, from: int, to: int, granularity: string): Option<map<Moment, Bucket>> {
    var g := ParseGranularity(granularity);
    if g.None? then None else Some(Buckets(TraceRows(db, monitor, name, from, to), g.value))
  }

  // ---- The multi-evaluator query ----------------------------------------------------------------------

  datatype NameTrace = NameTrace(name: string, trace: string)

  datatype NameBucket = NameBucket(name: string, bucket: Moment)

  ghost function SelectedAny(db: ScoreDb, monitor: Id, names: seq<string>, from: int, to: int): set<ScoreKey> {
    set k | k in db.scores && InWindow(db, k, monitor, from, to) && exists n | n in names :: Named(db, k.evaluator, n)
  }

  ghost function NamedAs(db: ScoreDb, rows: set<ScoreKey>, name: string): set<ScoreKey> {
    set k | k in rows && Named(db, k.evaluator, name)
  }

  /** GROUP BY evaluator_name, trace_id. */
  ghost function BatchGroups(db: ScoreDb, rows: set<ScoreKey>, names: seq<string>): set<NameTrace> {
    set n, k | n in names && k in rows && Named(db, k.evaluator, n) :: NameTrace(n, k.trace)
  }

  ghost function BatchTraceRows(db: ScoreDb, monitor: Id, names: seq<string>, from: int, to: int): map<NameTrace, TraceRow> {
    var rows := SelectedAny(db, monitor, names, from, to);
    map x | x in BatchGroups(db, rows, names) :: TraceRowOf(db, OfTrace(NamedAs(db, rows, x.name), x.trace))
  }

  /** GROUP BY evaluator_name, time_bucket. */
  function InNameBucket(rows: map<NameTrace, TraceRow>, g: Granularity, b: NameBucket): set<NameTrace> {
    set x | x in rows && x.name == b.name && Trunc(g, rows[x].start) == b.bucket
  }

  function NameBuckets(rows: map<NameTrace, TraceRow>, g: Granularity): set<NameBucket> {
    set x | x in rows :: NameBucket(x.name, Trunc(g, rows[x].start))
  }

  ghost function BatchBuckets(rows: map<NameTrace, TraceRow>, g: Granularity): map<NameBucket, Bucket> {
    map b | b in NameBuckets(rows, g) :: BucketOf(rows, InNameBucket(rows, g, b))
  }

  ghost function BatchTimeSeries(db: ScoreDb, monitor: Id, names: seq<string>, from: int, to: int, granularity: string): Option<map<NameBucket, Bucket>> {
    var g := ParseGranularity(granularity);
    if g.None? then None else Some(BatchBuckets(BatchTraceRows(db, monitor, names, from, to), g.value))
  }

  /** The rows of one evaluator in the batch are its own rows under a longer key. */
  lemma BatchRowsAreSingleRows(db: ScoreDb, monitor: Id, names: seq<string>, name: string, from: int, to: int)
    requires name in names
    ensures var batch, single := BatchTraceRows(db, monitor, names, from, to), TraceRows(db, monitor, name, from, to);
            forall t :: (NameTrace(name, t) in batch <==> t in single)
                        && (t in single ==> batch[NameTrace(name, t)] == single[t])
  {
    var any, own := SelectedAny(db, monitor, names, from, to), Selected(db, monitor, name, from, to);
    assert NamedAs(db, any, name) == own;
  }

  ghost predicate SameRows(batch: map<NameTrace, TraceRow>, single: map<string, TraceRow>, name: string) {
    forall t :: (NameTrace(name, t) in batch <==> t in single)
                && (t in single ==> batch[NameTrace(name, t)] == single[t])
  }

  ghost function WithName(name: string): string -> NameTrace {
    (t: string) => NameTrace(name, t)
  }

  ghost function Renamed(name: string, ids: set<string>): set<NameTrace> {
    set t | t in ids :: WithName(name)(t)
  }

  lemma RenamedParts(batch: map<NameTrace, TraceRow>, single: map<string, TraceRow>, name: string, ids: set<string>)
    requires SameRows(batch, single, name) && ids <= single.Keys
    ensures Scored(batch, Renamed(name, ids)) == Renamed(name, Scored(single, ids))
    ensures SkippedRows(batch, Renamed(name, ids)) == Renamed(name, SkippedRows(single, ids))
  {
  }

  lemma BucketsOfSameRows(batch: map<NameTrace, TraceRow>, single: map<string, TraceRow>, name: string, ids: set<string>)
    requires SameRows(batch, single, name) && ids <= single.Keys
    ensures BucketOf(batch, Renamed(name, ids)) == BucketOf(single, ids)
  {
    var f, f' := MeanOf(single), MeanOf(batch);
    RenamedParts(batch, single, name, ids);
    forall part | part <= ids
      ensures Sum(Renamed(name, part), f') == Sum(part, f) && |Renamed(name, part)| == |part|
    {
      SumImage(part, Renamed(name, part), WithName(name), f, f');
    }
    var scored := Scored(single, ids);
    assert scored == {} <==> |scored| == 0;
    assert Renamed(name, scored) == {} <==> |Renamed(name, scored)| == 0;
  }

  /** The batch time series, restricted to one of its evaluators, is that evaluator's own time series. */
  lemma BatchEqualsSingle(db: ScoreDb, monitor: Id, names: seq<string>, name: string, from: int, to: int, granularity: string)
    requires name in names
    ensures var batch, single := BatchTimeSeries(db, monitor, names, from, to, granularity), TimeSeries(db, monitor, name, from, to, granularity);
            && batch.Some? == single.Some?
            && (batch.Some? ==> forall b ::
                  && (NameBucket(name, b) in batch.value <==> b in single.value)
                  && (b in single.value ==> batch.value[NameBucket(name, b)] == single.value[b]))
  {
    var g := ParseGranularity(granularity);
    if g.Some? {
      var batch, single := BatchTraceRows(db, monitor, names, from, to), TraceRows(db, monitor, name, from, to);
      BatchRowsAreSingleRows(db, monitor, names, name, from, to);
      forall b
        ensures NameBucket(name, b) in NameBuckets(batch, g.value) <==> b in BucketTimes(single, g.value)
        ensures BucketOf(batch, InNameBucket(batch, g.value, NameBucket(name, b))) == BucketOf(single, InBucket(single, g.value, b))
      {
        SameBucket(batch, single, name, g.value, b);
      }
    }
  }

  lemma SameBucket(batch: map<NameTrace, TraceRow>, single: map<string, TraceRow>, name: string, g: Granularity, b: Moment)
    requires SameRows(batch, single, name)
    ensures NameBucket(name, b) in NameBuckets(batch, g) <==> b in BucketTimes(single, g)
    ensures BucketOf(batch, InNameBucket(batch, g, NameBucket(name, b))) == BucketOf(single, InBucket(single, g, b))
  {
    var ids := InBucket(single, g, b);
    assert InNameBucket(batch, g, NameBucket(name, b)) == Renamed(name, ids) by {
      forall x | x in InNameBucket(batch, g, NameBucket(name, b)) ensures x.trace in ids && x == NameTrace(name, x.trace) {
      }
    }
    BucketsOfSameRows(batch, single, name, ids);
    if NameBucket(name, b) in NameBuckets(batch, g) {
      var x :| x in batch && NameBucket(x.name, Trunc(g, batch[x].start)) == NameBucket(name, b);
      assert x == NameTrace(name, x.trace);
    }
    if b in BucketTimes(single, g) {
      var t :| t in single && Trunc(g, single[t].start) == b;
      assert NameTrace(name, t) in batch;
    }
  }

  // ---- Coarser buckets ------------------------------------------------------------------------------------

  /** The buckets of the fine series that a coarse bucket covers. */
  ghost function Covered(rows: map<string, TraceRow>, fine: Granularity, coarse: Granularity, b: Moment): set<Moment> {
    set f | f in BucketTimes(rows, fine) && Trunc(coarse, f.us) == b
  }

  function TimeOf(rows: map<string, TraceRow>, g: Granularity): string -> Moment {
    (t: string) => if t in rows then Trunc(g, rows[t].start) else Moment(0)
  }

  function Total(series: map<Moment, Bucket>): Moment -> real {
    (b: Moment) => if b in series then series[b].total as real else 0.0
  }

  function Skipped(series: map<Moment, Bucket>): Moment -> real {
    (b: Moment) => if b in series then series[b].skipped as real else 0.0
  }

  /** Mean times number of scored traces: what the bucket contributes to a larger mean. */
  function Weight(b: Bucket): real {
    if b.mean.None? then 0.0 else b.mean.value * (b.total - b.skipped) as real
  }

  function WeightAt(series: map<Moment, Bucket>): Moment -> real {
    (b: Moment) => if b in series then Weight(series[b]) else 0.0
  }

  function One(): string -> real {
    (t: string) => 1.0
  }

  function SkippedOne(rows: map<string, TraceRow>): string -> real {
    (t: string) => if t in rows && rows[t].mean.None? then 1.0 else 0.0
  }

  lemma BucketCounts(rows: map<string, TraceRow>, ids: set<string>)
    requires ids <= rows.Keys
    ensures |ids| == |Scored(rows, ids)| + |SkippedRows(rows, ids)|
    ensures |Scored(rows, ids)| == 0 <==> Scored(rows, ids) == {}
  {
    assert ids == Scored(rows, ids) + SkippedRows(rows, ids);
  }

  lemma ProductOfQuotient(a: real, n: real)
    requires n != 0.0
    ensures a / n * n == a
  {
  }

  lemma ScoredSum(rows: map<string, TraceRow>, ids: set<string>)
    requires ids <= rows.Keys
    ensures Sum(ids, MeanOf(rows)) == Sum(Scored(rows, ids), MeanOf(rows))
  {
    var scored := Scored(rows, ids);
    forall t | t in ids - scored ensures MeanOf(rows)(t) == 0.0 {
    }
    SumSupport(ids, scored, MeanOf(rows));
  }

  lemma WeightOfAverage(b: Bucket, sum: real, n: int)
    requires n > 0 && b.total - b.skipped == n && b.mean == Some(sum / n as real)
    ensures Weight(b) == sum
  {
    ProductOfQuotient(sum, n as real);
  }

  lemma ScoredWeight(rows: map<string, TraceRow>, ids: set<string>)
    requires ids <= rows.Keys
    ensures Weight(BucketOf(rows, ids)) == Sum(Scored(rows, ids), MeanOf(rows))
  {
    var scored, f, b := Scored(rows, ids), MeanOf(rows), BucketOf(rows, ids);
    BucketCounts(rows, ids);
    if scored != {} {
      assert b.mean == Some(Average(scored, f));
      WeightOfAverage(b, Sum(scored, f), |scored|);
    }
  }

  lemma BucketWeight(rows: map<string, TraceRow>, ids: set<string>)
    requires ids <= rows.Keys
    ensures Weight(BucketOf(rows, ids)) == Sum(ids, MeanOf(rows))
  {
    ScoredWeight(rows, ids);
    ScoredSum(rows, ids);
  }

  /** A bucket's three numbers as sums over its traces. */
  lemma BucketAsSums(rows: map<string, TraceRow>, ids: set<string>)
    requires ids <= rows.Keys
    ensures var b := BucketOf(rows, ids);
            && b.total as real == Sum(ids, One())
            && b.skipped as real == Sum(ids, SkippedOne(rows))
            && Weight(b) == Sum(ids, MeanOf(rows))
  {
    var skipped := SkippedRows(rows, ids);
    SumOfOnes(ids, One());
    SumSupport(ids, skipped, SkippedOne(rows));
    SumOfOnes(skipped, SkippedOne(rows));
    BucketWeight(rows, ids);
  }

  lemma SeriesAsSums(rows: map<string, TraceRow>, g: Granularity)
    ensures var series := Buckets(rows, g);
            forall b | b in BucketTimes(rows, g) ::
              && Total(series)(b) == Sum(InBucket(rows, g, b), One())
              && Skipped(series)(b) == Sum(InBucket(rows, g, b), SkippedOne(rows))
              && WeightAt(series)(b) == Sum(InBucket(rows, g, b), MeanOf(rows))
  {
    forall b | b in BucketTimes(rows, g) {
      BucketAsSums(rows, InBucket(rows, g, b));
    }
  }

  /** The fine buckets a coarse bucket covers are a partition of its traces. */
  lemma CoveredPartition(rows: map<string, TraceRow>, fine: Granularity, coarse: Granularity, b: Moment)
    requires Length(fine) <= Length(coarse)
    ensures forall t | t in InBucket(rows, coarse, b) :: TimeOf(rows, fine)(t) in Covered(rows, fine, coarse, b)
    ensures forall c | c in Covered(rows, fine, coarse, b) ::
              Fibre(InBucket(rows, coarse, b), TimeOf(rows, fine), c) == InBucket(rows, fine, c)
  {
    forall t | t in InBucket(rows, coarse, b) ensures TimeOf(rows, fine)(t) in Covered(rows, fine, coarse, b) {
      BucketsNest(fine, coarse, rows[t].start);
    }
    forall c | c in Covered(rows, fine, coarse, b)
      ensures Fibre(InBucket(rows, coarse, b), TimeOf(rows, fine), c) == InBucket(rows, fine, c)
    {
      FineBucketInside(rows, fine, coarse, b, c);
    }
  }

  lemma FineBucketInside(rows: map<string, TraceRow>, fine: Granularity, coarse: Granularity, b: Moment, c: Moment)
    requires Length(fine) <= Length(coarse) && Trunc(coarse, c.us) == b
    ensures Fibre(InBucket(rows, coarse, b), TimeOf(rows, fine), c) == InBucket(rows, fine, c)
  {
    forall t | t in rows && Trunc(fine, rows[t].start) == c ensures t in InBucket(rows, coarse, b) {
      BucketsNest(fine, coarse, rows[t].start);
    }
  }

  /** Any sum over the traces of a coarse bucket is the sum over the fine buckets it covers. */
  lemma CoarseSum(rows: map<string, TraceRow>, fine: Granularity, coarse: Granularity, b: Moment,
                  f: string -> real, perBucket: Moment -> real)
    requires Length(fine) <= Length(coarse)
    requires forall c | c in BucketTimes(rows, fine) :: perBucket(c) == Sum(InBucket(rows, fine, c), f)
    ensures Sum(InBucket(rows, coarse, b), f) == Sum(Covered(rows, fine, coarse, b), perBucket)
  {
    var ids, groups, h := InBucket(rows, coarse, b), Covered(rows, fine, coarse, b), TimeOf(rows, fine);
    CoveredPartition(rows, fine, coarse, b);
    SumFibres(ids, f, h, groups);
    SumCongruence(groups, FibreSum(ids, f, h), perBucket);
  }

  /**
   * Coarsening conserves: a coarse bucket's counts are the sums of the counts of the fine
   * buckets it covers, and so is its mean times its number of scored traces.
   */
  lemma CoarseningConserves(rows: map<string, TraceRow>, fine: Granularity, coarse: Granularity, b: Moment)
    requires Length(fine) <= Length(coarse) && b in Buckets(rows, coarse)
    ensures var fineSeries, c, covered := Buckets(rows, fine), Buckets(rows, coarse)[b], Covered(rows, fine, coarse, b);
            && c.total as real == Sum(covered, Total(fineSeries))
            && c.skipped as real == Sum(covered, Skipped(fineSeries))
            && Weight(c) == Sum(covered, WeightAt(fineSeries))
  {
    var fineSeries := Buckets(rows, fine);
    BucketAsSums(rows, InBucket(rows, coarse, b));
    SeriesAsSums(rows, fine);
    CoarseSum(rows, fine, coarse, b, One(), Total(fineSeries));
    CoarseSum(rows, fine, coarse, b, SkippedOne(rows), Skipped(fineSeries));
    CoarseSum(rows, fine, coarse, b, MeanOf(rows), WeightAt(fineSeries));
  }

  // ---- Nothing is lost --------------------------------------------------------------------------------------

  /** The buckets that list a trace. */
  ghost function BucketsOf(rows: map<string, TraceRow>, g: Granularity, t: string): set<Moment> {
    set b | b in Buckets(rows, g) && t in InBucket(rows, g, b)
  }

  lemma AllFibre(rows: map<string, TraceRow>, g: Granularity, b: Moment)
    ensures Fibre(rows.Keys, TimeOf(rows, g), b) == InBucket(rows, g, b)
  {
  }

  lemma SeriesSum(rows: map<string, TraceRow>, g: Granularity, f: string -> real, perBucket: Moment -> real)
    requires forall b | b in BucketTimes(rows, g) :: perBucket(b) == Sum(InBucket(rows, g, b), f)
    ensures Sum(BucketTimes(rows, g), perBucket) == Sum(rows.Keys, f)
  {
    var h := TimeOf(rows, g);
    SumFibres(rows.Keys, f, h, BucketTimes(rows, g));
    forall b | b in BucketTimes(rows, g) ensures FibreSum(rows.Keys, f, h)(b) == perBucket(b) {
      AllFibre(rows, g, b);
    }
    SumCongruence(BucketTimes(rows, g), FibreSum(rows.Keys, f, h), perBucket);
  }

  lemma SeriesTotals(rows: map<string, TraceRow>, g: Granularity)
    ensures var series := Buckets(rows, g);
            && Sum(series.Keys, Total(series)) == |rows.Keys| as real
            && Sum(series.Keys, Skipped(series)) == |SkippedRows(rows, rows.Keys)| as real
            && Sum(series.Keys, WeightAt(series)) == Sum(rows.Keys, MeanOf(rows))
  {
    var series := Buckets(rows, g);
    SeriesAsSums(rows, g);
    SeriesSum(rows, g, One(), Total(series));
    SeriesSum(rows, g, SkippedOne(rows), Skipped(series));
    SeriesSum(rows, g, MeanOf(rows), WeightAt(series));
    BucketAsSums(rows, rows.Keys);
    assert series.Keys == BucketTimes(rows, g);
  }

  /**
   * Each trace is counted in exactly one bucket: the totals of all buckets add up to the
   * number of traces, the skipped counts to the number of skipped traces, and the weighted
   * means to the sum of the traces' means.
   */
  lemma EachTraceInOneBucket(rows: map<string, TraceRow>, g: Granularity)
    ensures forall t | t in rows :: |BucketsOf(rows, g, t)| == 1
    ensures var series := Buckets(rows, g);
            && Sum(series.Keys, Total(series)) == |rows.Keys| as real
            && Sum(series.Keys, Skipped(series)) == |SkippedRows(rows, rows.Keys)| as real
            && Sum(series.Keys, WeightAt(series)) == Sum(rows.Keys, MeanOf(rows))
  {
    forall t | t in rows ensures |BucketsOf(rows, g, t)| == 1 {
      OneBucketOf(rows, g, t);
    }
    SeriesTotals(rows, g);
  }

  lemma OneBucketOf(rows: map<string, TraceRow>, g: Granularity, t: string)
    requires t in rows
    ensures |BucketsOf(rows, g, t)| == 1
  {
    assert BucketsOf(rows, g, t) == {Trunc(g, rows[t].start)};
  }

  // ---- Ranges --------------------------------------------------------------------------------------------

  lemma TraceMeanInRange(db: ScoreDb, group: set<ScoreKey>)
    requires ScoresInRange(db)
    ensures MeanScore(db, group).Some? ==> 0.0 <= MeanScore(db, group).value <= 1.0
  {
    var counted := Counted(db, group);
    if counted != {} {
      AverageRange(counted, ScoreOf(db));
    }
  }

  ghost predicate MeansAreShares(rows: map<string, TraceRow>) {
    forall t | t in rows && rows[t].mean.Some? :: 0.0 <= rows[t].mean.value <= 1.0
  }

  lemma RowMeansInRange(db: ScoreDb, monitor: Id, name: string, from: int, to: int)
    requires ScoresInRange(db)
    ensures MeansAreShares(TraceRows(db, monitor, name, from, to))
  {
    var selected, rows := Selected(db, monitor, name, from, to), TraceRows(db, monitor, name, from, to);
    forall t | t in rows && rows[t].mean.Some? ensures 0.0 <= rows[t].mean.value <= 1.0 {
      TraceMeanInRange(db, OfTrace(selected, t));
    }
  }

  /** Counts add up, the mean is missing exactly when all traces were skipped, and means are shares. */
  predicate Sound(b: Bucket) {
    && b.skipped <= b.total && b.total > 0
    && (b.mean.None? <==> b.skipped == b.total)
    && (b.mean.Some? ==> 0.0 <= b.mean.value <= 1.0)
  }

  lemma BucketMeanInRange(rows: map<string, TraceRow>, ids: set<string>)
    requires ids <= rows.Keys && ids != {} && MeansAreShares(rows)
    ensures Sound(BucketOf(rows, ids))
  {
    BucketCounts(rows, ids);
    var scored := Scored(rows, ids);
    if scored != {} {
      AverageRange(scored, MeanOf(rows));
    }
  }

  lemma BucketsSound(rows: map<string, TraceRow>, g: Granularity)
    requires MeansAreShares(rows)
    ensures forall b | b in Buckets(rows, g) :: Sound(Buckets(rows, g)[b])
  {
    forall b | b in Buckets(rows, g) ensures Sound(BucketOf(rows, InBucket(rows, g, b))) {
      var t :| t in rows && Trunc(g, rows[t].start) == b;
      assert t in InBucket(rows, g, b);
      BucketMeanInRange(rows, InBucket(rows, g, b));
    }
  }

  /** Every mean of a series lies in [0, 1], and a bucket has no mean exactly when all its traces were skipped. */
  lemma MeansInRange(db: ScoreDb, monitor: Id, name: string, from: int, to: int, granularity: string)
    requires ScoresInRange(db)
    ensures var series := TimeSeries(db, monitor, name, from, to, granularity);
            series.Some? ==> forall b | b in series.value :: Sound(series.value[b])
  {
    var g := ParseGranularity(granularity);
    if g.Some? {
      RowMeansInRange(db, monitor, name, from, to);
      BucketsSound(TraceRows(db, monitor, name, from, to), g.value);
    }
  }
}
