/** Exactly which publish requests are accepted, as a condition on the request and the tables before it. */
module PublishAcceptance {
  import opened Common
  import opened ScoreTables
  import opened ScorePublishing
  import opened PublishRuns

  /** What identifies a score within a run. */
  datatype ItemKey = ItemKey(evaluatorName: string, trace: string, span: Option<string>)

  function KeyOf(i: Item): ItemKey {
    ItemKey(i.evaluatorName, i.trace, SpanId(i))
  }

  function ItemKeys(items: seq<Item>): (r: seq<ItemKey>)
    ensures |r| == |items| && forall j | 0 <= j < |items| :: r[j] == KeyOf(items[j])
  {
    seq(|items|, j requires 0 <= j < |items| => KeyOf(items[j]))
  }

  function NamesOf(aggregates: seq<Aggregate>): (r: seq<string>)
    ensures |r| == |aggregates| && forall j | 0 <= j < |aggregates| :: r[j] == aggregates[j].evaluatorName
  {
    seq(|aggregates|, j requires 0 <= j < |aggregates| => aggregates[j].evaluatorName)
  }

  predicate AggregateAllowed(db: ScoreDb, monitor: Id, run: Id, a: Aggregate) {
    && run in db.runs && monitor in db.monitors
    && a.level in {"trace", "agent", "llm"}
    && Fits(a.evaluatorName) && Fits(a.identifier)
    && IsInt32(a.count) && IsInt32(a.skippedCount)
  }

  predicate ItemAllowed(i: Item) {
    && (i.score.Some? ==> 0.0 <= i.score.value <= 1.0)
    && Fits(i.trace) && (SpanId(i).Some? ==> Fits(SpanId(i).value)) && Fits(SpanLabel(i))
  }

  predicate ItemsAllowed(items: seq<Item>) {
    forall i | i in items :: ItemAllowed(i)
  }

  /** The evaluator comes with the request or is stored for that monitor and run already. */
  predicate KnownEvaluator(db: ScoreDb, monitor: Id, run: Id, aggregates: seq<Aggregate>, name: string) {
    name in NamesOf(aggregates) || Reloaded(db, monitor, run, name)
  }

  predicate Acceptable(db: ScoreDb, monitor: Id, run: Id, req: Request) {
    && StartTimesGiven(req.items)
    && Distinct(NamesOf(req.aggregates))
    && (forall a | a in req.aggregates :: AggregateAllowed(db, monitor, run, a))
    && (forall i | i in req.items :: KnownEvaluator(db, monitor, run, req.aggregates, i.evaluatorName))
    && ItemsAllowed(req.items)
    && NoBatchRepeats(ItemKeys(req.items), BATCH_SIZE)
  }

  lemma UpsertAcceptedIff(db: ScoreDb, c: Call)
    requires |c.newIds| == |c.req.aggregates|
    ensures UpsertEvaluators(db, EvaluatorRows(c.monitor, c.run, c.req.aggregates, c.newIds)).Some?
            <==> && Distinct(NamesOf(c.req.aggregates))
                 && forall a | a in c.req.aggregates :: AggregateAllowed(db, c.monitor, c.run, a)
  {
    var aggregates := c.req.aggregates;
    var rows, names := EvaluatorRows(c.monitor, c.run, aggregates, c.newIds), NamesOf(aggregates);
    SameRepeats(EvaluatorKeys(rows), names);
    if forall r | r in rows :: EvaluatorAllowed(db, r) {
      forall a | a in aggregates ensures AggregateAllowed(db, c.monitor, c.run, a) {
        var j :| 0 <= j < |aggregates| && aggregates[j] == a;
        assert EvaluatorAllowed(db, rows[j]);
      }
    }
    if forall a | a in aggregates :: AggregateAllowed(db, c.monitor, c.run, a) {
      forall r | r in rows ensures EvaluatorAllowed(db, r) {
        var j :| 0 <= j < |rows| && rows[j] == r;
        assert AggregateAllowed(db, c.monitor, c.run, aggregates[j]);
      }
    }
  }

  lemma SameRepeats<K, L>(a: seq<K>, b: seq<L>)
    requires |a| == |b| && forall i, j | 0 <= i < j < |a| :: a[i] == a[j] <==> b[i] == b[j]
    ensures Distinct(a) <==> Distinct(b)
  {
  }

  lemma SameBatchRepeats<K, L>(a: seq<K>, b: seq<L>, size: nat)
    requires size > 0
    requires |a| == |b| && forall i, j | 0 <= i < j < |a| :: a[i] == a[j] <==> b[i] == b[j]
    ensures NoBatchRepeats(a, size) <==> NoBatchRepeats(b, size)
  {
    if NoBatchRepeats(a, size) {
      forall i, j | 0 <= i < j < |b| && i / size == j / size ensures b[i] != b[j] {
        assert a[i] != a[j];
      }
    }
    if NoBatchRepeats(b, size) {
      forall i, j | 0 <= i < j < |a| && i / size == j / size ensures a[i] != a[j] {
        assert b[i] != b[j];
      }
    }
  }

  lemma KnownIff(db: ScoreDb, c: Call, name: string)
    requires |c.newIds| == |c.req.aggregates| && Distinct(NamesOf(c.req.aggregates))
    ensures Reloaded(Upserting(db, c), c.monitor, c.run, name)
            <==> KnownEvaluator(db, c.monitor, c.run, c.req.aggregates, name)
  {
    var rows, names := EvaluatorRows(c.monitor, c.run, c.req.aggregates, c.newIds), NamesOf(c.req.aggregates);
    var k := EvaluatorKey(c.run, name);
    PutEvaluatorsEffect(db.evaluators, rows);
    SameRepeats(EvaluatorKeys(rows), names);
    if name in names {
      var j :| 0 <= j < |names| && names[j] == name;
      assert rows[j] in rows && Holds(Upserting(db, c).evaluators, rows[j]);
    } else {
      forall j | 0 <= j < |rows| ensures EvaluatorKeys(rows)[j] != k {
        assert names[j] in names;
      }
    }
  }

  lemma RowsAllowedIff(db: ScoreDb, monitor: Id, run: Id, items: seq<Item>)
    requires NamesKnown(db, monitor, run, items) && StartTimesGiven(items)
    ensures (forall r | r in ScoreRows(db, monitor, run, items) :: ScoreAllowed(EvaluatorIds(db.evaluators), r))
            <==> ItemsAllowed(items)
  {
    var rows := ScoreRows(db, monitor, run, items);
    forall j | 0 <= j < |items| ensures ScoreAllowed(EvaluatorIds(db.evaluators), rows[j]) <==> ItemAllowed(items[j]) {
      assert items[j] in items;
    }
    if forall r | r in rows :: ScoreAllowed(EvaluatorIds(db.evaluators), r) {
      forall i | i in items ensures ItemAllowed(i) {
        var j :| 0 <= j < |items| && items[j] == i;
        assert rows[j] in rows;
      }
    }
    if ItemsAllowed(items) {
      forall r | r in rows ensures ScoreAllowed(EvaluatorIds(db.evaluators), r) {
        var j :| 0 <= j < |rows| && rows[j] == r;
        assert items[j] in items;
      }
    }
  }

  /** Rows repeat a key exactly where items do, because evaluator ids are unique. */
  lemma RepeatsIff(db: ScoreDb, monitor: Id, run: Id, items: seq<Item>)
    requires NamesKnown(db, monitor, run, items) && StartTimesGiven(items) && IdsUnique(db.evaluators)
    ensures ChunksDistinct(ScoreRows(db, monitor, run, items), BATCH_SIZE) <==> NoBatchRepeats(ItemKeys(items), BATCH_SIZE)
  {
    var rows := ScoreRows(db, monitor, run, items);
    ChunksDistinctIff(rows, BATCH_SIZE);
    forall i, j | 0 <= i < j < |items| ensures ScoreKeys(rows)[i] == ScoreKeys(rows)[j] <==> ItemKeys(items)[i] == ItemKeys(items)[j] {
      assert items[i] in items && items[j] in items;
    }
    SameBatchRepeats(ScoreKeys(rows), ItemKeys(items), BATCH_SIZE);
  }

  lemma ItemsAcceptedIff(db: ScoreDb, monitor: Id, run: Id, items: seq<Item>)
    requires StartTimesGiven(items) && IdsUnique(db.evaluators)
    ensures PublishItems(db, monitor, run, items).Published?
            <==> NamesKnown(db, monitor, run, items) && ItemsAllowed(items) && NoBatchRepeats(ItemKeys(items), BATCH_SIZE)
  {
    if NamesKnown(db, monitor, run, items) {
      var kept := DeleteStale(db.scores, monitor, CurrentIds(db, monitor, run), TracesOf(items));
      BatchesMeaning(kept, EvaluatorIds(db.evaluators), ScoreRows(db, monitor, run, items), BATCH_SIZE);
      RowsAllowedIff(db, monitor, run, items);
      RepeatsIff(db, monitor, run, items);
    }
  }

  /** A publish succeeds iff its request is acceptable, whatever new ids the database generates. */
  lemma AcceptedIff(db: ScoreDb, c: Call)
    requires FreshIds(db, c) && IdsUnique(db.evaluators)
    ensures Do(db, c).Published? <==> Acceptable(db, c.monitor, c.run, c.req)
  {
    UpsertAcceptedIff(db, c);
    UpsertKeepsIdsUnique(db, c);
    if StartTimesGiven(c.req.items) && Distinct(NamesOf(c.req.aggregates)) {
      forall i | i in c.req.items
        ensures Reloaded(Upserting(db, c), c.monitor, c.run, i.evaluatorName)
                <==> KnownEvaluator(db, c.monitor, c.run, c.req.aggregates, i.evaluatorName)
      {
        KnownIff(db, c, i.evaluatorName);
      }
      ItemsAcceptedIff(Upserting(db, c), c.monitor, c.run, c.req.items);
    }
  }

  // ---- The condition, spelled out ------------------------------------------------------------------

  predicate SameSpan(i: Item, j: Item) {
    SpanIs(i, if j.span.None? then None else j.span.value.spanId)
  }

  ghost predicate ItemFits(i: Item) {
    && (i.score.Some? ==> 0.0 <= i.score.value <= 1.0)
    && |i.trace| <= 255
    && (forall id: string :: SpanIs(i, Some(id)) ==> |id| <= 255)
    && (forall text: string :: LabelIs(i, text) ==> |text| <= 255)
  }

  predicate AggregateFits(a: Aggregate) {
    && (a.level == "trace" || a.level == "agent" || a.level == "llm")
    && |a.evaluatorName| <= 255 && |a.identifier| <= 255
    && -2147483648 <= a.count <= 2147483647 && -2147483648 <= a.skippedCount <= 2147483647
  }

  lemma ItemFitsIff(i: Item)
    ensures ItemFits(i) <==> ItemAllowed(i)
  {
    SpanAndLabel(i);
  }

  lemma KeysDiffer(items: seq<Item>, m: nat, n: nat)
    requires m < |items| && n < |items|
    ensures ItemKeys(items)[m] == ItemKeys(items)[n]
            <==> items[m].evaluatorName == items[n].evaluatorName && items[m].trace == items[n].trace && SameSpan(items[m], items[n])
  {
    SpanAndLabel(items[m]);
    SpanAndLabel(items[n]);
  }

  lemma NoRepeatsIff(items: seq<Item>)
    ensures NoBatchRepeats(ItemKeys(items), BATCH_SIZE)
            <==> forall m, n | 0 <= m < n < |items| && m / 100 == n / 100 ::
                   !(items[m].evaluatorName == items[n].evaluatorName && items[m].trace == items[n].trace && SameSpan(items[m], items[n]))
  {
    forall m, n | 0 <= m < n < |items|
      ensures ItemKeys(items)[m] == ItemKeys(items)[n]
              <==> items[m].evaluatorName == items[n].evaluatorName && items[m].trace == items[n].trace && SameSpan(items[m], items[n])
    {
      KeysDiffer(items, m, n);
    }
    if NoBatchRepeats(ItemKeys(items), BATCH_SIZE) {
      forall m, n | 0 <= m < n < |items| && m / 100 == n / 100
        ensures !(items[m].evaluatorName == items[n].evaluatorName && items[m].trace == items[n].trace && SameSpan(items[m], items[n]))
      {
        assert ItemKeys(items)[m] != ItemKeys(items)[n];
      }
    }
  }

  lemma AggregatesFitIff(db: ScoreDb, monitor: Id, run: Id, aggregates: seq<Aggregate>)
    ensures (forall a | a in aggregates :: AggregateAllowed(db, monitor, run, a))
            <==> (aggregates != [] ==> run in db.runs && monitor in db.monitors) && forall a | a in aggregates :: AggregateFits(a)
  {
    if aggregates != [] {
      assert aggregates[0] in aggregates;
    }
  }

  lemma KnownMeaning(db: ScoreDb, c: Call, name: string)
    ensures KnownEvaluator(db, c.monitor, c.run, c.req.aggregates, name)
            <==> || (exists a | a in c.req.aggregates :: a.evaluatorName == name)
                 || (EvaluatorKey(c.run, name) in db.evaluators && db.evaluators[EvaluatorKey(c.run, name)].monitor == c.monitor)
  {
    var aggregates := c.req.aggregates;
    if name in NamesOf(aggregates) {
      var j :| 0 <= j < |aggregates| && NamesOf(aggregates)[j] == name;
      assert aggregates[j] in aggregates;
    }
    if a :| a in aggregates && a.evaluatorName == name {
      var j :| 0 <= j < |aggregates| && aggregates[j] == a;
      assert NamesOf(aggregates)[j] == name;
    }
  }

  /**
   * A publish succeeds iff: every item has a start time, names an evaluator of the request
   * or one stored for this run and monitor, and fits its columns; evaluator names are not
   * repeated, aggregates fit their columns, and run and monitor exist if there are any; and
   * no two items within a hundred rows counted from the first are for the same evaluator,
   * trace and span.
   */
  lemma AcceptedSpelledOut(db: ScoreDb, c: Call)
    requires FreshIds(db, c) && IdsUnique(db.evaluators)
    ensures var items, aggregates := c.req.items, c.req.aggregates;
            Do(db, c).Published? <==>
              && (forall i | i in items :: i.startTime.Some?)
              && (forall m, n | 0 <= m < n < |aggregates| :: aggregates[m].evaluatorName != aggregates[n].evaluatorName)
              && (aggregates != [] ==> c.run in db.runs && c.monitor in db.monitors)
              && (forall a | a in aggregates :: AggregateFits(a))
              && (forall i | i in items ::
                    || (exists a | a in aggregates :: a.evaluatorName == i.evaluatorName)
                    || (EvaluatorKey(c.run, i.evaluatorName) in db.evaluators
                        && db.evaluators[EvaluatorKey(c.run, i.evaluatorName)].monitor == c.monitor))
              && (forall i | i in items :: ItemFits(i))
              && (forall m, n | 0 <= m < n < |items| && m / 100 == n / 100 ::
                    !(items[m].evaluatorName == items[n].evaluatorName && items[m].trace == items[n].trace && SameSpan(items[m], items[n])))
  {
    var items, aggregates := c.req.items, c.req.aggregates;
    AcceptedIff(db, c);
    forall i | i in items
      ensures ItemFits(i) <==> ItemAllowed(i)
      ensures KnownEvaluator(db, c.monitor, c.run, aggregates, i.evaluatorName)
              <==> || (exists a | a in aggregates :: a.evaluatorName == i.evaluatorName)
                   || (EvaluatorKey(c.run, i.evaluatorName) in db.evaluators
                       && db.evaluators[EvaluatorKey(c.run, i.evaluatorName)].monitor == c.monitor)
    {
      ItemFitsIff(i);
      KnownMeaning(db, c, i.evaluatorName);
    }
    NoRepeatsIff(items);
    AggregatesFitIff(db, c.monitor, c.run, aggregates);
    NamesDifferIff(aggregates);
  }

  lemma NamesDifferIff(aggregates: seq<Aggregate>)
    ensures Distinct(NamesOf(aggregates))
            <==> forall m, n | 0 <= m < n < |aggregates| :: aggregates[m].evaluatorName != aggregates[n].evaluatorName
  {
  }
}
