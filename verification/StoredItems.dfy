/** What a successful publish stores for each of its items. */
module StoredItems {
  import opened Common
  import opened ScoreTables
  import opened ScorePublishing
  import opened PublishRuns
  import opened PublishAcceptance
  import opened OtherMonitors

  /** The last of the items for the same evaluator, trace and span. */
  function LastFor(items: seq<Item>, key: ItemKey): Option<Item> {
    if items == [] then None
    else if KeyOf(items[|items| - 1]) == key then Some(items[|items| - 1])
    else LastFor(items[..|items| - 1], key)
  }

  lemma {:induction false} LastForExists(items: seq<Item>, i: Item)
    requires i in items
    ensures LastFor(items, KeyOf(i)).Some?
    ensures var last := LastFor(items, KeyOf(i)).value; last in items && KeyOf(last) == KeyOf(i)
  {
    var n := |items| - 1;
    if KeyOf(items[n]) != KeyOf(i) {
      assert items == items[..n] + [items[n]];
      LastForExists(items[..n], i);
    }
  }

  lemma SameKeyIff(mid: ScoreDb, monitor: Id, run: Id, i: Item, j: Item)
    requires IdsUnique(mid.evaluators) && i.startTime.Some? && j.startTime.Some?
    requires Reloaded(mid, monitor, run, i.evaluatorName) && Reloaded(mid, monitor, run, j.evaluatorName)
    ensures RowFor(mid, monitor, run, i).key == RowFor(mid, monitor, run, j).key <==> KeyOf(i) == KeyOf(j)
  {
  }

  /** The row that decides what is stored for an item is that of the last item with its key. */
  lemma {:induction false} LastForIsLastRow(mid: ScoreDb, monitor: Id, run: Id, items: seq<Item>, i: Item)
    requires NamesKnown(mid, monitor, run, items) && StartTimesGiven(items) && IdsUnique(mid.evaluators)
    requires Reloaded(mid, monitor, run, i.evaluatorName) && i.startTime.Some?
    ensures var row, last := LastRow(ScoreRows(mid, monitor, run, items), RowFor(mid, monitor, run, i).key), LastFor(items, KeyOf(i));
            && row.Some? == last.Some?
            && (last.Some? ==> last.value in items && row.value == RowFor(mid, monitor, run, last.value).values)
    decreases |items|
  {
    if items != [] {
      var rest, j := items[..|items| - 1], items[|items| - 1];
      var rows := ScoreRows(mid, monitor, run, items);
      assert j in items && forall x | x in rest :: x in items;
      LastForIsLastRow(mid, monitor, run, rest, i);
      SameKeyIff(mid, monitor, run, j, i);
      assert rows[..|rows| - 1] == ScoreRows(mid, monitor, run, rest);
    }
  }

  /** The monitor that an item's score ends with: the one that holds the key already, or the publishing one. */
  function OwnerOf(db: ScoreDb, c: Call, i: Item): Id {
    if HeldByOther(db, c, i) then
      db.scores[ScoreKey(db.evaluators[EvaluatorKey(c.run, i.evaluatorName)].id, i.trace, SpanId(i))].monitor
    else c.monitor
  }

  lemma KeyOfItem(db: ScoreDb, c: Call, i: Item)
    requires FreshIds(db, c) && Do(db, c).Published? && i in c.req.items
    ensures i.startTime.Some? && Reloaded(Upserting(db, c), c.monitor, c.run, i.evaluatorName)
    ensures var mid := Upserting(db, c);
            var k := RowFor(mid, c.monitor, c.run, i).key;
            && mid.evaluators == Do(db, c).db.evaluators
            && (ReferencesHold(db) && k in db.scores ==>
                  EvaluatorKey(c.run, i.evaluatorName) in db.evaluators
                  && db.evaluators[EvaluatorKey(c.run, i.evaluatorName)].id == k.evaluator)
  {
    PublishSplits(db, c);
    PublishItemsEffect(Upserting(db, c), c.monitor, c.run, c.req.items);
    var e := EvaluatorKey(c.run, i.evaluatorName);
    PutEvaluatorsEffect(db.evaluators, EvaluatorRows(c.monitor, c.run, c.req.aggregates, c.newIds));
    if e !in db.evaluators {
      NewKeyHasNewId(db, c, e);
    }
  }

  /** What is stored under an item's key, given what the stale delete kept. */
  lemma RowStored(db: ScoreDb, c: Call, i: Item, k: ScoreKey)
    requires FreshIds(db, c) && IdsUnique(db.evaluators) && Do(db, c).Published? && i in c.req.items
    requires i.startTime.Some? && Reloaded(Upserting(db, c), c.monitor, c.run, i.evaluatorName)
    requires k == RowFor(Upserting(db, c), c.monitor, c.run, i).key
    ensures var t, last := Do(db, c).db, LastFor(c.req.items, KeyOf(i));
            var kept := DeleteStale(db.scores, c.monitor, CurrentIds(Upserting(db, c), c.monitor, c.run), TracesOf(c.req.items));
            && last.Some? && last.value.startTime.Some? && k in t.scores
            && t.scores[k] == Overwritten(t.scores[k], last.value)
            && t.scores[k].monitor == if k in kept then kept[k].monitor else c.monitor
  {
    var mid, items := Upserting(db, c), c.req.items;
    PublishSplits(db, c);
    UpsertKeepsIdsUnique(db, c);
    PublishItemsEffect(mid, c.monitor, c.run, items);
    LastForExists(items, i);
    LastForIsLastRow(mid, c.monitor, c.run, items, i);
  }

  /**
   * For every item of a successful publish, a score is stored under its key with the values
   * of the last item of the request with that key; it belongs to the monitor that held the
   * key before, if another one did, and to the publishing monitor otherwise.
   */
  lemma StoredForItem(db: ScoreDb, c: Call, i: Item)
    requires FreshIds(db, c) && IdsUnique(db.evaluators) && ReferencesHold(db)
    requires Do(db, c).Published? && i in c.req.items
    ensures var t, e, last := Do(db, c).db, EvaluatorKey(c.run, i.evaluatorName), LastFor(c.req.items, KeyOf(i));
            && e in t.evaluators && last.Some? && last.value.startTime.Some?
            && var k := ScoreKey(t.evaluators[e].id, i.trace, SpanId(i));
            && k in t.scores
            && t.scores[k] == Overwritten(t.scores[k], last.value)
            && t.scores[k].monitor == OwnerOf(db, c, i)
  {
    KeyOfItem(db, c, i);
    var k := RowFor(Upserting(db, c), c.monitor, c.run, i).key;
    RowStored(db, c, i, k);
    KeptRow(db, c, k);
    OwnerIs(db, c, i, k);
  }

  lemma OwnerIs(db: ScoreDb, c: Call, i: Item, k: ScoreKey)
    requires FreshIds(db, c) && ReferencesHold(db) && Do(db, c).Published? && i in c.req.items
    requires i.startTime.Some? && Reloaded(Upserting(db, c), c.monitor, c.run, i.evaluatorName)
    requires k == RowFor(Upserting(db, c), c.monitor, c.run, i).key
    ensures OwnerOf(db, c, i) == if k in db.scores && db.scores[k].monitor != c.monitor then db.scores[k].monitor else c.monitor
  {
    KeyOfItem(db, c, i);
    PutEvaluatorsEffect(db.evaluators, EvaluatorRows(c.monitor, c.run, c.req.aggregates, c.newIds));
  }

  /** A row that another monitor holds is not deleted before the insert; a row that is kept was there. */
  lemma KeptRow(db: ScoreDb, c: Call, k: ScoreKey)
    requires |c.newIds| == |c.req.aggregates|
    ensures var kept := DeleteStale(db.scores, c.monitor, CurrentIds(Upserting(db, c), c.monitor, c.run), TracesOf(c.req.items));
            && (k in kept ==> k in db.scores && kept[k] == db.scores[k])
            && (k in db.scores && db.scores[k].monitor != c.monitor ==> k in kept)
  {
  }

  // ---- Column by column --------------------------------------------------------------------------------

  lemma LastForIsLatest(items: seq<Item>, j: nat)
    requires j < |items| && forall m | j < m < |items| :: KeyOf(items[m]) != KeyOf(items[j])
    ensures LastFor(items, KeyOf(items[j])) == Some(items[j])
    decreases |items|
  {
    if j < |items| - 1 {
      LastForIsLatest(items[..|items| - 1], j);
    }
  }

  /** No later item is for the same evaluator, trace and span. */
  predicate IsLatest(items: seq<Item>, j: nat)
    requires j < |items|
  {
    forall m | j < m < |items| ::
      !(items[m].evaluatorName == items[j].evaluatorName && items[m].trace == items[j].trace && SameSpan(items[m], items[j]))
  }

  /** A score row holds the item's own values, its start time and its label. */
  predicate HoldsItem(s: Score, i: Item) {
    && s.score == i.score && s.explanation == i.explanation && s.skipReason == i.skipReason
    && i.startTime == Some(s.startTime) && LabelIs(i, s.spanLabel)
  }

  /**
   * After a successful publish every item has a score under its evaluator of the run, its
   * trace and its span. Unless a later item replaces it, the score holds the item's values;
   * it belongs to the publishing monitor, unless another one held that key before.
   */
  lemma StoredColumns(db: ScoreDb, c: Call, j: nat, span: Option<string>)
    requires FreshIds(db, c) && IdsUnique(db.evaluators) && ReferencesHold(db)
    requires Do(db, c).Published? && j < |c.req.items| && SpanIs(c.req.items[j], span)
    ensures var t, i := Do(db, c).db, c.req.items[j];
            var e := EvaluatorKey(c.run, i.evaluatorName);
            && e in t.evaluators
            && var k := ScoreKey(t.evaluators[e].id, i.trace, span);
            && k in t.scores
            && t.scores[k].monitor == (if k in db.scores && db.scores[k].monitor != c.monitor then db.scores[k].monitor else c.monitor)
            && (IsLatest(c.req.items, j) ==> HoldsItem(t.scores[k], i))
  {
    var i := c.req.items[j];
    SpanAndLabel(i);
    StoredForItem(db, c, i);
    KeyOfItem(db, c, i);
    OwnerIs(db, c, i, RowFor(Upserting(db, c), c.monitor, c.run, i).key);
    if IsLatest(c.req.items, j) {
      LatestIsLast(c.req.items, j);
    }
  }

  lemma LatestIsLast(items: seq<Item>, j: nat)
    requires j < |items| && IsLatest(items, j)
    ensures LastFor(items, KeyOf(items[j])) == Some(items[j])
  {
    forall m | j < m < |items| ensures KeyOf(items[m]) != KeyOf(items[j]) {
      KeysDiffer(items, m, j);
    }
    LastForIsLatest(items, j);
  }

  /** Items of one trace with different spans are stored side by side. */
  lemma SpansApart(db: ScoreDb, c: Call, m: nat, n: nat, s: SpanContext, s': SpanContext)
    requires FreshIds(db, c) && IdsUnique(db.evaluators) && ReferencesHold(db) && Do(db, c).Published?
    requires m < |c.req.items| && n < |c.req.items|
    requires c.req.items[m].span == Some(s) && c.req.items[n].span == Some(s') && s.spanId != s'.spanId
    requires c.req.items[m].evaluatorName == c.req.items[n].evaluatorName && c.req.items[m].trace == c.req.items[n].trace
    ensures var t, i := Do(db, c).db, c.req.items[m];
            var e := EvaluatorKey(c.run, i.evaluatorName);
            && e in t.evaluators
            && ScoreKey(t.evaluators[e].id, i.trace, s.spanId) in t.scores
            && ScoreKey(t.evaluators[e].id, i.trace, s'.spanId) in t.scores
  {
    StoredColumns(db, c, m, s.spanId);
    StoredColumns(db, c, n, s'.spanId);
  }

  /** After a successful publish every aggregate is stored for run and monitor; a row that was there keeps its id, a new one has a generated one. */
  lemma StoredAggregates(db: ScoreDb, c: Call, j: nat)
    requires FreshIds(db, c) && Do(db, c).Published? && j < |c.req.aggregates|
    ensures var t, a := Do(db, c).db, c.req.aggregates[j];
            var e := EvaluatorKey(c.run, a.evaluatorName);
            && e in t.evaluators
            && var row := t.evaluators[e];
            && row.monitor == c.monitor && row.identifier == a.identifier && row.level == a.level
            && row.aggregations == a.aggregations && row.count == a.count && row.skippedCount == a.skippedCount
            && row.id == if e in db.evaluators then db.evaluators[e].id else c.newIds[j]
  {
    var rows := EvaluatorRows(c.monitor, c.run, c.req.aggregates, c.newIds);
    PublishSplits(db, c);
    PublishItemsEffect(Upserting(db, c), c.monitor, c.run, c.req.items);
    PutEvaluatorsEffect(db.evaluators, rows);
    assert rows[j] in rows && Holds(Upserting(db, c).evaluators, rows[j]);
    var e := EvaluatorKey(c.run, c.req.aggregates[j].evaluatorName);
    if e !in db.evaluators {
      var m := RowOfNewKey(db, c, e);
      assert EvaluatorKeys(rows)[m] == e && EvaluatorKeys(rows)[j] == e;
    }
  }

  /** Evaluators that the request does not name stay as they are. */
  lemma OtherEvaluatorsStay(db: ScoreDb, c: Call, e: EvaluatorKey)
    requires |c.newIds| == |c.req.aggregates| && Do(db, c).Published?
    requires e.run != c.run || forall a | a in c.req.aggregates :: a.evaluatorName != e.name
    ensures e in Do(db, c).db.evaluators <==> e in db.evaluators
    ensures e in db.evaluators ==> Do(db, c).db.evaluators[e] == db.evaluators[e]
  {
    var rows := EvaluatorRows(c.monitor, c.run, c.req.aggregates, c.newIds);
    PublishSplits(db, c);
    PublishItemsEffect(Upserting(db, c), c.monitor, c.run, c.req.items);
    PutEvaluatorsEffect(db.evaluators, rows);
    forall j | 0 <= j < |rows| ensures EvaluatorKeys(rows)[j] != e {
      assert c.req.aggregates[j] in c.req.aggregates;
    }
  }

  /** A stored evaluator of the monitor and the run has the id. */
  ghost predicate OfThisRun(db: ScoreDb, c: Call, evaluator: Id) {
    exists e :: e in db.evaluators && e.run == c.run && db.evaluators[e].monitor == c.monitor && db.evaluators[e].id == evaluator
  }

  /**
   * A successful publish deletes exactly the monitor's own scores, on traces that the request
   * names, whose evaluators are not of this run.
   */
  lemma RemainsIff(db: ScoreDb, c: Call, k: ScoreKey)
    requires |c.newIds| == |c.req.aggregates| && Do(db, c).Published? && k in db.scores
    ensures k in Do(db, c).db.scores
            <==> !(db.scores[k].monitor == c.monitor && (exists i | i in c.req.items :: i.trace == k.trace)
                   && !OfThisRun(Do(db, c).db, c, k.evaluator))
  {
    var mid := Upserting(db, c);
    PublishSplits(db, c);
    PublishItemsEffect(mid, c.monitor, c.run, c.req.items);
    RowsOfPublish(mid, c.monitor, c.run, c.req.items);
    CurrentMeaning(db, c, k.evaluator);
    NamedTraces(c.req.items, k.trace);
    if c.req.items != [] {
      ItemsHaveEvaluators(mid, c.monitor, c.run, c.req.items);
    }
  }

  lemma CurrentMeaning(db: ScoreDb, c: Call, evaluator: Id)
    requires |c.newIds| == |c.req.aggregates| && Do(db, c).Published?
    ensures evaluator in CurrentIds(Upserting(db, c), c.monitor, c.run) <==> OfThisRun(Do(db, c).db, c, evaluator)
  {
    PublishSplits(db, c);
    PublishItemsEffect(Upserting(db, c), c.monitor, c.run, c.req.items);
    if OfThisRun(Do(db, c).db, c, evaluator) {
      var e :| e in Do(db, c).db.evaluators && e.run == c.run && Do(db, c).db.evaluators[e].monitor == c.monitor
               && Do(db, c).db.evaluators[e].id == evaluator;
      assert e in Upserting(db, c).evaluators;
    }
  }

  lemma NamedTraces(items: seq<Item>, trace: string)
    ensures trace in TracesOf(items) <==> exists i | i in items :: i.trace == trace
  {
  }

  lemma ItemsHaveEvaluators(db: ScoreDb, monitor: Id, run: Id, items: seq<Item>)
    requires NamesKnown(db, monitor, run, items) && items != []
    ensures CurrentIds(db, monitor, run) != {}
  {
    assert items[0] in items;
    assert db.evaluators[EvaluatorKey(run, items[0].evaluatorName)].id in CurrentIds(db, monitor, run);
  }
}
