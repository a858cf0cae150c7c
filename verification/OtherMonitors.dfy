/** What a publish does to the scores of monitors other than the publishing one. */
module OtherMonitors {
  import opened Common
  import opened ScoreTables
  import opened ScorePublishing
  import opened PublishRuns

  // ---- Rows that other monitors hold ------------------------------------------------------------

  /** Before the publish, the item's evaluator is there and its key is `k`. */
  predicate Hits(db: ScoreDb, c: Call, i: Item, k: ScoreKey) {
    var e := EvaluatorKey(c.run, i.evaluatorName);
    e in db.evaluators && ScoreKey(db.evaluators[e].id, i.trace, SpanId(i)) == k
  }

  /** The last of the items whose key is `k`. */
  function LastItem(db: ScoreDb, c: Call, items: seq<Item>, k: ScoreKey): Option<Item> {
    if items == [] then None
    else if Hits(db, c, items[|items| - 1], k) then Some(items[|items| - 1])
    else LastItem(db, c, items[..|items| - 1], k)
  }

  lemma {:induction false} LastItemHits(db: ScoreDb, c: Call, items: seq<Item>, k: ScoreKey)
    ensures LastItem(db, c, items, k).Some? ==>
              LastItem(db, c, items, k).value in items && Hits(db, c, LastItem(db, c, items, k).value, k)
  {
    if items != [] {
      LastItemHits(db, c, items[..|items| - 1], k);
    }
  }

  /** The stored row with the item's values and its old monitor. */
  function Overwritten(s: Score, i: Item): Score
    requires i.startTime.Some?
  {
    Score(s.monitor, i.score, i.explanation, i.startTime.value, i.skipReason, SpanLabel(i))
  }

  lemma HitsAfterUpsert(db: ScoreDb, c: Call, i: Item, k: ScoreKey)
    requires FreshIds(db, c) && k.evaluator in EvaluatorIds(db.evaluators)
    requires Reloaded(Upserting(db, c), c.monitor, c.run, i.evaluatorName) && i.startTime.Some?
    ensures Hits(db, c, i, k) <==> RowFor(Upserting(db, c), c.monitor, c.run, i).key == k
  {
    var e := EvaluatorKey(c.run, i.evaluatorName);
    if e in db.evaluators {
      PutEvaluatorsEffect(db.evaluators, EvaluatorRows(c.monitor, c.run, c.req.aggregates, c.newIds));
    } else {
      NewKeyHasNewId(db, c, e);
    }
  }

  /** The row that decides what is stored under an existing key is that of the last item that hits it. */
  lemma {:induction false} LastItemIsLastRow(db: ScoreDb, c: Call, items: seq<Item>, k: ScoreKey)
    requires FreshIds(db, c) && k.evaluator in EvaluatorIds(db.evaluators)
    requires NamesKnown(Upserting(db, c), c.monitor, c.run, items) && StartTimesGiven(items)
    ensures var row, last := LastRow(ScoreRows(Upserting(db, c), c.monitor, c.run, items), k), LastItem(db, c, items, k);
            && row.Some? == last.Some?
            && (last.Some? ==> last.value.startTime.Some? && row.value == Overwritten(row.value, last.value))
    decreases |items|
  {
    if items != [] {
      var rest, i := items[..|items| - 1], items[|items| - 1];
      var rows := ScoreRows(Upserting(db, c), c.monitor, c.run, items);
      assert i in items;
      LastItemIsLastRow(db, c, rest, k);
      HitsAfterUpsert(db, c, i, k);
      assert rows[..|rows| - 1] == ScoreRows(Upserting(db, c), c.monitor, c.run, rest);
    }
  }

  lemma StaleIsOwn(db: ScoreDb, c: Call, k: ScoreKey, current: set<Id>, traces: set<string>)
    requires k in db.scores && db.scores[k].monitor != c.monitor
    ensures k in DeleteStale(db.scores, c.monitor, current, traces)
    ensures DeleteStale(db.scores, c.monitor, current, traces)[k] == db.scores[k]
  {
  }

  /**
   * A row of another monitor stays that monitor's, and holds the values of the last item
   * that hits its key: it is unchanged iff there is no such item or its values are the same.
   */
  lemma RowOfOtherMonitor(db: ScoreDb, c: Call, k: ScoreKey)
    requires FreshIds(db, c) && ReferencesHold(db) && Do(db, c).Published?
    requires k in db.scores && db.scores[k].monitor != c.monitor
    ensures var t, last := Do(db, c).db, LastItem(db, c, c.req.items, k);
            && (last.Some? ==> last.value.startTime.Some?)
            && k in t.scores
            && t.scores[k] == if last.None? then db.scores[k] else Overwritten(db.scores[k], last.value)
  {
    var mid := Upserting(db, c);
    PublishSplits(db, c);
    PublishItemsEffect(mid, c.monitor, c.run, c.req.items);
    StaleIsOwn(db, c, k, CurrentIds(mid, c.monitor, c.run), TracesOf(c.req.items));
    LastItemIsLastRow(db, c, c.req.items, k);
  }

  // ---- When other monitors are untouched ------------------------------------------------------------

  /** The scores of one monitor. */
  function OfMonitor(db: ScoreDb, monitor: Id): map<ScoreKey, Score> {
    map k | k in db.scores && db.scores[k].monitor == monitor :: db.scores[k]
  }

  /** Some item overwrites a row of the monitor with other values. */
  ghost predicate Overwrites(db: ScoreDb, c: Call, monitor: Id) {
    exists k | k in OfMonitor(db, monitor) ::
      var last := LastItem(db, c, c.req.items, k);
      last.Some? && last.value.startTime.Some? && Overwritten(db.scores[k], last.value) != db.scores[k]
  }

  lemma NothingNewForOthers(db: ScoreDb, c: Call, k: ScoreKey)
    requires |c.newIds| == |c.req.aggregates| && Do(db, c).Published?
    requires k in Do(db, c).db.scores && Do(db, c).db.scores[k].monitor != c.monitor
    ensures k in db.scores && db.scores[k].monitor == Do(db, c).db.scores[k].monitor
  {
    PublishSplits(db, c);
    ItemScoreOrigin(Upserting(db, c), c.monitor, c.run, c.req.items, k);
  }

  lemma RowsOfOtherMonitor(db: ScoreDb, c: Call, monitor: Id)
    requires FreshIds(db, c) && ReferencesHold(db) && Do(db, c).Published? && monitor != c.monitor
    ensures OfMonitor(Do(db, c).db, monitor).Keys == OfMonitor(db, monitor).Keys
  {
    forall k | k in OfMonitor(Do(db, c).db, monitor) ensures k in OfMonitor(db, monitor) {
      NothingNewForOthers(db, c, k);
    }
    forall k | k in OfMonitor(db, monitor) ensures k in OfMonitor(Do(db, c).db, monitor) {
      RowOfOtherMonitor(db, c, k);
    }
  }

  /** A successful publish leaves another monitor's scores as they were iff no item overwrites one of them. */
  lemma OtherMonitorUntouchedIff(db: ScoreDb, c: Call, monitor: Id)
    requires FreshIds(db, c) && ReferencesHold(db) && Do(db, c).Published? && monitor != c.monitor
    ensures OfMonitor(Do(db, c).db, monitor) == OfMonitor(db, monitor) <==> !Overwrites(db, c, monitor)
  {
    var t := Do(db, c).db;
    var before, after := OfMonitor(db, monitor), OfMonitor(t, monitor);
    RowsOfOtherMonitor(db, c, monitor);
    forall k | k in before
      ensures after[k] == before[k] <==>
              var last := LastItem(db, c, c.req.items, k);
              !(last.Some? && last.value.startTime.Some? && Overwritten(db.scores[k], last.value) != db.scores[k])
    {
      RowOfOtherMonitor(db, c, k);
    }
    assert after == before <==> forall k | k in before :: after[k] == before[k];
  }

  /** Items whose keys no other monitor holds touch no other monitor's scores, whether the publish succeeds or not. */
  lemma OtherMonitorsUntouched(db: ScoreDb, c: Call, monitor: Id)
    requires FreshIds(db, c) && ReferencesHold(db) && monitor != c.monitor
    requires forall i | i in c.req.items :: !HeldByOther(db, c, i)
    ensures OfMonitor(AfterPublish(db, Do(db, c)), monitor) == OfMonitor(db, monitor)
  {
    if Do(db, c).Published? {
      forall k | k in OfMonitor(db, monitor) ensures LastItem(db, c, c.req.items, k).None? {
        LastItemHits(db, c, c.req.items, k);
      }
      OtherMonitorUntouchedIff(db, c, monitor);
    }
  }

  /** While runs have owners, a publish under its owner touches no other monitor's scores. */
  lemma OwnedLeavesOtherMonitors(db: ScoreDb, c: Call, owner: Id -> Id, monitor: Id)
    requires Owned(db, owner) && FreshIds(db, c) && c.monitor == owner(c.run) && monitor != c.monitor
    ensures OfMonitor(AfterPublish(db, Do(db, c)), monitor) == OfMonitor(db, monitor)
  {
    forall i | i in c.req.items ensures !HeldByOther(db, c, i) {
      OwnedIsNeverHeld(db, c, owner, i);
    }
    OtherMonitorsUntouched(db, c, monitor);
  }

  /** Over any sequence of publishes, each run under its owner only, a monitor's scores change only in its own publishes. */
  lemma {:induction false} RunLeavesOtherMonitors(db: ScoreDb, calls: seq<Call>, owner: Id -> Id, monitor: Id)
    requires Sized(calls) && LegalCalls(db, calls, owner) && Owned(db, owner)
    requires forall c | c in calls :: c.monitor != monitor
    ensures OfMonitor(DoAll(db, calls), monitor) == OfMonitor(db, monitor)
    decreases |calls|
  {
    if calls != [] {
      var rest, c := calls[..|calls| - 1], calls[|calls| - 1];
      assert forall n | 0 <= n < |rest| :: rest[..n] == calls[..n] && rest[n] == calls[n];
      RunLeavesOtherMonitors(db, rest, owner, monitor);
      RunKeepsOwned(db, rest, owner);
      assert FreshIds(DoAll(db, calls[..|rest|]), calls[|rest|]);
      OwnedLeavesOtherMonitors(DoAll(db, rest), c, owner, monitor);
    }
  }

  // ---- A run of two monitors --------------------------------------------------------------------------

  /**
   * Published for the same run under a second monitor, a score overwrites the first
   * monitor's: its row keeps the monitor and takes the new value.
   */
  lemma SecondMonitorOverwrites()
    ensures var first, second := OneScore(Uuid(1), Uuid(10), 1.0), OneScore(Uuid(2), Uuid(11), 0.0);
            var k := ScoreKey(Uuid(10), "t", None);
            && Do(TwoMonitors(), first).Published?
            && var t := Do(TwoMonitors(), first).db;
            && FreshIds(t, second) && Do(t, second).Published?
            && k in OfMonitor(t, Uuid(1)) && t.scores[k].score == Some(1.0)
            && k in OfMonitor(Do(t, second).db, Uuid(1)) && Do(t, second).db.scores[k].score == Some(0.0)
  {
    var first, second := OneScore(Uuid(1), Uuid(10), 1.0), OneScore(Uuid(2), Uuid(11), 0.0);
    var k := ScoreKey(Uuid(10), "t", None);
    RunOfTwoMonitors();
    UnderFirstMonitor();
    var t := Do(TwoMonitors(), first).db;
    FirstScore();
    RowOfOtherMonitor(t, second, k);
    assert second.req.items[..0] == [];
    assert Hits(t, second, second.req.items[0], k);
  }

  lemma FirstScore()
    ensures var first, k := OneScore(Uuid(1), Uuid(10), 1.0), ScoreKey(Uuid(10), "t", None);
            && Do(TwoMonitors(), first).Published?
            && var t := Do(TwoMonitors(), first).db;
            && k in t.scores && t.scores[k].monitor == Uuid(1) && t.scores[k].score == Some(1.0)
            && EvaluatorKey(Uuid(9), "accuracy") in t.evaluators
            && t.evaluators[EvaluatorKey(Uuid(9), "accuracy")].id == Uuid(10)
  {
    var db, c, k := TwoMonitors(), OneScore(Uuid(1), Uuid(10), 1.0), ScoreKey(Uuid(10), "t", None);
    UnderFirstMonitor();
    PublishSplits(db, c);
    var mid := Upserting(db, c);
    PublishItemsEffect(mid, c.monitor, c.run, c.req.items);
    var e := EvaluatorKey(Uuid(9), "accuracy");
    assert c.req.items[0] in c.req.items;
    assert mid.evaluators[e].id in EvaluatorIds(Do(db, c).db.evaluators);
    var rows := ScoreRows(mid, c.monitor, c.run, c.req.items);
    assert rows == [rows[0]] && rows[0].key == k;
    assert LastRow(rows, k) == Some(rows[0].values);
  }
}
