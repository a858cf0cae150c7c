/**
 * Publishing the scores of one monitor run: evaluators are upserted, scores of earlier
 * runs of the named traces are deleted, scores are upserted, all in one transaction.
 */
module ScorePublishing {
  import opened Common
  import opened ScoreTables

  datatype SpanContext = SpanContext(spanId: Option<string>, agentName: Option<string>,
                                     model: Option<string>, vendor: Option<string>)

  datatype Item = Item(evaluatorName: string, level: string, trace: string, score: Option<real>,
                       explanation: Option<string>, startTime: Option<int>, skipReason: Option<string>,
                       span: Option<SpanContext>)

  datatype Aggregate = Aggregate(identifier: string, evaluatorName: string, level: string,
                                 aggregations: string, count: int, skippedCount: int)

  datatype Request = Request(items: seq<Item>, aggregates: seq<Aggregate>)

  datatype PublishError = MissingStartTime | EvaluatorsRejected | UnknownEvaluator | ScoresRejected

  datatype PublishResult = Published(db: ScoreDb) | Failed(error: PublishError)

  function AfterPublish(db: ScoreDb, r: PublishResult): ScoreDb {
    match r
    case Published(t) => t
    case Failed(_) => db
  }

  // ---- The request as rows -------------------------------------------------------------------

  function Given(text: Option<string>): bool {
    text.Some? && text.value != ""
  }

  function SpanLabel(item: Item): string {
    if item.span.None? then ""
    else
      var s := item.span.value;
      if item.level == "agent" && Given(s.agentName) then s.agentName.value
      else if item.level == "llm" && Given(s.model) then
        if Given(s.vendor) then s.vendor.value + "/" + s.model.value else s.model.value
      else ""
  }

  function SpanId(item: Item): Option<string> {
    if item.span.None? then None else item.span.value.spanId
  }

  /** The span id an item is stored under: that of its span context, NULL without one. */
  predicate SpanIs(i: Item, id: Option<string>) {
    if i.span.None? then id.None? else id == i.span.value.spanId
  }

  /** The label an item is stored with: the agent's name for agents, vendor and model for LLM calls, else nothing. */
  predicate LabelIs(i: Item, text: string) {
    match i.span
    case None => text == ""
    case Some(s) =>
      match (i.level, s.agentName, s.vendor, s.model)
      case ("agent", Some(agent), _, _) => text == agent
      case ("llm", _, Some(vendor), Some(model)) =>
        text == if model == "" then "" else if vendor == "" then model else vendor + "/" + model
      case ("llm", _, None, Some(model)) => text == model
      case _ => text == ""
  }

  lemma SpanAndLabel(i: Item)
    ensures SpanIs(i, SpanId(i)) && LabelIs(i, SpanLabel(i))
    ensures forall id :: SpanIs(i, id) ==> id == SpanId(i)
    ensures forall text :: LabelIs(i, text) ==> text == SpanLabel(i)
  {
  }

  /** `newIds` are the ids the database would generate for rows it has to insert. */
  function EvaluatorRows(monitor: Id, run: Id, aggregates: seq<Aggregate>, newIds: seq<Id>): (rows: seq<EvaluatorRow>)
    requires |newIds| == |aggregates|
    ensures |rows| == |aggregates|
  {
    seq(|aggregates|, i requires 0 <= i < |aggregates| =>
      var a := aggregates[i];
      EvaluatorRow(EvaluatorKey(run, a.evaluatorName),
                   Evaluator(newIds[i], monitor, a.identifier, a.level, a.aggregations, a.count, a.skippedCount)))
  }

  /** The evaluators a reload by monitor and run finds. */
  predicate Reloaded(db: ScoreDb, monitor: Id, run: Id, name: string) {
    var k := EvaluatorKey(run, name);
    k in db.evaluators && db.evaluators[k].monitor == monitor
  }

  function CurrentIds(db: ScoreDb, monitor: Id, run: Id): set<Id> {
    set k | k in db.evaluators && k.run == run && db.evaluators[k].monitor == monitor :: db.evaluators[k].id
  }

  function TracesOf(items: seq<Item>): set<string> {
    set i | i in items :: i.trace
  }

  predicate NamesKnown(db: ScoreDb, monitor: Id, run: Id, items: seq<Item>) {
    forall i | i in items :: Reloaded(db, monitor, run, i.evaluatorName)
  }

  predicate StartTimesGiven(items: seq<Item>) {
    forall i | i in items :: i.startTime.Some?
  }

  function RowFor(db: ScoreDb, monitor: Id, run: Id, i: Item): ScoreRow
    requires Reloaded(db, monitor, run, i.evaluatorName) && i.startTime.Some?
  {
    ScoreRow(ScoreKey(db.evaluators[EvaluatorKey(run, i.evaluatorName)].id, i.trace, SpanId(i)),
             Score(monitor, i.score, i.explanation, i.startTime.value, i.skipReason, SpanLabel(i)))
  }

  function ScoreRows(db: ScoreDb, monitor: Id, run: Id, items: seq<Item>): (rows: seq<ScoreRow>)
    requires NamesKnown(db, monitor, run, items) && StartTimesGiven(items)
    ensures |rows| == |items|
    ensures forall j | 0 <= j < |items| :: rows[j] == RowFor(db, monitor, run, items[j])
  {
    seq(|items|, j requires 0 <= j < |items| => RowFor(db, monitor, run, items[j]))
  }

  /** Score rows depend on the evaluators only. */
  lemma RowsIgnoreScores(db: ScoreDb, scores: map<ScoreKey, Score>, monitor: Id, run: Id, items: seq<Item>)
    requires StartTimesGiven(items)
    ensures var t := db.(scores := scores);
            && NamesKnown(t, monitor, run, items) == NamesKnown(db, monitor, run, items)
            && (NamesKnown(db, monitor, run, items) ==>
                  ScoreRows(t, monitor, run, items) == ScoreRows(db, monitor, run, items))
  {
  }

  // ---- PublishScores ---------------------------------------------------------------------------

  /** The part of the transaction that follows the evaluator upsert. */
  function PublishItems(db: ScoreDb, monitor: Id, run: Id, items: seq<Item>): PublishResult
    requires StartTimesGiven(items)
  {
    if !NamesKnown(db, monitor, run, items) then Failed(UnknownEvaluator)
    else
      var kept := DeleteStale(db.scores, monitor, CurrentIds(db, monitor, run), TracesOf(items));
      var created := CreateInBatches(kept, EvaluatorIds(db.evaluators), ScoreRows(db, monitor, run, items), BATCH_SIZE);
      if created.None? then Failed(ScoresRejected) else Published(db.(scores := created.value))
  }

  function Publish(db: ScoreDb, monitor: Id, run: Id, req: Request, newIds: seq<Id>): PublishResult
    requires |newIds| == |req.aggregates|
  {
    if !StartTimesGiven(req.items) then Failed(MissingStartTime)
    else
      var upserted := UpsertEvaluators(db, EvaluatorRows(monitor, run, req.aggregates, newIds));
      if upserted.None? then Failed(EvaluatorsRejected)
      else PublishItems(upserted.value, monitor, run, req.items)
  }

  // ---- What the statements do, key by key ---------------------------------------------------------

  function LastRow(rows: seq<ScoreRow>, k: ScoreKey): Option<Score> {
    if rows == [] then None
    else if rows[|rows| - 1].key == k then Some(rows[|rows| - 1].values)
    else LastRow(rows[..|rows| - 1], k)
  }

  ghost predicate AllOf(rows: seq<ScoreRow>, monitor: Id) {
    forall r | r in rows :: r.values.monitor == monitor
  }

  /** Of several rows for a key the last one counts; a row that was there keeps its monitor. */
  ghost predicate Upserted(m: map<ScoreKey, Score>, rows: seq<ScoreRow>, after: map<ScoreKey, Score>) {
    forall k: ScoreKey ::
      && (k in after <==> k in m || LastRow(rows, k).Some?)
      && (k in after ==>
            after[k] == if LastRow(rows, k).None? then m[k]
                        else if k in m then LastRow(rows, k).value.(monitor := m[k].monitor)
                        else LastRow(rows, k).value)
  }

  lemma {:induction false} PutScoresUpserts(m: map<ScoreKey, Score>, rows: seq<ScoreRow>, monitor: Id)
    requires AllOf(rows, monitor)
    ensures Upserted(m, rows, PutScores(m, rows))
    ensures forall k | LastRow(rows, k).Some? :: LastRow(rows, k).value.monitor == monitor
  {
    if rows != [] {
      PutScoresUpserts(m, rows[..|rows| - 1], monitor);
    }
  }

  lemma {:induction false} LastRowExists(rows: seq<ScoreRow>, k: ScoreKey)
    ensures LastRow(rows, k).Some? <==> exists j | 0 <= j < |rows| :: rows[j].key == k
  {
    if rows != [] {
      LastRowExists(rows[..|rows| - 1], k);
    }
  }

  /** Writing the same rows again changes nothing. */
  lemma PutScoresAgain(m: map<ScoreKey, Score>, rows: seq<ScoreRow>, monitor: Id)
    requires AllOf(rows, monitor)
    ensures PutScores(PutScores(m, rows), rows) == PutScores(m, rows)
  {
    var once, twice := PutScores(m, rows), PutScores(PutScores(m, rows), rows);
    PutScoresUpserts(m, rows, monitor);
    PutScoresUpserts(once, rows, monitor);
    assert forall k :: k in twice <==> k in once;
    assert forall k | k in once :: twice[k] == once[k];
  }

  /** The row is stored, whatever its id. */
  ghost predicate Holds(m: map<EvaluatorKey, Evaluator>, row: EvaluatorRow) {
    row.key in m && m[row.key] == row.values.(id := m[row.key].id)
  }

  lemma {:induction false} PutEvaluatorsEffect(m: map<EvaluatorKey, Evaluator>, rows: seq<EvaluatorRow>)
    ensures var after := PutEvaluators(m, rows);
            && (forall k | k in m :: k in after && after[k].id == m[k].id)
            && (forall k | k in after :: k in m || k in EvaluatorKeys(rows))
            && (forall k | k in m && k !in EvaluatorKeys(rows) :: after[k] == m[k])
            && (Distinct(EvaluatorKeys(rows)) ==> forall r | r in rows :: Holds(after, r))
  {
    if rows != [] {
      var rest, last := rows[..|rows| - 1], rows[|rows| - 1];
      PutEvaluatorsEffect(m, rest);
      assert EvaluatorKeys(rows) == EvaluatorKeys(rest) + [last.key];
      assert rows == rest + [last];
      if Distinct(EvaluatorKeys(rows)) {
        assert forall r | r in rest :: r.key != last.key by {
          forall r | r in rest ensures r.key != last.key {
            var j :| 0 <= j < |rest| && rest[j] == r;
            assert EvaluatorKeys(rows)[j] == r.key && EvaluatorKeys(rows)[|rest|] == last.key;
          }
        }
        assert Distinct(EvaluatorKeys(rest)) by {
          assert forall j | 0 <= j < |rest| :: EvaluatorKeys(rest)[j] == EvaluatorKeys(rows)[j];
        }
      }
    }
  }

  lemma {:induction false} PutEvaluatorsAgain(m: map<EvaluatorKey, Evaluator>, rows: seq<EvaluatorRow>)
    requires forall r | r in rows :: Holds(m, r)
    ensures PutEvaluators(m, rows) == m
  {
    if rows != [] {
      PutEvaluatorsAgain(m, rows[..|rows| - 1]);
      assert rows[|rows| - 1] in rows;
    }
  }

  // ---- The effect of a publish ------------------------------------------------------------------------

  /** The rows of the request, read against the database after the evaluator upsert. */
  lemma RowsOfPublish(db: ScoreDb, monitor: Id, run: Id, items: seq<Item>)
    requires NamesKnown(db, monitor, run, items) && StartTimesGiven(items)
    ensures var rows := ScoreRows(db, monitor, run, items);
            && AllOf(rows, monitor)
            && (forall k | LastRow(rows, k).Some? ::
                  k.evaluator in CurrentIds(db, monitor, run) && k.trace in TracesOf(items))
  {
    var rows := ScoreRows(db, monitor, run, items);
    forall k | LastRow(rows, k).Some?
      ensures k.evaluator in CurrentIds(db, monitor, run) && k.trace in TracesOf(items)
    {
      LastRowExists(rows, k);
      var j :| 0 <= j < |rows| && rows[j].key == k;
      assert items[j] in items;
    }
  }

  /** What a successful publish stores for each key, given the database after the evaluator upsert. */
  lemma PublishItemsEffect(db: ScoreDb, monitor: Id, run: Id, items: seq<Item>)
    requires StartTimesGiven(items) && PublishItems(db, monitor, run, items).Published?
    ensures var t := PublishItems(db, monitor, run, items).db;
            && t == db.(scores := t.scores)
            && NamesKnown(db, monitor, run, items)
            && Upserted(DeleteStale(db.scores, monitor, CurrentIds(db, monitor, run), TracesOf(items)),
                        ScoreRows(db, monitor, run, items), t.scores)
            && (forall r | r in ScoreRows(db, monitor, run, items) :: ScoreAllowed(EvaluatorIds(db.evaluators), r))
            && ChunksDistinct(ScoreRows(db, monitor, run, items), BATCH_SIZE)
  {
    var kept := DeleteStale(db.scores, monitor, CurrentIds(db, monitor, run), TracesOf(items));
    var rows := ScoreRows(db, monitor, run, items);
    RowsOfPublish(db, monitor, run, items);
    BatchesMeaning(kept, EvaluatorIds(db.evaluators), rows, BATCH_SIZE);
    PutScoresUpserts(kept, rows, monitor);
  }

  /** After a publish no score of the monitor on the named traces belongs to another run. */
  lemma NothingStaleLeft(db: ScoreDb, monitor: Id, run: Id, items: seq<Item>)
    requires StartTimesGiven(items) && PublishItems(db, monitor, run, items).Published?
    ensures var t := PublishItems(db, monitor, run, items).db;
            forall k | k in t.scores :: !Stale(k, t.scores[k], monitor, CurrentIds(db, monitor, run), TracesOf(items))
  {
    PublishItemsEffect(db, monitor, run, items);
    RowsOfPublish(db, monitor, run, items);
    if CurrentIds(db, monitor, run) == {} {
      assert forall i | i in items :: db.evaluators[EvaluatorKey(run, i.evaluatorName)].id in CurrentIds(db, monitor, run);
      assert TracesOf(items) == {};
    }
  }

  // ---- Retries are harmless --------------------------------------------------------------------------

  /** The rows of a request are the same after it was published. */
  lemma RowsStay(db: ScoreDb, monitor: Id, run: Id, items: seq<Item>)
    requires StartTimesGiven(items) && PublishItems(db, monitor, run, items).Published?
    ensures var t := PublishItems(db, monitor, run, items).db;
            && NamesKnown(db, monitor, run, items) && NamesKnown(t, monitor, run, items)
            && ScoreRows(t, monitor, run, items) == ScoreRows(db, monitor, run, items)
            && CurrentIds(t, monitor, run) == CurrentIds(db, monitor, run)
            && EvaluatorIds(t.evaluators) == EvaluatorIds(db.evaluators)
  {
    var t := PublishItems(db, monitor, run, items).db;
    PublishItemsEffect(db, monitor, run, items);
    RowsIgnoreScores(db, t.scores, monitor, run, items);
    assert t == db.(scores := t.scores);
  }

  /** There is nothing stale to delete the second time. */
  lemma NothingToDelete(db: ScoreDb, monitor: Id, run: Id, items: seq<Item>)
    requires StartTimesGiven(items) && PublishItems(db, monitor, run, items).Published?
    ensures var t := PublishItems(db, monitor, run, items).db;
            DeleteStale(t.scores, monitor, CurrentIds(db, monitor, run), TracesOf(items)) == t.scores
  {
    NothingStaleLeft(db, monitor, run, items);
  }

  /** The batches go through again and write what is there. */
  lemma BatchesAgain(kept: map<ScoreKey, Score>, ids: set<Id>, rows: seq<ScoreRow>, monitor: Id)
    requires AllOf(rows, monitor) && CreateInBatches(kept, ids, rows, BATCH_SIZE).Some?
    ensures var stored := CreateInBatches(kept, ids, rows, BATCH_SIZE);
            CreateInBatches(stored.value, ids, rows, BATCH_SIZE) == stored
  {
    BatchesMeaning(kept, ids, rows, BATCH_SIZE);
    BatchesMeaning(PutScores(kept, rows), ids, rows, BATCH_SIZE);
    PutScoresAgain(kept, rows, monitor);
  }

  lemma PublishItemsAgain(db: ScoreDb, monitor: Id, run: Id, items: seq<Item>)
    requires StartTimesGiven(items) && PublishItems(db, monitor, run, items).Published?
    ensures var t := PublishItems(db, monitor, run, items).db;
            PublishItems(t, monitor, run, items) == Published(t)
  {
    RowsStay(db, monitor, run, items);
    NothingToDelete(db, monitor, run, items);
    RowsOfPublish(db, monitor, run, items);
    var kept := DeleteStale(db.scores, monitor, CurrentIds(db, monitor, run), TracesOf(items));
    BatchesAgain(kept, EvaluatorIds(db.evaluators), ScoreRows(db, monitor, run, items), monitor);
  }

  /**
   * Publishing the same request again succeeds and changes nothing, whatever ids the
   * database would have generated the second time.
   */
  lemma PublishAgain(db: ScoreDb, monitor: Id, run: Id, req: Request, newIds: seq<Id>, moreIds: seq<Id>)
    requires |newIds| == |req.aggregates| == |moreIds|
    requires Publish(db, monitor, run, req, newIds).Published?
    ensures var t := Publish(db, monitor, run, req, newIds).db;
            Publish(t, monitor, run, req, moreIds) == Published(t)
  {
    var rows, again := EvaluatorRows(monitor, run, req.aggregates, newIds), EvaluatorRows(monitor, run, req.aggregates, moreIds);
    var mid := UpsertEvaluators(db, rows).value;
    var t := Publish(db, monitor, run, req, newIds).db;
    PublishItemsEffect(mid, monitor, run, req.items);
    PutEvaluatorsEffect(db.evaluators, rows);
    assert EvaluatorKeys(again) == EvaluatorKeys(rows);
    forall r | r in again ensures Holds(t.evaluators, r) && EvaluatorAllowed(t, r) {
      var i :| 0 <= i < |again| && again[i] == r;
      assert rows[i] in rows;
    }
    PutEvaluatorsAgain(t.evaluators, again);
    assert UpsertEvaluators(t, again) == Some(t);
    PublishItemsAgain(mid, monitor, run, req.items);
  }
}
