/** The score repository and the publish transaction as they run. */
module ScoreRepository {
  import opened Common
  import opened ScoreTables
  import opened ScorePublishing

  class ScoreStore {
    const monitors: set<Id>
    const runs: set<Id>
    var evaluators: map<EvaluatorKey, Evaluator>
    var scores: map<ScoreKey, Score>

    function Snapshot(): ScoreDb
      reads this
    {
      ScoreDb(monitors, runs, evaluators, scores)
    }

    constructor (monitors: set<Id>, runs: set<Id>)
      ensures Snapshot() == ScoreDb(monitors, runs, map[], map[])
    {
      this.monitors, this.runs := monitors, runs;
      evaluators, scores := map[], map[];
    }

    method UpsertMonitorRunEvaluators(rows: seq<EvaluatorRow>) returns (ok: bool)
      modifies this`evaluators
      ensures var o := UpsertEvaluators(old(Snapshot()), rows);
              ok == o.Some? && Snapshot() == if ok then o.value else old(Snapshot())
    {
      if |rows| == 0 {
        return true;
      }
      if !Distinct(EvaluatorKeys(rows)) || exists r | r in rows :: !EvaluatorAllowed(Snapshot(), r) {
        return false;
      }
      ghost var before := evaluators;
      for i := 0 to |rows|
        invariant evaluators == PutEvaluators(before, rows[..i])
      {
        assert rows[..i + 1][..i] == rows[..i];
        evaluators := PutEvaluator(evaluators, rows[i]);
      }
      assert rows[..|rows|] == rows;
      return true;
    }

    method DeleteStaleScores(monitor: Id, current: set<Id>, traces: set<string>)
      modifies this`scores
      ensures scores == DeleteStale(old(scores), monitor, current, traces)
    {
      if current == {} || traces == {} {
        return;
      }
      scores := map k | k in scores && !Stale(k, scores[k], monitor, current, traces) :: scores[k];
    }

    /** One INSERT ... ON CONFLICT DO UPDATE; it fails as a whole. */
    method InsertScores(rows: seq<ScoreRow>) returns (ok: bool)
      modifies this`scores
      ensures ok == StatementAllowed(EvaluatorIds(evaluators), rows)
      ensures scores == if ok then PutScores(old(scores), rows) else old(scores)
    {
      if !StatementAllowed(EvaluatorIds(evaluators), rows) {
        return false;
      }
      ghost var before := scores;
      for i := 0 to |rows|
        invariant scores == PutScores(before, rows[..i])
      {
        assert rows[..i + 1][..i] == rows[..i];
        scores := PutScore(scores, rows[i]);
      }
      assert rows[..|rows|] == rows;
      return true;
    }

    method BatchCreateScores(rows: seq<ScoreRow>) returns (ok: bool)
      modifies this`scores
      ensures var o := CreateInBatches(old(scores), EvaluatorIds(evaluators), rows, BATCH_SIZE);
              ok == o.Some? && scores == if ok then o.value else old(scores)
    {
      var saved, ids := scores, EvaluatorIds(evaluators);
      var i := 0;
      while i < |rows|
        invariant i <= |rows|
        invariant CreateInBatches(saved, ids, rows, BATCH_SIZE) == CreateInBatches(scores, ids, rows[i..], BATCH_SIZE)
      {
        var rest := rows[i..];
        var n := ChunkLength(rest, BATCH_SIZE);
        ok := InsertScores(rest[..n]);
        if !ok {
          scores := saved;
          return false;
        }
        assert rest[n..] == rows[i + n..];
        i := i + n;
      }
      return true;
    }

    method CheckStartTimes(items: seq<Item>) returns (ok: bool)
      ensures ok == StartTimesGiven(items)
    {
      for i := 0 to |items|
        invariant StartTimesGiven(items[..i])
      {
        if items[i].startTime.None? {
          assert items[i] in items;
          return false;
        }
      }
      assert items[..|items|] == items;
      return true;
    }

    /** None when an item names an evaluator the reload did not find. */
    method BuildScores(monitor: Id, run: Id, items: seq<Item>) returns (rows: Option<seq<ScoreRow>>)
      requires StartTimesGiven(items)
      ensures rows == if NamesKnown(Snapshot(), monitor, run, items)
                      then Some(ScoreRows(Snapshot(), monitor, run, items)) else None
    {
      var built := [];
      for i := 0 to |items|
        invariant NamesKnown(Snapshot(), monitor, run, items[..i])
        invariant |built| == i && forall j | 0 <= j < i :: built[j] == RowFor(Snapshot(), monitor, run, items[j])
      {
        assert items[i] in items;
        if !Reloaded(Snapshot(), monitor, run, items[i].evaluatorName) {
          return None;
        }
        assert items[..i + 1] == items[..i] + [items[i]];
        built := built + [RowFor(Snapshot(), monitor, run, items[i])];
      }
      assert items[..|items|] == items;
      assert built == ScoreRows(Snapshot(), monitor, run, items);
      return Some(built);
    }

    method StoreItems(monitor: Id, run: Id, items: seq<Item>) returns (error: Option<PublishError>)
      requires StartTimesGiven(items)
      modifies this`scores
      ensures var o := PublishItems(old(Snapshot()), monitor, run, items);
              if o.Published? then error == None && Snapshot() == o.db else error == Some(o.error)
    {
      ghost var before := Snapshot();
      DeleteStaleScores(monitor, CurrentIds(Snapshot(), monitor, run), TracesOf(items));
      RowsIgnoreScores(before, scores, monitor, run, items);
      var rows := BuildScores(monitor, run, items);
      if rows.None? {
        return Some(UnknownEvaluator);
      }
      var ok := BatchCreateScores(rows.value);
      return if ok then None else Some(ScoresRejected);
    }

    method PublishScores(monitor: Id, run: Id, req: Request, newIds: seq<Id>) returns (error: Option<PublishError>)
      requires |newIds| == |req.aggregates|
      modifies this
      ensures var o := Publish(old(Snapshot()), monitor, run, req, newIds);
              Snapshot() == AfterPublish(old(Snapshot()), o) && error == if o.Published? then None else Some(o.error)
    {
      var ok := CheckStartTimes(req.items);
      if !ok {
        return Some(MissingStartTime);
      }
      var savedEvaluators, savedScores := evaluators, scores;
      ok := UpsertMonitorRunEvaluators(EvaluatorRows(monitor, run, req.aggregates, newIds));
      if !ok {
        return Some(EvaluatorsRejected);
      }
      error := StoreItems(monitor, run, req.items);
      if error.Some? {
        evaluators, scores := savedEvaluators, savedScores;
      }
    }
  }
}
