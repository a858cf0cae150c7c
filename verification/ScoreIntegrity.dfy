/** The constraints of the score tables hold in every state that publishes lead to. */
module ScoreIntegrity {
  import opened Common
  import opened ScoreTables
  import opened ScorePublishing
  import opened PublishRuns

  /** Evaluator ids are unique, scores refer to evaluators, and score values lie in [0, 1]. */
  ghost predicate ConstraintsHold(db: ScoreDb) {
    IdsUnique(db.evaluators) && ReferencesHold(db) && ScoresInRange(db)
  }

  lemma {:induction false} LastRowIsRow(rows: seq<ScoreRow>, k: ScoreKey)
    ensures LastRow(rows, k).Some? ==> exists j | 0 <= j < |rows| :: rows[j] == ScoreRow(k, LastRow(rows, k).value)
  {
    if rows != [] {
      var rest := rows[..|rows| - 1];
      LastRowIsRow(rest, k);
      if rows[|rest|].key == k {
        assert rows[|rest|] == ScoreRow(k, rows[|rest|].values);
      } else if LastRow(rest, k).Some? {
        var j :| 0 <= j < |rest| && rest[j] == ScoreRow(k, LastRow(rest, k).value);
        assert rows[j] == rest[j];
      }
    }
  }

  lemma IdsStay(db: ScoreDb, c: Call)
    requires |c.newIds| == |c.req.aggregates|
    ensures EvaluatorIds(db.evaluators) <= EvaluatorIds(Upserting(db, c).evaluators)
  {
    PutEvaluatorsEffect(db.evaluators, EvaluatorRows(c.monitor, c.run, c.req.aggregates, c.newIds));
    forall id | id in EvaluatorIds(db.evaluators) ensures id in EvaluatorIds(Upserting(db, c).evaluators) {
      var e :| e in db.evaluators && db.evaluators[e].id == id;
      assert Upserting(db, c).evaluators[e].id == id;
    }
  }

  /** A stored score is one of the request's rows or was stored before. */
  lemma ScoreComesFrom(db: ScoreDb, c: Call, k: ScoreKey)
    requires |c.newIds| == |c.req.aggregates| && Do(db, c).Published? && k in Do(db, c).db.scores
    ensures var s := Do(db, c).db.scores[k];
            || (k in db.scores && s == db.scores[k])
            || exists row: ScoreRow :: row.key == k && row.values.score == s.score && ScoreAllowed(EvaluatorIds(Upserting(db, c).evaluators), row)
  {
    var mid := Upserting(db, c);
    PublishSplits(db, c);
    PublishItemsEffect(mid, c.monitor, c.run, c.req.items);
    var rows := ScoreRows(mid, c.monitor, c.run, c.req.items);
    LastRowIsRow(rows, k);
    if LastRow(rows, k).Some? {
      var j :| 0 <= j < |rows| && rows[j] == ScoreRow(k, LastRow(rows, k).value);
      assert ScoreAllowed(EvaluatorIds(mid.evaluators), rows[j]);
    }
  }

  /** Any publish, successful or not, keeps the constraints. */
  lemma PublishKeepsConstraints(db: ScoreDb, c: Call)
    requires FreshIds(db, c) && ConstraintsHold(db)
    ensures ConstraintsHold(AfterPublish(db, Do(db, c)))
  {
    if Do(db, c).Published? {
      var t := Do(db, c).db;
      UpsertKeepsIdsUnique(db, c);
      IdsStay(db, c);
      PublishSplits(db, c);
      PublishItemsEffect(Upserting(db, c), c.monitor, c.run, c.req.items);
      forall k | k in t.scores
        ensures k.evaluator in EvaluatorIds(t.evaluators)
        ensures t.scores[k].score.Some? ==> 0.0 <= t.scores[k].score.value <= 1.0
      {
        ScoreComesFrom(db, c, k);
      }
    }
  }

  /** The ids generated in a sequence of publishes are new when they are used. */
  ghost predicate AllFresh(db: ScoreDb, calls: seq<Call>)
    requires Sized(calls)
  {
    forall n | 0 <= n < |calls| :: FreshIds(DoAll(db, calls[..n]), calls[n])
  }

  /** After any sequence of publishes the constraints hold, whichever monitors published which runs. */
  lemma {:induction false} RunKeepsConstraints(db: ScoreDb, calls: seq<Call>)
    requires Sized(calls) && AllFresh(db, calls) && ConstraintsHold(db)
    ensures ConstraintsHold(DoAll(db, calls))
    decreases |calls|
  {
    if calls != [] {
      var rest := calls[..|calls| - 1];
      assert forall n | 0 <= n < |rest| :: rest[..n] == calls[..n] && rest[n] == calls[n];
      RunKeepsConstraints(db, rest);
      assert FreshIds(DoAll(db, calls[..|rest|]), calls[|rest|]);
      PublishKeepsConstraints(DoAll(db, rest), calls[|rest|]);
    }
  }
}
