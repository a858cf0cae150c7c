/** Any sequence of publishes, successful or not: who owns the scores afterwards. */
module PublishRuns {
  import opened Common
  import opened ScoreTables
  import opened ScorePublishing

  datatype Call = Call(monitor: Id, run: Id, req: Request, newIds: seq<Id>)

  /** Generated ids are new and different from each other. */
  ghost predicate FreshIds(db: ScoreDb, c: Call) {
    && |c.newIds| == |c.req.aggregates|
    && Distinct(c.newIds)
    && Elements(c.newIds) !! EvaluatorIds(db.evaluators)
  }

  function Do(db: ScoreDb, c: Call): PublishResult
    requires |c.newIds| == |c.req.aggregates|
  {
    Publish(db, c.monitor, c.run, c.req, c.newIds)
  }

  predicate Sized(calls: seq<Call>) {
    forall c | c in calls :: |c.newIds| == |c.req.aggregates|
  }

  function DoAll(db: ScoreDb, calls: seq<Call>): ScoreDb
    requires Sized(calls)
  {
    if calls == [] then db
    else
      var earlier := DoAll(db, calls[..|calls| - 1]);
      AfterPublish(earlier, Do(earlier, calls[|calls| - 1]))
  }

  /** The database between the evaluator upsert and the rest of a successful publish. */
  function Upserting(db: ScoreDb, c: Call): ScoreDb
    requires |c.newIds| == |c.req.aggregates|
  {
    db.(evaluators := PutEvaluators(db.evaluators, EvaluatorRows(c.monitor, c.run, c.req.aggregates, c.newIds)))
  }

  lemma PublishSplits(db: ScoreDb, c: Call)
    requires |c.newIds| == |c.req.aggregates| && Do(db, c).Published?
    ensures StartTimesGiven(c.req.items)
    ensures Do(db, c) == PublishItems(Upserting(db, c), c.monitor, c.run, c.req.items)
    ensures Distinct(EvaluatorKeys(EvaluatorRows(c.monitor, c.run, c.req.aggregates, c.newIds)))
  {
  }

  // ---- The last publish wins -------------------------------------------------------------------

  predicate Names(c: Call, monitor: Id, trace: string) {
    c.monitor == monitor && trace in TracesOf(c.req.items)
  }

  /** The run of the latest successful publish of the monitor that names the trace. */
  function LastRun(db: ScoreDb, calls: seq<Call>, monitor: Id, trace: string): Option<Id>
    requires Sized(calls)
  {
    if calls == [] then None
    else
      var rest, c := calls[..|calls| - 1], calls[|calls| - 1];
      if Names(c, monitor, trace) && Do(DoAll(db, rest), c).Published? then Some(c.run)
      else LastRun(db, rest, monitor, trace)
  }

  ghost predicate OfRun(db: ScoreDb, evaluator: Id, run: Id) {
    exists name :: EvaluatorKey(run, name) in db.evaluators && db.evaluators[EvaluatorKey(run, name)].id == evaluator
  }

  /** Evaluator rows are never deleted and keep run and id. */
  lemma OfRunPersists(db: ScoreDb, c: Call, evaluator: Id, run: Id)
    requires |c.newIds| == |c.req.aggregates| && OfRun(db, evaluator, run)
    ensures OfRun(AfterPublish(db, Do(db, c)), evaluator, run)
  {
    var t := AfterPublish(db, Do(db, c));
    var name :| EvaluatorKey(run, name) in db.evaluators && db.evaluators[EvaluatorKey(run, name)].id == evaluator;
    PutEvaluatorsEffect(db.evaluators, EvaluatorRows(c.monitor, c.run, c.req.aggregates, c.newIds));
    if Do(db, c).Published? {
      PublishSplits(db, c);
      PublishItemsEffect(Upserting(db, c), c.monitor, c.run, c.req.items);
    }
    assert EvaluatorKey(run, name) in t.evaluators && t.evaluators[EvaluatorKey(run, name)].id == evaluator;
  }

  predicate Addressed(k: ScoreKey, s: Score, monitor: Id, items: seq<Item>) {
    s.monitor == monitor && k.trace in TracesOf(items)
  }

  lemma ItemScoreOrigin(mid: ScoreDb, monitor: Id, run: Id, items: seq<Item>, k: ScoreKey)
    requires StartTimesGiven(items) && PublishItems(mid, monitor, run, items).Published?
    requires k in PublishItems(mid, monitor, run, items).db.scores
    ensures var s := PublishItems(mid, monitor, run, items).db.scores[k];
            if Addressed(k, s, monitor, items) then k.evaluator in CurrentIds(mid, monitor, run)
            else k in mid.scores && mid.scores[k].monitor == s.monitor
  {
    PublishItemsEffect(mid, monitor, run, items);
    NothingStaleLeft(mid, monitor, run, items);
    RowsOfPublish(mid, monitor, run, items);
    PutScoresUpserts(mid.scores, ScoreRows(mid, monitor, run, items), monitor);
  }

  /** A score after a publish is of the published run, or was there before with the same monitor. */
  lemma ScoreOrigin(db: ScoreDb, c: Call, k: ScoreKey)
    requires |c.newIds| == |c.req.aggregates| && Do(db, c).Published?
    requires k in Do(db, c).db.scores
    ensures var t := Do(db, c).db;
            if Names(c, t.scores[k].monitor, k.trace) then OfRun(t, k.evaluator, c.run)
            else k in db.scores && db.scores[k].monitor == t.scores[k].monitor
  {
    var t, mid := Do(db, c).db, Upserting(db, c);
    PublishSplits(db, c);
    ItemScoreOrigin(mid, c.monitor, c.run, c.req.items, k);
    PublishItemsEffect(mid, c.monitor, c.run, c.req.items);
    if Names(c, t.scores[k].monitor, k.trace) {
      var e :| e in mid.evaluators && e.run == c.run && mid.evaluators[e].id == k.evaluator;
      assert EvaluatorKey(c.run, e.name) in t.evaluators;
    }
  }

  /**
   * After any sequence of publishes, starting without scores, every score of a monitor on
   * a trace belongs to the run of the latest successful publish of that monitor naming
   * that trace.
   */
  lemma {:induction false} LastPublishWins(db: ScoreDb, calls: seq<Call>, k: ScoreKey)
    requires Sized(calls) && db.scores == map[]
    requires k in DoAll(db, calls).scores
    ensures var t := DoAll(db, calls);
            var run := LastRun(db, calls, t.scores[k].monitor, k.trace);
            run.Some? && exists e :: e in t.evaluators && e.run == run.value && t.evaluators[e].id == k.evaluator
    decreases |calls|
  {
    var rest, c := calls[..|calls| - 1], calls[|calls| - 1];
    var before, t := DoAll(db, rest), DoAll(db, calls);
    if Do(before, c).Published? {
      ScoreOrigin(before, c, k);
    }
    if !(Do(before, c).Published? && Names(c, t.scores[k].monitor, k.trace)) {
      LastPublishWins(db, rest, k);
      OfRunPersists(before, c, k.evaluator, LastRun(db, rest, t.scores[k].monitor, k.trace).value);
    }
  }

  /** Traces the request does not name keep their scores, whatever their monitor. */
  lemma OtherTracesUntouched(db: ScoreDb, c: Call, k: ScoreKey)
    requires |c.newIds| == |c.req.aggregates| && k.trace !in TracesOf(c.req.items)
    ensures var t := AfterPublish(db, Do(db, c));
            (k in t.scores <==> k in db.scores) && (k in db.scores ==> t.scores[k] == db.scores[k])
  {
    if Do(db, c).Published? {
      var mid := Upserting(db, c);
      PublishSplits(db, c);
      PublishItemsEffect(mid, c.monitor, c.run, c.req.items);
      RowsOfPublish(mid, c.monitor, c.run, c.req.items);
    }
  }

  // ---- Which monitor owns a score --------------------------------------------------------------

  /** The key an item would be stored under, if its evaluator is already there. */
  predicate HeldByOther(db: ScoreDb, c: Call, i: Item) {
    var e := EvaluatorKey(c.run, i.evaluatorName);
    e in db.evaluators &&
    var k := ScoreKey(db.evaluators[e].id, i.trace, SpanId(i));
    k in db.scores && db.scores[k].monitor != c.monitor
  }

  /** The item's key is stored and belongs to the publishing monitor. */
  ghost predicate KeyOwned(t: ScoreDb, c: Call, i: Item) {
    var e := EvaluatorKey(c.run, i.evaluatorName);
    e in t.evaluators &&
    var k := ScoreKey(t.evaluators[e].id, i.trace, SpanId(i));
    k in t.scores && t.scores[k].monitor == c.monitor
  }

  ghost predicate ReferencesHold(db: ScoreDb) {
    forall k | k in db.scores :: k.evaluator in EvaluatorIds(db.evaluators)
  }

  /**
   * A conflicting score keeps its monitor, so the keys of all published items end with the
   * publishing monitor iff no other monitor holds one of them.
   */
  lemma KeysOwnedIff(db: ScoreDb, c: Call)
    requires FreshIds(db, c) && ReferencesHold(db) && Do(db, c).Published?
    ensures (forall i | i in c.req.items :: KeyOwned(Do(db, c).db, c, i))
            <==> (forall i | i in c.req.items :: !HeldByOther(db, c, i))
  {
    forall i | i in c.req.items ensures KeyOwned(Do(db, c).db, c, i) <==> !HeldByOther(db, c, i) {
      KeyOwnedIff(db, c, i);
    }
  }

  lemma KeyOwnedIff(db: ScoreDb, c: Call, i: Item)
    requires FreshIds(db, c) && ReferencesHold(db) && Do(db, c).Published? && i in c.req.items
    ensures KeyOwned(Do(db, c).db, c, i) <==> !HeldByOther(db, c, i)
  {
    var t, mid, rows := Do(db, c).db, Upserting(db, c), EvaluatorRows(c.monitor, c.run, c.req.aggregates, c.newIds);
    PublishSplits(db, c);
    PublishItemsEffect(mid, c.monitor, c.run, c.req.items);
    RowsOfPublish(mid, c.monitor, c.run, c.req.items);
    var scoreRows := ScoreRows(mid, c.monitor, c.run, c.req.items);
    PutScoresUpserts(DeleteStale(db.scores, c.monitor, CurrentIds(mid, c.monitor, c.run), TracesOf(c.req.items)), scoreRows, c.monitor);
    var e := EvaluatorKey(c.run, i.evaluatorName);
    var k := ScoreKey(mid.evaluators[e].id, i.trace, SpanId(i));
    var j :| 0 <= j < |c.req.items| && c.req.items[j] == i;
    assert scoreRows[j].key == k;
    LastRowExists(scoreRows, k);
    PutEvaluatorsIds(db.evaluators, rows);
    PutEvaluatorsEffect(db.evaluators, rows);
    if k in db.scores && e !in db.evaluators {
      assert k.evaluator in EvaluatorIds(db.evaluators);
      NewKeyHasNewId(db, c, e);
    }
  }

  lemma {:induction false} PutEvaluatorsIds(m: map<EvaluatorKey, Evaluator>, rows: seq<EvaluatorRow>)
    ensures forall e | e in PutEvaluators(m, rows) && e !in m ::
              exists j | 0 <= j < |rows| :: PutEvaluators(m, rows)[e].id == rows[j].values.id && rows[j].key == e
  {
    if rows != [] {
      var rest := rows[..|rows| - 1];
      PutEvaluatorsIds(m, rest);
      var before, after := PutEvaluators(m, rest), PutEvaluators(m, rows);
      forall e | e in after && e !in m
        ensures exists j | 0 <= j < |rows| :: after[e].id == rows[j].values.id && rows[j].key == e
      {
        if e in before {
          var j :| 0 <= j < |rest| && before[e].id == rest[j].values.id && rest[j].key == e;
          assert rows[j] == rest[j];
        } else {
          assert rows[|rows| - 1].key == e;
        }
      }
    }
  }

  /** An evaluator row inserted by a publish carries one of the generated ids. */
  lemma NewKeyHasNewId(db: ScoreDb, c: Call, e: EvaluatorKey)
    requires FreshIds(db, c) && e in Upserting(db, c).evaluators && e !in db.evaluators
    ensures Upserting(db, c).evaluators[e].id in c.newIds
    ensures Upserting(db, c).evaluators[e].id !in EvaluatorIds(db.evaluators)
  {
    var rows := EvaluatorRows(c.monitor, c.run, c.req.aggregates, c.newIds);
    PutEvaluatorsIds(db.evaluators, rows);
    var j :| 0 <= j < |rows| && Upserting(db, c).evaluators[e].id == rows[j].values.id && rows[j].key == e;
    assert rows[j].values.id == c.newIds[j];
    assert c.newIds[j] in Elements(c.newIds);
  }

  // ---- One monitor per run -----------------------------------------------------------------------

  ghost predicate IdsUnique(m: map<EvaluatorKey, Evaluator>) {
    forall e, f | e in m && f in m :: m[e].id == m[f].id ==> e == f
  }

  /** `owner` says which monitor a run belongs to; every evaluator and score row respects it. */
  ghost predicate Owned(db: ScoreDb, owner: Id -> Id) {
    && IdsUnique(db.evaluators)
    && ReferencesHold(db)
    && (forall e | e in db.evaluators :: db.evaluators[e].monitor == owner(e.run))
    && (forall k, e | k in db.scores && e in db.evaluators ::
          db.evaluators[e].id == k.evaluator ==> db.scores[k].monitor == owner(e.run))
  }

  /** When each run is only ever published under its own monitor, no item's key is held by another one. */
  lemma OwnedIsNeverHeld(db: ScoreDb, c: Call, owner: Id -> Id, i: Item)
    requires Owned(db, owner) && c.monitor == owner(c.run)
    ensures !HeldByOther(db, c, i)
  {
  }

  lemma {:induction false} PutEvaluatorsOwned(m: map<EvaluatorKey, Evaluator>, rows: seq<EvaluatorRow>, owner: Id -> Id)
    requires forall e | e in m :: m[e].monitor == owner(e.run)
    requires forall r | r in rows :: r.values.monitor == owner(r.key.run)
    ensures forall e | e in PutEvaluators(m, rows) :: PutEvaluators(m, rows)[e].monitor == owner(e.run)
  {
    if rows != [] {
      PutEvaluatorsOwned(m, rows[..|rows| - 1], owner);
      assert rows[|rows| - 1] in rows;
    }
  }

  /** Two evaluator rows inserted by one publish have different ids. */
  lemma NewIdsDiffer(db: ScoreDb, c: Call, e: EvaluatorKey, f: EvaluatorKey)
    requires FreshIds(db, c)
    requires e in Upserting(db, c).evaluators && e !in db.evaluators
    requires f in Upserting(db, c).evaluators && f !in db.evaluators
    requires Upserting(db, c).evaluators[e].id == Upserting(db, c).evaluators[f].id
    ensures e == f
  {
    var i := RowOfNewKey(db, c, e);
    var j := RowOfNewKey(db, c, f);
    assert c.newIds[i] == c.newIds[j];
  }

  /** The row that inserted an evaluator. */
  lemma RowOfNewKey(db: ScoreDb, c: Call, e: EvaluatorKey) returns (i: nat)
    requires FreshIds(db, c) && e in Upserting(db, c).evaluators && e !in db.evaluators
    ensures i < |c.newIds| && Upserting(db, c).evaluators[e].id == c.newIds[i]
    ensures EvaluatorRows(c.monitor, c.run, c.req.aggregates, c.newIds)[i].key == e
  {
    var rows := EvaluatorRows(c.monitor, c.run, c.req.aggregates, c.newIds);
    PutEvaluatorsIds(db.evaluators, rows);
    i :| 0 <= i < |rows| && Upserting(db, c).evaluators[e].id == rows[i].values.id && rows[i].key == e;
  }

  lemma UpsertKeepsIdsUnique(db: ScoreDb, c: Call)
    requires FreshIds(db, c) && IdsUnique(db.evaluators)
    ensures IdsUnique(Upserting(db, c).evaluators)
  {
    var after := Upserting(db, c).evaluators;
    PutEvaluatorsEffect(db.evaluators, EvaluatorRows(c.monitor, c.run, c.req.aggregates, c.newIds));
    forall e | e in after
      ensures if e in db.evaluators then after[e].id == db.evaluators[e].id else after[e].id !in EvaluatorIds(db.evaluators)
    {
      if e !in db.evaluators { NewKeyHasNewId(db, c, e); }
    }
    forall e, f | e in after && f in after && after[e].id == after[f].id
      ensures e == f
    {
      if e !in db.evaluators && f !in db.evaluators {
        NewIdsDiffer(db, c, e, f);
      } else {
        assert e in db.evaluators && f in db.evaluators by {
          assert e in db.evaluators ==> after[e].id in EvaluatorIds(db.evaluators);
          assert f in db.evaluators ==> after[f].id in EvaluatorIds(db.evaluators);
        }
      }
    }
  }

  /** Publishing under the owning monitor keeps every evaluator and score with its owner. */
  lemma PublishKeepsOwned(db: ScoreDb, c: Call, owner: Id -> Id)
    requires Owned(db, owner) && FreshIds(db, c) && c.monitor == owner(c.run)
    ensures Owned(AfterPublish(db, Do(db, c)), owner)
  {
    if Do(db, c).Published? {
      var t, mid, rows := Do(db, c).db, Upserting(db, c), EvaluatorRows(c.monitor, c.run, c.req.aggregates, c.newIds);
      PublishSplits(db, c);
      PublishItemsEffect(mid, c.monitor, c.run, c.req.items);
      UpsertKeepsIdsUnique(db, c);
      PutEvaluatorsOwned(db.evaluators, rows, owner);
      PutEvaluatorsEffect(db.evaluators, rows);
      forall k | k in t.scores
        ensures k.evaluator in EvaluatorIds(t.evaluators)
        ensures forall e | e in t.evaluators && t.evaluators[e].id == k.evaluator :: t.scores[k].monitor == owner(e.run)
      {
        ScoreKeepsOwner(db, c, owner, k);
      }
    }
  }

  lemma ScoreKeepsOwner(db: ScoreDb, c: Call, owner: Id -> Id, k: ScoreKey)
    requires Owned(db, owner) && FreshIds(db, c) && c.monitor == owner(c.run)
    requires Do(db, c).Published? && k in Do(db, c).db.scores
    requires IdsUnique(Upserting(db, c).evaluators)
    ensures var t := Do(db, c).db;
            exists e :: e in t.evaluators && t.evaluators[e].id == k.evaluator && t.scores[k].monitor == owner(e.run)
  {
    var t, mid := Do(db, c).db, Upserting(db, c);
    PublishSplits(db, c);
    PublishItemsEffect(mid, c.monitor, c.run, c.req.items);
    ItemScoreOrigin(mid, c.monitor, c.run, c.req.items, k);
    PutEvaluatorsEffect(db.evaluators, EvaluatorRows(c.monitor, c.run, c.req.aggregates, c.newIds));
    if Addressed(k, t.scores[k], c.monitor, c.req.items) {
      var e :| e in mid.evaluators && e.run == c.run && mid.evaluators[e].id == k.evaluator;
      assert e in t.evaluators;
    } else {
      var e :| e in db.evaluators && db.evaluators[e].id == k.evaluator;
      assert e in t.evaluators && t.evaluators[e].id == k.evaluator;
    }
  }

  ghost predicate LegalCalls(db: ScoreDb, calls: seq<Call>, owner: Id -> Id)
    requires Sized(calls)
  {
    forall n | 0 <= n < |calls| :: FreshIds(DoAll(db, calls[..n]), calls[n]) && calls[n].monitor == owner(calls[n].run)
  }

  /** While every run is published under its own monitor, evaluators and scores stay with their owners. */
  lemma {:induction false} RunKeepsOwned(db: ScoreDb, calls: seq<Call>, owner: Id -> Id)
    requires Sized(calls) && LegalCalls(db, calls, owner) && Owned(db, owner)
    ensures Owned(DoAll(db, calls), owner)
    decreases |calls|
  {
    if calls != [] {
      var rest, c := calls[..|calls| - 1], calls[|calls| - 1];
      assert forall n | 0 <= n < |rest| :: rest[..n] == calls[..n] && rest[n] == calls[n];
      RunKeepsOwned(db, rest, owner);
      assert FreshIds(DoAll(db, calls[..|rest|]), calls[|rest|]);
      PublishKeepsOwned(DoAll(db, rest), c, owner);
    }
  }

  /** One trace-level score of one evaluator, published under `monitor` for the same run each time. */
  function OneScore(monitor: Id, newId: Id, score: real): Call {
    Call(monitor, Uuid(9),
         Request([Item("accuracy", "trace", "t", Some(score), None, Some(0), None, None)],
                 [Aggregate("accuracy", "accuracy", "trace", "{}", 1, 0)]),
         [newId])
  }

  lemma OneScorePublishes(db: ScoreDb, monitor: Id, newId: Id, score: real)
    requires monitor in db.monitors && Uuid(9) in db.runs && 0.0 <= score <= 1.0
    ensures Do(db, OneScore(monitor, newId, score)).Published?
  {
    var c := OneScore(monitor, newId, score);
    var rows := EvaluatorRows(c.monitor, c.run, c.req.aggregates, c.newIds);
    var mid := Upserting(db, c);
    assert rows == [rows[0]] && rows[..0] == [];
    assert UpsertEvaluators(db, rows) == Some(mid);
    var items := c.req.items;
    var e := EvaluatorKey(Uuid(9), "accuracy");
    assert PutEvaluators(db.evaluators, rows[..|rows| - 1]) == db.evaluators;
    assert NamesKnown(mid, monitor, c.run, items);
    var scores := ScoreRows(mid, monitor, c.run, items);
    assert mid.evaluators[e].id in EvaluatorIds(mid.evaluators);
    assert scores[..1] == scores && scores[1..] == [];
    var kept := DeleteStale(mid.scores, monitor, CurrentIds(mid, monitor, c.run), TracesOf(items));
    BatchesMeaning(kept, EvaluatorIds(mid.evaluators), scores, BATCH_SIZE);
  }

  function TwoMonitors(): ScoreDb {
    ScoreDb({Uuid(1), Uuid(2)}, {Uuid(9)}, map[], map[])
  }

  lemma UnderFirstMonitor()
    ensures var db, c := TwoMonitors(), OneScore(Uuid(1), Uuid(10), 1.0);
            && Do(db, c).Published? && ReferencesHold(Do(db, c).db)
            && EvaluatorIds(Do(db, c).db.evaluators) == {Uuid(10)}
            && KeyOwned(Do(db, c).db, c, c.req.items[0])
  {
    var db, c := TwoMonitors(), OneScore(Uuid(1), Uuid(10), 1.0);
    OneScorePublishes(db, Uuid(1), Uuid(10), 1.0);
    PublishSplits(db, c);
    PublishItemsEffect(Upserting(db, c), c.monitor, c.run, c.req.items);
    PublishKeepsOwned(db, c, _ => Uuid(1));
    KeyOwnedIff(db, c, c.req.items[0]);
    var rows := EvaluatorRows(c.monitor, c.run, c.req.aggregates, c.newIds);
    assert PutEvaluators(db.evaluators, rows[..|rows| - 1]) == db.evaluators;
  }

  /**
   * A publish can succeed without its score becoming one of the publishing monitor: the
   * same run was published under another monitor before.
   */
  lemma RunOfTwoMonitors()
    ensures var first, second := OneScore(Uuid(1), Uuid(10), 1.0), OneScore(Uuid(2), Uuid(11), 0.0);
            var db := TwoMonitors();
            && FreshIds(db, first) && Do(db, first).Published?
            && FreshIds(Do(db, first).db, second) && Do(Do(db, first).db, second).Published?
            && !KeyOwned(Do(Do(db, first).db, second).db, second, second.req.items[0])
  {
    UnderFirstMonitor();
    var t, second := Do(TwoMonitors(), OneScore(Uuid(1), Uuid(10), 1.0)).db, OneScore(Uuid(2), Uuid(11), 0.0);
    assert t.monitors == TwoMonitors().monitors && t.runs == TwoMonitors().runs;
    OneScorePublishes(t, Uuid(2), Uuid(11), 0.0);
    KeyOwnedIff(t, second, second.req.items[0]);
  }
}
