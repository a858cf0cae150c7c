/**
 * The tables of evaluation scores and the statements of the score repository. Scores
 * are exact reals and times are integers.
 */
module ScoreTables {
  import opened Common

  /** uq_run_evaluator: a run has one row per evaluator name. */
  datatype EvaluatorKey = EvaluatorKey(run: Id, name: string)

  datatype Evaluator = Evaluator(id: Id, monitor: Id, identifier: string, level: string,
                                 aggregations: string, count: int, skippedCount: int)

  /** uq_score_per_item, NULLS NOT DISTINCT: a missing span is a value like any other. */
  datatype ScoreKey = ScoreKey(evaluator: Id, trace: string, span: Option<string>)

  datatype Score = Score(monitor: Id, score: Option<real>, explanation: Option<string>, startTime: int,
                         skipReason: Option<string>, spanLabel: string)

  datatype ScoreDb = ScoreDb(monitors: set<Id>, runs: set<Id>,
                             evaluators: map<EvaluatorKey, Evaluator>, scores: map<ScoreKey, Score>)

  datatype EvaluatorRow = EvaluatorRow(key: EvaluatorKey, values: Evaluator)

  datatype ScoreRow = ScoreRow(key: ScoreKey, values: Score)

  const BATCH_SIZE: nat := 100

  // ---- UpsertMonitorRunEvaluators ------------------------------------------------------

  function EvaluatorKeys(rows: seq<EvaluatorRow>): seq<EvaluatorKey> {
    seq(|rows|, i requires 0 <= i < |rows| => rows[i].key)
  }

  /** A row that is already there keeps its id; everything else is overwritten. */
  function PutEvaluator(m: map<EvaluatorKey, Evaluator>, row: EvaluatorRow): map<EvaluatorKey, Evaluator> {
    m[row.key := if row.key in m then row.values.(id := m[row.key].id) else row.values]
  }

  function PutEvaluators(m: map<EvaluatorKey, Evaluator>, rows: seq<EvaluatorRow>): map<EvaluatorKey, Evaluator> {
    if rows == [] then m else PutEvaluator(PutEvaluators(m, rows[..|rows| - 1]), rows[|rows| - 1])
  }

  /** VARCHAR(255). */
  const MAX_TEXT: nat := 255

  predicate Fits(text: string) {
    |text| <= MAX_TEXT
  }

  /** The range of INT columns. */
  predicate IsInt32(n: int) {
    -0x8000_0000 <= n < 0x8000_0000
  }

  predicate EvaluatorAllowed(db: ScoreDb, row: EvaluatorRow) {
    && row.key.run in db.runs
    && row.values.monitor in db.monitors
    && row.values.level in {"trace", "agent", "llm"}
    && Fits(row.key.name) && Fits(row.values.identifier)
    && IsInt32(row.values.count) && IsInt32(row.values.skippedCount)
  }

  /** One statement: a key given twice is an error, as is any violated constraint. */
  function UpsertEvaluators(db: ScoreDb, rows: seq<EvaluatorRow>): Option<ScoreDb> {
    if Distinct(EvaluatorKeys(rows)) && (forall r | r in rows :: EvaluatorAllowed(db, r)) then
      Some(db.(evaluators := PutEvaluators(db.evaluators, rows)))
    else None
  }

  // ---- DeleteStaleScores -----------------------------------------------------------------

  predicate Stale(k: ScoreKey, s: Score, monitor: Id, current: set<Id>, traces: set<string>) {
    s.monitor == monitor && k.trace in traces && k.evaluator !in current
  }

  function DeleteStale(scores: map<ScoreKey, Score>, monitor: Id, current: set<Id>, traces: set<string>): map<ScoreKey, Score> {
    if current == {} || traces == {} then scores
    else map k | k in scores && !Stale(k, scores[k], monitor, current, traces) :: scores[k]
  }

  // ---- BatchCreateScores --------------------------------------------------------------------

  function ScoreKeys(rows: seq<ScoreRow>): (r: seq<ScoreKey>)
    ensures |r| == |rows| && forall i | 0 <= i < |rows| :: r[i] == rows[i].key
  {
    seq(|rows|, i requires 0 <= i < |rows| => rows[i].key)
  }

  /** On conflict the monitor column is not among the updated ones. */
  function PutScore(m: map<ScoreKey, Score>, row: ScoreRow): map<ScoreKey, Score> {
    m[row.key := if row.key in m then row.values.(monitor := m[row.key].monitor) else row.values]
  }

  function PutScores(m: map<ScoreKey, Score>, rows: seq<ScoreRow>): map<ScoreKey, Score> {
    if rows == [] then m else PutScore(PutScores(m, rows[..|rows| - 1]), rows[|rows| - 1])
  }

  function EvaluatorIds(m: map<EvaluatorKey, Evaluator>): set<Id> {
    set k | k in m :: m[k].id
  }

  predicate ScoreAllowed(ids: set<Id>, row: ScoreRow) {
    && row.key.evaluator in ids
    && (row.values.score.Some? ==> 0.0 <= row.values.score.value <= 1.0)
    && Fits(row.key.trace) && (row.key.span.Some? ==> Fits(row.key.span.value)) && Fits(row.values.spanLabel)
  }

  /** The check constraint on the score column. */
  ghost predicate ScoresInRange(db: ScoreDb) {
    forall k | k in db.scores && db.scores[k].score.Some? :: 0.0 <= db.scores[k].score.value <= 1.0
  }

  predicate StatementAllowed(ids: set<Id>, rows: seq<ScoreRow>) {
    Distinct(ScoreKeys(rows)) && forall r | r in rows :: ScoreAllowed(ids, r)
  }

  function ChunkLength(rows: seq<ScoreRow>, size: nat): nat {
    if |rows| <= size then |rows| else size
  }

  /** Statements of at most `size` rows each; None when one of them fails. */
  function CreateInBatches(scores: map<ScoreKey, Score>, ids: set<Id>, rows: seq<ScoreRow>, size: nat): Option<map<ScoreKey, Score>>
    requires size > 0
    decreases |rows|
  {
    if rows == [] then Some(scores)
    else
      var n := ChunkLength(rows, size);
      if StatementAllowed(ids, rows[..n]) then CreateInBatches(PutScores(scores, rows[..n]), ids, rows[n..], size)
      else None
  }

  // ---- What batching means -------------------------------------------------------------------

  lemma {:induction false} PutScoresAppend(m: map<ScoreKey, Score>, a: seq<ScoreRow>, b: seq<ScoreRow>)
    ensures PutScores(m, a + b) == PutScores(PutScores(m, a), b)
    decreases |b|
  {
    if b == [] {
      assert a + b == a;
    } else {
      assert (a + b)[..|a + b| - 1] == a + b[..|b| - 1];
      PutScoresAppend(m, a, b[..|b| - 1]);
    }
  }

  /** No two rows of the same batch share a key. */
  predicate ChunksDistinct(rows: seq<ScoreRow>, size: nat)
    requires size > 0
    decreases |rows|
  {
    rows == [] || (Distinct(ScoreKeys(rows[..ChunkLength(rows, size)])) && ChunksDistinct(rows[ChunkLength(rows, size)..], size))
  }

  /**
   * Batches only decide whether a repeated key is an error: the call succeeds iff every
   * row is allowed and no batch repeats a key, and then it is one pass over all rows.
   */
  lemma {:induction false} BatchesMeaning(scores: map<ScoreKey, Score>, ids: set<Id>, rows: seq<ScoreRow>, size: nat)
    requires size > 0
    ensures CreateInBatches(scores, ids, rows, size)
            == if (forall r | r in rows :: ScoreAllowed(ids, r)) && ChunksDistinct(rows, size)
               then Some(PutScores(scores, rows)) else None
    decreases |rows|
  {
    if rows != [] {
      var n := ChunkLength(rows, size);
      var chunk, rest := rows[..n], rows[n..];
      assert rows == chunk + rest;
      assert (forall r | r in rows :: ScoreAllowed(ids, r))
        <==> (forall r | r in chunk :: ScoreAllowed(ids, r)) && (forall r | r in rest :: ScoreAllowed(ids, r));
      BatchesMeaning(PutScores(scores, chunk), ids, rest, size);
      PutScoresAppend(scores, chunk, rest);
    }
  }

  lemma {:induction false} DistinctChunks(rows: seq<ScoreRow>, size: nat)
    requires size > 0 && Distinct(ScoreKeys(rows))
    ensures ChunksDistinct(rows, size)
    decreases |rows|
  {
    if rows != [] {
      DistinctChunks(rows[ChunkLength(rows, size)..], size);
    }
  }

  /** For distinct keys the batch size makes no difference. */
  lemma BatchSizeIrrelevant(scores: map<ScoreKey, Score>, ids: set<Id>, rows: seq<ScoreRow>, size: nat, size': nat)
    requires size > 0 && size' > 0 && Distinct(ScoreKeys(rows))
    ensures CreateInBatches(scores, ids, rows, size) == CreateInBatches(scores, ids, rows, size')
  {
    DistinctChunks(rows, size);
    DistinctChunks(rows, size');
    BatchesMeaning(scores, ids, rows, size);
    BatchesMeaning(scores, ids, rows, size');
  }

  /** Two rows of the same batch, batches counted from the start, never have the same key. */
  predicate NoBatchRepeats<K(==)>(keys: seq<K>, size: nat)
    requires size > 0
  {
    forall i, j | 0 <= i < j < |keys| && i / size == j / size :: keys[i] != keys[j]
  }

  lemma NextBatch(i: int, size: nat)
    requires size > 0
    ensures (i + size) / size == i / size + 1
  {
    var q := i / size;
    assert size * q <= i < size * q + size;
    assert size * (q + 1) == size * q + size;
    QuotientUnique(i + size, size, q + 1);
  }

  lemma FirstBatch(i: nat, size: nat)
    requires size > 0
    ensures i / size == 0 <==> i < size
  {
    if i < size { QuotientUnique(i, size, 0); }
  }

  lemma FirstBatchDistinct<K>(keys: seq<K>, n: nat, size: nat)
    requires size > 0 && n <= |keys| && n <= size && (n < size ==> n == |keys|)
    requires NoBatchRepeats(keys, size)
    ensures Distinct(keys[..n])
  {
    forall i, j | 0 <= i < j < n ensures keys[..n][i] != keys[..n][j] {
      FirstBatch(i, size);
      FirstBatch(j, size);
    }
  }

  /** Whether batches repeat keys is decided by the first batch and by the rest. */
  lemma BatchRepeatsSplit<K>(keys: seq<K>, size: nat)
    requires size > 0 && |keys| >= size
    ensures NoBatchRepeats(keys, size) <==> Distinct(keys[..size]) && NoBatchRepeats(keys[size..], size)
  {
    var rest := keys[size..];
    if NoBatchRepeats(keys, size) {
      FirstBatchDistinct(keys, size, size);
      forall i, j | 0 <= i < j < |rest| && i / size == j / size ensures rest[i] != rest[j] {
        NextBatch(i, size);
        NextBatch(j, size);
        assert keys[i + size] != keys[j + size];
      }
    }
    if Distinct(keys[..size]) && NoBatchRepeats(rest, size) {
      forall i, j | 0 <= i < j < |keys| && i / size == j / size ensures keys[i] != keys[j] {
        FirstBatch(i, size);
        FirstBatch(j, size);
        if i < size {
          assert keys[..size][i] != keys[..size][j];
        } else {
          NextBatch(i - size, size);
          NextBatch(j - size, size);
          assert rest[i - size] != rest[j - size];
        }
      }
    }
  }

  /** The recursion over batches, by row numbers: rows i and j are in the same batch iff i / size == j / size. */
  lemma {:induction false} ChunksDistinctIff(rows: seq<ScoreRow>, size: nat)
    requires size > 0
    ensures ChunksDistinct(rows, size) <==> NoBatchRepeats(ScoreKeys(rows), size)
    decreases |rows|
  {
    var keys := ScoreKeys(rows);
    if |rows| <= size {
      assert rows[..|rows|] == rows && rows[|rows|..] == [];
      if NoBatchRepeats(keys, size) {
        FirstBatchDistinct(keys, |keys|, size);
        assert keys[..|keys|] == keys;
      }
    } else {
      ChunksDistinctIff(rows[size..], size);
      BatchRepeatsSplit(keys, size);
      assert ScoreKeys(rows[..size]) == keys[..size] && ScoreKeys(rows[size..]) == keys[size..];
    }
  }

  /** All keys differ, except that rows `i` and `j` share one. */
  ghost predicate OnlyRepeat(keys: seq<ScoreKey>, i: nat, j: nat) {
    && i < j < |keys| && keys[i] == keys[j]
    && forall m, n | 0 <= m < n < |keys| && keys[m] == keys[n] :: m == i && n == j
  }

  /**
   * A key given twice, at rows i and j of otherwise different allowed rows, is an error
   * iff both rows fall into the same batch; otherwise the call is one pass over all rows,
   * the later row winning.
   */
  lemma RepeatedKeyDependsOnSize(scores: map<ScoreKey, Score>, ids: set<Id>, rows: seq<ScoreRow>, size: nat, i: nat, j: nat)
    requires size > 0 && OnlyRepeat(ScoreKeys(rows), i, j)
    requires forall r | r in rows :: ScoreAllowed(ids, r)
    ensures CreateInBatches(scores, ids, rows, size) == if i / size == j / size then None else Some(PutScores(scores, rows))
  {
    BatchesMeaning(scores, ids, rows, size);
    ChunksDistinctIff(rows, size);
    if i / size == j / size {
      assert ScoreKeys(rows)[i] == ScoreKeys(rows)[j];
    }
  }

  /** With the repository's batches of 100, rows 0 and 99 clash and rows 0 and 100 do not. */
  lemma RepeatAtHundred(scores: map<ScoreKey, Score>, ids: set<Id>, rows: seq<ScoreRow>)
    requires forall r | r in rows :: ScoreAllowed(ids, r)
    ensures OnlyRepeat(ScoreKeys(rows), 0, 99) ==> CreateInBatches(scores, ids, rows, BATCH_SIZE) == None
    ensures OnlyRepeat(ScoreKeys(rows), 0, 100) ==> CreateInBatches(scores, ids, rows, BATCH_SIZE) == Some(PutScores(scores, rows))
  {
    if OnlyRepeat(ScoreKeys(rows), 0, 99) { RepeatedKeyDependsOnSize(scores, ids, rows, BATCH_SIZE, 0, 99); }
    if OnlyRepeat(ScoreKeys(rows), 0, 100) { RepeatedKeyDependsOnSize(scores, ids, rows, BATCH_SIZE, 0, 100); }
  }
}
