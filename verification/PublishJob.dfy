/**
 * The evaluation job: it turns evaluator summaries into one publish request and posts
 * it until an answer says it was stored, over a network that may lose either way.
 */
module PublishJob {
  import opened Common
  import opened ScoreTables
  import opened ScorePublishing
  import opened PublishRuns
  import opened PublishAcceptance
  import opened Retries

  const PUBLISH_MAX_RETRIES: nat := 3
  const PUBLISH_INITIAL_BACKOFF: nat := 2

  datatype EvaluatorScore = EvaluatorScore(trace: string, isSuccessful: bool, score: Option<real>,
                                           skipReason: Option<string>, explanation: Option<string>,
                                           startTime: Option<int>, spanContext: Option<SpanContext>)

  datatype Summary = Summary(name: string, level: string, aggregations: string, count: int, skippedCount: int,
                             individualScores: seq<EvaluatorScore>)

  // ---- The payload ------------------------------------------------------------------------------

  /** Python's truth of an optional text: empty texts are left out of the payload. */
  function Truthy(text: Option<string>): Option<string> {
    if Given(text) then text else None
  }

  function SpanPayload(c: Option<SpanContext>): Option<SpanContext> {
    if c.None? then None
    else
      var s := SpanContext(Truthy(c.value.spanId), Truthy(c.value.agentName), Truthy(c.value.model), Truthy(c.value.vendor));
      if s == SpanContext(None, None, None, None) then None else Some(s)
  }

  const NO_SCORE: string := "Evaluation did not produce a score"

  function ItemFor(s: Summary, e: EvaluatorScore): Item {
    var scored := e.isSuccessful && e.score.Some?;
    Item(s.name, s.level, e.trace,
         if scored then e.score else None,
         Truthy(e.explanation),
         e.startTime,
         if scored then None else if Given(e.skipReason) then e.skipReason else Some(NO_SCORE),
         SpanPayload(e.spanContext))
  }

  function ItemsFor(s: Summary, scores: seq<EvaluatorScore>): seq<Item> {
    seq(|scores|, i requires 0 <= i < |scores| => ItemFor(s, scores[i]))
  }

  function Items(summaries: seq<Summary>): seq<Item> {
    if summaries == [] then []
    else
      var last := summaries[|summaries| - 1];
      Items(summaries[..|summaries| - 1]) + ItemsFor(last, last.individualScores)
  }

  function AggregateFor(s: Summary, identifiers: map<string, string>): Aggregate {
    Aggregate(if s.name in identifiers then identifiers[s.name] else s.name,
              s.name, s.level, s.aggregations, s.count, s.skippedCount)
  }

  function Aggregates(summaries: seq<Summary>, identifiers: map<string, string>): (r: seq<Aggregate>)
    ensures |r| == |summaries|
  {
    seq(|summaries|, i requires 0 <= i < |summaries| => AggregateFor(summaries[i], identifiers))
  }

  function Payload(summaries: seq<Summary>, identifiers: map<string, string>): Request {
    Request(Items(summaries), Aggregates(summaries, identifiers))
  }

  method BuildPayload(summaries: seq<Summary>, identifiers: map<string, string>) returns (payload: Request)
    ensures payload == Payload(summaries, identifiers)
  {
    var individual, aggregated := [], [];
    for i := 0 to |summaries|
      invariant individual == Items(summaries[..i])
      invariant aggregated == Aggregates(summaries[..i], identifiers)
    {
      var s := summaries[i];
      assert summaries[..i + 1][..i] == summaries[..i];
      aggregated := aggregated + [AggregateFor(s, identifiers)];
      for j := 0 to |s.individualScores|
        invariant individual == Items(summaries[..i]) + ItemsFor(s, s.individualScores[..j])
      {
        individual := individual + [ItemFor(s, s.individualScores[j])];
      }
      assert s.individualScores[..|s.individualScores|] == s.individualScores;
    }
    assert summaries[..|summaries|] == summaries;
    return Request(individual, aggregated);
  }

  predicate NamesDistinct(summaries: seq<Summary>) {
    forall i, j | 0 <= i < j < |summaries| :: summaries[i].name != summaries[j].name
  }

  predicate WellFormedItem(i: Item) {
    (i.score.Some? <==> i.skipReason.None?) && (i.skipReason.Some? ==> i.skipReason.value != "")
  }

  /** Every item has either a score or a reason for its absence, and names a summary of the job. */
  lemma {:induction false} ItemsWellFormed(summaries: seq<Summary>)
    ensures forall i | i in Items(summaries) ::
              WellFormedItem(i) && exists j | 0 <= j < |summaries| :: summaries[j].name == i.evaluatorName
    decreases |summaries|
  {
    if summaries != [] {
      var rest, last := summaries[..|summaries| - 1], summaries[|summaries| - 1];
      ItemsWellFormed(rest);
      forall i | i in Items(summaries)
        ensures WellFormedItem(i) && exists j | 0 <= j < |summaries| :: summaries[j].name == i.evaluatorName
      {
        if i in Items(rest) {
          var j :| 0 <= j < |rest| && rest[j].name == i.evaluatorName;
          assert summaries[j] == rest[j];
        } else {
          assert i in ItemsFor(last, last.individualScores);
          assert summaries[|summaries| - 1].name == i.evaluatorName;
        }
      }
    }
  }

  // ---- When the server stores it --------------------------------------------------------------------

  predicate SummaryAllowed(db: ScoreDb, monitor: Id, run: Id, s: Summary, identifiers: map<string, string>) {
    AggregateAllowed(db, monitor, run, AggregateFor(s, identifiers))
  }

  /** The job's own evaluators are always found: no publish of a job fails on an unknown evaluator. */
  lemma JobNamesKnown(db: ScoreDb, monitor: Id, run: Id, summaries: seq<Summary>, identifiers: map<string, string>)
    requires NamesDistinct(summaries)
    ensures var req := Payload(summaries, identifiers);
            && Distinct(NamesOf(req.aggregates))
            && forall i | i in req.items :: KnownEvaluator(db, monitor, run, req.aggregates, i.evaluatorName)
  {
    var req := Payload(summaries, identifiers);
    ItemsWellFormed(summaries);
    forall i | i in req.items ensures KnownEvaluator(db, monitor, run, req.aggregates, i.evaluatorName) {
      var j :| 0 <= j < |summaries| && summaries[j].name == i.evaluatorName;
      assert NamesOf(req.aggregates)[j] == i.evaluatorName;
    }
  }

  /**
   * Exactly when the server accepts a job's request: every score has a start time and fits
   * its columns, every summary is allowed, and no batch repeats an evaluator, trace and span.
   */
  lemma JobAcceptedIff(db: ScoreDb, monitor: Id, run: Id, summaries: seq<Summary>, identifiers: map<string, string>, newIds: seq<Id>)
    requires NamesDistinct(summaries)
    requires FreshIds(db, Call(monitor, run, Payload(summaries, identifiers), newIds)) && IdsUnique(db.evaluators)
    ensures var items := Items(summaries);
            Publish(db, monitor, run, Payload(summaries, identifiers), newIds).Published? <==>
              && StartTimesGiven(items)
              && (forall s | s in summaries :: SummaryAllowed(db, monitor, run, s, identifiers))
              && ItemsAllowed(items)
              && NoBatchRepeats(ItemKeys(items), BATCH_SIZE)
  {
    var req := Payload(summaries, identifiers);
    AcceptedIff(db, Call(monitor, run, req, newIds));
    JobNamesKnown(db, monitor, run, summaries, identifiers);
    if forall a | a in req.aggregates :: AggregateAllowed(db, monitor, run, a) {
      forall s | s in summaries ensures SummaryAllowed(db, monitor, run, s, identifiers) {
        var j :| 0 <= j < |summaries| && summaries[j] == s;
        assert req.aggregates[j] in req.aggregates;
      }
    }
    if forall s | s in summaries :: SummaryAllowed(db, monitor, run, s, identifiers) {
      forall a | a in req.aggregates ensures AggregateAllowed(db, monitor, run, a) {
        var j :| 0 <= j < |req.aggregates| && req.aggregates[j] == a;
        assert summaries[j] in summaries;
      }
    }
  }

  // ---- Posting with retries ---------------------------------------------------------------------------

  /** One publish and the ids the database would generate at each attempt. */
  datatype Script = Script(monitor: Id, run: Id, req: Request, ids: seq<seq<Id>>)

  predicate Playable(s: Script) {
    forall i | 0 <= i < |s.ids| :: |s.ids[i]| == |s.req.aggregates|
  }

  function CallOf(s: Script, i: nat): Call
    requires i < |s.ids|
  {
    Call(s.monitor, s.run, s.req, s.ids[i])
  }

  /** The server: stores the request or answers with an error status. */
  function Serve(db: ScoreDb, c: Call): (ScoreDb, int)
    requires |c.newIds| == |c.req.aggregates|
  {
    if c.req.items == [] && c.req.aggregates == [] then (db, 400)
    else
      match Do(db, c)
      case Published(t) => (t, CREATED)
      case Failed(_) => (db, 500)
  }

  function ServerOf(s: Script): Server<ScoreDb>
    requires Playable(s)
  {
    (db: ScoreDb, i: nat) => if i < |s.ids| then Serve(db, CallOf(s, i)) else (db, 500)
  }

  lemma ServeAgain(db: ScoreDb, c: Call, again: Call)
    requires |c.newIds| == |c.req.aggregates| && again == c.(newIds := again.newIds) && |again.newIds| == |c.newIds|
    requires Serve(db, c).1 == CREATED
    ensures Serve(Serve(db, c).0, again) == Serve(db, c)
  {
    PublishAgain(db, c.monitor, c.run, c.req, c.newIds, again.newIds);
  }

  lemma Unstored(db: ScoreDb, c: Call)
    requires |c.newIds| == |c.req.aggregates| && Serve(db, c).1 != CREATED
    ensures Serve(db, c).0 == db
  {
  }

  lemma ServerOfAt(s: Script, db: ScoreDb, i: nat)
    requires Playable(s) && i < |s.ids|
    ensures ServerOf(s)(db, i) == Serve(db, CallOf(s, i))
  {
  }

  /** The server absorbs repeated requests: at-least-once delivery is as good as exactly once. */
  lemma ServerAbsorbs(s: Script)
    requires Playable(s)
    ensures Absorbs(ServerOf(s), |s.ids|)
  {
    forall db, i: nat | i < |s.ids| && ServerOf(s)(db, i).1 != CREATED ensures ServerOf(s)(db, i).0 == db {
      ServerOfAt(s, db, i);
      Unstored(db, CallOf(s, i));
    }
    forall db, i: nat, j: nat | i < |s.ids| && j < |s.ids| && ServerOf(s)(db, i).1 == CREATED
      ensures ServerOf(s)(ServerOf(s)(db, i).0, j) == ServerOf(s)(db, i)
    {
      ServerOfAt(s, db, i);
      ServerOfAt(s, ServerOf(s)(db, i).0, j);
      ServeAgain(db, CallOf(s, i), CallOf(s, j));
    }
  }

  lemma SixSeconds(attempts: nat)
    requires attempts <= 3
    ensures SleptFor(PUBLISH_INITIAL_BACKOFF, attempts) <= 6
  {
    SleptBound(PUBLISH_INITIAL_BACKOFF, attempts, 3);
    assert Pow2(2) == 4;
  }

  /** The job itself: nothing to publish is a success without a request. */
  method PublishScores(db: ScoreDb, monitor: Id, run: Id, summaries: seq<Summary>, identifiers: map<string, string>,
                       network: seq<Network>, ids: seq<seq<Id>>)
    returns (ok: bool, after: ScoreDb, applied: nat, slept: nat)
    requires |network| == |ids| == PUBLISH_MAX_RETRIES && Legal(network)
    requires Playable(Script(monitor, run, Payload(summaries, identifiers), ids))
    ensures if summaries == [] then ok && after == db && applied == 0
            else Ended(db, after, ServerOf(Script(monitor, run, Payload(summaries, identifiers), ids)), network, ok, applied)
    ensures slept <= 6
  {
    if |summaries| == 0 {
      return true, db, 0, 0;
    }
    var payload := BuildPayload(summaries, identifiers);
    var s := Script(monitor, run, payload, ids);
    ServerAbsorbs(s);
    var attempts, seen;
    ok, after, applied, attempts, slept, seen := PostWithRetries(db, ServerOf(s), network, PUBLISH_INITIAL_BACKOFF);
    SixSeconds(attempts);
  }

  // ---- What decides the outcome ------------------------------------------------------------------------

  /** Ids the database generates are new, whichever attempt uses them. */
  ghost predicate FreshScript(db: ScoreDb, s: Script) {
    IdsUnique(db.evaluators) && forall i | 0 <= i < |s.ids| :: FreshIds(db, CallOf(s, i))
  }

  /** The server has something to store and can store it. */
  predicate Storable(db: ScoreDb, s: Script) {
    (s.req.items != [] || s.req.aggregates != []) && Acceptable(db, s.monitor, s.run, s.req)
  }

  lemma StorableDecides(db: ScoreDb, s: Script)
    requires Playable(s) && FreshScript(db, s)
    ensures Decided(db, ServerOf(s), |s.ids|, Storable(db, s))
  {
    forall i: nat | i < |s.ids| ensures ServerOf(s)(db, i).1 == CREATED <==> Storable(db, s) {
      AcceptedIff(db, CallOf(s, i));
    }
  }

  /**
   * What the job reports and what is stored, before anything is sent: success is reported
   * iff the request is storable and the attempt at which the job stops is delivered. A
   * failure was stored nevertheless iff the request is storable, that attempt is not
   * delivered, and the answer of an earlier one was lost.
   */
  lemma JobOutcomeIff(db: ScoreDb, s: Script, network: seq<Network>)
    requires Playable(s) && FreshScript(db, s) && |network| == |s.ids| && Legal(network)
    ensures var serve := ServerOf(s);
            && (Acknowledged(db, serve, network, 0) <==> Storable(db, s) && EndsDelivered(network, 0))
            && (!Acknowledged(db, serve, network, 0) && Stored(db, serve, network, 0)
                <==> Storable(db, s) && !EndsDelivered(network, 0) && LosesAnswer(network, 0))
  {
    ServerAbsorbs(s);
    StorableDecides(db, s);
    OutcomeIff(db, ServerOf(s), network, Storable(db, s));
  }

  /** A storable job reports success when some attempt gets through and none is refused a token with a status from 400 to 499. */
  lemma JobSucceeds(db: ScoreDb, s: Script, network: seq<Network>, j: nat)
    requires Playable(s) && FreshScript(db, s) && |network| == |s.ids| && Legal(network) && Storable(db, s)
    requires j < |network| && network[j] == Delivered
    requires forall m | 0 <= m < |network| :: network[m].TokenError? && network[m].status.Some? ==> !(400 <= network[m].status.value < 500)
    ensures Acknowledged(db, ServerOf(s), network, 0) && Stored(db, ServerOf(s), network, 0)
  {
    ServerAbsorbs(s);
    StorableDecides(db, s);
    forall i: nat | i < |network| ensures ServerOf(s)(db, i).1 == 201 {
    }
    DeliveredSucceeds(db, ServerOf(s), network, j);
  }

  function ThreeAttempts(): Script {
    Script(Uuid(1), Uuid(9), OneScore(Uuid(1), Uuid(10), 1.0).req, [[Uuid(10)], [Uuid(11)], [Uuid(12)]])
  }

  /** The first of three attempts is stored but its answer is lost, the others do not arrive: the job reports failure. */
  lemma FailureMayBeStored()
    ensures var s, network := ThreeAttempts(), [ResponseLost, RequestLost, RequestLost];
            && Playable(s) && |s.ids| == PUBLISH_MAX_RETRIES
            && !Acknowledged(TwoMonitors(), ServerOf(s), network, 0) && Stored(TwoMonitors(), ServerOf(s), network, 0)
  {
    var s, network := ThreeAttempts(), [ResponseLost, RequestLost, RequestLost];
    ThreeAttemptsStorable();
    assert StopsAt(network, 2) == 3 && StopsAt(network, 1) == 3;
    assert network[0] == ResponseLost;
    JobOutcomeIff(TwoMonitors(), s, network);
  }

  lemma ThreeAttemptsStorable()
    ensures Playable(ThreeAttempts()) && FreshScript(TwoMonitors(), ThreeAttempts()) && Storable(TwoMonitors(), ThreeAttempts())
  {
    var c := OneScore(Uuid(1), Uuid(10), 1.0);
    OneScorePublishes(TwoMonitors(), Uuid(1), Uuid(10), 1.0);
    assert FreshIds(TwoMonitors(), c);
    AcceptedIff(TwoMonitors(), c);
  }

  // ---- The payload, field by field ----------------------------------------------------------------------

  /** Where the items of the a-th summary begin. */
  function Offset(summaries: seq<Summary>, a: nat): nat
    requires a <= |summaries|
  {
    if a == 0 then 0 else Offset(summaries, a - 1) + |summaries[a - 1].individualScores|
  }

  lemma {:induction false} OffsetOfPrefix(summaries: seq<Summary>, n: nat, a: nat)
    requires a <= n <= |summaries|
    ensures Offset(summaries[..n], a) == Offset(summaries, a)
  {
    if a > 0 {
      OffsetOfPrefix(summaries, n, a - 1);
    }
  }

  lemma {:induction false} ItemAt(summaries: seq<Summary>, a: nat, j: nat)
    requires a < |summaries| && j < |summaries[a].individualScores|
    ensures |Items(summaries)| == Offset(summaries, |summaries|)
    ensures Offset(summaries, a) + j < |Items(summaries)|
    ensures Items(summaries)[Offset(summaries, a) + j] == ItemFor(summaries[a], summaries[a].individualScores[j])
    decreases |summaries|
  {
    var n := |summaries| - 1;
    ItemsCount(summaries[..n]);
    OffsetOfPrefix(summaries, n, n);
    OffsetOfPrefix(summaries, n, a);
    if a < n {
      ItemAt(summaries[..n], a, j);
    }
  }

  lemma {:induction false} ItemsCount(summaries: seq<Summary>)
    ensures |Items(summaries)| == Offset(summaries, |summaries|)
  {
    if summaries != [] {
      var n := |summaries| - 1;
      ItemsCount(summaries[..n]);
      OffsetOfPrefix(summaries, n, n);
    }
  }

  /** An optional text that is passed on unless it is missing or empty. */
  predicate PassedOn(text: Option<string>, given: Option<string>) {
    text == if given == Some("") then None else given
  }

  /** What an item of the payload says about an evaluator's score. */
  predicate Reports(i: Item, s: Summary, e: EvaluatorScore) {
    && i.evaluatorName == s.name && i.level == s.level && i.trace == e.trace && i.startTime == e.startTime
    && PassedOn(i.explanation, e.explanation)
    && (e.isSuccessful && e.score.Some? ==> i.score == e.score && i.skipReason.None?)
    && (!(e.isSuccessful && e.score.Some?) ==>
          && i.score.None?
          && i.skipReason == if e.skipReason.Some? && e.skipReason.value != "" then e.skipReason
                             else Some("Evaluation did not produce a score"))
  }

  /** The span context is passed on text by text, and left out when no text is left. */
  predicate ReportsSpan(i: Item, e: EvaluatorScore) {
    match (e.spanContext, i.span)
    case (None, span) => span.None?
    case (Some(c), None) =>
      (c.spanId.None? || c.spanId == Some("")) && (c.agentName.None? || c.agentName == Some(""))
      && (c.model.None? || c.model == Some("")) && (c.vendor.None? || c.vendor == Some(""))
    case (Some(c), Some(span)) =>
      && PassedOn(span.spanId, c.spanId) && PassedOn(span.agentName, c.agentName)
      && PassedOn(span.model, c.model) && PassedOn(span.vendor, c.vendor)
      && span != SpanContext(None, None, None, None)
  }

  /** The payload has one item per score, summary by summary in order, saying what the score says. */
  lemma PayloadItems(summaries: seq<Summary>, identifiers: map<string, string>, a: nat, j: nat)
    requires a < |summaries| && j < |summaries[a].individualScores|
    ensures var items := Payload(summaries, identifiers).items;
            && |items| == Offset(summaries, |summaries|)
            && Offset(summaries, a) + j < |items|
            && Reports(items[Offset(summaries, a) + j], summaries[a], summaries[a].individualScores[j])
            && ReportsSpan(items[Offset(summaries, a) + j], summaries[a].individualScores[j])
  {
    ItemAt(summaries, a, j);
  }

  /** The payload has one aggregate per summary in order, under the evaluator's identifier if there is one, else under its name. */
  lemma PayloadAggregates(summaries: seq<Summary>, identifiers: map<string, string>, a: nat)
    requires a < |summaries|
    ensures var aggregates, s := Payload(summaries, identifiers).aggregates, summaries[a];
            && |aggregates| == |summaries|
            && aggregates[a].evaluatorName == s.name && aggregates[a].level == s.level && aggregates[a].aggregations == s.aggregations
            && aggregates[a].count == s.count && aggregates[a].skippedCount == s.skippedCount
            && (s.name in identifiers ==> aggregates[a].identifier == identifiers[s.name])
            && (s.name !in identifiers ==> aggregates[a].identifier == s.name)
  {
  }

  /** What the server answers: 400 to an empty request, 201 when it stored the request, 500 when it could not. */
  lemma Answers(db: ScoreDb, c: Call)
    requires |c.newIds| == |c.req.aggregates|
    ensures var (after, status) := Serve(db, c);
            && (c.req.items == [] && c.req.aggregates == [] ==> status == 400 && after == db)
            && (c.req.items != [] || c.req.aggregates != [] ==>
                  && (Do(db, c).Published? ==> status == 201 && after == Do(db, c).db)
                  && (Do(db, c).Failed? ==> status == 500 && after == db))
  {
  }
}
