/** The paginated listing of an agent's traces with their scores, across its monitors. */
module TracePages {
  import opened Common
  import opened Ordering
  import opened Sums
  import opened ScoreTables
  import opened ScoreAggregation
  import opened ScoreMeans

  datatype Agent = Agent(org: string, project: string, name: string)

  datatype TraceAggregate = TraceAggregate(trace: string, start: int, total: nat, skipped: nat, mean: Option<real>)

  datatype Query = Query(agent: Agent, from: int, to: int)

  predicate InQuery(db: ScoreDb, agents: map<Id, Agent>, q: Query, k: ScoreKey) {
    && k in db.scores && db.scores[k].monitor in agents && agents[db.scores[k].monitor] == q.agent
    && q.from <= db.scores[k].startTime <= q.to
  }

  /** The scores of all monitors of the agent whose trace started in the window. */
  function AgentScores(db: ScoreDb, agents: map<Id, Agent>, q: Query): set<ScoreKey> {
    set k | k in db.scores && InQuery(db, agents, q, k)
  }

  function TraceIds(rows: set<ScoreKey>): set<string> {
    set k | k in rows :: k.trace
  }

  function SkippedScores(db: ScoreDb, group: set<ScoreKey>): set<ScoreKey> {
    set k | k in group && k in db.scores && db.scores[k].skipReason.Some?
  }

  ghost function AggregateOf(db: ScoreDb, trace: string, group: set<ScoreKey>): TraceAggregate {
    TraceAggregate(trace, Earliest(db, group), |group|, |SkippedScores(db, group)|, MeanScore(db, group))
  }

  /** GROUP BY trace_id. */
  ghost function Aggregates(db: ScoreDb, rows: set<ScoreKey>): set<TraceAggregate> {
    set t | t in TraceIds(rows) :: AggregateOf(db, t, OfTrace(rows, t))
  }

  // ---- ORDER BY trace_start_time, trace_id ----------------------------------------------------------

  /** `before` is the collation of the trace ids. */
  ghost function Ascending(before: (string, string) -> bool): (TraceAggregate, TraceAggregate) -> bool {
    (a: TraceAggregate, b: TraceAggregate) => a.start < b.start || (a.start == b.start && before(a.trace, b.trace))
  }

  ghost function Descending(before: (string, string) -> bool): (TraceAggregate, TraceAggregate) -> bool {
    (a: TraceAggregate, b: TraceAggregate) => b.start < a.start || (a.start == b.start && before(b.trace, a.trace))
  }

  function LowerCase(c: char): char {
    if 'A' <= c <= 'Z' then c + 32 as char else c
  }

  /** Everything but "asc", in any case, sorts descending. */
  predicate SortsAscending(sortOrder: string) {
    |sortOrder| == 3 && LowerCase(sortOrder[0]) == 'a' && LowerCase(sortOrder[1]) == 's' && LowerCase(sortOrder[2]) == 'c'
  }

  ghost function OrderBy(before: (string, string) -> bool, sortOrder: string): (TraceAggregate, TraceAggregate) -> bool {
    if SortsAscending(sortOrder) then Ascending(before) else Descending(before)
  }

  lemma AggregateOfTrace(db: ScoreDb, rows: set<ScoreKey>, a: TraceAggregate)
    requires a in Aggregates(db, rows)
    ensures a.trace in TraceIds(rows) && a == AggregateOf(db, a.trace, OfTrace(rows, a.trace))
  {
  }

  /** Trace ids are unique among the aggregates, so the sort keys never tie. */
  lemma OrderIsTotal(db: ScoreDb, rows: set<ScoreKey>, before: (string, string) -> bool, sortOrder: string)
    requires StrictTotal(before, TraceIds(rows))
    ensures StrictTotal(OrderBy(before, sortOrder), Aggregates(db, rows))
  {
    forall a | a in Aggregates(db, rows)
      ensures a.trace in TraceIds(rows) && a == AggregateOf(db, a.trace, OfTrace(rows, a.trace))
    {
      AggregateOfTrace(db, rows, a);
    }
  }

  /** The whole answer, before LIMIT and OFFSET. */
  ghost function Listing(db: ScoreDb, agents: map<Id, Agent>, q: Query, before: (string, string) -> bool, sortOrder: string): seq<TraceAggregate>
    requires StrictTotal(before, TraceIds(AgentScores(db, agents, q)))
  {
    OrderIsTotal(db, AgentScores(db, agents, q), before, sortOrder);
    Sorted(Aggregates(db, AgentScores(db, agents, q)), OrderBy(before, sortOrder))
  }

  /** COUNT(DISTINCT trace_id), the total reported beside a page. */
  function TotalCount(db: ScoreDb, agents: map<Id, Agent>, q: Query): nat {
    |TraceIds(AgentScores(db, agents, q))|
  }

  // ---- LIMIT and OFFSET -----------------------------------------------------------------------------------

  function Page<T>(all: seq<T>, limit: nat, offset: nat): seq<T> {
    all[Min(offset, |all|)..Min(offset + limit, |all|)]
  }

  ghost function GetAgentTraceScores(db: ScoreDb, agents: map<Id, Agent>, q: Query, before: (string, string) -> bool, sortOrder: string,
                                     limit: nat, offset: nat): (r: (seq<TraceAggregate>, nat))
    requires StrictTotal(before, TraceIds(AgentScores(db, agents, q)))
  {
    (Page(Listing(db, agents, q, before, sortOrder), limit, offset), TotalCount(db, agents, q))
  }

  /** What `count` consecutive pages add up to. */
  function Joined<T>(all: seq<T>, limit: nat, count: nat): seq<T> {
    if count == 0 then [] else Joined(all, limit, count - 1) + Page(all, limit, limit * (count - 1))
  }

  ghost function Collected(db: ScoreDb, agents: map<Id, Agent>, q: Query, before: (string, string) -> bool, sortOrder: string,
                           limit: nat, count: nat): seq<TraceAggregate>
    requires StrictTotal(before, TraceIds(AgentScores(db, agents, q)))
  {
    Joined(Listing(db, agents, q, before, sortOrder), limit, count)
  }

  /** Two adjacent pages are one larger page. */
  lemma PagesJoin<T>(all: seq<T>, first: nat, second: nat, offset: nat)
    ensures Page(all, first, offset) + Page(all, second, offset + first) == Page(all, first + second, offset)
  {
  }

  lemma {:induction false} JoinedIsPrefix<T>(all: seq<T>, limit: nat, count: nat)
    ensures Joined(all, limit, count) == Page(all, limit * count, 0)
  {
    if count > 0 {
      JoinedIsPrefix(all, limit, count - 1);
      NextPage(all, limit * (count - 1), limit, limit * count);
    }
  }

  lemma NextPage<T>(all: seq<T>, done: nat, limit: nat, next: nat)
    requires next == done + limit
    ensures Page(all, done, 0) + Page(all, limit, done) == Page(all, next, 0)
  {
    PagesJoin(all, done, limit, 0);
  }

  // ---- The listing has every trace once ---------------------------------------------------------------------

  function TracesOf(s: seq<TraceAggregate>): (r: seq<string>)
    ensures |r| == |s| && forall i | 0 <= i < |s| :: r[i] == s[i].trace
  {
    seq(|s|, i requires 0 <= i < |s| => s[i].trace)
  }

  lemma ListingTraces(db: ScoreDb, agents: map<Id, Agent>, q: Query, before: (string, string) -> bool, sortOrder: string)
    requires StrictTotal(before, TraceIds(AgentScores(db, agents, q)))
    ensures var traces := TracesOf(Listing(db, agents, q, before, sortOrder));
            Distinct(traces) && Elements(traces) == TraceIds(AgentScores(db, agents, q)) && |traces| == TotalCount(db, agents, q)
  {
    var rows := AgentScores(db, agents, q);
    var all := Listing(db, agents, q, before, sortOrder);
    OrderIsTotal(db, rows, before, sortOrder);
    assert Elements(all) == Aggregates(db, rows) && Distinct(all);
    forall i | 0 <= i < |all|
      ensures all[i].trace in TraceIds(rows) && all[i] == AggregateOf(db, all[i].trace, OfTrace(rows, all[i].trace))
    {
      assert all[i] in Elements(all);
      AggregateOfTrace(db, rows, all[i]);
    }
    forall t | t in TraceIds(rows) ensures t in TracesOf(all) {
      var a := AggregateOf(db, t, OfTrace(rows, t));
      assert a in Elements(all);
      var i :| 0 <= i < |all| && all[i] == a;
      assert TracesOf(all)[i] == t;
    }
    assert Elements(TracesOf(all)) == TraceIds(rows);
    DistinctCardinality(TracesOf(all));
  }

  /**
   * Pagination is exact: on fixed tables, consecutive pages reaching the reported total
   * concatenate to the whole listing, which has every trace of the query exactly once.
   */
  lemma PagesAreExact(db: ScoreDb, agents: map<Id, Agent>, q: Query, before: (string, string) -> bool, sortOrder: string, limit: nat, count: nat)
    requires StrictTotal(before, TraceIds(AgentScores(db, agents, q)))
    requires limit * count >= TotalCount(db, agents, q)
    ensures var collected := Collected(db, agents, q, before, sortOrder, limit, count);
            && collected == Listing(db, agents, q, before, sortOrder)
            && |collected| == TotalCount(db, agents, q)
            && Distinct(TracesOf(collected))
            && Elements(TracesOf(collected)) == TraceIds(AgentScores(db, agents, q))
  {
    JoinedIsPrefix(Listing(db, agents, q, before, sortOrder), limit, count);
    ListingTraces(db, agents, q, before, sortOrder);
  }

  /** A trace is on a page exactly when the number of traces sorted before it falls into the page. */
  lemma OnPageIff(db: ScoreDb, agents: map<Id, Agent>, q: Query, before: (string, string) -> bool, sortOrder: string,
                  limit: nat, offset: nat, a: TraceAggregate)
    requires StrictTotal(before, TraceIds(AgentScores(db, agents, q)))
    requires a in Aggregates(db, AgentScores(db, agents, q))
    ensures a in GetAgentTraceScores(db, agents, q, before, sortOrder, limit, offset).0
            <==> offset <= Position(Aggregates(db, AgentScores(db, agents, q)), OrderBy(before, sortOrder), a) < offset + limit
  {
    var rows, less := Aggregates(db, AgentScores(db, agents, q)), OrderBy(before, sortOrder);
    OrderIsTotal(db, AgentScores(db, agents, q), before, sortOrder);
    OnPageOfSorted(rows, less, limit, offset, a);
  }

  lemma OnPageOfSorted<T(!new)>(s: set<T>, less: (T, T) -> bool, limit: nat, offset: nat, x: T)
    requires StrictTotal(less, s) && x in s
    ensures x in Page(Sorted(s, less), limit, offset) <==> offset <= Position(s, less, x) < offset + limit
  {
    var all := Sorted(s, less);
    assert x in Elements(all);
    var i :| 0 <= i < |all| && all[i] == x;
    PositionIsIndex(s, less, i);
    OnPageByIndex(all, limit, offset, i);
  }

  lemma OnPageByIndex<T>(all: seq<T>, limit: nat, offset: nat, i: nat)
    requires Distinct(all) && i < |all|
    ensures all[i] in Page(all, limit, offset) <==> offset <= i < offset + limit
  {
    var page := Page(all, limit, offset);
    if offset <= i < offset + limit {
      assert page[i - offset] == all[i];
    }
    if all[i] in page {
      var j :| 0 <= j < |page| && page[j] == all[i];
      assert page[j] == all[offset + j];
    }
  }

  /** Ascending order is the exact reverse of descending order. */
  lemma AscendingReversesDescending(db: ScoreDb, agents: map<Id, Agent>, q: Query, before: (string, string) -> bool, asc: string, desc: string)
    requires StrictTotal(before, TraceIds(AgentScores(db, agents, q)))
    requires SortsAscending(asc) && !SortsAscending(desc)
    ensures Listing(db, agents, q, before, desc) == Reverse(Listing(db, agents, q, before, asc))
  {
    var rows := AgentScores(db, agents, q);
    OrderIsTotal(db, rows, before, asc);
    SortedReverse(Aggregates(db, rows), Ascending(before), Descending(before));
  }

  // ---- Nothing is lost by grouping -----------------------------------------------------------------------------

  function TraceOf(): ScoreKey -> string {
    (k: ScoreKey) => k.trace
  }

  function OneEach(): ScoreKey -> real {
    (k: ScoreKey) => 1.0
  }

  ghost function GroupSize(rows: set<ScoreKey>): string -> real {
    (t: string) => |OfTrace(rows, t)| as real
  }

  /** The counts of all traces add up to the number of scores that the query selects. */
  lemma GroupingConserves(db: ScoreDb, agents: map<Id, Agent>, q: Query)
    ensures var rows := AgentScores(db, agents, q);
            && |rows| as real == Sum(TraceIds(rows), GroupSize(rows))
            && forall a | a in Aggregates(db, rows) :: a.total as real == GroupSize(rows)(a.trace) && 0 <= a.skipped <= a.total && a.total > 0
  {
    var rows := AgentScores(db, agents, q);
    SumOfOnes(rows, OneEach());
    SumFibres(rows, OneEach(), TraceOf(), TraceIds(rows));
    forall t | t in TraceIds(rows) ensures FibreSum(rows, OneEach(), TraceOf())(t) == GroupSize(rows)(t) {
      assert Fibre(rows, TraceOf(), t) == OfTrace(rows, t);
      SumOfOnes(OfTrace(rows, t), OneEach());
    }
    SumCongruence(TraceIds(rows), FibreSum(rows, OneEach(), TraceOf()), GroupSize(rows));
    forall a | a in Aggregates(db, rows)
      ensures a.total as real == GroupSize(rows)(a.trace) && 0 <= a.skipped <= a.total && a.total > 0
    {
      AggregateOfTrace(db, rows, a);
      GroupBounds(db, rows, a.trace);
    }
  }

  lemma GroupBounds(db: ScoreDb, rows: set<ScoreKey>, trace: string)
    requires trace in TraceIds(rows)
    ensures |SkippedScores(db, OfTrace(rows, trace))| <= |OfTrace(rows, trace)| && |OfTrace(rows, trace)| > 0
  {
    var group := OfTrace(rows, trace);
    var k :| k in rows && k.trace == trace;
    assert k in group;
    assert group == SkippedScores(db, group) + (group - SkippedScores(db, group));
  }

  // ---- Rows and order, in terms of the stored scores --------------------------------------------------------

  /** A score that the query is about: of a monitor of the agent, in the window. */
  predicate Asked(db: ScoreDb, agents: map<Id, Agent>, q: Query, k: ScoreKey) {
    && k in db.scores
    && db.scores[k].monitor in agents
    && var a := agents[db.scores[k].monitor];
    && a.org == q.agent.org && a.project == q.agent.project && a.name == q.agent.name
    && q.from <= db.scores[k].startTime && db.scores[k].startTime <= q.to
  }

  /** The numbers of a trace: least start time, number of scores and of skipped ones, mean of the others. */
  ghost predicate Summarizes(db: ScoreDb, agents: map<Id, Agent>, q: Query, a: TraceAggregate, values: ScoreKey -> real) {
    && (exists k :: Asked(db, agents, q, k) && k.trace == a.trace && db.scores[k].startTime == a.start)
    && (forall k | Asked(db, agents, q, k) && k.trace == a.trace :: a.start <= db.scores[k].startTime)
    && a.total == |set k | k in db.scores && Asked(db, agents, q, k) && k.trace == a.trace|
    && a.skipped == |set k | k in db.scores && Asked(db, agents, q, k) && k.trace == a.trace && db.scores[k].skipReason.Some?|
    && IsMean(a.mean,
              (set k | k in db.scores && Asked(db, agents, q, k) && k.trace == a.trace
                       && db.scores[k].skipReason.None? && db.scores[k].score.Some?),
              values)
  }

  lemma GroupIs(db: ScoreDb, agents: map<Id, Agent>, q: Query, trace: string)
    ensures OfTrace(AgentScores(db, agents, q), trace) == set k | k in db.scores && Asked(db, agents, q, k) && k.trace == trace
  {
  }

  lemma GroupSummarizes(db: ScoreDb, agents: map<Id, Agent>, q: Query, a: TraceAggregate, values: ScoreKey -> real)
    requires Reads(db, values) && a in Aggregates(db, AgentScores(db, agents, q))
    ensures Summarizes(db, agents, q, a, values)
  {
    var rows := AgentScores(db, agents, q);
    AggregateOfTrace(db, rows, a);
    var group := OfTrace(rows, a.trace);
    GroupIs(db, agents, q, a.trace);
    GroupBounds(db, rows, a.trace);
    EarliestExists(db, group);
    assert IsEarliest(db, group, Earliest(db, group));
    MeanOfScores(db, group, values);
    SplitGroup(db, agents, q, a.trace);
  }

  lemma SplitGroup(db: ScoreDb, agents: map<Id, Agent>, q: Query, trace: string)
    ensures var group := OfTrace(AgentScores(db, agents, q), trace);
            && SkippedScores(db, group) == (set k | k in db.scores && Asked(db, agents, q, k) && k.trace == trace && db.scores[k].skipReason.Some?)
            && (set k | k in group && k in db.scores && db.scores[k].skipReason.None? && db.scores[k].score.Some?)
               == (set k | k in db.scores && Asked(db, agents, q, k) && k.trace == trace
                           && db.scores[k].skipReason.None? && db.scores[k].score.Some?)
  {
    GroupIs(db, agents, q, trace);
  }

  /** A trace is listed iff some score of it is asked for, and its row summarizes those scores. */
  lemma ListedTraces(db: ScoreDb, agents: map<Id, Agent>, q: Query, before: (string, string) -> bool, sortOrder: string, trace: string, values: ScoreKey -> real)
    requires StrictTotal(before, TraceIds(AgentScores(db, agents, q))) && Reads(db, values)
    ensures var all := Listing(db, agents, q, before, sortOrder);
            && ((exists a | a in all :: a.trace == trace) <==> exists k :: Asked(db, agents, q, k) && k.trace == trace)
            && (forall a | a in all :: Summarizes(db, agents, q, a, values))
  {
    var rows, all := AgentScores(db, agents, q), Listing(db, agents, q, before, sortOrder);
    ListingTraces(db, agents, q, before, sortOrder);
    OrderIsTotal(db, rows, before, sortOrder);
    forall a | a in all ensures Summarizes(db, agents, q, a, values) {
      assert a in Elements(all);
      GroupSummarizes(db, agents, q, a, values);
    }
    TraceIsListed(db, agents, q, all, trace);
  }

  lemma TraceIsListed(db: ScoreDb, agents: map<Id, Agent>, q: Query, all: seq<TraceAggregate>, t: string)
    requires Elements(TracesOf(all)) == TraceIds(AgentScores(db, agents, q))
    ensures (exists a | a in all :: a.trace == t) <==> exists k :: Asked(db, agents, q, k) && k.trace == t
  {
    var rows := AgentScores(db, agents, q);
    if a :| a in all && a.trace == t {
      var i :| 0 <= i < |all| && all[i] == a;
      assert TracesOf(all)[i] == t;
      assert t in Elements(TracesOf(all));
      var k :| k in rows && k.trace == t;
      assert Asked(db, agents, q, k);
    }
    if k :| Asked(db, agents, q, k) && k.trace == t {
      assert k in rows;
      assert t in Elements(TracesOf(all));
      var i :| 0 <= i < |TracesOf(all)| && TracesOf(all)[i] == t;
      assert all[i].trace == t;
    }
  }

  /**
   * The order of the listing: with "asc", in any mix of cases, earlier traces come first and
   * ties are broken by ascending ids; with any other text later traces come first and ties
   * are broken by descending ids.
   */
  lemma ListingOrder(db: ScoreDb, agents: map<Id, Agent>, q: Query, before: (string, string) -> bool, sortOrder: string, i: nat, j: nat)
    requires StrictTotal(before, TraceIds(AgentScores(db, agents, q)))
    requires i < j < |Listing(db, agents, q, before, sortOrder)|
    ensures var all := Listing(db, agents, q, before, sortOrder);
            if sortOrder in {"asc", "Asc", "aSc", "asC", "ASc", "AsC", "aSC", "ASC"}
            then all[i].start < all[j].start || (all[i].start == all[j].start && before(all[i].trace, all[j].trace))
            else all[j].start < all[i].start || (all[i].start == all[j].start && before(all[j].trace, all[i].trace))
  {
    var rows := AgentScores(db, agents, q);
    OrderIsTotal(db, rows, before, sortOrder);
    AscendingTexts(sortOrder);
    var all := Listing(db, agents, q, before, sortOrder);
    assert OrderBy(before, sortOrder)(all[i], all[j]);
  }

  lemma AscendingTexts(text: string)
    ensures SortsAscending(text) <==> text in {"asc", "Asc", "aSc", "asC", "ASc", "AsC", "aSC", "ASC"}
  {
    if SortsAscending(text) {
      assert text == [text[0], text[1], text[2]];
      assert text[0] in {'a', 'A'} && text[1] in {'s', 'S'} && text[2] in {'c', 'C'};
    }
  }

  /** A page holds the rows of the listing from its offset on, at most as many as its limit. */
  lemma PageRows(db: ScoreDb, agents: map<Id, Agent>, q: Query, before: (string, string) -> bool, sortOrder: string, limit: nat, offset: nat)
    requires StrictTotal(before, TraceIds(AgentScores(db, agents, q)))
    ensures var all := Listing(db, agents, q, before, sortOrder);
            var (page, total) := GetAgentTraceScores(db, agents, q, before, sortOrder, limit, offset);
            && total == |all|
            && |page| == (if offset >= |all| then 0 else if offset + limit >= |all| then |all| - offset else limit)
            && forall n | 0 <= n < |page| :: offset + n < |all| && page[n] == all[offset + n]
  {
    ListingTraces(db, agents, q, before, sortOrder);
    PageOf(Listing(db, agents, q, before, sortOrder), limit, offset);
  }

  lemma PageOf<T>(all: seq<T>, limit: nat, offset: nat)
    ensures var page := Page(all, limit, offset);
            && |page| == (if offset >= |all| then 0 else if offset + limit >= |all| then |all| - offset else limit)
            && forall n | 0 <= n < |page| :: offset + n < |all| && page[n] == all[offset + n]
  {
  }
}
