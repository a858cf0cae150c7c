/**
 * Which deployments the eviction query may and must choose, and so when a create from an
 * archived base is refused: conditions on the tables before the call, whatever the
 * database answers.
 */
module EvictionChoice {
  import opened Common
  import opened Ordering
  import opened Tables
  import opened Transactions
  import opened DeploymentLimits

  /** Archived deployments of the slot that are strictly older. */
  function Older(db: Db, k: Key, id: Id): set<Id> {
    set x | x in ArchivedOf(db, k) && CreatedAt(db, x) < CreatedAt(db, id)
  }

  /** The other archived deployments of the slot that are not newer. */
  function NotNewer(db: Db, k: Key, id: Id): set<Id> {
    set x | x in ArchivedOf(db, k) && x != id && CreatedAt(db, x) <= CreatedAt(db, id)
  }

  ghost predicate MayEvict(db: Db, k: Key, n: nat, id: Id) {
    exists victims :: OldestArchived(db, k, n, victims) && id in victims
  }

  ghost predicate MayKeep(db: Db, k: Key, n: nat, id: Id) {
    exists victims :: OldestArchived(db, k, n, victims) && id !in victims
  }

  // ---- Answers that prefer or avoid one deployment ---------------------------------------------------

  /** Among equally old deployments `id` comes first, or last. */
  function TieRank(id: Id, first: bool, x: Id): int {
    if x != id then 0 else if first then -1 else 1
  }

  predicate Sooner(db: Db, id: Id, first: bool, x: Id, y: Id) {
    || CreatedAt(db, x) < CreatedAt(db, y)
    || (CreatedAt(db, x) == CreatedAt(db, y)
        && (TieRank(id, first, x) < TieRank(id, first, y)
            || (TieRank(id, first, x) == TieRank(id, first, y) && x.value < y.value)))
  }

  function AgeOrder(db: Db, id: Id, first: bool): (Id, Id) -> bool {
    (x: Id, y: Id) => Sooner(db, id, first, x, y)
  }

  lemma AgeOrderIsTotal(db: Db, id: Id, first: bool, s: set<Id>)
    ensures StrictTotal(AgeOrder(db, id, first), s)
  {
  }

  /** The answer that sorts by age and breaks ties for or against `id`. */
  ghost function Answer(db: Db, k: Key, n: nat, id: Id, first: bool): seq<Id> {
    AgeOrderIsTotal(db, id, first, ArchivedOf(db, k));
    var r := Sorted(ArchivedOf(db, k), AgeOrder(db, id, first));
    r[..Min(n, |r|)]
  }

  lemma AnswerParts(all: seq<Id>, m: nat)
    requires m <= |all| && Distinct(all)
    ensures Distinct(all[..m]) && Elements(all[..m]) <= Elements(all)
    ensures forall y | y in Elements(all) - Elements(all[..m]) :: exists j :: m <= j < |all| && all[j] == y
  {
    assert forall i | 0 <= i < m :: all[i] in Elements(all[..m]) by {
      assert forall i | 0 <= i < m :: all[..m][i] == all[i];
    }
    forall y | y in Elements(all) - Elements(all[..m]) ensures exists j :: m <= j < |all| && all[j] == y {
      var j :| 0 <= j < |all| && all[j] == y;
    }
  }

  lemma SortedByAge(db: Db, id: Id, first: bool, all: seq<Id>)
    requires Increasing(all, AgeOrder(db, id, first))
    ensures InCreationOrder(db, all)
  {
    forall i, j | 0 <= i < j < |all| ensures CreatedAt(db, all[i]) <= CreatedAt(db, all[j]) {
      assert AgeOrder(db, id, first)(all[i], all[j]);
    }
  }

  lemma PrefixIsOldest(db: Db, all: seq<Id>, m: nat)
    requires m <= |all| && Distinct(all) && InCreationOrder(db, all)
    ensures NoneOlder(db, Elements(all[..m]), Elements(all) - Elements(all[..m]))
  {
    AnswerParts(all, m);
    forall x, y | x in Elements(all[..m]) && y in Elements(all) - Elements(all[..m]) ensures CreatedAt(db, x) <= CreatedAt(db, y) {
      var i :| 0 <= i < m && all[..m][i] == x;
      var j :| m <= j < |all| && all[j] == y;
      assert all[i] == x;
    }
  }

  lemma AnswerIsLegal(db: Db, k: Key, n: nat, id: Id, first: bool)
    ensures OldestArchived(db, k, n, Answer(db, k, n, id, first))
  {
    var archived, less := ArchivedOf(db, k), AgeOrder(db, id, first);
    AgeOrderIsTotal(db, id, first, archived);
    var all := Sorted(archived, less);
    DistinctCardinality(all);
    AnswerParts(all, Min(n, |all|));
    SortedByAge(db, id, first, all);
    PrefixIsOldest(db, all, Min(n, |all|));
  }

  lemma PositionInAnswer(db: Db, k: Key, id: Id, first: bool)
    ensures Position(ArchivedOf(db, k), AgeOrder(db, id, first), id) == |if first then Older(db, k, id) else NotNewer(db, k, id)|
  {
    PositionIs(ArchivedOf(db, k), AgeOrder(db, id, first), id, if first then Older(db, k, id) else NotNewer(db, k, id));
  }

  lemma AnswerHas(db: Db, k: Key, n: nat, id: Id, first: bool)
    requires id in ArchivedOf(db, k)
    ensures id in Answer(db, k, n, id, first) <==> |if first then Older(db, k, id) else NotNewer(db, k, id)| < n
  {
    AgeOrderIsTotal(db, id, first, ArchivedOf(db, k));
    AmongFirst(ArchivedOf(db, k), AgeOrder(db, id, first), n, id);
    PositionInAnswer(db, k, id, first);
  }

  // ---- May and must ------------------------------------------------------------------------------------

  lemma EvictedHasFewOlder(db: Db, k: Key, n: nat, victims: seq<Id>, id: Id)
    requires OldestArchived(db, k, n, victims) && id in victims
    ensures id in ArchivedOf(db, k) && |Older(db, k, id)| < n
  {
    var gone := Elements(victims);
    DistinctCardinality(victims);
    assert id in gone;
    assert forall y | y in ArchivedOf(db, k) - gone :: CreatedAt(db, id) <= CreatedAt(db, y);
    assert Older(db, k, id) <= gone - {id};
    SmallerSubset(Older(db, k, id), gone - {id});
  }

  lemma KeptHasManyNotNewer(db: Db, k: Key, n: nat, victims: seq<Id>, id: Id)
    requires OldestArchived(db, k, n, victims) && id !in victims && id in ArchivedOf(db, k)
    ensures |NotNewer(db, k, id)| >= n
  {
    var gone := Elements(victims);
    DistinctCardinality(victims);
    if |victims| < n {
      SubsetOfSameSize(gone, ArchivedOf(db, k));
      assert false;
    }
    forall x | x in gone ensures x in NotNewer(db, k, id) {
      assert id in ArchivedOf(db, k) - gone;
    }
    SmallerSubset(gone, NotNewer(db, k, id));
  }

  /** The query may choose a deployment iff it is archived and fewer than `n` archived ones of the slot are older. */
  lemma MayEvictIff(db: Db, k: Key, n: nat, id: Id)
    ensures MayEvict(db, k, n, id) <==> id in ArchivedOf(db, k) && |Older(db, k, id)| < n
  {
    if MayEvict(db, k, n, id) {
      var victims :| OldestArchived(db, k, n, victims) && id in victims;
      EvictedHasFewOlder(db, k, n, victims, id);
    }
    if id in ArchivedOf(db, k) && |Older(db, k, id)| < n {
      AnswerIsLegal(db, k, n, id, true);
      AnswerHas(db, k, n, id, true);
    }
  }

  /** The query may spare a deployment iff it is not archived or at least `n` other archived ones of the slot are not newer. */
  lemma MayKeepIff(db: Db, k: Key, n: nat, id: Id)
    ensures MayKeep(db, k, n, id) <==> id !in ArchivedOf(db, k) || |NotNewer(db, k, id)| >= n
  {
    AnswerIsLegal(db, k, n, id, false);
    if id !in ArchivedOf(db, k) {
      assert id !in Elements(Answer(db, k, n, id, false));
    } else {
      AnswerHas(db, k, n, id, false);
    }
    if MayKeep(db, k, n, id) && id in ArchivedOf(db, k) {
      var victims :| OldestArchived(db, k, n, victims) && id !in victims;
      KeptHasManyNotNewer(db, k, n, victims, id);
    }
  }

  // ---- Creating from an archived base ----------------------------------------------------------------------

  /** Nothing but the base can stand in the way of the create. */
  predicate OtherwiseFine(db: Db, req: NewDeployment) {
    && req.id !in db.deployments
    && req.key.artifact in db.artifacts && req.key.gateway in db.gateways
    && InitialStatus(req) != Archived
    && req.base.Some? && req.base.value != req.id && req.base.value in db.deployments
  }

  /**
   * A create at the limit whose base exists can be refused iff the base is archived in that
   * slot and fewer than five archived deployments of the slot are older than it.
   */
  lemma BaseMayBeRefusedIff(db: Db, req: NewDeployment, hardLimit: int, c: int, u: int)
    requires OtherwiseFine(db, req) && LimitReached(db, req.key, hardLimit)
    ensures (exists victims :: OldestArchived(db, req.key, EVICTION_BATCH, victims) && !Create(db, req, hardLimit, victims, c, u).Committed?)
            <==> req.base.value in ArchivedOf(db, req.key) && |Older(db, req.key, req.base.value)| < 5
  {
    forall victims ensures Create(db, req, hardLimit, victims, c, u).Committed? <==> req.base.value !in victims {
      CreateSucceedsIff(db, req, hardLimit, victims, c, u);
    }
    MayEvictIff(db, req.key, EVICTION_BATCH, req.base.value);
  }

  /** It can succeed iff the base is not archived in that slot or at least five other archived ones are not newer. */
  lemma BaseMayBeAcceptedIff(db: Db, req: NewDeployment, hardLimit: int, c: int, u: int)
    requires OtherwiseFine(db, req) && LimitReached(db, req.key, hardLimit)
    ensures (exists victims :: OldestArchived(db, req.key, EVICTION_BATCH, victims) && Create(db, req, hardLimit, victims, c, u).Committed?)
            <==> req.base.value !in ArchivedOf(db, req.key) || |NotNewer(db, req.key, req.base.value)| >= 5
  {
    forall victims ensures Create(db, req, hardLimit, victims, c, u).Committed? <==> req.base.value !in victims {
      CreateSucceedsIff(db, req, hardLimit, victims, c, u);
    }
    MayKeepIff(db, req.key, EVICTION_BATCH, req.base.value);
  }
}
