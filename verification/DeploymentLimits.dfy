/**
 * The life of deployments under limit enforcement: what eviction may remove, when
 * a create succeeds, how many rows a slot can hold, that base chains end, and
 * what a late acknowledgement can do.
 */
module DeploymentLimits {
  import opened Common
  import opened Tables
  import opened Transactions

  // ---- Eviction -----------------------------------------------------------------

  /** No status row names an archived deployment of its own slot, so none is lost. */
  lemma EvictionKeepsStatuses(db: Db, k: Key, gone: set<Id>)
    requires KeysAgree(db) && gone <= ArchivedOf(db, k)
    ensures DropDeployments(db, gone).statuses == db.statuses
  {
    assert forall j | j in db.statuses :: db.statuses[j].deploymentId !in ArchivedOf(db, k);
  }

  lemma EvictionArchived(db: Db, k: Key, gone: set<Id>)
    requires DropDeployments(db, gone).statuses == db.statuses
    ensures ArchivedOf(DropDeployments(db, gone), k) == ArchivedOf(db, k) - gone
  {
  }

  lemma EvictionSpares(db: Db, k: Key, gone: set<Id>, id: Id)
    requires KeysAgree(db) && gone <= ArchivedOf(db, k)
    requires id in db.deployments && (IsCurrent(db, id) || db.deployments[id].key != k)
    ensures var t := DropDeployments(db, gone); id in t.deployments && StateOf(t, id) == StateOf(db, id)
  {
    EvictionKeepsStatuses(db, k, gone);
    assert id !in ArchivedOf(db, k);
    SameSlotSameState(db, DropDeployments(db, gone), id);
  }

  /**
   * Evicting touches no status row, keeps the current deployment of the slot, keeps
   * every other slot, and takes the oldest archived rows first.
   */
  lemma EvictionSafe(db: Db, k: Key, victims: seq<Id>)
    requires KeysAgree(db) && OldestArchived(db, k, EVICTION_BATCH, victims)
    ensures var t := DropDeployments(db, Elements(victims));
            && t.statuses == db.statuses
            && t.deployments.Keys == db.deployments.Keys - Elements(victims)
            && (forall id | id in db.deployments && (IsCurrent(db, id) || db.deployments[id].key != k) ::
                  id in t.deployments && StateOf(t, id) == StateOf(db, id))
            && ArchivedOf(t, k) == ArchivedOf(db, k) - Elements(victims)
            && NoneOlder(db, Elements(victims), ArchivedOf(t, k))
            && (|victims| < 5 ==> ArchivedOf(t, k) == {})
  {
    var gone := Elements(victims);
    EvictionKeepsStatuses(db, k, gone);
    EvictionArchived(db, k, gone);
    forall id | id in db.deployments && (IsCurrent(db, id) || db.deployments[id].key != k)
      ensures var t := DropDeployments(db, gone); id in t.deployments && StateOf(t, id) == StateOf(db, id)
    {
      EvictionSpares(db, k, gone, id);
    }
    if |victims| < EVICTION_BATCH {
      DistinctCardinality(victims);
      SubsetOfSameSize(gone, ArchivedOf(db, k));
    }
  }

  lemma SubsetOfSameSize<T>(a: set<T>, b: set<T>)
    requires a <= b && |a| == |b|
    ensures a == b
  {
    assert b == a + (b - a);
    assert |b| == |a| + |b - a|;
  }

  // ---- The create contract ---------------------------------------------------------

  predicate Evicted(db: Db, k: Key, hardLimit: int, victims: seq<Id>, id: Id) {
    LimitReached(db, k, hardLimit) && id in victims
  }

  /** When a create commits, in terms of the tables before the transaction. */
  predicate CanCreate(db: Db, req: NewDeployment, hardLimit: int, victims: seq<Id>) {
    && (req.id in db.deployments ==> Evicted(db, req.key, hardLimit, victims, req.id))
    && req.key.artifact in db.artifacts
    && req.key.gateway in db.gateways
    && InitialStatus(req) != Archived
    && (req.base.Some? && req.base.value != req.id ==>
          req.base.value in db.deployments && !Evicted(db, req.key, hardLimit, victims, req.base.value))
  }

  lemma CreateSucceedsIff(db: Db, req: NewDeployment, hardLimit: int, victims: seq<Id>, c: int, u: int)
    ensures Create(db, req, hardLimit, victims, c, u).Committed? <==> CanCreate(db, req, hardLimit, victims)
    ensures var o := Create(db, req, hardLimit, victims, c, u);
            o.RolledBack? ==>
              && (o.error == UniqueViolation <==> req.id in db.deployments && !Evicted(db, req.key, hardLimit, victims, req.id))
              && o.error in {UniqueViolation, ForeignKeyViolation, CheckViolation}
              && (o.error == CheckViolation ==> InitialStatus(req) == Archived)
  {
    var t := AfterEviction(db, req.key, hardLimit, victims);
    assert t.artifacts == db.artifacts && t.gateways == db.gateways;
    assert forall id :: id in t.deployments <==>
                        id in db.deployments && !Evicted(db, req.key, hardLimit, victims, id);
  }

  function Gone(db: Db, k: Key, hardLimit: int, victims: seq<Id>): set<Id> {
    if LimitReached(db, k, hardLimit) then Elements(victims) else {}
  }

  /** The rows a committed create leaves: it adds one and removes the evicted ones. */
  lemma CreateRows(db: Db, req: NewDeployment, hardLimit: int, victims: seq<Id>, c: int, u: int)
    requires Create(db, req, hardLimit, victims, c, u).Committed?
    ensures var t := Create(db, req, hardLimit, victims, c, u).db;
            var gone := Gone(db, req.key, hardLimit, victims);
            && req.id !in db.deployments.Keys - gone
            && t.deployments.Keys == (db.deployments.Keys - gone) + {req.id}
            && t.deployments[req.id] == RowOf(req, c)
            && (forall id | id in db.deployments.Keys - gone :: SameRow(db.deployments[id], t.deployments[id]))
            && DeploymentsOf(t, req.key) == (DeploymentsOf(db, req.key) - gone) + {req.id}
  {
  }

  /** A committed create rewrites the status row of its own slot and no other. */
  lemma CreateStatuses(db: Db, req: NewDeployment, hardLimit: int, victims: seq<Id>, c: int, u: int)
    requires KeysAgree(db)
    requires LimitReached(db, req.key, hardLimit) ==> OldestArchived(db, req.key, EVICTION_BATCH, victims)
    requires Create(db, req, hardLimit, victims, c, u).Committed?
    ensures Create(db, req, hardLimit, victims, c, u).db.statuses
            == db.statuses[req.key := StatusRow(req.id, InitialStatus(req), u)]
    ensures Gone(db, req.key, hardLimit, victims) <= ArchivedOf(db, req.key)
  {
    if LimitReached(db, req.key, hardLimit) {
      EvictionSafe(db, req.key, victims);
    }
  }

  lemma OthersArchived(db: Db, k: Key)
    requires k in db.statuses
    ensures ArchivedOf(db, k) == DeploymentsOf(db, k) - {db.statuses[k].deploymentId}
  {
  }

  lemma SameSlotSameState(db: Db, t: Db, id: Id)
    requires id in db.deployments && id in t.deployments && t.deployments[id].key == db.deployments[id].key
    requires var k := db.deployments[id].key; (k in t.statuses <==> k in db.statuses) && (k in db.statuses ==> t.statuses[k] == db.statuses[k])
    ensures StateOf(t, id) == StateOf(db, id)
  {
  }

  /** A committed create makes its deployment the only current one of the slot. */
  lemma CreateEffect(db: Db, req: NewDeployment, hardLimit: int, victims: seq<Id>, c: int, u: int)
    requires KeysAgree(db)
    requires LimitReached(db, req.key, hardLimit) ==> OldestArchived(db, req.key, EVICTION_BATCH, victims)
    requires Create(db, req, hardLimit, victims, c, u).Committed?
    ensures var t := Create(db, req, hardLimit, victims, c, u).db;
            && req.id in t.deployments && StateOf(t, req.id) == InitialStatus(req)
            && ArchivedOf(t, req.key) == DeploymentsOf(db, req.key) - Gone(db, req.key, hardLimit, victims)
  {
    CreateRows(db, req, hardLimit, victims, c, u);
    CreateStatuses(db, req, hardLimit, victims, c, u);
    var t := Create(db, req, hardLimit, victims, c, u).db;
    OthersArchived(t, req.key);
  }

  /** Deployments of other slots stay and keep their states. */
  lemma CreateLeavesOtherSlots(db: Db, req: NewDeployment, hardLimit: int, victims: seq<Id>, c: int, u: int, id: Id)
    requires KeysAgree(db)
    requires LimitReached(db, req.key, hardLimit) ==> OldestArchived(db, req.key, EVICTION_BATCH, victims)
    requires Create(db, req, hardLimit, victims, c, u).Committed?
    requires id in db.deployments && db.deployments[id].key != req.key
    ensures var t := Create(db, req, hardLimit, victims, c, u).db;
            id in t.deployments && StateOf(t, id) == StateOf(db, id)
  {
    CreateRows(db, req, hardLimit, victims, c, u);
    CreateStatuses(db, req, hardLimit, victims, c, u);
    assert id !in ArchivedOf(db, req.key);
    assert id in db.deployments.Keys - Gone(db, req.key, hardLimit, victims);
    SameSlotSameState(db, Create(db, req, hardLimit, victims, c, u).db, id);
  }

  // ---- The count bound ------------------------------------------------------------------

  /** At most one deployment of a slot is not archived. */
  lemma AllButOneArchived(db: Db, k: Key)
    ensures |DeploymentsOf(db, k)| - 1 <= |ArchivedOf(db, k)| <= |DeploymentsOf(db, k)|
  {
    var all, archived := DeploymentsOf(db, k), ArchivedOf(db, k);
    if k in db.statuses && db.statuses[k].deploymentId in all {
      assert all == archived + {db.statuses[k].deploymentId};
    } else {
      assert all == archived;
    }
  }

  /** The exact number of rows a slot holds after a committed create. */
  lemma CountAfterCreate(db: Db, req: NewDeployment, hardLimit: int, victims: seq<Id>, c: int, u: int)
    requires LimitReached(db, req.key, hardLimit) ==> OldestArchived(db, req.key, EVICTION_BATCH, victims)
    requires Create(db, req, hardLimit, victims, c, u).Committed?
    ensures var n := |DeploymentsOf(db, req.key)|;
            var n' := |DeploymentsOf(Create(db, req, hardLimit, victims, c, u).db, req.key)|;
            && n' == n + 1 - (if n >= hardLimit then Min(|ArchivedOf(db, req.key)|, 5) else 0)
            && (n <= Max(hardLimit, 2) ==> n' <= Max(hardLimit, 2))
            && (n > Max(hardLimit, 2) ==> n' < n)
  {
    CreateRows(db, req, hardLimit, victims, c, u);
    AllButOneArchived(db, req.key);
    var gone := Gone(db, req.key, hardLimit, victims);
    if LimitReached(db, req.key, hardLimit) {
      DistinctCardinality(victims);
      assert gone <= ArchivedOf(db, req.key) <= DeploymentsOf(db, req.key);
    }
    SwapCount(DeploymentsOf(db, req.key), gone, req.id);
  }

  lemma SwapCount<T>(all: set<T>, gone: set<T>, x: T)
    requires gone <= all && x !in all - gone
    ensures |(all - gone) + {x}| == |all| - |gone| + 1
  {
    assert all == (all - gone) + gone;
    assert |all| == |all - gone| + |gone|;
  }

  /** Nothing else adds a row to a slot. */
  lemma CountOtherwise(db: Db, s: Step, k: Key)
    requires s.StepCreate? ==> s.req.key != k
    ensures |DeploymentsOf(After(db, Apply(db, s)), k)| <= |DeploymentsOf(db, k)|
  {
    var t := After(db, Apply(db, s));
    assert DeploymentsOf(t, k) <= DeploymentsOf(db, k) by {
      forall id | id in DeploymentsOf(t, k) ensures id in DeploymentsOf(db, k) {
        RowsAreImmutable(db, s, id);
      }
    }
    SmallerSubset(DeploymentsOf(t, k), DeploymentsOf(db, k));
  }

  lemma SmallerSubset<T>(a: set<T>, b: set<T>)
    requires a <= b
    ensures |a| <= |b|
  {
    assert b == a + (b - a);
  }

  // ---- Rows are immutable ------------------------------------------------------------------

  /** No field of a deployment row ever changes, except that its base can become NULL. */
  predicate SameRow(d: Deployment, e: Deployment) {
    e == d || e == d.(base := None)
  }

  /** What a call other than a create can do to the deployment table. */
  ghost predicate OnlyShrinks(before: map<Id, Deployment>, after: map<Id, Deployment>) {
    forall id | id in after :: id in before && SameRow(before[id], after[id])
  }

  lemma OtherCallsOnlyShrink(db: Db, s: Step)
    requires !s.StepCreate?
    ensures OnlyShrinks(db.deployments, After(db, Apply(db, s)).deployments)
  {
    if LeavesDeployments(s) {
      DeploymentsLeft(db, s);
    }
  }

  /** Any row present after a step was there before, or the step created it. */
  lemma RowsAreImmutable(db: Db, s: Step, id: Id)
    requires id in After(db, Apply(db, s)).deployments
    ensures || (s.StepCreate? && s.req.id == id && Apply(db, s).Committed?)
            || (id in db.deployments && SameRow(db.deployments[id], After(db, Apply(db, s)).deployments[id]))
  {
    if s.StepCreate? {
      if Apply(db, s).Committed? {
        CreateRows(db, s.req, s.hardLimit, s.victims, s.createdAt, s.updatedAt);
      }
    } else {
      OtherCallsOnlyShrink(db, s);
    }
  }

  // ---- Bases -------------------------------------------------------------------------------

  /** A deployment and its base belong to the same artifact and organization. */
  ghost predicate BasesAgree(d: map<Id, Deployment>) {
    forall id | id in d && d[id].base.Some? && d[id].base.value in d ::
      d[d[id].base.value].key.artifact == d[id].key.artifact && d[d[id].base.value].key.org == d[id].key.org
  }

  lemma ShrinkingKeepsBases(before: map<Id, Deployment>, after: map<Id, Deployment>)
    requires BasesAgree(before) && OnlyShrinks(before, after)
    ensures BasesAgree(after)
  {
    forall id | id in after && after[id].base.Some? && after[id].base.value in after
      ensures after[after[id].base.value].key.artifact == after[id].key.artifact
           && after[after[id].base.value].key.org == after[id].key.org
    {
      assert before[id].base == after[id].base;
      assert SameRow(before[after[id].base.value], after[after[id].base.value]);
    }
  }

  lemma InsertKeepsBases(db: Db, req: NewDeployment, c: int, u: int)
    requires Consistent(db) && BasesAgree(db.deployments) && Insert(db, req, c, u).Committed?
    requires req.base.Some? && req.base.value != req.id ==> Found(db, req.base.value, req.key.artifact, req.key.org)
    ensures BasesAgree(Insert(db, req, c, u).db.deployments)
  {
  }

  /** A create whose base is of the same artifact and organization keeps all bases so. */
  lemma CreateKeepsBases(db: Db, req: NewDeployment, hardLimit: int, victims: seq<Id>, c: int, u: int)
    requires Consistent(db) && BasesAgree(db.deployments)
    requires Create(db, req, hardLimit, victims, c, u).Committed?
    requires req.base.Some? ==> Found(db, req.base.value, req.key.artifact, req.key.org)
    ensures BasesAgree(Create(db, req, hardLimit, victims, c, u).db.deployments)
  {
    var e := AfterEviction(db, req.key, hardLimit, victims);
    DropDeploymentsConsistent(db, Elements(victims));
    ShrinkingKeepsBases(db.deployments, e.deployments);
    InsertKeepsBases(e, req, c, u);
  }

  // ---- Base chains ----------------------------------------------------------------------

  /** Following bases from `id` reaches a row without base in at most `n` hops. */
  ghost predicate EndsWithin(deployments: map<Id, Deployment>, id: Id, n: nat)
    decreases n
  {
    id in deployments && deployments[id].base.Some? ==>
      n > 0 && EndsWithin(deployments, deployments[id].base.value, n - 1)
  }

  ghost predicate ChainEnds(deployments: map<Id, Deployment>, id: Id) {
    exists n: nat :: EndsWithin(deployments, id, n)
  }

  ghost predicate ChainsEnd(deployments: map<Id, Deployment>) {
    forall id | id in deployments :: ChainEnds(deployments, id)
  }

  /** Removing rows and nulling bases only shortens chains. */
  lemma {:induction false} ShorterChain(d: map<Id, Deployment>, e: map<Id, Deployment>, id: Id, n: nat)
    requires forall x | x in e :: x in d && SameRow(d[x], e[x])
    requires EndsWithin(d, id, n)
    ensures EndsWithin(e, id, n)
    decreases n
  {
    if id in e && e[id].base.Some? {
      ShorterChain(d, e, d[id].base.value, n - 1);
    }
  }

  lemma ShorterChains(d: map<Id, Deployment>, e: map<Id, Deployment>)
    requires ChainsEnd(d)
    requires forall x | x in e :: x in d && SameRow(d[x], e[x])
    ensures ChainsEnd(e)
  {
    forall id | id in e ensures ChainEnds(e, id) {
      var n: nat :| EndsWithin(d, id, n);
      ShorterChain(d, e, id, n);
    }
  }

  /** A row no chain refers to can be added without changing the chains of the others. */
  lemma {:induction false} ChainAvoidsNewRow(d: map<Id, Deployment>, added: Id, row: Deployment, id: Id, n: nat)
    requires forall x | x in d && d[x].base.Some? :: d[x].base.value in d
    requires added !in d && id in d && EndsWithin(d, id, n)
    ensures EndsWithin(d[added := row], id, n)
    decreases n
  {
    if d[id].base.Some? {
      ChainAvoidsNewRow(d, added, row, d[id].base.value, n - 1);
    }
  }

  lemma {:induction false} SelfLoopNeverEnds(d: map<Id, Deployment>, id: Id, n: nat)
    requires id in d && d[id].base == Some(id)
    ensures !EndsWithin(d, id, n)
    decreases n
  {
    if n > 0 {
      SelfLoopNeverEnds(d, id, n - 1);
    }
  }

  /** A committed create keeps all chains finite exactly when it does not name itself as base. */
  lemma CreateKeepsChainsIff(db: Db, req: NewDeployment, hardLimit: int, victims: seq<Id>, c: int, u: int)
    requires Consistent(db) && ChainsEnd(db.deployments)
    requires Create(db, req, hardLimit, victims, c, u).Committed?
    ensures ChainsEnd(Create(db, req, hardLimit, victims, c, u).db.deployments) <==> req.base != Some(req.id)
  {
    var e := AfterEviction(db, req.key, hardLimit, victims);
    DropDeploymentsConsistent(db, Elements(victims));
    ShorterChains(db.deployments, e.deployments);
    InsertKeepsChainsIff(e, req, c, u);
  }

  lemma InsertKeepsChainsIff(db: Db, req: NewDeployment, c: int, u: int)
    requires Consistent(db) && ChainsEnd(db.deployments)
    requires Insert(db, req, c, u).Committed?
    ensures ChainsEnd(Insert(db, req, c, u).db.deployments) <==> req.base != Some(req.id)
  {
    var d := Insert(db, req, c, u).db.deployments;
    if req.base == Some(req.id) {
      forall n: nat ensures !EndsWithin(d, req.id, n) { SelfLoopNeverEnds(d, req.id, n); }
      assert req.id in d && !ChainEnds(d, req.id);
    } else {
      forall id | id in d ensures ChainEnds(d, id) {
        NewChainEnds(db.deployments, req.id, RowOf(req, c), id);
      }
    }
  }

  lemma NewChainEnds(e: map<Id, Deployment>, added: Id, row: Deployment, id: Id)
    requires ChainsEnd(e) && added !in e && row.base != Some(added)
    requires forall x | x in e && e[x].base.Some? :: e[x].base.value in e
    requires row.base.Some? ==> row.base.value in e
    requires id in e || id == added
    ensures ChainEnds(e[added := row], id)
  {
    var d := e[added := row];
    if id != added {
      var n: nat :| EndsWithin(e, id, n);
      ChainAvoidsNewRow(e, added, row, id, n);
    } else if row.base.Some? {
      var n: nat :| EndsWithin(e, row.base.value, n);
      ChainAvoidsNewRow(e, added, row, row.base.value, n);
      assert EndsWithin(d, id, n + 1);
    } else {
      assert EndsWithin(d, id, 0);
    }
  }

  /** Every other call keeps all chains finite. */
  lemma StepKeepsChains(db: Db, s: Step)
    requires Consistent(db) && ChainsEnd(db.deployments)
    requires s.StepCreate? ==> s.req.base != Some(s.req.id)
    ensures ChainsEnd(After(db, Apply(db, s)).deployments)
  {
    if s.StepCreate? {
      if Apply(db, s).Committed? {
        CreateKeepsChainsIff(db, s.req, s.hardLimit, s.victims, s.createdAt, s.updatedAt);
      }
    } else {
      forall x | x in After(db, Apply(db, s)).deployments { RowsAreImmutable(db, s, x); }
      ShorterChains(db.deployments, After(db, Apply(db, s)).deployments);
    }
  }

  // ---- Acknowledgements -------------------------------------------------------------------

  /** Whether `id` is what its slot currently points at, and that slot is on `gateway`. */
  predicate CurrentOn(db: Db, id: Id, gateway: Id) {
    id in db.deployments && IsCurrent(db, id) && db.deployments[id].key.gateway == gateway
  }

  /**
   * An acknowledgement commits iff the deployment is still current on that gateway;
   * it then rewrites status and time of that one slot and moves no current pointer.
   */
  lemma AcknowledgementEffect(db: Db, id: Id, gateway: Id, status: DeploymentStatus, now: int)
    requires KeysAgree(db)
    ensures var o := UpdateStatus(db, id, gateway, status, now);
            && (o.Committed? <==> CurrentOn(db, id, gateway) && status != Archived)
            && (o.Committed? ==>
                  && o.db == db.(statuses := db.statuses[db.deployments[id].key := StatusRow(id, status, now)])
                  && (forall d | d in db.deployments :: IsCurrent(o.db, d) == IsCurrent(db, d))
                  && (forall d | d in db.deployments && d != id :: StateOf(o.db, d) == StateOf(db, d)))
            && (!CurrentOn(db, id, gateway) ==> o == RolledBack(NotFound))
  {
    var hits := Acknowledged(db, id, gateway);
    if CurrentOn(db, id, gateway) {
      assert db.deployments[id].key in hits;
      assert forall k | k in hits :: k == db.deployments[id].key;
      var o := UpdateStatus(db, id, gateway, status, now);
      if o.Committed? {
        assert o.db.statuses == db.statuses[db.deployments[id].key := StatusRow(id, status, now)];
      }
    } else {
      assert hits == {};
    }
  }
}
