/**
 * The repositories as they run: statements that change the tables in place, inside
 * transactions that restore the tables on any error. Each method is proved equal to
 * the corresponding step of `Transactions`, so that runs of steps are runs of these methods.
 */
module Database {
  import opened Common
  import opened Tables
  import opened Transactions

  class Store {
    var artifacts: map<Id, Artifact>
    var gateways: map<Id, Gateway>
    var tokens: map<Id, Token>
    var mappings: set<Mapping>
    var associations: set<Association>
    var deployments: map<Id, Deployment>
    var statuses: map<Key, StatusRow>
    var providers: map<Id, string>
    var proxies: map<Id, Id>

    function Snapshot(): Db
      reads this
    {
      Db(artifacts, gateways, tokens, mappings, associations, deployments, statuses, providers, proxies)
    }

    /** What a method that ran transaction `o` on `before` leaves and reports. */
    ghost predicate Ran(before: Db, o: Outcome, error: Option<Error>)
      reads this
    {
      && Snapshot() == After(before, o)
      && error == (if o.Committed? then None else Some(o.error))
    }

    constructor ()
      ensures Snapshot() == EMPTY_DB
    {
      artifacts, gateways, tokens, mappings, associations := map[], map[], map[], {}, {};
      deployments, statuses, providers, proxies := map[], map[], map[], map[];
    }

    method Rollback(saved: Db)
      modifies this
      ensures Snapshot() == saved
    {
      artifacts, gateways, tokens := saved.artifacts, saved.gateways, saved.tokens;
      mappings, associations := saved.mappings, saved.associations;
      deployments, statuses := saved.deployments, saved.statuses;
      providers, proxies := saved.providers, saved.proxies;
    }

    // ---- Statements ---------------------------------------------------------------

    /** Deletes deployment rows with their cascades. */
    method DeleteDeploymentRows(gone: set<Id>)
      modifies this`deployments, this`statuses
      ensures Snapshot() == DropDeployments(old(Snapshot()), gone)
    {
      statuses := map k | k in statuses && statuses[k].deploymentId !in gone :: statuses[k];
      deployments := map id | id in deployments && id !in gone :: Detach(deployments[id], gone);
    }

    /** The eviction query: repeatedly takes an archived row no remaining one is older than. */
    method SelectOldestArchived(k: Key, n: nat) returns (ids: seq<Id>)
      ensures OldestArchived(Snapshot(), k, n, ids)
    {
      var rest := ArchivedOf(Snapshot(), k);
      ids := [];
      while |ids| < n && rest != {}
        invariant |ids| <= n
        invariant OldestFirst(Snapshot(), ArchivedOf(Snapshot(), k), ids, rest)
        decreases rest
      {
        var oldest := Oldest(rest);
        TakeOldest(Snapshot(), ArchivedOf(Snapshot(), k), ids, rest, oldest);
        ids, rest := ids + [oldest], rest - {oldest};
      }
    }

    method Oldest(candidates: set<Id>) returns (oldest: Id)
      requires candidates != {}
      ensures oldest in candidates
      ensures NoneOlder(Snapshot(), {oldest}, candidates)
    {
      oldest :| oldest in candidates;
      var rest := candidates - {oldest};
      while rest != {}
        invariant rest <= candidates && oldest in candidates
        invariant NoneOlder(Snapshot(), {oldest}, candidates - rest)
        decreases rest
      {
        var x :| x in rest;
        if CreatedAt(Snapshot(), x) < CreatedAt(Snapshot(), oldest) {
          oldest := x;
        }
        rest := rest - {x};
      }
    }

    /** Selects the eviction batch and deletes its rows one by one. */
    method EvictOldest(k: Key) returns (ghost victims: seq<Id>)
      modifies this`deployments, this`statuses
      ensures OldestArchived(old(Snapshot()), k, EVICTION_BATCH, victims)
      ensures Snapshot() == DropDeployments(old(Snapshot()), Elements(victims))
    {
      ghost var before := Snapshot();
      var ids := SelectOldestArchived(k, EVICTION_BATCH);
      DropNothing(before);
      for i := 0 to |ids|
        invariant Snapshot() == DropDeployments(before, Elements(ids[..i]))
      {
        DeleteDeploymentRows({ids[i]});
        DropDropsUnion(before, Elements(ids[..i]), {ids[i]});
        assert Elements(ids[..i]) + {ids[i]} == Elements(ids[..i + 1]);
      }
      assert ids[..|ids|] == ids;
      victims := ids;
    }

    method InsertDeployment(req: NewDeployment, createdAt: int) returns (error: Option<Error>)
      modifies this`deployments
      ensures error.None? <==> && req.id !in old(deployments)
                               && req.key.artifact in artifacts && req.key.gateway in gateways
                               && BaseResolves(old(Snapshot()), req)
      ensures error == None || error == Some(if req.id in old(deployments) then UniqueViolation else ForeignKeyViolation)
      ensures deployments == if error.None? then old(deployments)[req.id := RowOf(req, createdAt)] else old(deployments)
    {
      if req.id in deployments {
        return Some(UniqueViolation);
      }
      if req.key.artifact !in artifacts || req.key.gateway !in gateways || !BaseResolves(Snapshot(), req) {
        return Some(ForeignKeyViolation);
      }
      deployments := deployments[req.id := RowOf(req, createdAt)];
      return None;
    }

    /** INSERT ... ON CONFLICT (artifact, organization, gateway) DO UPDATE. */
    method UpsertStatus(k: Key, row: StatusRow) returns (error: Option<Error>)
      modifies this`statuses
      ensures var refs := k.artifact in artifacts && k.gateway in gateways && row.deploymentId in deployments;
              && error == (if !refs then Some(ForeignKeyViolation)
                           else if row.status == Archived then Some(CheckViolation) else None)
              && statuses == if error.None? then old(statuses)[k := row] else old(statuses)
    {
      if k.artifact !in artifacts || k.gateway !in gateways || row.deploymentId !in deployments {
        return Some(ForeignKeyViolation);
      }
      if row.status == Archived {
        return Some(CheckViolation);
      }
      statuses := statuses[k := row];
      return None;
    }

    // ---- DeploymentRepository -----------------------------------------------------------

    method CreateWithLimitEnforcement(req: NewDeployment, hardLimit: int, createdAt: int, updatedAt: int)
      returns (error: Option<Error>, ghost victims: seq<Id>)
      modifies this
      ensures LimitReached(old(Snapshot()), req.key, hardLimit) ==>
                OldestArchived(old(Snapshot()), req.key, 5, victims)
      ensures error.None? ==>
                && req.id in deployments && req.key in statuses
                && deployments[req.id] == Deployment(req.name, req.key, req.base, req.content, req.metadata, createdAt)
                && statuses[req.key] == StatusRow(req.id, if req.status.Some? then req.status.value else Deployed, updatedAt)
      ensures Ran(old(Snapshot()), Apply(old(Snapshot()), StepCreate(req, hardLimit, victims, createdAt, updatedAt)), error)
    {
      var saved := Snapshot();
      victims := [];
      var count := |DeploymentsOf(saved, req.key)|;
      if count >= hardLimit {
        victims := EvictOldest(req.key);
      }
      assert Snapshot() == AfterEviction(saved, req.key, hardLimit, victims);
      error := InsertDeployment(req, createdAt);
      if error.None? {
        error := UpsertStatus(req.key, StatusRow(req.id, InitialStatus(req), updatedAt));
      }
      if error.Some? {
        Rollback(saved);
      }
    }

    method DeleteDeployment(id: Id, artifact: Id, org: string) returns (error: Option<Error>)
      modifies this
      ensures Ran(old(Snapshot()), Apply(old(Snapshot()), StepDeleteDeployment(id, artifact, org)), error)
    {
      if id !in deployments || deployments[id].key.artifact != artifact || deployments[id].key.org != org {
        return Some(NotFound);
      }
      DeleteDeploymentRows({id});
      return None;
    }

    method SetCurrent(artifact: Option<Id>, org: string, gateway: Option<Id>, id: Option<Id>,
                      status: DeploymentStatus, updatedAt: int)
      returns (error: Option<Error>)
      modifies this`statuses
      ensures Ran(old(Snapshot()), Apply(old(Snapshot()), StepSetCurrent(artifact, org, gateway, id, status, updatedAt)), error)
    {
      if artifact.None? || gateway.None? || id.None? {
        return Some(InvalidUuid);
      }
      error := UpsertStatus(Key(artifact.value, org, gateway.value), StatusRow(id.value, status, updatedAt));
    }

    method UpdateStatusByDeploymentID(id: Id, gateway: Id, status: DeploymentStatus, updatedAt: int)
      returns (error: Option<Error>)
      modifies this`statuses
      ensures Ran(old(Snapshot()), Apply(old(Snapshot()), StepUpdateStatus(id, gateway, status, updatedAt)), error)
    {
      var hits := Acknowledged(Snapshot(), id, gateway);
      if hits == {} {
        return Some(NotFound);
      }
      if status == Archived {
        return Some(CheckViolation);
      }
      var todo := hits;
      while todo != {}
        invariant todo <= hits <= old(statuses).Keys
        invariant statuses.Keys == old(statuses).Keys
        invariant forall k | k in statuses :: statuses[k] ==
                    if k in hits - todo then old(statuses)[k].(status := status, updatedAt := updatedAt) else old(statuses)[k]
        decreases todo
      {
        var k :| k in todo;
        statuses := statuses[k := statuses[k].(status := status, updatedAt := updatedAt)];
        todo := todo - {k};
      }
      return None;
    }

    method DeleteStatus(k: Key)
      modifies this`statuses
      ensures Ran(old(Snapshot()), Apply(old(Snapshot()), StepDeleteStatus(k)), None)
    {
      statuses := map j | j in statuses && j != k :: statuses[j];
    }

    // ---- GatewayRepository -----------------------------------------------------------------

    /** Deletes a gateway row and, by cascade, the rows that reference it, deployments aside. */
    method DeleteGatewayRow(g: Id)
      modifies this`gateways, this`tokens, this`mappings, this`statuses
      ensures Snapshot() == RemoveGatewayRow(old(Snapshot()), g)
    {
      gateways := OtherGateways(gateways, g);
      tokens := TokensElsewhere(tokens, g);
      mappings := MappingsElsewhere(mappings, g);
      statuses := StatusesElsewhere(statuses, g);
    }

    /** Associations carry no foreign key to gateways, so they are deleted explicitly. */
    method DeleteGatewayAssociations(g: Id, org: string)
      modifies this`associations
      ensures Snapshot() == DropGatewayAssociations(old(Snapshot()), g, org)
    {
      associations := set a | a in associations && !(a.resource == g && a.kind == GatewayResource && a.org == org);
    }

    method DeleteGateway(g: Id, org: string) returns (error: Option<Error>)
      modifies this
      ensures Ran(old(Snapshot()), Apply(old(Snapshot()), StepDeleteGateway(g, org)), error)
    {
      var saved := Snapshot();
      DeleteGatewayAssociations(g, org);
      if g !in gateways || gateways[g].org != org {
        Rollback(saved);
        return Some(NotFound);
      }
      DeleteDeploymentRows(OnGateway(Snapshot(), g));
      DeleteGatewayRow(g);
      return None;
    }

    method CreateToken(t: Id, row: Token) returns (error: Option<Error>)
      modifies this`tokens
      ensures Ran(old(Snapshot()), Apply(old(Snapshot()), StepCreateToken(t, row)), error)
    {
      if t in tokens || (row.active && ActivePrefixTaken(Snapshot(), row.prefix)) {
        return Some(UniqueViolation);
      }
      if row.gateway !in gateways {
        return Some(ForeignKeyViolation);
      }
      if row.revokedAt.Some? && row.active {
        return Some(CheckViolation);
      }
      tokens := tokens[t := row];
      return None;
    }

    method RevokeToken(t: Id, now: int) returns (error: Option<Error>)
      modifies this`tokens
      ensures Ran(old(Snapshot()), Apply(old(Snapshot()), StepRevokeToken(t, now)), error)
    {
      if t !in tokens {
        return Some(NotFound);
      }
      tokens := tokens[t := tokens[t].(active := false, revokedAt := Some(now))];
      return None;
    }

    // ---- LLMProviderRepository -----------------------------------------------------------------

    method DeleteProviderRow(a: Id)
      modifies this`providers
      ensures Snapshot() == DropProviderRow(old(Snapshot()), a)
    {
      providers := map p | p in providers && p != a :: providers[p];
    }

    method DeleteProxyRow(a: Id)
      modifies this`proxies
      ensures Snapshot() == DropProxyRow(old(Snapshot()), a)
    {
      proxies := map p | p in proxies && p != a :: proxies[p];
    }

    /** Deletes an artifact row and, by cascade, the rows that reference it, deployments aside. */
    method DeleteArtifactRow(a: Id)
      modifies this
      ensures Snapshot() == RemoveArtifactRow(old(Snapshot()), a)
    {
      DeleteProviderRow(a);
      DeleteProxyRow(a);
      var t := Snapshot();
      artifacts := map b | b in t.artifacts && b != a :: t.artifacts[b];
      associations := set s | s in t.associations && s.artifact != a;
      statuses := map k | k in t.statuses && k.artifact != a :: t.statuses[k];
    }

    method CreateProvider(a: Id, row: Artifact, configuration: string) returns (error: Option<Error>)
      modifies this
      ensures Ran(old(Snapshot()), Apply(old(Snapshot()), StepCreateProvider(a, row, configuration)), error)
    {
      var saved := Snapshot();
      if ArtifactClashes(saved, a, row) {
        return Some(UniqueViolation);
      }
      artifacts := artifacts[a := row.(kind := LlmProvider)];
      if a in providers {
        Rollback(saved);
        return Some(UniqueViolation);
      }
      providers := providers[a := configuration];
      return None;
    }

    method UpdateProvider(id: Option<Id>, configuration: string) returns (error: Option<Error>)
      modifies this`providers
      ensures Ran(old(Snapshot()), Apply(old(Snapshot()), StepUpdateProvider(id, configuration)), error)
    {
      if id.None? {
        return Some(InvalidUuid);
      }
      if id.value !in providers {
        return Some(NotFound);
      }
      providers := providers[id.value := configuration];
      return None;
    }

    method DeleteProvider(id: Option<Id>, org: string) returns (error: Option<Error>)
      modifies this
      ensures Ran(old(Snapshot()), Apply(old(Snapshot()), StepDeleteProvider(id, org)), error)
    {
      if id.None? {
        return Some(InvalidUuid);
      }
      var a := id.value;
      if a !in artifacts || artifacts[a].org != org || artifacts[a].kind != LlmProvider {
        return Some(NotFound);
      }
      if a in providers && HasProxies(Snapshot(), a) {
        return Some(ProviderHasProxies);
      }
      DeleteProviderRow(a);
      DeleteDeploymentRows(OfArtifact(Snapshot(), a));
      DeleteArtifactRow(a);
      return None;
    }
  }

  /** `ids` are the oldest of `all` in order, `rest` the others. */
  ghost predicate OldestFirst(db: Db, all: set<Id>, ids: seq<Id>, rest: set<Id>) {
    && Distinct(ids)
    && rest == all - Elements(ids)
    && Elements(ids) <= all
    && |all| == |rest| + |ids|
    && InCreationOrder(db, ids)
    && NoneOlder(db, Elements(ids), rest)
  }

  lemma OrderSnoc(db: Db, ids: seq<Id>, last: Id)
    requires InCreationOrder(db, ids) && NoneOlder(db, Elements(ids), {last})
    ensures InCreationOrder(db, ids + [last])
  {
    forall i | 0 <= i < |ids| ensures CreatedAt(db, ids[i]) <= CreatedAt(db, last) {
      assert ids[i] in Elements(ids);
    }
  }

  lemma NoneOlderTake(db: Db, first: set<Id>, rest: set<Id>, oldest: Id)
    requires NoneOlder(db, first, rest) && NoneOlder(db, {oldest}, rest)
    ensures NoneOlder(db, first + {oldest}, rest - {oldest})
  {
  }

  lemma TakeOldest(db: Db, all: set<Id>, ids: seq<Id>, rest: set<Id>, oldest: Id)
    requires OldestFirst(db, all, ids, rest) && oldest in rest && NoneOlder(db, {oldest}, rest)
    ensures OldestFirst(db, all, ids + [oldest], rest - {oldest})
  {
    ElementsSnoc(ids, oldest);
    DistinctSnoc(ids, oldest);
    OrderSnoc(db, ids, oldest);
    NoneOlderTake(db, Elements(ids), rest, oldest);
    assert |rest| == |rest - {oldest}| + 1;
  }
}
