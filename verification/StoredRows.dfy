/**
 * What the calls of the deployment, gateway, provider and proxy repositories store, column
 * by column, in terms of their arguments and the tables before the call.
 */
module StoredRows {
  import opened Common
  import opened Tables
  import opened Transactions
  import opened Integrity
  import opened DeploymentLimits

  // ---- Deployments ------------------------------------------------------------------------------

  /** A deployment is archived iff the status row of its slot, if any, names another; else its state is that row's. */
  lemma StateMeaning(db: Db, id: Id)
    requires id in db.deployments
    ensures var k := db.deployments[id].key;
            && (k !in db.statuses ==> StateOf(db, id) == Archived)
            && (k in db.statuses ==> StateOf(db, id) == if db.statuses[k].deploymentId == id then db.statuses[k].status else Archived)
  {
  }

  /** The archived deployments of a slot are those that its status row does not name. */
  lemma ArchivedMeaning(db: Db, k: Key)
    ensures ArchivedOf(db, k) == set id | id in db.deployments && db.deployments[id].key == k && (k in db.statuses ==> db.statuses[k].deploymentId != id)
    ensures DeploymentsOf(db, k) == set id | id in db.deployments && db.deployments[id].key == k
  {
  }

  /**
   * A committed create stores the row as requested and makes it current with the requested
   * status, DEPLOYED when none is given.
   */
  lemma CreateStores(db: Db, req: NewDeployment, hardLimit: int, victims: seq<Id>, c: int, u: int)
    requires Create(db, req, hardLimit, victims, c, u).Committed?
    ensures var t := Create(db, req, hardLimit, victims, c, u).db;
            && req.id in t.deployments && req.key in t.statuses
            && var d := t.deployments[req.id];
            && d.name == req.name && d.key == req.key && d.base == req.base
            && d.content == req.content && d.metadata == req.metadata && d.createdAt == c
            && t.statuses[req.key].deploymentId == req.id && t.statuses[req.key].updatedAt == u
            && (req.status.Some? ==> t.statuses[req.key].status == req.status.value && StateOf(t, req.id) == req.status.value)
            && (req.status.None? ==> t.statuses[req.key].status == Deployed && StateOf(t, req.id) == Deployed)
  {
  }

  /** The rows that remain after a deletion are unchanged, except that bases which were deleted become NULL. */
  lemma RemainingRows(db: Db, gone: set<Id>)
    ensures var t := DropDeployments(db, gone);
            && (forall id :: id in t.deployments <==> id in db.deployments && id !in gone)
            && (forall id | id in t.deployments ::
                  && t.deployments[id].(base := None) == db.deployments[id].(base := None)
                  && t.deployments[id].base == if db.deployments[id].base.Some? && db.deployments[id].base.value in gone then None
                                               else db.deployments[id].base)
            && (forall k :: k in t.statuses <==> k in db.statuses && db.statuses[k].deploymentId !in gone)
            && (forall k | k in t.statuses :: t.statuses[k] == db.statuses[k])
  {
  }

  /** At the limit a create deletes min(5, archived) archived rows of its slot, none below it; other rows keep every column but a base among those. */
  lemma CreateDeletes(db: Db, req: NewDeployment, hardLimit: int, victims: seq<Id>, c: int, u: int, id: Id)
    requires KeysAgree(db)
    requires LimitReached(db, req.key, hardLimit) ==> OldestArchived(db, req.key, EVICTION_BATCH, victims)
    requires Create(db, req, hardLimit, victims, c, u).Committed?
    requires id in db.deployments && id != req.id
    ensures var t := Create(db, req, hardLimit, victims, c, u).db;
            var full := |DeploymentsOf(db, req.key)| >= hardLimit;
            && (id in t.deployments <==> !(full && id in victims))
            && (id in t.deployments ==>
                  t.deployments[id] == if db.deployments[id].base.Some? && full && db.deployments[id].base.value in victims
                                       then db.deployments[id].(base := None) else db.deployments[id])
            && (full ==> |victims| == if |ArchivedOf(db, req.key)| <= 5 then |ArchivedOf(db, req.key)| else 5)
  {
    RemainingRows(db, Elements(victims));
  }

  /** A committed `SetCurrent` stores exactly what it is given in exactly that slot. */
  lemma SetCurrentStores(db: Db, artifact: Id, org: string, gateway: Id, id: Id, status: DeploymentStatus, u: int)
    ensures var o := SetCurrent(db, Some(artifact), org, Some(gateway), Some(id), status, u);
            && (o.Committed? <==> artifact in db.artifacts && gateway in db.gateways && id in db.deployments && status != Archived)
            && (o.Committed? ==> o.db == db.(statuses := db.statuses[Key(artifact, org, gateway) := StatusRow(id, status, u)]))
  {
  }

  // ---- Gateways, tokens and mappings -----------------------------------------------------------------

  /** A gateway is created iff its id and its name in the organization are new. */
  lemma CreateGatewayContract(db: Db, g: Id, row: Gateway)
    ensures var o := Apply(db, StepCreateGateway(g, row));
            && (o.Committed? <==> g !in db.gateways && forall h | h in db.gateways :: !(db.gateways[h].org == row.org && db.gateways[h].name == row.name))
            && (o.Committed? ==> o.db == db.(gateways := db.gateways[g := row]))
  {
  }

  /** Creating a mapping and deleting it again gives back the tables; each happens iff the mapping is not, or is, there. */
  lemma MappingRoundTrip(db: Db, m: Mapping)
    requires m.gateway in db.gateways
    ensures var make, drop := StepCreateMapping(m), StepDeleteMapping(m);
            && (Apply(db, make).Committed? <==> m !in db.mappings)
            && (Apply(db, drop).Committed? <==> m in db.mappings)
            && (Apply(db, make).Committed? ==> m in Apply(db, make).db.mappings && Apply(Apply(db, make).db, drop) == Committed(db))
  {
  }

  /** Tokens are stored as given; revoking sets status and time and nothing else. */
  lemma TokenRows(db: Db, t: Id, row: Token, now: int)
    requires CreateToken(db, t, row).Committed?
    ensures var made := CreateToken(db, t, row).db;
            && made == db.(tokens := db.tokens[t := row])
            && RevokeToken(made, t, now) == Committed(db.(tokens := db.tokens[t := Token(row.gateway, row.prefix, false, Some(now))]))
  {
    var made := CreateToken(db, t, row).db;
    var revoked := Token(row.gateway, row.prefix, false, Some(now));
    assert made.tokens[t := revoked] == db.tokens[t := revoked];
  }

  // ---- Providers and proxies ---------------------------------------------------------------------------

  /** No artifact has the id, and none of the organization has the handle, or the name and version. */
  ghost predicate ArtifactIsNew(db: Db, a: Id, row: Artifact) {
    a !in db.artifacts && forall b | b in db.artifacts ::
      db.artifacts[b].org == row.org ==>
        db.artifacts[b].handle != row.handle && !(db.artifacts[b].name == row.name && db.artifacts[b].version == row.version)
  }

  lemma ClashMeaning(db: Db, a: Id, row: Artifact)
    ensures ArtifactClashes(db, a, row) <==> !ArtifactIsNew(db, a, row)
  {
  }

  /** A provider is created iff its artifact is new; it is stored as an LLM provider with its configuration. */
  lemma CreateProviderContract(db: Db, a: Id, row: Artifact, configuration: string)
    requires Consistent(db)
    ensures var o := CreateProvider(db, a, row, configuration);
            && (o.Committed? <==> ArtifactIsNew(db, a, row))
            && (o.Committed? ==>
                  o.db == db.(artifacts := db.artifacts[a := Artifact(row.handle, row.name, row.version, LlmProvider, row.org)],
                              providers := db.providers[a := configuration]))
  {
    ClashMeaning(db, a, row);
  }

  lemma NothingOfNewArtifact(db: Db, a: Id)
    requires Consistent(db) && a !in db.artifacts
    ensures a !in db.providers && a !in db.proxies && !HasProxies(db, a) && OfArtifact(db, a) == {}
    ensures forall k | k in db.statuses :: k.artifact != a
    ensures forall s | s in db.associations :: s.artifact != a
  {
    assert OfArtifact(db, a) == {};
  }

  lemma BareRow(db: Db, a: Id, row: Artifact)
    requires a !in db.artifacts
    ensures RemoveArtifactRow(db.(artifacts := db.artifacts[a := row]), a).artifacts == db.artifacts
  {
  }

  lemma BareOwners(db: Db, a: Id)
    requires a !in db.providers && a !in db.proxies
    ensures RemoveArtifactRow(db, a).providers == db.providers && RemoveArtifactRow(db, a).proxies == db.proxies
  {
  }

  lemma BareReferences(db: Db, a: Id)
    requires forall k | k in db.statuses :: k.artifact != a
    requires forall s | s in db.associations :: s.artifact != a
    ensures RemoveArtifactRow(db, a).statuses == db.statuses && RemoveArtifactRow(db, a).associations == db.associations
  {
  }

  /** Removing an artifact that nothing refers to removes only its own row. */
  lemma RemoveBareArtifact(db: Db, a: Id, row: Artifact)
    requires Consistent(db) && a !in db.artifacts
    ensures DropArtifact(db.(artifacts := db.artifacts[a := row]), a) == db
  {
    var made := db.(artifacts := db.artifacts[a := row]);
    NothingOfNewArtifact(db, a);
    assert OfArtifact(made, a) == OfArtifact(db, a);
    DropNothing(made);
    BareRow(db, a, row);
    BareOwners(made, a);
    BareReferences(made, a);
  }

  /** A provider that was just created can be deleted, which gives back the tables. */
  lemma ProviderRoundTrip(db: Db, a: Id, row: Artifact, configuration: string)
    requires Consistent(db) && CreateProvider(db, a, row, configuration).Committed?
    ensures DeleteProvider(CreateProvider(db, a, row, configuration).db, Some(a), row.org) == Committed(db)
  {
    CreateProviderContract(db, a, row, configuration);
    NothingOfNewArtifact(db, a);
    var made := CreateProvider(db, a, row, configuration).db;
    assert HasProxies(made, a) == HasProxies(db, a);
    assert DropProviderRow(made, a).providers == db.providers;
    RemoveBareArtifact(db, a, row.(kind := LlmProvider));
  }

  /** Updating a provider succeeds iff it exists, and replaces its configuration only. */
  lemma UpdateProviderContract(db: Db, a: Id, configuration: string)
    ensures var o := UpdateProvider(db, Some(a), configuration);
            && (o.Committed? <==> a in db.providers)
            && (o.Committed? ==> o.db == db.(providers := db.providers[a := configuration]))
  {
  }

  /** A proxy is created iff its artifact is new and its provider exists; it is stored as an LLM proxy of that provider. */
  lemma CreateProxyContract(db: Db, a: Id, row: Artifact, provider: Id)
    requires Consistent(db)
    ensures var o := Apply(db, StepCreateProxy(a, row, provider));
            && (o.Committed? <==> ArtifactIsNew(db, a, row) && provider in db.providers)
            && (o.Committed? ==>
                  o.db == db.(artifacts := db.artifacts[a := Artifact(row.handle, row.name, row.version, LlmProxy, row.org)],
                              proxies := db.proxies[a := provider]))
  {
    ClashMeaning(db, a, row);
  }

  /**
   * Moving a proxy to another provider succeeds iff both exist. From then on it is the new
   * provider that cannot be deleted, and the old one can if the proxy was its only one.
   */
  lemma UpdateProxyContract(db: Db, a: Id, org: string, provider: Id)
    ensures var o := Apply(db, StepUpdateProxy(a, org, provider));
            && (o.Committed? <==>
                  a in db.artifacts && db.artifacts[a].org == org && db.artifacts[a].kind == LlmProxy && a in db.proxies && provider in db.providers)
            && (o.Committed? ==>
                  && o.db == db.(proxies := db.proxies[a := provider])
                  && HasProxies(o.db, provider)
                  && (forall p | p != provider :: HasProxies(o.db, p) <==> exists q | q in db.proxies && q != a :: db.proxies[q] == p))
  {
    var o := UpdateProxy(db, a, org, provider);
    if o.Committed? {
      assert o.db.proxies[a] == provider;
      forall p | p != provider ensures HasProxies(o.db, p) <==> exists q | q in db.proxies && q != a :: db.proxies[q] == p {
        ProxiesAfterMove(db, o.db, a, provider, p);
      }
    }
  }

  lemma ProxiesAfterMove(db: Db, moved: Db, a: Id, provider: Id, p: Id)
    requires moved.proxies == db.proxies[a := provider] && p != provider
    ensures HasProxies(moved, p) <==> exists q | q in db.proxies && q != a :: db.proxies[q] == p
  {
    if HasProxies(moved, p) {
      var q :| q in moved.proxies && moved.proxies[q] == p;
      assert q in db.proxies && q != a && db.proxies[q] == p;
    }
    if q :| q in db.proxies && q != a && db.proxies[q] == p {
      assert moved.proxies[q] == p;
    }
  }

  /** A proxy is deleted iff it exists in the organization and is not at the same time a provider that another proxy uses. */
  lemma DeleteProxyContract(db: Db, a: Id, org: string)
    requires Consistent(db)
    ensures var o := Apply(db, StepDeleteProxy(a, org));
            && (o.Committed? <==>
                  && a in db.artifacts && db.artifacts[a].org == org && db.artifacts[a].kind == LlmProxy
                  && !(a in db.providers && exists q | q in db.proxies && q != a :: db.proxies[q] == a))
            && (o.Committed? ==>
                  && o.db.artifacts.Keys == db.artifacts.Keys - {a}
                  && o.db.proxies.Keys == db.proxies.Keys - {a}
                  && o.db.providers.Keys == db.providers.Keys - {a})
  {
    var t := DropProxyRow(db, a);
    OtherProxies(db, a);
    if DeleteProxy(db, a, org).Committed? {
      DropArtifactKeys(t, a);
    }
  }

  lemma OtherProxies(db: Db, a: Id)
    ensures HasProxies(DropProxyRow(db, a), a) <==> exists q | q in db.proxies && q != a :: db.proxies[q] == a
  {
    var t := DropProxyRow(db, a);
    if q :| q in db.proxies && q != a && db.proxies[q] == a {
      assert t.proxies[q] == a;
    }
  }

  lemma DropArtifactKeys(db: Db, a: Id)
    ensures var u := DropArtifact(db, a);
            && u.artifacts.Keys == db.artifacts.Keys - {a}
            && u.proxies.Keys == db.proxies.Keys - {a}
            && u.providers.Keys == db.providers.Keys - {a}
  {
  }

  // ---- The constraints, spelled out -----------------------------------------------------------------------

  /** What the constraints of the migrations mean for the rows. */
  lemma ConstraintsSpelledOut(db: Db)
    requires Consistent(db)
    ensures forall id | id in db.deployments ::
              && db.deployments[id].key.artifact in db.artifacts && db.deployments[id].key.gateway in db.gateways
              && (db.deployments[id].base.Some? ==> db.deployments[id].base.value in db.deployments)
    ensures forall k | k in db.statuses ::
              && k.artifact in db.artifacts && k.gateway in db.gateways
              && db.statuses[k].deploymentId in db.deployments
              && (db.statuses[k].status == Deployed || db.statuses[k].status == Undeployed)
    ensures forall t | t in db.tokens :: db.tokens[t].gateway in db.gateways && (db.tokens[t].revokedAt.Some? ==> !db.tokens[t].active)
    ensures forall t, u | t in db.tokens && u in db.tokens && db.tokens[t].active && db.tokens[u].active && t != u ::
              db.tokens[t].prefix != db.tokens[u].prefix
    ensures forall m | m in db.mappings :: m.gateway in db.gateways
    ensures forall s | s in db.associations :: s.artifact in db.artifacts
    ensures forall p | p in db.providers :: p in db.artifacts
    ensures forall p | p in db.proxies :: p in db.artifacts && db.proxies[p] in db.providers
    ensures forall a, b | a in db.artifacts && b in db.artifacts && a != b && db.artifacts[a].org == db.artifacts[b].org ::
              db.artifacts[a].handle != db.artifacts[b].handle
              && !(db.artifacts[a].name == db.artifacts[b].name && db.artifacts[a].version == db.artifacts[b].version)
    ensures forall g, h | g in db.gateways && h in db.gateways && g != h ::
              !(db.gateways[g].org == db.gateways[h].org && db.gateways[g].name == db.gateways[h].name)
  {
  }
}
