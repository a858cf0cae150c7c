/**
 * Every transaction keeps the declared constraints, and all but one keep the
 * undeclared one: `SetCurrent` does so exactly when the deployment was created
 * for the slot it is made current in.
 */
module Integrity {
  import opened Common
  import opened Tables
  import opened Transactions

  lemma InsertConsistent(db: Db, req: NewDeployment, createdAt: int, updatedAt: int)
    requires Consistent(db)
    ensures Consistent(After(db, Insert(db, req, createdAt, updatedAt)))
  {
    if Insert(db, req, createdAt, updatedAt).Committed? {
      var t := Insert(db, req, createdAt, updatedAt).db;
      assert t.deployments.Keys == db.deployments.Keys + {req.id};
      assert DeploymentRefs(t.deployments, db.artifacts.Keys, db.gateways.Keys);
      assert StatusRefs(t.statuses, db.artifacts.Keys, db.gateways.Keys, t.deployments.Keys);
    }
  }

  lemma CreateConsistent(db: Db, s: Step)
    requires Consistent(db) && s.StepCreate?
    ensures Consistent(After(db, Apply(db, s)))
  {
    DropDeploymentsConsistent(db, Elements(s.victims));
    InsertConsistent(AfterEviction(db, s.req.key, s.hardLimit, s.victims), s.req, s.createdAt, s.updatedAt);
  }

  lemma StatusesConsistent(db: Db, statuses: map<Key, StatusRow>)
    requires Consistent(db) && StatusRefs(statuses, db.artifacts.Keys, db.gateways.Keys, db.deployments.Keys)
    ensures Consistent(db.(statuses := statuses))
  {
  }

  lemma StatusStepRefs(db: Db, s: Step)
    requires StatusRefs(db.statuses, db.artifacts.Keys, db.gateways.Keys, db.deployments.Keys)
    requires s.StepSetCurrent? || s.StepUpdateStatus? || s.StepDeleteStatus?
    ensures var t := After(db, Apply(db, s));
            t == db.(statuses := t.statuses) && StatusRefs(t.statuses, db.artifacts.Keys, db.gateways.Keys, db.deployments.Keys)
  {
  }

  lemma StatusStepConsistent(db: Db, s: Step)
    requires Consistent(db) && (s.StepSetCurrent? || s.StepUpdateStatus? || s.StepDeleteStatus?)
    ensures Consistent(After(db, Apply(db, s)))
  {
    StatusStepRefs(db, s);
    StatusesConsistent(db, After(db, Apply(db, s)).statuses);
  }

  lemma TokensConsistent(db: Db, tokens: map<Id, Token>)
    requires Consistent(db) && TokenRefs(tokens, db.gateways.Keys) && TokensWellFormed(tokens)
    ensures Consistent(db.(tokens := tokens))
  {
  }

  lemma TokenStepConsistent(db: Db, s: Step)
    requires Consistent(db) && (s.StepCreateToken? || s.StepRevokeToken?)
    ensures Consistent(After(db, Apply(db, s)))
  {
    if Apply(db, s).Committed? {
      match s
      case StepCreateToken(t, row) =>
        NewTokenWellFormed(db, t, row);
        TokensConsistent(db, db.tokens[t := row]);
      case StepRevokeToken(t, now) =>
        var revoked := db.tokens[t].(active := false, revokedAt := Some(now));
        assert TokensWellFormed(db.tokens[t := revoked]);
        TokensConsistent(db, db.tokens[t := revoked]);
    }
  }

  lemma NewTokenWellFormed(db: Db, t: Id, row: Token)
    requires TokensWellFormed(db.tokens) && t !in db.tokens && (row.revokedAt.Some? ==> !row.active)
    requires row.active ==> !ActivePrefixTaken(db, row.prefix)
    ensures TokensWellFormed(db.tokens[t := row])
  {
  }

  lemma NewGatewayConsistent(db: Db, g: Id, row: Gateway)
    requires Consistent(db) && g !in db.gateways && row !in db.gateways.Values
    ensures Consistent(db.(gateways := db.gateways[g := row]))
  {
    var gateways := db.gateways[g := row];
    assert GatewaysUnique(gateways);
    assert gateways.Keys == db.gateways.Keys + {g};
    assert DeploymentRefs(db.deployments, db.artifacts.Keys, gateways.Keys);
    assert StatusRefs(db.statuses, db.artifacts.Keys, gateways.Keys, db.deployments.Keys);
  }

  lemma MappingsConsistent(db: Db, mappings: set<Mapping>)
    requires Consistent(db) && MappingRefs(mappings, db.gateways.Keys)
    ensures Consistent(db.(mappings := mappings))
  {
  }

  lemma GatewayStepConsistent(db: Db, s: Step)
    requires Consistent(db) && (s.StepCreateGateway? || s.StepCreateMapping? || s.StepDeleteMapping?)
    ensures Consistent(After(db, Apply(db, s)))
  {
    if Apply(db, s).Committed? {
      match s
      case StepCreateGateway(g, row) => NewGatewayConsistent(db, g, row);
      case StepCreateMapping(m) => MappingsConsistent(db, db.mappings + {m});
      case StepDeleteMapping(m) => MappingsConsistent(db, db.mappings - {m});
    }
  }

  lemma NewArtifactUnique(artifacts: map<Id, Artifact>, a: Id, row: Artifact, kind: Kind)
    requires ArtifactsUnique(artifacts) && a !in artifacts
    requires forall b | b in artifacts :: !Clash(artifacts[b], row)
    ensures ArtifactsUnique(artifacts[a := row.(kind := kind)])
  {
    assert forall b | b in artifacts :: Clash(artifacts[b], row.(kind := kind)) == Clash(artifacts[b], row);
  }

  lemma NewArtifactConsistent(db: Db, a: Id, row: Artifact, kind: Kind)
    requires Consistent(db) && !ArtifactClashes(db, a, row)
    ensures Consistent(db.(artifacts := db.artifacts[a := row.(kind := kind)]))
  {
    NewArtifactUnique(db.artifacts, a, row, kind);
    var artifacts := db.artifacts[a := row.(kind := kind)];
    assert artifacts.Keys == db.artifacts.Keys + {a};
    assert DeploymentRefs(db.deployments, artifacts.Keys, db.gateways.Keys);
    assert StatusRefs(db.statuses, artifacts.Keys, db.gateways.Keys, db.deployments.Keys);
  }

  lemma CreateProviderConsistent(db: Db, a: Id, row: Artifact, configuration: string)
    requires Consistent(db)
    ensures Consistent(After(db, CreateProvider(db, a, row, configuration)))
  {
    if !ArtifactClashes(db, a, row) {
      NewArtifactConsistent(db, a, row, LlmProvider);
    }
  }

  lemma CreateProxyConsistent(db: Db, a: Id, row: Artifact, provider: Id)
    requires Consistent(db)
    ensures Consistent(After(db, CreateProxy(db, a, row, provider)))
  {
    if !ArtifactClashes(db, a, row) {
      NewArtifactConsistent(db, a, row, LlmProxy);
    }
  }

  lemma ProvidersConsistent(db: Db, providers: map<Id, string>)
    requires Consistent(db) && providers.Keys == db.providers.Keys
    ensures Consistent(db.(providers := providers))
  {
  }

  lemma ProxiesConsistent(db: Db, proxies: map<Id, Id>)
    requires Consistent(db) && proxies.Keys <= db.artifacts.Keys && ProxyRefs(proxies, db.providers.Keys)
    ensures Consistent(db.(proxies := proxies))
  {
  }

  lemma UpdateConsistent(db: Db, s: Step)
    requires Consistent(db) && (s.StepUpdateProvider? || s.StepUpdateProxy?)
    ensures Consistent(After(db, Apply(db, s)))
  {
    if Apply(db, s).Committed? {
      match s
      case StepUpdateProvider(id, configuration) =>
        assert db.providers[id.value := configuration].Keys == db.providers.Keys;
        ProvidersConsistent(db, db.providers[id.value := configuration]);
      case StepUpdateProxy(a, _, provider) =>
        assert db.proxies[a := provider].Keys == db.proxies.Keys;
        ProxiesConsistent(db, db.proxies[a := provider]);
    }
  }

  lemma DropRowsConsistent(db: Db, a: Id)
    requires Consistent(db)
    ensures !HasProxies(db, a) ==> Consistent(DropProviderRow(db, a))
    ensures Consistent(DropProxyRow(db, a))
  {
    assert ProxyRefs(DropProxyRow(db, a).proxies, db.providers.Keys);
    assert !HasProxies(db, a) ==> ProxyRefs(db.proxies, DropProviderRow(db, a).providers.Keys);
  }

  lemma ProviderDeleteConsistent(db: Db, id: Option<Id>, org: string)
    requires Consistent(db)
    ensures Consistent(After(db, DeleteProvider(db, id, org)))
  {
    if DeleteProvider(db, id, org).Committed? {
      var t := DropProviderRow(db, id.value);
      assert id.value !in db.providers ==> !HasProxies(db, id.value);
      DropRowsConsistent(db, id.value);
      DropArtifactConsistent(t, id.value);
    }
  }

  lemma ProxyDeleteConsistent(db: Db, a: Id, org: string)
    requires Consistent(db)
    ensures Consistent(After(db, DeleteProxy(db, a, org)))
  {
    if DeleteProxy(db, a, org).Committed? {
      var t := DropProxyRow(db, a);
      DropRowsConsistent(db, a);
      assert a !in t.providers ==> !HasProxies(t, a);
      DropArtifactConsistent(t, a);
    }
  }

  lemma ArtifactDeleteConsistent(db: Db, s: Step)
    requires Consistent(db) && (s.StepDeleteProvider? || s.StepDeleteProxy?)
    ensures Consistent(After(db, Apply(db, s)))
  {
    match s
    case StepDeleteProvider(id, org) => ProviderDeleteConsistent(db, id, org);
    case StepDeleteProxy(a, org) => ProxyDeleteConsistent(db, a, org);
  }

  /** Any call, committed or rolled back, keeps every declared constraint. */
  lemma StepConsistent(db: Db, s: Step)
    requires Consistent(db)
    ensures Consistent(After(db, Apply(db, s)))
  {
    match s
    case StepCreate(_, _, _, _, _) => CreateConsistent(db, s);
    case StepDeleteDeployment(id, _, _) => DropDeploymentsConsistent(db, {id});
    case StepSetCurrent(_, _, _, _, _, _) => StatusStepConsistent(db, s);
    case StepUpdateStatus(_, _, _, _) => StatusStepConsistent(db, s);
    case StepDeleteStatus(_) => StatusStepConsistent(db, s);
    case StepDeleteGateway(g, org) => DropGatewayConsistent(DropGatewayAssociations(db, g, org), g);
    case StepCreateProvider(a, row, configuration) => CreateProviderConsistent(db, a, row, configuration);
    case StepCreateProxy(a, row, provider) => CreateProxyConsistent(db, a, row, provider);
    case StepUpdateProvider(_, _) => UpdateConsistent(db, s);
    case StepUpdateProxy(_, _, _) => UpdateConsistent(db, s);
    case StepDeleteProvider(_, _) => ArtifactDeleteConsistent(db, s);
    case StepDeleteProxy(_, _) => ArtifactDeleteConsistent(db, s);
    case StepCreateToken(_, _) => TokenStepConsistent(db, s);
    case StepRevokeToken(_, _) => TokenStepConsistent(db, s);
    case _ => GatewayStepConsistent(db, s);
  }

  lemma RowDeleteKeysAgree(db: Db, s: Step)
    requires KeysAgree(db) && (s.StepDeleteGateway? || s.StepDeleteProvider? || s.StepDeleteProxy?)
    ensures KeysAgree(After(db, Apply(db, s)))
  {
    match s
    case StepDeleteGateway(g, org) => DropKeepsKeysAgree(DropGatewayAssociations(db, g, org), OnGateway(db, g));
    case StepDeleteProvider(id, _) =>
      if id.Some? { DropKeepsKeysAgree(DropProviderRow(db, id.value), OfArtifact(db, id.value)); }
    case StepDeleteProxy(a, _) => DropKeepsKeysAgree(DropProxyRow(db, a), OfArtifact(db, a));
  }

  lemma StatusStepKeysAgree(db: Db, s: Step)
    requires KeysAgree(db) && (s.StepUpdateStatus? || s.StepDeleteStatus?)
    ensures KeysAgree(After(db, Apply(db, s)))
  {
  }

  lemma CreateKeysAgree(db: Db, req: NewDeployment, hardLimit: int, victims: seq<Id>, c: int, u: int)
    requires KeysAgree(db)
    ensures KeysAgree(After(db, Create(db, req, hardLimit, victims, c, u)))
  {
    DropKeepsKeysAgree(db, Elements(victims));
  }

  /** Any call but an unguarded `SetCurrent` keeps every slot pointing at its own deployment. */
  lemma StepKeysAgree(db: Db, s: Step)
    requires KeysAgree(db) && !s.StepSetCurrent?
    ensures KeysAgree(After(db, Apply(db, s)))
  {
    if LeavesDeployments(s) {
      DeploymentsLeft(db, s);
    } else if s.StepCreate? {
      CreateKeysAgree(db, s.req, s.hardLimit, s.victims, s.createdAt, s.updatedAt);
    } else if s.StepDeleteDeployment? {
      DropKeepsKeysAgree(db, {s.id});
    } else if s.StepUpdateStatus? || s.StepDeleteStatus? {
      StatusStepKeysAgree(db, s);
    } else {
      RowDeleteKeysAgree(db, s);
    }
  }

  /** The guard the callers of `SetCurrent` evaluate before the write. */
  predicate CreatedFor(db: Db, id: Id, k: Key) {
    id in db.deployments && db.deployments[id].key == k
  }

  /** A committed `SetCurrent` keeps slots and deployments in agreement iff its guard holds. */
  lemma SetCurrentGuardExact(db: Db, artifact: Id, org: string, gateway: Id, id: Id,
                             status: DeploymentStatus, updatedAt: int)
    requires KeysAgree(db)
    requires SetCurrent(db, Some(artifact), org, Some(gateway), Some(id), status, updatedAt).Committed?
    ensures var t := SetCurrent(db, Some(artifact), org, Some(gateway), Some(id), status, updatedAt).db;
            KeysAgree(t) <==> CreatedFor(db, id, Key(artifact, org, gateway))
  {
    var t := SetCurrent(db, Some(artifact), org, Some(gateway), Some(id), status, updatedAt).db;
    assert Key(artifact, org, gateway) in t.statuses;
  }

  /** Without the guard one call is enough to make a slot point at another slot's deployment. */
  lemma SetCurrentUnguardedFails()
    ensures exists db, id ::
      && Consistent(db) && KeysAgree(db)
      && SetCurrent(db, Some(Uuid(1)), "o", Some(Uuid(3)), Some(id), Deployed, 0).Committed?
      && !KeysAgree(SetCurrent(db, Some(Uuid(1)), "o", Some(Uuid(3)), Some(id), Deployed, 0).db)
  {
    var a := Artifact("h", "n", "v1", LlmProvider, "o");
    var d := Deployment("d", Key(Uuid(1), "o", Uuid(2)), None, "", "", 0);
    var db := Db(map[Uuid(1) := a], map[Uuid(2) := Gateway("o", "g2"), Uuid(3) := Gateway("o", "g3")], map[], {}, {},
                 map[Uuid(7) := d], map[Key(Uuid(1), "o", Uuid(2)) := StatusRow(Uuid(7), Deployed, 0)], map[Uuid(1) := ""], map[]);
    assert Consistent(db) && KeysAgree(db);
    SetCurrentGuardExact(db, Uuid(1), "o", Uuid(3), Uuid(7), Deployed, 0);
    assert !CreatedFor(db, Uuid(7), Key(Uuid(1), "o", Uuid(3)));
  }
}
