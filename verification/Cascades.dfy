/**
 * Deleting a gateway or a provider: the cascades remove exactly what the constraints
 * force them to remove.
 */
module Cascades {
  import opened Common
  import opened Tables
  import opened Transactions
  import opened DeploymentLimits

  /** Every row of `a` is a row of `b`, deployments up to a base that became NULL. */
  ghost predicate Within(a: Db, b: Db) {
    && RowsWithin(a, b)
    && DeploymentsWithin(a.deployments, b.deployments)
    && SubMap(a.statuses, b.statuses)
  }

  ghost predicate RowsWithin(a: Db, b: Db) {
    && SubMap(a.artifacts, b.artifacts)
    && SubMap(a.gateways, b.gateways)
    && SubMap(a.tokens, b.tokens)
    && a.mappings <= b.mappings
    && a.associations <= b.associations
    && SubMap(a.providers, b.providers)
    && SubMap(a.proxies, b.proxies)
  }

  ghost predicate DeploymentsWithin(a: map<Id, Deployment>, b: map<Id, Deployment>) {
    forall id | id in a :: id in b && SameRow(b[id], a[id])
  }

  ghost predicate SubMap<K, V>(a: map<K, V>, b: map<K, V>) {
    forall k | k in a :: k in b && b[k] == a[k]
  }

  /** Rows that avoid `gone`, bases and status rows included, survive the deletion of `gone`. */
  lemma SurvivesDrop(sub: Db, db: Db, gone: set<Id>)
    requires Consistent(sub) && Within(sub, db)
    requires sub.deployments.Keys !! gone
    ensures Within(sub, DropDeployments(db, gone))
  {
    var t := DropDeployments(db, gone);
    assert DeploymentsWithin(sub.deployments, t.deployments);
    assert SubMap(sub.statuses, t.statuses);
  }

  /** Deleting a gateway leaves the largest consistent part of the database without it. */
  lemma DropGatewayIsGreatest(sub: Db, db: Db, g: Id)
    requires Consistent(sub) && Within(sub, db) && g !in sub.gateways
    ensures Within(sub, DropGateway(db, g))
  {
    SurvivesDrop(sub, db, OnGateway(db, g));
    var t, u := DropDeployments(db, OnGateway(db, g)), DropGateway(db, g);
    assert SubMap(sub.gateways, u.gateways) && SubMap(sub.tokens, u.tokens);
    assert sub.mappings <= u.mappings;
    assert SubMap(sub.statuses, u.statuses);
  }

  lemma DropGatewayWithin(db: Db, g: Id)
    ensures Within(DropGateway(db, g), db)
  {
    DropWithin(db, OnGateway(db, g));
  }

  lemma DropWithin(db: Db, gone: set<Id>)
    ensures DeploymentsWithin(DropDeployments(db, gone).deployments, db.deployments)
    ensures SubMap(DropDeployments(db, gone).statuses, db.statuses)
  {
  }

  lemma DropArtifactWithin(db: Db, a: Id)
    ensures Within(DropArtifact(DropProviderRow(db, a), a), db)
  {
    DropWithin(DropProviderRow(db, a), OfArtifact(DropProviderRow(db, a), a));
  }

  /** Deleting an artifact leaves the largest consistent part of the database without it. */
  lemma DropArtifactIsGreatest(sub: Db, db: Db, a: Id)
    requires Consistent(sub) && Within(sub, db) && a !in sub.artifacts
    ensures Within(sub, DropArtifact(db, a))
  {
    SurvivesDrop(sub, db, OfArtifact(db, a));
    var u := DropArtifact(db, a);
    assert SubMap(sub.artifacts, u.artifacts) && sub.associations <= u.associations;
    assert SubMap(sub.providers, u.providers) && SubMap(sub.proxies, u.proxies);
    assert SubMap(sub.statuses, u.statuses);
  }

  /**
   * A gateway can be deleted iff it exists in the organization. The result is consistent,
   * has no trace of the gateway, and is the largest such database: nothing the
   * constraints do not force out is lost, the organization's own associations aside.
   */
  lemma DeleteGatewayContract(db: Db, g: Id, org: string)
    requires Consistent(db)
    ensures var o := DeleteGateway(db, g, org);
            && (o.Committed? <==> g in db.gateways && db.gateways[g].org == org)
            && (!o.Committed? ==> o == RolledBack(NotFound))
            && (o.Committed? ==>
                  && Consistent(o.db) && g !in o.db.gateways
                  && o.db.associations == (set a | a in db.associations && !(a.resource == g && a.kind == GatewayResource && a.org == org))
                  && Within(o.db, DropGatewayAssociations(db, g, org))
                  && (forall sub | Consistent(sub) && Within(sub, DropGatewayAssociations(db, g, org)) && g !in sub.gateways ::
                        Within(sub, o.db)))
  {
    var t := DropGatewayAssociations(db, g, org);
    DropGatewayConsistent(t, g);
    DropGatewayWithin(t, g);
    forall sub | Consistent(sub) && Within(sub, t) && g !in sub.gateways
      ensures Within(sub, DropGateway(t, g))
    {
      DropGatewayIsGreatest(sub, t, g);
    }
  }

  /**
   * A provider can be deleted iff it exists in the organization and no proxy references
   * it; the refusal says which of the two failed.
   */
  lemma DeleteProviderContract(db: Db, a: Id, org: string)
    requires Consistent(db)
    ensures var o := DeleteProvider(db, Some(a), org);
            var present := a in db.artifacts && db.artifacts[a].org == org && db.artifacts[a].kind == LlmProvider;
            && (o.Committed? <==> present && !HasProxies(db, a))
            && (present && HasProxies(db, a) ==> o == RolledBack(ProviderHasProxies))
            && (!present ==> o == RolledBack(NotFound))
            && (o.Committed? ==>
                  && Consistent(o.db) && a !in o.db.artifacts
                  && Within(o.db, db)
                  && (forall sub | Consistent(sub) && Within(sub, db) && a !in sub.artifacts :: Within(sub, o.db)))
  {
    var t := DropProviderRow(db, a);
    if a in db.artifacts && !HasProxies(db, a) {
      assert Consistent(t);
      DropArtifactConsistent(t, a);
      DropArtifactWithin(db, a);
      forall sub | Consistent(sub) && Within(sub, db) && a !in sub.artifacts
        ensures Within(sub, DropArtifact(t, a))
      {
        assert SubMap(sub.providers, t.providers);
        DropArtifactIsGreatest(sub, t, a);
      }
    }
  }

  // ---- What is left, table by table -------------------------------------------------------------------

  /** After a gateway is deleted exactly the rows that do not refer to it are left; its deployments go, and with them the status rows that name them. */
  lemma GatewayLeaves(db: Db, g: Id, org: string)
    requires DeleteGateway(db, g, org).Committed?
    ensures var t := DeleteGateway(db, g, org).db;
            && t.gateways.Keys == db.gateways.Keys - {g}
            && t.tokens.Keys == (set u | u in db.tokens && db.tokens[u].gateway != g)
            && t.mappings == (set m | m in db.mappings && m.gateway != g)
            && t.deployments.Keys == (set id | id in db.deployments && db.deployments[id].key.gateway != g)
            && t.statuses.Keys == (set k | k in db.statuses && k.gateway != g && !(db.statuses[k].deploymentId in db.deployments
                                                                                   && db.deployments[db.statuses[k].deploymentId].key.gateway == g))
            && t.artifacts == db.artifacts && t.providers == db.providers && t.proxies == db.proxies
  {
    var u := DropGatewayAssociations(db, g, org);
    GatewayRowsLeft(u, g);
  }

  lemma GatewayRowsLeft(db: Db, g: Id)
    ensures var t := DropGateway(db, g);
            && t.gateways.Keys == db.gateways.Keys - {g}
            && t.tokens.Keys == (set u | u in db.tokens && db.tokens[u].gateway != g)
            && t.mappings == (set m | m in db.mappings && m.gateway != g)
            && t.deployments.Keys == (set id | id in db.deployments && db.deployments[id].key.gateway != g)
            && t.statuses.Keys == (set k | k in db.statuses && k.gateway != g && !(db.statuses[k].deploymentId in db.deployments
                                                                                   && db.deployments[db.statuses[k].deploymentId].key.gateway == g))
            && t.artifacts == db.artifacts && t.providers == db.providers && t.proxies == db.proxies
  {
  }

  /** Every row that is left keeps its values. */
  lemma GatewayKeepsValues(db: Db, g: Id, org: string)
    requires DeleteGateway(db, g, org).Committed?
    ensures var t := DeleteGateway(db, g, org).db;
            && (forall h | h in t.gateways :: h in db.gateways && t.gateways[h] == db.gateways[h])
            && (forall u | u in t.tokens :: u in db.tokens && t.tokens[u] == db.tokens[u])
            && (forall k | k in t.statuses :: k in db.statuses && t.statuses[k] == db.statuses[k])
            && (forall id | id in t.deployments :: id in db.deployments && t.deployments[id].(base := None) == db.deployments[id].(base := None))
  {
  }

  /** After a provider is deleted exactly the rows that do not refer to its artifact are left, and they keep their values. */
  lemma ProviderLeaves(db: Db, a: Id, org: string)
    requires DeleteProvider(db, Some(a), org).Committed?
    ensures var t := DeleteProvider(db, Some(a), org).db;
            && t.artifacts.Keys == db.artifacts.Keys - {a} && t.providers.Keys == db.providers.Keys - {a} && t.proxies.Keys == db.proxies.Keys - {a}
            && t.associations == (set s | s in db.associations && s.artifact != a)
            && t.deployments.Keys == (set id | id in db.deployments && db.deployments[id].key.artifact != a)
            && t.statuses.Keys == (set k | k in db.statuses && k.artifact != a && !(db.statuses[k].deploymentId in db.deployments
                                                                                    && db.deployments[db.statuses[k].deploymentId].key.artifact == a))
            && t.gateways == db.gateways && t.tokens == db.tokens && t.mappings == db.mappings
  {
    ArtifactRowsLeft(DropProviderRow(db, a), a);
  }

  lemma ArtifactRowsLeft(db: Db, a: Id)
    ensures var t := DropArtifact(db, a);
            && t.artifacts.Keys == db.artifacts.Keys - {a} && t.providers.Keys == db.providers.Keys - {a} && t.proxies.Keys == db.proxies.Keys - {a}
            && t.associations == (set s | s in db.associations && s.artifact != a)
            && t.deployments.Keys == (set id | id in db.deployments && db.deployments[id].key.artifact != a)
            && t.statuses.Keys == (set k | k in db.statuses && k.artifact != a && !(db.statuses[k].deploymentId in db.deployments
                                                                                    && db.deployments[db.statuses[k].deploymentId].key.artifact == a))
            && t.gateways == db.gateways && t.tokens == db.tokens && t.mappings == db.mappings
  {
  }

  lemma ProviderKeepsValues(db: Db, a: Id, org: string)
    requires DeleteProvider(db, Some(a), org).Committed?
    ensures var t := DeleteProvider(db, Some(a), org).db;
            && (forall b | b in t.artifacts :: b in db.artifacts && t.artifacts[b] == db.artifacts[b])
            && (forall b | b in t.providers :: b in db.providers && t.providers[b] == db.providers[b])
            && (forall b | b in t.proxies :: b in db.proxies && t.proxies[b] == db.proxies[b])
            && (forall k | k in t.statuses :: k in db.statuses && t.statuses[k] == db.statuses[k])
            && (forall id | id in t.deployments :: id in db.deployments && t.deployments[id].(base := None) == db.deployments[id].(base := None))
  {
  }
}
