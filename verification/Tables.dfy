/**
 * The relational tables behind the deployment, gateway and LLM repositories,
 * with the constraints their migrations declare.
 */
module Tables {
  import opened Common

  /** Identifies one slot: an artifact of an organization on a gateway. */
  datatype Key = Key(artifact: Id, org: string, gateway: Id)

  /** `Archived` is derived: a deployment is archived when no status row names it. */
  datatype DeploymentStatus = Deployed | Undeployed | Archived

  datatype Deployment = Deployment(name: string, key: Key, base: Option<Id>,
                                   content: string, metadata: string, createdAt: int)

  datatype StatusRow = StatusRow(deploymentId: Id, status: DeploymentStatus, updatedAt: int)

  datatype Kind = LlmProvider | LlmProxy | OtherKind

  datatype Artifact = Artifact(handle: string, name: string, version: string, kind: Kind, org: string)

  datatype Gateway = Gateway(org: string, name: string)

  datatype Token = Token(gateway: Id, prefix: string, active: bool, revokedAt: Option<int>)

  datatype Mapping = Mapping(gateway: Id, environment: Id)

  datatype ResourceType = GatewayResource | DevPortalResource

  datatype Association = Association(artifact: Id, org: string, resource: Id, kind: ResourceType)

  datatype Db = Db(artifacts: map<Id, Artifact>,
                   gateways: map<Id, Gateway>,
                   tokens: map<Id, Token>,
                   mappings: set<Mapping>,
                   associations: set<Association>,
                   deployments: map<Id, Deployment>,
                   statuses: map<Key, StatusRow>,
                   providers: map<Id, string>,
                   proxies: map<Id, Id>)

  const EMPTY_DB := Db(map[], map[], map[], {}, {}, map[], map[], map[], map[])

  // ---- Declared constraints ---------------------------------------------------

  ghost predicate DeploymentRefs(deployments: map<Id, Deployment>, artifacts: set<Id>, gateways: set<Id>) {
    forall id | id in deployments ::
      && deployments[id].key.artifact in artifacts
      && deployments[id].key.gateway in gateways
      && (deployments[id].base.Some? ==> deployments[id].base.value in deployments)
  }

  ghost predicate StatusRefs(statuses: map<Key, StatusRow>, artifacts: set<Id>, gateways: set<Id>, deployments: set<Id>) {
    forall k | k in statuses ::
      && k.artifact in artifacts
      && k.gateway in gateways
      && statuses[k].deploymentId in deployments
      && statuses[k].status != Archived
  }

  ghost predicate TokenRefs(tokens: map<Id, Token>, gateways: set<Id>) {
    forall t | t in tokens :: tokens[t].gateway in gateways
  }

  ghost predicate MappingRefs(mappings: set<Mapping>, gateways: set<Id>) {
    forall m | m in mappings :: m.gateway in gateways
  }

  ghost predicate AssociationRefs(associations: set<Association>, artifacts: set<Id>) {
    forall a | a in associations :: a.artifact in artifacts
  }

  ghost predicate ProxyRefs(proxies: map<Id, Id>, providers: set<Id>) {
    forall p | p in proxies :: proxies[p] in providers
  }

  ghost predicate TokensWellFormed(tokens: map<Id, Token>) {
    && (forall t | t in tokens :: tokens[t].revokedAt.Some? ==> !tokens[t].active)
    && (forall t, u | t in tokens && u in tokens ::
          tokens[t].active && tokens[u].active && tokens[t].prefix == tokens[u].prefix ==> t == u)
  }

  predicate SameHandle(a: Artifact, b: Artifact) {
    a.handle == b.handle && a.org == b.org
  }

  predicate SameName(a: Artifact, b: Artifact) {
    a.name == b.name && a.version == b.version && a.org == b.org
  }

  predicate Clash(a: Artifact, b: Artifact) {
    SameHandle(a, b) || SameName(a, b)
  }

  ghost predicate ArtifactsUnique(artifacts: map<Id, Artifact>) {
    forall a, b | a in artifacts && b in artifacts :: Clash(artifacts[a], artifacts[b]) ==> a == b
  }

  ghost predicate GatewaysUnique(gateways: map<Id, Gateway>) {
    forall g, h | g in gateways && h in gateways :: gateways[g] == gateways[h] ==> g == h
  }

  /** Every primary-key, foreign-key, unique and check constraint of the migrations holds. */
  ghost predicate Consistent(db: Db) {
    && DeploymentRefs(db.deployments, db.artifacts.Keys, db.gateways.Keys)
    && StatusRefs(db.statuses, db.artifacts.Keys, db.gateways.Keys, db.deployments.Keys)
    && TokenRefs(db.tokens, db.gateways.Keys)
    && MappingRefs(db.mappings, db.gateways.Keys)
    && AssociationRefs(db.associations, db.artifacts.Keys)
    && db.providers.Keys <= db.artifacts.Keys
    && db.proxies.Keys <= db.artifacts.Keys
    && ProxyRefs(db.proxies, db.providers.Keys)
    && TokensWellFormed(db.tokens)
    && ArtifactsUnique(db.artifacts)
    && GatewaysUnique(db.gateways)
  }

  /**
   * What no constraint declares but the service relies on: the deployment a status
   * row names was created for exactly that slot.
   */
  ghost predicate KeysAgree(db: Db) {
    SlotsAgree(db.statuses, db.deployments)
  }

  ghost predicate SlotsAgree(statuses: map<Key, StatusRow>, deployments: map<Id, Deployment>) {
    forall k | k in statuses ::
      statuses[k].deploymentId in deployments && deployments[statuses[k].deploymentId].key == k
  }

  // ---- Derived views ----------------------------------------------------------

  predicate IsCurrent(db: Db, id: Id)
    requires id in db.deployments
  {
    var k := db.deployments[id].key;
    k in db.statuses && db.statuses[k].deploymentId == id
  }

  /** The state a reader sees after the LEFT JOIN with the status table. */
  function StateOf(db: Db, id: Id): DeploymentStatus
    requires id in db.deployments
  {
    if IsCurrent(db, id) then db.statuses[db.deployments[id].key].status else Archived
  }

  /** What the lookups by deployment, artifact and organization find. */
  predicate Found(db: Db, id: Id, artifact: Id, org: string) {
    id in db.deployments && db.deployments[id].key.artifact == artifact && db.deployments[id].key.org == org
  }

  function CreatedAt(db: Db, id: Id): int {
    if id in db.deployments then db.deployments[id].createdAt else 0
  }

  function DeploymentsOf(db: Db, k: Key): set<Id> {
    set id | id in db.deployments && db.deployments[id].key == k
  }

  function ArchivedOf(db: Db, k: Key): set<Id> {
    set id | id in db.deployments && db.deployments[id].key == k && !IsCurrent(db, id)
  }

  // ---- Cascades ---------------------------------------------------------------

  function Detach(d: Deployment, gone: set<Id>): Deployment {
    if d.base.Some? && d.base.value in gone then d.(base := None) else d
  }

  /**
   * Deleting deployment rows: bases that point at them become NULL and status rows
   * that name them go too.
   */
  function DropDeployments(db: Db, gone: set<Id>): Db {
    db.(deployments := map id | id in db.deployments && id !in gone :: Detach(db.deployments[id], gone),
        statuses := map k | k in db.statuses && db.statuses[k].deploymentId !in gone :: db.statuses[k])
  }

  function OnGateway(db: Db, g: Id): set<Id> {
    set id | id in db.deployments && db.deployments[id].key.gateway == g
  }

  function OfArtifact(db: Db, a: Id): set<Id> {
    set id | id in db.deployments && db.deployments[id].key.artifact == a
  }

  function OtherGateways(gateways: map<Id, Gateway>, g: Id): map<Id, Gateway> {
    map h | h in gateways && h != g :: gateways[h]
  }

  function TokensElsewhere(tokens: map<Id, Token>, g: Id): map<Id, Token> {
    map t | t in tokens && tokens[t].gateway != g :: tokens[t]
  }

  function MappingsElsewhere(mappings: set<Mapping>, g: Id): set<Mapping> {
    set m | m in mappings && m.gateway != g
  }

  function StatusesElsewhere(statuses: map<Key, StatusRow>, g: Id): map<Key, StatusRow> {
    map k | k in statuses && k.gateway != g :: statuses[k]
  }

  /** Removes a gateway row and the rows that reference it, deployments aside. */
  function RemoveGatewayRow(db: Db, g: Id): Db {
    db.(gateways := OtherGateways(db.gateways, g),
        tokens := TokensElsewhere(db.tokens, g),
        mappings := MappingsElsewhere(db.mappings, g),
        statuses := StatusesElsewhere(db.statuses, g))
  }

  /** Deleting a gateway row with everything that references it. */
  function DropGateway(db: Db, g: Id): Db {
    RemoveGatewayRow(DropDeployments(db, OnGateway(db, g)), g)
  }

  /** ON DELETE RESTRICT: a provider row cannot go while a proxy references it. */
  predicate HasProxies(db: Db, provider: Id) {
    exists p | p in db.proxies :: db.proxies[p] == provider
  }

  function DropProviderRow(db: Db, a: Id): Db {
    db.(providers := map p | p in db.providers && p != a :: db.providers[p])
  }

  function DropProxyRow(db: Db, a: Id): Db {
    db.(proxies := map p | p in db.proxies && p != a :: db.proxies[p])
  }

  /** Removes an artifact row and the rows that reference it, deployments aside. */
  function RemoveArtifactRow(db: Db, a: Id): Db {
    var t := DropProxyRow(DropProviderRow(db, a), a);
    t.(artifacts := map b | b in t.artifacts && b != a :: t.artifacts[b],
       associations := (set s | s in t.associations && s.artifact != a),
       statuses := map k | k in t.statuses && k.artifact != a :: t.statuses[k])
  }

  /** Deleting an artifact row with everything that references it, provider and proxy rows included. */
  function DropArtifact(db: Db, a: Id): Db {
    RemoveArtifactRow(DropDeployments(db, OfArtifact(db, a)), a)
  }

  // ---- Cascades keep the constraints ------------------------------------------

  lemma DropDeploymentsConsistent(db: Db, gone: set<Id>)
    requires Consistent(db)
    ensures Consistent(DropDeployments(db, gone))
  {
    var t := DropDeployments(db, gone);
    assert DeploymentRefs(t.deployments, t.artifacts.Keys, t.gateways.Keys);
    assert StatusRefs(t.statuses, t.artifacts.Keys, t.gateways.Keys, t.deployments.Keys);
  }

  lemma RemoveGatewayRowConsistent(db: Db, g: Id)
    requires Consistent(db) && OnGateway(db, g) == {}
    ensures Consistent(RemoveGatewayRow(db, g))
  {
    assert forall id | id in db.deployments :: db.deployments[id].key.gateway == g ==> id in OnGateway(db, g);
    var t := RemoveGatewayRow(db, g);
    assert t.gateways.Keys == db.gateways.Keys - {g};
  }

  lemma DropGatewayConsistent(db: Db, g: Id)
    requires Consistent(db)
    ensures Consistent(DropGateway(db, g))
  {
    DropDeploymentsConsistent(db, OnGateway(db, g));
    RemoveGatewayRowConsistent(DropDeployments(db, OnGateway(db, g)), g);
  }

  lemma RemoveArtifactRowConsistent(db: Db, a: Id)
    requires Consistent(db) && OfArtifact(db, a) == {} && !HasProxies(db, a)
    ensures Consistent(RemoveArtifactRow(db, a))
  {
    assert forall id | id in db.deployments :: db.deployments[id].key.artifact == a ==> id in OfArtifact(db, a);
    var t := RemoveArtifactRow(db, a);
    assert t.artifacts.Keys == db.artifacts.Keys - {a};
  }

  lemma DropArtifactConsistent(db: Db, a: Id)
    requires Consistent(db) && !HasProxies(db, a)
    ensures Consistent(DropArtifact(db, a))
  {
    DropDeploymentsConsistent(db, OfArtifact(db, a));
    RemoveArtifactRowConsistent(DropDeployments(db, OfArtifact(db, a)), a);
  }

  /** Cascades only remove status rows, and never the deployment a remaining row names. */
  lemma DropKeepsKeysAgree(db: Db, gone: set<Id>)
    requires KeysAgree(db)
    ensures KeysAgree(DropDeployments(db, gone))
  {
  }

  /** Deleting in two steps is deleting the union: the order of a delete loop is irrelevant. */
  lemma DropDropsUnion(db: Db, a: set<Id>, b: set<Id>)
    ensures DropDeployments(DropDeployments(db, a), b) == DropDeployments(db, a + b)
  {
    var two, one := DropDeployments(DropDeployments(db, a), b), DropDeployments(db, a + b);
    assert two.deployments == one.deployments;
    assert two.statuses == one.statuses;
  }

  lemma DropNothing(db: Db)
    ensures DropDeployments(db, {}) == db
  {
    assert DropDeployments(db, {}).deployments == db.deployments;
    assert DropDeployments(db, {}).statuses == db.statuses;
  }
}
