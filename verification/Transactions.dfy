/**
 * Each repository call as one atomic transaction: it commits a new database or
 * rolls back. The class `Store` of `Database` implements most of these; the lemmas here and in the
 * modules that import this one are what they promise.
 */
module Transactions {
  import opened Common
  import opened Tables

  datatype Error =
    | NotFound
    | UniqueViolation
    | ForeignKeyViolation
    | CheckViolation
    | ProviderHasProxies
    | InvalidUuid
    | GatewayMismatch
    | NotActive
    | AlreadyDeployed
    | StillDeployed

  datatype Outcome = Committed(db: Db) | RolledBack(error: Error)

  function After(db: Db, o: Outcome): Db {
    match o
    case Committed(t) => t
    case RolledBack(_) => db
  }

  // ---- Deployments ------------------------------------------------------------

  /** What the caller hands to a create; a missing status means DEPLOYED. */
  datatype NewDeployment = NewDeployment(id: Id, name: string, key: Key, base: Option<Id>,
                                         content: string, metadata: string,
                                         status: Option<DeploymentStatus>)

  const EVICTION_BATCH: nat := 5

  function InitialStatus(req: NewDeployment): DeploymentStatus {
    if req.status.Some? then req.status.value else Deployed
  }

  function RowOf(req: NewDeployment, createdAt: int): Deployment {
    Deployment(req.name, req.key, req.base, req.content, req.metadata, createdAt)
  }

  /**
   * A legal answer to `ORDER BY created_at ASC LIMIT n` over the archived deployments
   * of a slot. Ties may be broken either way, so several answers can be legal.
   */
  predicate OldestArchived(db: Db, k: Key, n: nat, ids: seq<Id>) {
    && Distinct(ids)
    && Elements(ids) <= ArchivedOf(db, k)
    && |ids| == (if |ArchivedOf(db, k)| <= n then |ArchivedOf(db, k)| else n)
    && InCreationOrder(db, ids)
    && NoneOlder(db, Elements(ids), ArchivedOf(db, k) - Elements(ids))
  }

  predicate InCreationOrder(db: Db, ids: seq<Id>) {
    forall i, j | 0 <= i < j < |ids| :: CreatedAt(db, ids[i]) <= CreatedAt(db, ids[j])
  }

  predicate NoneOlder(db: Db, first: set<Id>, others: set<Id>) {
    forall x, y | x in first && y in others :: CreatedAt(db, x) <= CreatedAt(db, y)
  }

  predicate LimitReached(db: Db, k: Key, hardLimit: int) {
    |DeploymentsOf(db, k)| >= hardLimit
  }

  /** The tables the insert of a create sees: `victims` is the eviction query's answer. */
  function AfterEviction(db: Db, k: Key, hardLimit: int, victims: seq<Id>): Db {
    if LimitReached(db, k, hardLimit) then DropDeployments(db, Elements(victims)) else db
  }

  /** An inserted row may name itself as base: the constraint is checked with the row in place. */
  predicate BaseResolves(db: Db, req: NewDeployment) {
    req.base.None? || req.base.value == req.id || req.base.value in db.deployments
  }

  function Insert(db: Db, req: NewDeployment, createdAt: int, updatedAt: int): Outcome {
    var k := req.key;
    if req.id in db.deployments then RolledBack(UniqueViolation)
    else if k.artifact !in db.artifacts || k.gateway !in db.gateways || !BaseResolves(db, req) then
      RolledBack(ForeignKeyViolation)
    else if InitialStatus(req) == Archived then RolledBack(CheckViolation)
    else
      Committed(db.(deployments := db.deployments[req.id := RowOf(req, createdAt)],
                    statuses := db.statuses[k := StatusRow(req.id, InitialStatus(req), updatedAt)]))
  }

  function Create(db: Db, req: NewDeployment, hardLimit: int, victims: seq<Id>,
                  createdAt: int, updatedAt: int): Outcome
  {
    Insert(AfterEviction(db, req.key, hardLimit, victims), req, createdAt, updatedAt)
  }

  function DeleteDeployment(db: Db, id: Id, artifact: Id, org: string): Outcome {
    if id in db.deployments && db.deployments[id].key.artifact == artifact && db.deployments[id].key.org == org then
      Committed(DropDeployments(db, {id}))
    else RolledBack(NotFound)
  }

  /** Texts that may fail to parse as UUIDs arrive as options. */
  function SetCurrent(db: Db, artifact: Option<Id>, org: string, gateway: Option<Id>, id: Option<Id>,
                      status: DeploymentStatus, updatedAt: int): Outcome
  {
    if artifact.None? || gateway.None? || id.None? then RolledBack(InvalidUuid)
    else
      var k := Key(artifact.value, org, gateway.value);
      if k.artifact !in db.artifacts || k.gateway !in db.gateways || id.value !in db.deployments then
        RolledBack(ForeignKeyViolation)
      else if status == Archived then RolledBack(CheckViolation)
      else Committed(db.(statuses := db.statuses[k := StatusRow(id.value, status, updatedAt)]))
  }

  /** The slots whose status row an acknowledgement from `gateway` for `id` would update. */
  function Acknowledged(db: Db, id: Id, gateway: Id): set<Key> {
    set k | k in db.statuses && db.statuses[k].deploymentId == id && k.gateway == gateway
  }

  function UpdateStatus(db: Db, id: Id, gateway: Id, status: DeploymentStatus, updatedAt: int): Outcome {
    var hits := Acknowledged(db, id, gateway);
    if hits == {} then RolledBack(NotFound)
    else if status == Archived then RolledBack(CheckViolation)
    else
      Committed(db.(statuses := map k | k in db.statuses ::
                      if k in hits then db.statuses[k].(status := status, updatedAt := updatedAt) else db.statuses[k]))
  }

  /** Removing no row is not an error here. */
  function DeleteStatus(db: Db, k: Key): Outcome {
    Committed(db.(statuses := map j | j in db.statuses && j != k :: db.statuses[j]))
  }

  // ---- Gateways ---------------------------------------------------------------

  function CreateGateway(db: Db, g: Id, row: Gateway): Outcome {
    if g in db.gateways || row in db.gateways.Values then RolledBack(UniqueViolation)
    else Committed(db.(gateways := db.gateways[g := row]))
  }

  function DropGatewayAssociations(db: Db, g: Id, org: string): Db {
    db.(associations := set a | a in db.associations && !(a.resource == g && a.kind == GatewayResource && a.org == org))
  }

  function DeleteGateway(db: Db, g: Id, org: string): Outcome {
    var t := DropGatewayAssociations(db, g, org);
    if g in t.gateways && t.gateways[g].org == org then Committed(DropGateway(t, g))
    else RolledBack(NotFound)
  }

  predicate ActivePrefixTaken(db: Db, prefix: string) {
    exists t | t in db.tokens :: db.tokens[t].active && db.tokens[t].prefix == prefix
  }

  function CreateToken(db: Db, t: Id, row: Token): Outcome {
    if t in db.tokens || (row.active && ActivePrefixTaken(db, row.prefix)) then RolledBack(UniqueViolation)
    else if row.gateway !in db.gateways then RolledBack(ForeignKeyViolation)
    else if row.revokedAt.Some? && row.active then RolledBack(CheckViolation)
    else Committed(db.(tokens := db.tokens[t := row]))
  }

  function RevokeToken(db: Db, t: Id, now: int): Outcome {
    if t !in db.tokens then RolledBack(NotFound)
    else Committed(db.(tokens := db.tokens[t := db.tokens[t].(active := false, revokedAt := Some(now))]))
  }

  function CreateMapping(db: Db, m: Mapping): Outcome {
    if m in db.mappings then RolledBack(UniqueViolation)
    else if m.gateway !in db.gateways then RolledBack(ForeignKeyViolation)
    else Committed(db.(mappings := db.mappings + {m}))
  }

  function DeleteMapping(db: Db, m: Mapping): Outcome {
    if m !in db.mappings then RolledBack(NotFound)
    else Committed(db.(mappings := db.mappings - {m}))
  }

  // ---- Artifacts, providers and proxies -----------------------------------------

  predicate ArtifactClashes(db: Db, a: Id, row: Artifact) {
    || a in db.artifacts
    || (exists b | b in db.artifacts :: Clash(db.artifacts[b], row))
  }

  function CreateProvider(db: Db, a: Id, row: Artifact, configuration: string): Outcome {
    if ArtifactClashes(db, a, row) || a in db.providers then RolledBack(UniqueViolation)
    else
      Committed(db.(artifacts := db.artifacts[a := row.(kind := LlmProvider)],
                    providers := db.providers[a := configuration]))
  }

  /** The provider row goes first, so that a remaining proxy stops the whole transaction. */
  function DeleteProvider(db: Db, id: Option<Id>, org: string): Outcome {
    if id.None? then RolledBack(InvalidUuid)
    else
      var a := id.value;
      if a !in db.artifacts || db.artifacts[a].org != org || db.artifacts[a].kind != LlmProvider then
        RolledBack(NotFound)
      else if a in db.providers && HasProxies(db, a) then RolledBack(ProviderHasProxies)
      else Committed(DropArtifact(DropProviderRow(db, a), a))
  }

  /** Neither unique nor foreign-key columns are among the updated ones. */
  function UpdateProvider(db: Db, id: Option<Id>, configuration: string): Outcome {
    if id.None? then RolledBack(InvalidUuid)
    else if id.value !in db.providers then RolledBack(NotFound)
    else Committed(db.(providers := db.providers[id.value := configuration]))
  }

  function CreateProxy(db: Db, a: Id, row: Artifact, provider: Id): Outcome {
    if ArtifactClashes(db, a, row) || a in db.proxies then RolledBack(UniqueViolation)
    else if provider !in db.providers then RolledBack(ForeignKeyViolation)
    else
      Committed(db.(artifacts := db.artifacts[a := row.(kind := LlmProxy)],
                    proxies := db.proxies[a := provider]))
  }

  /** `a` is the artifact the proxy's handle resolves to; the update can move the proxy to another provider. */
  function UpdateProxy(db: Db, a: Id, org: string, provider: Id): Outcome {
    if a !in db.artifacts || db.artifacts[a].org != org || db.artifacts[a].kind != LlmProxy || a !in db.proxies then
      RolledBack(NotFound)
    else if provider !in db.providers then RolledBack(ForeignKeyViolation)
    else Committed(db.(proxies := db.proxies[a := provider]))
  }

  /** `a` is the artifact the proxy's handle resolves to. */
  function DeleteProxy(db: Db, a: Id, org: string): Outcome {
    if a !in db.artifacts || db.artifacts[a].org != org || db.artifacts[a].kind != LlmProxy then
      RolledBack(NotFound)
    else
      var t := DropProxyRow(db, a);
      if a in t.providers && HasProxies(t, a) then RolledBack(ForeignKeyViolation)
      else Committed(DropArtifact(t, a))
  }

  // ---- All calls as steps of one machine ------------------------------------------

  datatype Step =
    | StepCreate(req: NewDeployment, hardLimit: int, victims: seq<Id>, createdAt: int, updatedAt: int)
    | StepDeleteDeployment(id: Id, artifact: Id, org: string)
    | StepSetCurrent(artifactText: Option<Id>, org: string, gatewayText: Option<Id>, idText: Option<Id>,
                     status: DeploymentStatus, updatedAt: int)
    | StepUpdateStatus(id: Id, gateway: Id, status: DeploymentStatus, updatedAt: int)
    | StepDeleteStatus(key: Key)
    | StepCreateGateway(g: Id, gatewayRow: Gateway)
    | StepDeleteGateway(g: Id, org: string)
    | StepCreateToken(t: Id, tokenRow: Token)
    | StepRevokeToken(t: Id, now: int)
    | StepCreateMapping(mapping: Mapping)
    | StepDeleteMapping(mapping: Mapping)
    | StepCreateProvider(a: Id, artifactRow: Artifact, configuration: string)
    | StepDeleteProvider(idText: Option<Id>, org: string)
    | StepUpdateProvider(idText: Option<Id>, configuration: string)
    | StepCreateProxy(a: Id, artifactRow: Artifact, provider: Id)
    | StepUpdateProxy(a: Id, org: string, provider: Id)
    | StepDeleteProxy(a: Id, org: string)

  function Apply(db: Db, s: Step): Outcome {
    match s
    case StepCreate(req, limit, victims, c, u) => Create(db, req, limit, victims, c, u)
    case StepDeleteDeployment(id, a, org) => DeleteDeployment(db, id, a, org)
    case StepSetCurrent(a, org, g, id, st, u) => SetCurrent(db, a, org, g, id, st, u)
    case StepUpdateStatus(id, g, st, u) => UpdateStatus(db, id, g, st, u)
    case StepDeleteStatus(k) => DeleteStatus(db, k)
    case StepCreateGateway(g, row) => CreateGateway(db, g, row)
    case StepDeleteGateway(g, org) => DeleteGateway(db, g, org)
    case StepCreateToken(t, row) => CreateToken(db, t, row)
    case StepRevokeToken(t, now) => RevokeToken(db, t, now)
    case StepCreateMapping(m) => CreateMapping(db, m)
    case StepDeleteMapping(m) => DeleteMapping(db, m)
    case StepCreateProvider(a, row, conf) => CreateProvider(db, a, row, conf)
    case StepDeleteProvider(id, org) => DeleteProvider(db, id, org)
    case StepUpdateProvider(id, conf) => UpdateProvider(db, id, conf)
    case StepCreateProxy(a, row, p) => CreateProxy(db, a, row, p)
    case StepUpdateProxy(a, org, p) => UpdateProxy(db, a, org, p)
    case StepDeleteProxy(a, org) => DeleteProxy(db, a, org)
  }

  /** Calls that write neither deployments nor status rows. */
  predicate LeavesDeployments(s: Step) {
    || s.StepCreateGateway? || s.StepCreateToken? || s.StepRevokeToken?
    || s.StepCreateMapping? || s.StepDeleteMapping?
    || s.StepCreateProvider? || s.StepUpdateProvider? || s.StepCreateProxy? || s.StepUpdateProxy?
  }

  lemma DeploymentsLeft(db: Db, s: Step)
    requires LeavesDeployments(s)
    ensures After(db, Apply(db, s)).deployments == db.deployments
    ensures After(db, Apply(db, s)).statuses == db.statuses
  {
  }

  /** Whatever the database may answer: the eviction query is the only open choice. */
  predicate LegalAnswer(db: Db, s: Step) {
    s.StepCreate? && LimitReached(db, s.req.key, s.hardLimit) ==>
      OldestArchived(db, s.req.key, EVICTION_BATCH, s.victims)
  }
}
