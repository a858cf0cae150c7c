# Verification of the agent manager's stores and algorithms

This project models the stateful core of the agent manager service and of its
evaluation job in Dafny, and proves what that core promises.

- **Deployment store** (`Tables`, `Transactions`, `Integrity`, `DeploymentLimits`,
  `EvictionChoice`, `DeploymentRuns`, `StoredRows`, `Database`, `DeploymentService`,
  `DeploymentRaces`, `GatewayTokens`, `Cascades`, `DeploymentQueries`): the tables behind the deployment, gateway,
  provider and proxy repositories with the constraints of their migrations. Each repository call is one atomic transaction that commits or rolls
  back. `Database.Store` holds the tables as fields and changes them statement by statement;
  each of its methods is proved equal to a transaction on values, and the lemmas are about
  those and about whole runs.
- **Score store** (`ScoreTables`, `ScorePublishing`, `PublishRuns`, `OtherMonitors`,
  `StoredItems`, `ScoreIntegrity`, `PublishAcceptance`, `ScoreRepository`, `Retries`,
  `PublishJob`, `ScoreAggregation`, `ScoreMeans`, `TracePages`): publishing with retries, time series and
  pages of traces. `Retries` is about any server that absorbs repeated requests; `PublishJob`
  proves that the score server is one. Scores are exact reals; averages are sums over finite
  sets (`Sums`).
- **Rate limiter** (`RateLimiter`): per-key lists with a background cleanup against a log that
  is never pruned.
- **Search patterns** (`LikePatterns`), **sequence adherence** (`SequenceAdherence`) and
  **environments of gateways** (`GatewayEnvironments`).

`Common` and `Ordering` hold sequences, sets and sorting.

## What the proofs found

- `SetCurrent` checks nothing about the deployment it is given. It keeps status rows and
  deployments in agreement iff the deployment was created for that slot
  (`SetCurrentGuardExact`); without that check it need not (`SetCurrentUnguardedFails`). The
  services check it first, and because deployment rows never change, the check stays right
  until the write (`GuardIsStable`, `RunIsSafe`).
- The base foreign key accepts a row that names itself, and then its chain of bases does not
  end (`CreateKeepsChainsIff`). The deployment service generates ids after it looked up the
  base, so its runs never do this.
- The services check a deployment's state in one transaction and write in another. A deploy that
  comes between check and write of an undeploy is archived by it (`UndeployArchivesNewer`), and a
  delete can remove a deployment that was restored in between (`DeleteRemovesRestored`); exactly
  when other deployments are affected is `SetCurrentSparesOthersIff`, and what keeps the contracts
  is `UndeployInRun` and `RemoveInRun`.
- A create from an old archived base can be refused at the limit, because the same transaction
  may evict the base; when this can happen is `BaseMayBeRefusedIff`.
- A create may reuse the id of a row that the same transaction evicts (`CreateSucceedsIff`).
- The limiter's bound needs a clock that does not go back (`ClockBackExceeds`), as Go's monotonic
  clock readings do not. It holds for windows open at their start. A window closed at both ends can
  hold up to twice the limit, and more than the limit only when attempts were accepted exactly
  at its start (`WindowBound`, `ClosedWindowBound`, `ClosedWindowHoldsTwice`).
- The score upsert does not update the monitor column. A run published under two monitors
  leaves the second one without its scores and overwrites the values of the first one's
  (`RunOfTwoMonitors`, `SecondMonitorOverwrites`); exactly which scores are concerned is
  `KeysOwnedIff`, `StoredForItem` and `OtherMonitorUntouchedIff`. It cannot happen while each
  run has one monitor (`RunKeepsOwned`, `RunLeavesOtherMonitors`).
- Whether a key repeated in one publish is an error depends on whether both rows fall into the
  same batch of 100 (`RepeatedKeyDependsOnSize`, `RepeatAtHundred`).
- A publish that the job reports as failed may have been stored (`FailureMayBeStored`); exactly
  when is `JobOutcomeIff`.
- The publish service deletes stale scores between upserting evaluators and inserting scores;
  the model follows that order.

## How the source is read

- Errors are a `RolledBack(error)` outcome, a `None` or a `Failed(error)`. Identifiers that
  arrive as text and may not parse as UUIDs are options.
- Where an SQL query leaves the order open, the model does too: `victims` is any answer that
  `ORDER BY created_at LIMIT 5` may give, a `Plan` breaks ties in the ranked query, and queries
  without an order answer in any.
- In a run, a guard may have been evaluated on any earlier state, new deployment and token ids
  were never used before, and times are arbitrary numbers.
- Ids the database would generate, times, network behaviour, case mapping and text collation
  are parameters.
- `LIKE` follows section 8.5 of ISO/IEC 9075:1992, where a pattern with an invalid escape is an
  error; escaped texts never contain one. Both copies of the escaping function are modelled by
  the one function `Escape`.
- `ILIKE`, which the custom evaluators are searched with, is read as `LIKE` on lower-cased
  texts, as the catalog's query writes it out.
- Page limits are at least 1 and offsets at least 0 in the source; the pages are defined, and
  their laws hold, for limit 0 as well.

## Model

| member | source | states |
|---|---|---|
| `DeploymentRuns.RunIsSafe` | agent-manager-service/repositories/deployment_repository.go:71-284 | In every state of every run from an empty database — any interleaving of the calls that write the modelled tables, guards evaluated on any earlier state, any legal answer of the eviction query — every declared constraint holds, every status row names a deployment of its own slot, every base is of the same artifact and organization, and following bases ends. |
| `DeploymentRuns.BaseStillFound` | agent-manager-service/services/llm_deployment_service.go:186-207 | The base that the service found is still of the same artifact and organization when the create commits. |
| `DeploymentLimits.CreateKeepsBases` | agent-manager-service/services/llm_deployment_service.go:186-207 | A create whose base was found for its artifact and organization keeps every base of the artifact and organization of its deployment, through the evictions. |
| `DeploymentRuns.SafeRows` | agent-manager-service/repositories/deployment_repository.go:71-284 | What that means for the rows: every status row names a deployment of its slot, and every base is there and of the same artifact and organization. |
| `DeploymentRuns.CountBound` | agent-manager-service/repositories/deployment_repository.go:88-126 | With one hard limit L throughout a run, no (artifact, organization, gateway) slot ever holds more than max(L, 2) deployments. |
| `DeploymentRuns.Immutable` | agent-manager-service/db_migrations/003_create_artifacts_and_apis.go:44-62 | In a run an id is present over one unbroken stretch of states, and its row never changes, except that the base may become NULL. |
| `DeploymentRuns.GuardIsStable` | agent-manager-service/services/llm_deployment_service.go:256-326 | A slot check made on an earlier state is still right later, as long as the deployment exists: reading and writing in two transactions is enough for the guard of `SetCurrent`. |
| `DeploymentRuns.AcknowledgementInRun` | agent-manager-service/repositories/deployment_repository.go:238-254 | In every run a late acknowledgement leaves the whole database as it was; a timely one changes one status row only; neither changes which deployments are current. |
| `DeploymentRuns.PointerIsLastWrite` | agent-manager-service/repositories/deployment_repository.go:128-141 | Whatever a slot points at is what the latest committed create or `SetCurrent` of that slot named. |
| `DeploymentRuns.OnlyWritersMovePointers` | agent-manager-service/repositories/deployment_repository.go:161-284 | A slot that points at a deployment after any other call pointed at it before. |
| `DeploymentLimits.EvictionSafe` | agent-manager-service/repositories/deployment_repository.go:97-121 | Any legal eviction leaves every status row, keeps every current deployment and every other slot with its state, removes only rows no surviving archived row of the slot is older than, and leaves no archived row when it takes fewer than five. |
| `DeploymentLimits.CreateSucceedsIff` | agent-manager-service/repositories/deployment_repository.go:71-142 | A create commits iff its id is free or evicted in the same transaction, artifact and gateway exist, its status is not ARCHIVED, and its base is absent, itself, or present and not evicted; a refusal says which constraint failed. That a refused create undoes its evictions is the contract of `Database.Store.CreateWithLimitEnforcement`. |
| `StoredRows.CreateStores` | agent-manager-service/repositories/deployment_repository.go:71-142 | A committed create stores name, key, base, content, metadata and creation time as requested, and makes the deployment current with the requested status, DEPLOYED when none is given. |
| `StoredRows.CreateDeletes` | agent-manager-service/repositories/deployment_repository.go:88-121 | At the limit a create deletes min(5, archived) archived rows of its slot, below it none; every other row keeps all its columns, except that a base among the deleted becomes NULL. |
| `StoredRows.StateMeaning` | agent-manager-service/db_migrations/003_create_artifacts_and_apis.go:64-81 | A deployment is archived iff the status row of its slot, if any, names another one; else its state is that row's. |
| `StoredRows.RemainingRows` | agent-manager-service/db_migrations/003_create_artifacts_and_apis.go:60-79 | Rows that remain after a deletion are unchanged but for bases that were deleted; status rows go iff they name a deleted deployment. |
| `StoredRows.ConstraintsSpelledOut` | agent-manager-service/db_migrations/003_create_artifacts_and_apis.go:29-97 | What the declared constraints mean row by row, over all tables. |
| `DeploymentLimits.CreateRows` | agent-manager-service/repositories/deployment_repository.go:123-126 | After a committed create the rows are the old ones without the evicted ones plus the new one, which is as requested; the others differ at most in a nulled base. |
| `EvictionChoice.MayEvictIff` | agent-manager-service/repositories/deployment_repository.go:97-121 | Some legal answer of the eviction query takes a deployment iff it is archived in the slot and fewer than n archived ones of the slot are strictly older. |
| `EvictionChoice.MayKeepIff` | agent-manager-service/repositories/deployment_repository.go:97-121 | Some legal answer spares it iff it is not archived in the slot or at least n other archived ones are not newer. |
| `EvictionChoice.BaseMayBeRefusedIff` | agent-manager-service/repositories/deployment_repository.go:97-126 | At the limit, a create whose base exists and against which nothing else speaks can be refused iff the base is archived in that slot and fewer than five archived deployments of the slot are older. |
| `EvictionChoice.BaseMayBeAcceptedIff` | agent-manager-service/repositories/deployment_repository.go:97-126 | It can succeed iff the base is not archived in that slot or at least five other archived ones are not newer. |
| `DeploymentLimits.CreateStatuses` | agent-manager-service/repositories/deployment_repository.go:128-141 | A committed create rewrites the status row of its own slot and no other; only archived rows are evicted. |
| `DeploymentLimits.CreateEffect` | agent-manager-service/repositories/deployment_repository.go:123-141 | After a committed create the archived deployments of the slot are exactly the previous ones that were not evicted, so the new one is the only current one and the previous current one is archived. |
| `DeploymentLimits.CreateLeavesOtherSlots` | agent-manager-service/repositories/deployment_repository.go:71-142 | Deployments of other slots stay and keep their states through a create. |
| `DeploymentLimits.CountAfterCreate` | agent-manager-service/repositories/deployment_repository.go:88-126 | The exact count after a committed create; it stays within max(L, 2), and from above that bound it strictly decreases. |
| `DeploymentLimits.CountOtherwise` | agent-manager-service/repositories/deployment_repository.go:161-284 | No other call adds a row to a slot. |
| `DeploymentLimits.AllButOneArchived` | agent-manager-service/repositories/deployment_repository.go:97-111 | At most one deployment of a slot is not archived. |
| `DeploymentLimits.CreateKeepsChainsIff` | agent-manager-service/db_migrations/003_create_artifacts_and_apis.go:60-61 | From a state whose base chains all end, they still do after a committed create iff the new row does not name itself as base, which the foreign key permits. |
| `DeploymentLimits.StepKeepsChains` | agent-manager-service/db_migrations/003_create_artifacts_and_apis.go:60-61 | Every call, creates that do not name themselves included, keeps all base chains finite. |
| `DeploymentLimits.RowsAreImmutable` | agent-manager-service/repositories/deployment_repository.go:71-284 | A row present after any call was created by it or was there before, unchanged up to a nulled base. |
| `DeploymentLimits.AcknowledgementEffect` | agent-manager-service/repositories/deployment_repository.go:238-254 | An acknowledgement commits iff the deployment is current on that gateway and the status is not ARCHIVED; it then rewrites exactly one status row, no current pointer moves, and otherwise it reports that nothing was found. |
| `Integrity.StepConsistent` | agent-manager-service/repositories/deployment_repository.go:71-284 | Every call, committed or rolled back, that writes a modelled column through the deployment, gateway, provider and proxy repositories keeps every primary-key, foreign-key, unique and check constraint. |
| `Integrity.UpdateConsistent` | agent-manager-service/repositories/llm_proxy_repository.go:241-268 | Updating a provider, and updating a proxy, which can move it to another provider, keep every declared constraint. |
| `Integrity.StepKeysAgree` | agent-manager-service/repositories/deployment_repository.go:71-284 | Every call but `SetCurrent` keeps each status row naming a deployment of its own slot. |
| `Integrity.SetCurrentGuardExact` | agent-manager-service/repositories/deployment_repository.go:203-234 | A committed `SetCurrent` keeps status rows and deployments in agreement iff the deployment was created for the slot that is written. |
| `StoredRows.SetCurrentStores` | agent-manager-service/repositories/deployment_repository.go:203-234 | `SetCurrent` commits iff artifact, gateway and deployment exist and the status is not ARCHIVED, and writes exactly that row. |
| `Integrity.SetCurrentUnguardedFails` | agent-manager-service/repositories/deployment_repository.go:203-234 | A concrete consistent database on which `SetCurrent` commits and makes a slot point at a deployment of another gateway. |
| `Integrity.CreateConsistent` | agent-manager-service/repositories/deployment_repository.go:71-142 | A create with evictions keeps every declared constraint. |
| `Integrity.StatusStepConsistent` | agent-manager-service/repositories/deployment_repository.go:203-284 | `SetCurrent`, acknowledgements and status deletion keep every declared constraint. |
| `Integrity.TokenStepConsistent` | agent-manager-service/db_migrations/002_create_gateways.go:50-75 | Creating and revoking tokens keeps active prefixes unique and revoked tokens inactive. |
| `Integrity.ArtifactDeleteConsistent` | agent-manager-service/repositories/llm_provider_repository.go:227-277 | Deleting a provider or proxy with all cascades keeps every declared constraint. |
| `Integrity.CreateProviderConsistent` | agent-manager-service/repositories/llm_provider_repository.go:60-96 | Creating a provider with its artifact keeps every declared constraint. |
| `Integrity.CreateProxyConsistent` | agent-manager-service/repositories/llm_proxy_repository.go:108-132 | Creating a proxy with its artifact keeps every declared constraint. |
| `Tables.DropDropsUnion` | agent-manager-service/repositories/deployment_repository.go:113-121 | Deleting deployment rows one after the other equals deleting the set at once and nulling the bases that pointed into it. |
| `Tables.DropDeploymentsConsistent` | agent-manager-service/db_migrations/003_create_artifacts_and_apis.go:44-81 | Deleting any set of deployment rows with SET NULL and CASCADE keeps every declared constraint. |
| `Tables.DropGatewayConsistent` | agent-manager-service/db_migrations/002_create_gateways.go:44-92 | Deleting a gateway row with its cascades keeps every declared constraint. |
| `Tables.DropArtifactConsistent` | agent-manager-service/db_migrations/004_create_llm_providers.go:45-74 | Deleting an artifact row that no proxy refers to, with its cascades, keeps every declared constraint. |
| `Database.Store.CreateWithLimitEnforcement` | agent-manager-service/repositories/deployment_repository.go:71-143 | The method that counts, selects, deletes one by one, inserts and upserts in place, restoring the tables on any error, runs exactly the create transaction for some legal answer of the eviction query. |
| `Database.Store.SelectOldestArchived` | agent-manager-service/repositories/deployment_repository.go:97-111 | The eviction query returns the oldest archived deployments of the slot in creation order, min(n, available) of them. |
| `Database.Store.EvictOldest` | agent-manager-service/repositories/deployment_repository.go:97-121 | The delete loop removes exactly the selected set, with its cascades. |
| `Database.Store.InsertDeployment` | agent-manager-service/repositories/deployment_repository.go:123-126 | The insert succeeds iff id, artifact, gateway and base satisfy the constraints and changes nothing otherwise. |
| `Database.Store.UpsertStatus` | agent-manager-service/repositories/deployment_repository.go:128-141 | The status upsert succeeds iff its references exist and its status may be stored, and replaces the row of its slot only. |
| `Database.Store.DeleteDeployment` | agent-manager-service/repositories/deployment_repository.go:161-175 | The method runs exactly the delete transaction. |
| `Database.Store.SetCurrent` | agent-manager-service/repositories/deployment_repository.go:203-234 | The method runs exactly the `SetCurrent` transaction; an unparsable id changes nothing. |
| `Database.Store.UpdateStatusByDeploymentID` | agent-manager-service/repositories/deployment_repository.go:238-254 | The row-by-row update runs exactly the acknowledgement transaction. |
| `DeploymentService.DeleteStatusArchives` | agent-manager-service/repositories/deployment_repository.go:280-284 | Deleting the status of a slot archives every deployment of the slot and changes no other state. |
| `Database.Store.DeleteGateway` | agent-manager-service/repositories/gateway_repository.go:198-217 | The method, with the rollback of the deleted associations when the gateway is not found, runs exactly the gateway deletion. |
| `GatewayTokens.CreateTokenContract` | agent-manager-service/repositories/gateway_repository.go:258-261 | An active token is created iff its id is new, its gateway exists, it is not revoked and its prefix is not in use; the lookup by prefix then finds exactly it, and answers as before for other prefixes. |
| `GatewayTokens.LookupIsUnique` | agent-manager-service/repositories/gateway_repository.go:287-298 | The lookup by prefix has at most one answer. |
| `GatewayTokens.RevokeTokenContract` | agent-manager-service/repositories/gateway_repository.go:301-317 | Revoking succeeds iff the token exists; it takes the token out of the lookup and changes no other answer. |
| `StoredRows.TokenRows` | agent-manager-service/repositories/gateway_repository.go:258-317 | Tokens are stored as given; revoking sets status and time and nothing else. |
| `GatewayTokens.RevokedForever` | agent-manager-service/repositories/gateway_repository.go:301-317 | In every run a token keeps its gateway and prefix, and once revoked it stays revoked. |
| `GatewayTokens.RevokedIsNeverFound` | agent-manager-service/repositories/gateway_repository.go:287-317 | After a committed revocation no later lookup of the run finds the token. |
| `Database.Store.CreateProvider` | agent-manager-service/repositories/llm_provider_repository.go:60-96 | The method runs exactly the provider creation: artifact and provider rows together or neither. |
| `Database.Store.DeleteProvider` | agent-manager-service/repositories/llm_provider_repository.go:227-277 | The method runs exactly the provider deletion: provider row first, so that a remaining proxy stops everything, then the artifact with its cascades. |
| `Cascades.DeleteGatewayContract` | agent-manager-service/repositories/gateway_repository.go:198-217 | A gateway is deleted iff it exists in the organization; associations of that resource, of kind gateway and of that organization go, and no others; the result is consistent and is the largest consistent part of what is then left without the gateway; otherwise the call reports that it was not found. |
| `Cascades.DeleteProviderContract` | agent-manager-service/repositories/llm_provider_repository.go:227-277 | A provider is deleted iff it exists in the organization and no proxy refers to it; the result is the largest consistent part of the database without its artifact; a refusal says which of the two failed. |
| `Cascades.GatewayLeaves` | agent-manager-service/repositories/gateway_repository.go:198-217 | Table by table, which rows are left after a gateway is deleted. |
| `Cascades.ProviderLeaves` | agent-manager-service/repositories/llm_provider_repository.go:227-277 | Table by table, which rows are left after a provider is deleted. |
| `StoredRows.CreateProviderContract` | agent-manager-service/repositories/llm_provider_repository.go:60-96 | A provider is created iff id, handle and name with version are new in the organization; it is stored as an LLM provider with its configuration. |
| `StoredRows.ProviderRoundTrip` | agent-manager-service/repositories/llm_provider_repository.go:60-277 | A provider that was just created can be deleted, which gives back the tables. |
| `StoredRows.UpdateProviderContract` | agent-manager-service/repositories/llm_provider_repository.go:188-225 | Updating a provider succeeds iff it exists and replaces its configuration only. |
| `StoredRows.CreateProxyContract` | agent-manager-service/repositories/llm_proxy_repository.go:108-132 | A proxy is created iff its artifact is new and its provider exists, and is stored as an LLM proxy of it. |
| `StoredRows.UpdateProxyContract` | agent-manager-service/repositories/llm_proxy_repository.go:241-268 | A proxy is moved iff it and the new provider exist; from then on the new provider has a proxy, and another one has one iff some other proxy refers to it. |
| `StoredRows.DeleteProxyContract` | agent-manager-service/repositories/llm_proxy_repository.go:271-286 | A proxy is deleted iff it exists in the organization and is not also a provider that another proxy uses; its artifact, proxy and provider rows go and no others of these tables. |
| `StoredRows.CreateGatewayContract` | agent-manager-service/repositories/gateway_repository.go:86-91 | A gateway is created iff its id and its name in the organization are new. |
| `StoredRows.MappingRoundTrip` | agent-manager-service/repositories/gateway_repository.go:371-386 | A mapping is created iff it is not there and deleted iff it is; deleting it again gives back the tables. |
| `Cascades.DropGatewayIsGreatest` | agent-manager-service/db_migrations/002_create_gateways.go:50-92 | Whatever consistent part of the database does without the gateway survives its deletion. |
| `Cascades.DropArtifactIsGreatest` | agent-manager-service/db_migrations/003_create_artifacts_and_apis.go:44-81 | Whatever consistent part of the database does without the artifact survives its deletion. |
| `DeploymentService.UndeployContract` | agent-manager-service/services/llm_deployment_service.go:256-326 | With nothing between check and write, undeploying succeeds iff the deployment is the deployed one of the given slot; then its state alone becomes UNDEPLOYED. |
| `DeploymentRaces.UndeployInRun` | agent-manager-service/services/llm_deployment_service.go:256-326 | With any calls of a run between check and write: a committed undeploy turns the deployment to UNDEPLOYED and changes no other state, unless another deployment was made current in the slot in between. |
| `DeploymentRaces.SetCurrentSparesOthersIff` | agent-manager-service/repositories/deployment_repository.go:203-234 | The write leaves all other deployments in their states iff no other one is current in the slot when it commits. |
| `DeploymentRaces.WriteInRun` | agent-manager-service/services/llm_deployment_service.go:256-389 | Whatever happened since the check, a committed write of undeploy or restore gives the deployment its state, archives the others of the slot, touches no other slot, and spares all others iff the slot was free for it. |
| `DeploymentRaces.UndeployArchivesNewer` | agent-manager-service/services/llm_deployment_service.go:256-326 | In every run: when a deployment is deployed to the slot between check and write of an undeploy, both commit, the old one ends UNDEPLOYED and the new one ARCHIVED. |
| `DeploymentService.RestoreContract` | agent-manager-service/services/llm_deployment_service.go:329-389 | With nothing between check and write, restoring succeeds iff the deployment is of the given slot and not deployed; it becomes the deployed one and all others of the slot are archived. With calls in between, its write is that of `DeploymentRaces.WriteInRun`. |
| `DeploymentService.RemoveContract` | agent-manager-service/services/llm_deployment_service.go:447-475 | With nothing between check and delete, removing succeeds iff the deployment is of the artifact and not deployed; all remaining deployments keep their states. |
| `DeploymentService.Refusals` | agent-manager-service/services/llm_deployment_service.go:256-475 | Which error the service reports, and in which order: not found, another gateway, wrong state. |
| `DeploymentRaces.RemoveInRun` | agent-manager-service/services/llm_deployment_service.go:447-475 | With any calls of a run in between: a committed delete removes one row and keeps all other states; it removes a deployed one only if a restore or an acknowledgement deployed it in between. |
| `DeploymentRaces.StaysNotDeployed` | agent-manager-service/repositories/deployment_repository.go:203-254 | In a run, a deployment found not deployed stays so until a `SetCurrent` or an acknowledgement deploys it. |
| `DeploymentRaces.DeleteRemovesRestored` | agent-manager-service/services/llm_deployment_service.go:447-475 | When a deployment is restored between check and delete, both commit and the slot has no current deployment. |
| `DeploymentService.UndeployRestoreRoundTrip` | agent-manager-service/services/llm_deployment_service.go:256-389 | Undeploy then restore gives back the same database, the time of the status row aside. |
| `DeploymentService.PointToStates` | agent-manager-service/repositories/deployment_repository.go:203-234 | Pointing a slot at one of its deployments archives the others of the slot and changes no other state. |
| `DeploymentQueries.StateFilter` | agent-manager-service/repositories/deployment_repository.go:317-393 | Asking for one state lists exactly the rows of the unfiltered ranked listing in that state, in the same order. |
| `DeploymentQueries.StatesPartition` | agent-manager-service/repositories/deployment_repository.go:317-393 | The DEPLOYED, UNDEPLOYED and ARCHIVED listings together are the unfiltered listing, without loss or repetition. |
| `DeploymentQueries.GatewayFilter` | agent-manager-service/repositories/deployment_repository.go:317-393 | Filtering by gateway lists exactly that gateway's rows of the unfiltered ranked result, in order. |
| `DeploymentQueries.PerGatewayCount` | agent-manager-service/repositories/deployment_repository.go:345-370 | Each gateway yields min(maxPerAPIGW, available) rows. |
| `DeploymentQueries.CurrentIsFirst` | agent-manager-service/repositories/deployment_repository.go:345-370 | With a limit of at least one, a deployment with a status row is always listed and ranks first at its gateway. |
| `DeploymentQueries.NewerFirst` | agent-manager-service/repositories/deployment_repository.go:345-350 | Of two deployments of a gateway the current one comes before an archived one, and of two archived ones the newer: it is never omitted while the other is listed, and stands before it. |
| `DeploymentQueries.GatewaysAscend` | agent-manager-service/repositories/deployment_repository.go:379 | Gateways appear in ascending order. |
| `DeploymentQueries.ListedRows` | agent-manager-service/repositories/deployment_repository.go:333-370 | Every row shows the columns of a deployment of the artifact, the organization and, if given, the gateway, with the slot's status if it names the deployment, else ARCHIVED. |
| `DeploymentQueries.StatusTexts` | agent-manager-service/repositories/deployment_repository.go:317-378 | The texts DEPLOYED, UNDEPLOYED and ARCHIVED each list exactly the rows in that state; any other text is an error. |
| `DeploymentQueries.GetWithStateRow` | agent-manager-service/repositories/deployment_repository.go:287-314 | The single lookup finds a deployment iff id, artifact and organization match, and shows its columns and state. |
| `DeploymentQueries.ListingAgreesWithGetWithState` | agent-manager-service/repositories/deployment_repository.go:287-314 | Every listed row is what `GetWithState` returns for its id, its status is the derived state, and it is the state that was asked for. |
| `DeploymentQueries.PlanIndependent` | agent-manager-service/repositories/deployment_repository.go:345-370 | Without equal timestamps at a gateway the listing does not depend on how the database breaks ties. |
| `DeploymentQueries.CurrentByGatewayIsUnique` | agent-manager-service/repositories/deployment_repository.go:178-200 | The query for the current deployment has at most one row: the slot's deployed one. |
| `RateLimiter.LimiterRefinesLog` | agent-manager-service/controllers/websocket_controller.go:283-363 | For every run with a clock that does not go back, cleanups anywhere: an attempt is allowed iff fewer than the limit of earlier accepted attempts of that key lie within the last minute. |
| `RateLimiter.AllowedIff` | agent-manager-service/controllers/websocket_controller.go:283-314 | In numbers: an attempt is allowed iff fewer than the limit of attempts of its key that the controller accepted are less than 60 seconds old. |
| `RateLimiter.AdmittedNext` | agent-manager-service/controllers/websocket_controller.go:308-312 | An allowed attempt is recorded with its key and time, and nothing else is. |
| `RateLimiter.AdmittedIsLog` | agent-manager-service/controllers/websocket_controller.go:283-363 | For such runs, what the controller accepts by its pruned lists is exactly the specification's unbounded history. |
| `RateLimiter.WindowBound` | agent-manager-service/controllers/websocket_controller.go:283-363 | With a clock that does not go back, no one-minute window, open at its start, holds more attempts of a key accepted by the controller than the limit, cleanups anywhere. |
| `RateLimiter.AtMostLimitPerMinute` | agent-manager-service/controllers/websocket_controller.go:283-363 | In any 60 000 000 000 nanoseconds at most the limit of attempts of a key is accepted. |
| `RateLimiter.ClockBackExceeds` | agent-manager-service/controllers/websocket_controller.go:283-363 | That the clock does not go back is needed: an attempt, a cleanup a minute later and a second attempt at the first one's time are both accepted under limit 1. |
| `RateLimiter.ClosedWindowBound` | agent-manager-service/controllers/websocket_controller.go:283-314 | With a clock that does not go back, a minute closed at both ends holds what the half-open one holds plus what the controller accepted exactly at its start: at most twice the limit, and at most the limit unless an attempt was accepted exactly at its start. |
| `RateLimiter.ClosedWindowHoldsTwice` | agent-manager-service/controllers/websocket_controller.go:283-314 | That bound is reached for every limit, key and start, by a run whose clock does not go back: the controller accepts two bursts exactly a minute apart in full. |
| `RateLimiter.KeysAreIndependent` | agent-manager-service/controllers/websocket_controller.go:283-363 | With a clock that does not go back, the controller accepts of a key exactly what it would accept without any attempts of other keys and without cleanups. |
| `RateLimiter.ListsStayShort` | agent-manager-service/controllers/websocket_controller.go:283-363 | No stored list grows beyond the limit. |
| `RateLimiter.CleanupKeepsActiveKeys` | agent-manager-service/controllers/websocket_controller.go:320-363 | With a clock that does not go back, after a cleanup exactly the keys with an accepted attempt in the last minute are stored. |
| `RateLimiter.KeepRecent` | agent-manager-service/controllers/websocket_controller.go:290-299 | The filtering loop keeps exactly the attempts after the cutoff, in order. |
| `RateLimiter.Limiter.CheckRateLimit` | agent-manager-service/controllers/websocket_controller.go:283-314 | The method makes exactly one attempt step on the lists, storing nothing when it refuses. |
| `RateLimiter.Limiter.CleanupRateLimitMap` | agent-manager-service/controllers/websocket_controller.go:320-363 | The loop over the keys drops idle keys and prunes the others; it is exactly one cleanup step. |
| `LikePatterns.SearchIsContainment` | agent-manager-service/repositories/catalog_repository.go:467-474 | For all texts, the search pattern is a valid LIKE pattern and matches iff the text contains the search text (LIKE as in section 8.5 of ISO/IEC 9075:1992). |
| `LikePatterns.ThreePassesAreOne` | agent-manager-service/repositories/custom_evaluator_repository.go:151-156 | The three chained replacements equal one pass per character, because the backslash goes first. |
| `LikePatterns.ParseEscaped` | agent-manager-service/repositories/catalog_repository.go:187-191 | Whatever follows an escaped text keeps its own meaning, so the closing % stays a wildcard. |
| `LikePatterns.CaseInsensitiveSearch` | agent-manager-service/repositories/catalog_repository.go:153-156 | Lower-casing both sides makes the search containment up to case, for any per-character case mapping that fixes the special characters. |
| `LikePatterns.CaseCommutesWithEscape` | agent-manager-service/repositories/catalog_repository.go:153-156 | Lower-casing commutes with escaping. |
| `LikePatterns.UnescapedSearchExactIff` | agent-manager-service/repositories/catalog_repository.go:467-474 | Without escaping the search is exact iff the text has no special character. |
| `LikePatterns.UnescapeEscape` | agent-manager-service/repositories/catalog_repository.go:467-474 | The search text can be read back from its escaped form. |
| `SequenceAdherence.Evaluate` | agent-manager-service/catalog/builtin_evaluators.go:147 | The evaluator skips without expected tools, compares lists in strict mode, and otherwise scores the greedy index over the number of expected tools. |
| `SequenceAdherence.ExpectedMeaning` | agent-manager-service/catalog/builtin_evaluators.go:147 | The trajectory's tools are expected iff the evaluator uses it and it has a step; otherwise the configured sequence is. |
| `SequenceAdherence.NonEmptyMeaning` | agent-manager-service/catalog/builtin_evaluators.go:147 | Only empty names are dropped; the others stay in order. |
| `SequenceAdherence.GreedyIsOptimal` | agent-manager-service/catalog/builtin_evaluators.go:147 | The index is the length of the longest prefix of the expected tools that is a subsequence of the calls. |
| `SequenceAdherence.PassedIffSubsequence` | agent-manager-service/catalog/builtin_evaluators.go:147 | The non-strict check passes iff the whole expected list is a subsequence of the calls. |
| `SequenceAdherence.ExtraCallsNeverHurt` | agent-manager-service/catalog/builtin_evaluators.go:147 | Calls inserted anywhere never lower the index. |
| `SequenceAdherence.StrictImpliesNonStrict` | agent-manager-service/catalog/builtin_evaluators.go:147 | Calls that pass strictly pass non-strictly. |
| `SequenceAdherence.ScoreRange` | agent-manager-service/catalog/builtin_evaluators.go:147 | The non-strict score lies in [0, 1] and is 1 exactly on a pass. |
| `GatewayEnvironments.ListGateways` | agent-manager-service/controllers/gateway_controller.go:279-299 | In whatever order the one query answers, the bulk path shows every listed gateway each of its environments once: exactly the set the per-gateway path shows, failed fetches included. |
| `GatewayEnvironments.GetGatewayEnvironmentsFromDB` | agent-manager-service/controllers/gateway_controller.go:564-586 | In whatever order its query answers, the per-gateway path shows each of the gateway's environments once. |
| `GatewayEnvironments.MatchShows` | agent-manager-service/controllers/gateway_controller.go:609-649 | Matching the rows of one gateway shows each mapped and existing environment once, and nothing else. |
| `GatewayEnvironments.MatchGatewayEnvironments` | agent-manager-service/controllers/gateway_controller.go:609-649 | Matching through a map of environments equals looking up each mapping in the list. |
| `GatewayEnvironments.GetEnvironmentMappingsByGatewayIDs` | agent-manager-service/repositories/gateway_repository.go:398-417 | One query, answered in any order and grouped in one pass, gives each listed gateway exactly its own rows, each once. |
| `GatewayEnvironments.ShownIffMapped` | agent-manager-service/controllers/gateway_controller.go:609-649 | A gateway is shown an environment iff it is mapped to it and the environment exists. |
| `GatewayEnvironments.ShownFields` | agent-manager-service/controllers/gateway_controller.go:609-649 | Every shown environment is a fetched one with all its fields, for the organization. |
| `ScorePublishing.PublishAgain` | agent-manager-service/services/monitor_scores_service.go:54-175 | After a successful publish, publishing the same request again succeeds and changes nothing, whatever ids the database would generate. |
| `ScorePublishing.NothingStaleLeft` | agent-manager-service/repositories/evaluation_score_repository.go:218-226 | After a successful publish no score of the monitor on the named traces belongs to an evaluator of another run. |
| `ScorePublishing.PublishItemsEffect` | agent-manager-service/services/monitor_scores_service.go:88-168 | Key by key, what a successful publish stores: scores that are not stale stay, the last row of the request for a key wins, an existing row keeps its monitor. |
| `ScorePublishing.PutScoresUpserts` | agent-manager-service/repositories/evaluation_score_repository.go:197-213 | Upserting rows in order: the last row for a key counts and an existing row keeps its monitor column. |
| `ScorePublishing.PutEvaluatorsEffect` | agent-manager-service/repositories/evaluation_score_repository.go:168-180 | Upserting evaluators keeps existing ids and other rows and stores each given row. |
| `ScoreTables.BatchesMeaning` | agent-manager-service/repositories/evaluation_score_repository.go:197-213 | The batched insert succeeds iff every row is allowed and no batch repeats a key, and is then one pass over all rows. |
| `ScoreTables.BatchSizeIrrelevant` | agent-manager-service/repositories/evaluation_score_repository.go:197-213 | For distinct keys the outcome does not depend on the batch size. |
| `ScoreTables.ChunksDistinctIff` | agent-manager-service/repositories/evaluation_score_repository.go:197-213 | Rows i and j are in the same statement iff i and j have the same quotient by the batch size. |
| `ScoreTables.RepeatedKeyDependsOnSize` | agent-manager-service/repositories/evaluation_score_repository.go:197-213 | A key given twice, at rows i and j, is an error iff both rows fall into the same batch; otherwise the later row wins. |
| `ScoreTables.RepeatAtHundred` | agent-manager-service/repositories/evaluation_score_repository.go:197-213 | With batches of 100, a key repeated at rows 0 and 99 is an error, at rows 0 and 100 it is not. |
| `PublishRuns.LastPublishWins` | agent-manager-service/repositories/evaluation_score_repository.go:197-226 | After any sequence of publishes, every score of a (monitor, trace) belongs to the run of the latest successful publish of that monitor naming the trace. |
| `PublishRuns.OtherTracesUntouched` | agent-manager-service/repositories/evaluation_score_repository.go:218-226 | A publish leaves the scores of traces it does not name as they were, whatever their monitor. |
| `OtherMonitors.OtherMonitorUntouchedIff` | agent-manager-service/repositories/evaluation_score_repository.go:197-213 | A successful publish leaves the scores of another monitor as they were iff none of its items overwrites one of them with other values. |
| `OtherMonitors.RowOfOtherMonitor` | agent-manager-service/repositories/evaluation_score_repository.go:197-213 | Key by key: a score of another monitor stays, keeps its monitor, and takes the values of the last item of the request that hits its key, if there is one. |
| `OtherMonitors.OtherMonitorsUntouched` | agent-manager-service/repositories/evaluation_score_repository.go:197-226 | A request whose keys no other monitor holds touches no other monitor's scores, whether it succeeds or not. |
| `OtherMonitors.OwnedLeavesOtherMonitors` | agent-manager-service/services/monitor_scores_service.go:54-175 | When each run is published under its own monitor only, a publish touches no other monitor's scores. |
| `OtherMonitors.RunLeavesOtherMonitors` | agent-manager-service/services/monitor_scores_service.go:54-175 | The same over any sequence of publishes: a monitor's scores change only in its own publishes. |
| `OtherMonitors.SecondMonitorOverwrites` | agent-manager-service/repositories/evaluation_score_repository.go:197-213 | A concrete pair of publishes of one run under two monitors: the first monitor's score 1.0 becomes 0.0 and stays the first monitor's. |
| `PublishAcceptance.AcceptedIff` | agent-manager-service/services/monitor_scores_service.go:54-175 | A publish succeeds iff every item has a start time and a known evaluator, evaluator names are not repeated, all columns are in range, and no batch of 100 repeats an evaluator, trace and span — whatever ids the database generates. |
| `PublishAcceptance.AcceptedSpelledOut` | agent-manager-service/services/monitor_scores_service.go:54-175 | The same condition in terms of the request's fields and the numbers of the columns: lengths of 255, 32-bit counts, three levels, scores in [0, 1], and no two items within a hundred rows for the same evaluator, trace and span. |
| `PublishAcceptance.RepeatsIff` | agent-manager-service/repositories/evaluation_score_repository.go:197-213 | Rows repeat a key within a batch exactly where the items do. |
| `PublishRuns.KeysOwnedIff` | agent-manager-service/repositories/evaluation_score_repository.go:197-213 | The keys of all items of a successful publish end with the publishing monitor iff no other monitor holds one of them. |
| `StoredItems.StoredForItem` | agent-manager-service/services/monitor_scores_service.go:54-175 | For every item of a successful publish, a score is stored under its key with the values of the last item of the request for the same evaluator, trace and span; it belongs to the monitor that held the key before, if another one did, else to the publishing one. |
| `StoredItems.StoredColumns` | agent-manager-service/services/monitor_scores_service.go:116-160 | Every item of a successful publish has a score under its evaluator of the run, its trace and its span; unless a later item replaces it, the score holds the item's score, explanation, skip reason and start time and the label of its level. |
| `StoredItems.SpansApart` | agent-manager-service/services/monitor_scores_service.go:123-146 | Items of one trace with different span ids are stored side by side. |
| `StoredItems.StoredAggregates` | agent-manager-service/services/monitor_scores_service.go:59-73 | Every aggregate is stored for run and monitor with its identifier, level, aggregations and counts; a row that was there keeps its id. |
| `StoredItems.OtherEvaluatorsStay` | agent-manager-service/repositories/evaluation_score_repository.go:168-180 | Evaluators that the request does not name stay as they are. |
| `StoredItems.RemainsIff` | agent-manager-service/repositories/evaluation_score_repository.go:218-226 | A successful publish deletes exactly the monitor's own scores, on traces that the request names, whose evaluators are not of this run. |
| `ScoreIntegrity.PublishKeepsConstraints` | agent-manager-service/db_migrations/006_create_evaluation_scores.go:29-88 | Every publish, successful or not, keeps evaluator ids unique, scores referring to evaluators, and score values in [0, 1]. |
| `ScoreIntegrity.RunKeepsConstraints` | agent-manager-service/db_migrations/006_create_evaluation_scores.go:29-88 | The same over any sequence of publishes, whichever monitors publish which runs. |
| `PublishRuns.RunOfTwoMonitors` | agent-manager-service/repositories/evaluation_score_repository.go:197-213 | A concrete pair of successful publishes of one run under two monitors after which the second monitor does not own its score. |
| `PublishRuns.RunKeepsOwned` | agent-manager-service/services/monitor_scores_service.go:54-175 | When each run is published under one monitor only, every evaluator and score stays with its owner over any sequence of publishes. |
| `PublishRuns.PublishKeepsOwned` | agent-manager-service/services/monitor_scores_service.go:54-175 | One publish under the owning monitor keeps every evaluator and score with its owner. |
| `PublishRuns.OwnedIsNeverHeld` | agent-manager-service/services/monitor_scores_service.go:54-175 | In such states no item's key is held by another monitor. |
| `ScoreRepository.ScoreStore.UpsertMonitorRunEvaluators` | agent-manager-service/repositories/evaluation_score_repository.go:168-180 | The statement upserts all rows or none; a key given twice is an error. |
| `ScoreRepository.ScoreStore.DeleteStaleScores` | agent-manager-service/repositories/evaluation_score_repository.go:218-226 | The statement deletes exactly the stale scores, and nothing when either list is empty. |
| `ScoreRepository.ScoreStore.BatchCreateScores` | agent-manager-service/repositories/evaluation_score_repository.go:197-213 | The loop over batches of 100 equals the recursive meaning of batching; on failure nothing is stored. |
| `ScoreRepository.ScoreStore.BuildScores` | agent-manager-service/services/monitor_scores_service.go:103-160 | The loop turns all items into rows, or fails iff one names an unknown evaluator. |
| `ScoreRepository.ScoreStore.PublishScores` | agent-manager-service/services/monitor_scores_service.go:54-175 | The method — upsert evaluators, reload, delete stale, insert in batches, roll back on any error — runs exactly the publish transaction. |
| `PublishJob.BuildPayload` | evaluation-job/main.py:263-323 | The nested loops build one item per score and one aggregate per summary, in order. |
| `PublishJob.PayloadItems` | evaluation-job/main.py:286-318 | The payload has one item per score, summary by summary in order: score or reason, explanation, start time and span context are those of the score, empty texts left out. |
| `PublishJob.PayloadAggregates` | evaluation-job/main.py:270-283 | The payload has one aggregate per summary, under the evaluator's identifier if there is one, else under its name. |
| `PublishJob.ItemsWellFormed` | evaluation-job/main.py:275-305 | Every item has either a score or a non-empty reason for its absence, and names a summary of the job. |
| `PublishJob.JobNamesKnown` | evaluation-job/main.py:263-323 | A job whose summaries have distinct names never names an unknown or repeated evaluator. |
| `PublishJob.JobAcceptedIff` | agent-manager-service/services/monitor_scores_service.go:54-175 | Exactly when the server accepts a job's request, in terms of its summaries and scores. |
| `Retries.PostWithRetries` | evaluation-job/main.py:336-366 | For every pattern of lost, failed and delivered posts: the job reports success iff some attempt is answered 201 with no client error before it; the request was stored iff some attempt that was made arrived and was served 201; however often it was stored, the state is as storing it once leaves it; attempts are left unused only after a 201 or a status from 400 to 499; and the time slept is that of the attempts made. |
| `Retries.AttemptByCases` | evaluation-job/main.py:337-364 | What each kind of attempt leads to: a delivered 201 ends the job with success, a status from 400 to 499 with failure, and everything else, lost messages and 5xx included, is followed by the next attempt. |
| `Retries.DeliveredSucceeds` | evaluation-job/main.py:336-366 | A storable request is reported as stored when some attempt gets through and none is refused a token with a status from 400 to 499. |
| `Retries.Attempt` | evaluation-job/main.py:337-364 | One attempt keeps what is known about the attempts made and those to come, or ends the loop with the right report. |
| `Retries.OutcomeIff` | evaluation-job/main.py:336-366 | From request and network alone: success is reported iff the request is storable and the attempt at which the job stops is delivered; it is stored iff, besides, that attempt is delivered or an earlier answer was lost. |
| `Retries.ServeAppliesOnce` | evaluation-job/main.py:336-366 | One more delivery of the same request keeps the state as storing it once leaves it. |
| `PublishJob.ServerAbsorbs` | agent-manager-service/services/monitor_scores_service.go:54-175 | The score server absorbs repeated requests, whatever ids it would generate, so at-least-once delivery is as good as exactly once. |
| `PublishJob.Answers` | agent-manager-service/controllers/monitor_scores_publisher_controller.go:50-93 | The server answers 400 to an empty request, 201 when it stored the request and 500 when it could not. |
| `PublishJob.JobSucceeds` | evaluation-job/main.py:336-366 | A storable job reports success when some attempt gets through and none is refused a token with a status from 400 to 499. |
| `PublishJob.JobOutcomeIff` | evaluation-job/main.py:336-366 | Before anything is sent: success is reported iff the request is acceptable and the attempt at which the job stops is delivered; a reported failure was stored nevertheless iff the request is acceptable, that attempt is not delivered, and the answer of an earlier one was lost. |
| `PublishJob.PublishScores` | evaluation-job/main.py:241-366 | The job reports and stores as the retry loop does on its payload and the score server, with at most six seconds of sleep; nothing to publish is a success without a request. |
| `Retries.SleptTotal` | evaluation-job/main.py:358-364 | The waits before attempt i add up to initial × (2^i − 1). |
| `Retries.SleptBound` | evaluation-job/main.py:358-364 | With n attempts the job sleeps at most initial × (2^(n−1) − 1). |
| `PublishJob.FailureMayBeStored` | evaluation-job/main.py:336-366 | Three attempts of which the first is stored and loses its answer and the others do not arrive: the job reports failure and the scores are stored. |
| `ScoreAggregation.BatchEqualsSingle` | agent-manager-service/repositories/evaluation_score_repository.go:484-534 | The multi-evaluator time series restricted to any of its evaluators equals that evaluator's own time series, for every list, window and granularity, invalid ones included. |
| `ScoreMeans.BatchOnlyListed` | agent-manager-service/repositories/evaluation_score_repository.go:484-534 | The series of several evaluators has rows of those evaluators only. |
| `ScoreMeans.TraceMeaning` | agent-manager-service/repositories/evaluation_score_repository.go:290-325 | A trace is in a series iff some score of the monitor, in the window, of an evaluator of that name contributes; its time is the least of their start times; its mean times the number of contributing scores with a value and without skip reason is their sum, and is missing iff there are none. |
| `ScoreMeans.SkippedNeverCount` | agent-manager-service/repositories/evaluation_score_repository.go:319-323 | Skipped scores never change a mean. |
| `ScoreMeans.BucketMeaning` | agent-manager-service/repositories/evaluation_score_repository.go:326-334 | A bucket is in a series iff some trace starts in it; it counts those traces and those of them without a mean, and its mean is that of the others' means. |
| `ScoreMeans.BucketBorders` | agent-manager-service/repositories/evaluation_score_repository.go:304-316 | Buckets are 60 s, 3600 s, 86400 s and 7 days long; weeks begin on Mondays. |
| `ScoreMeans.GranularityTexts` | agent-manager-service/repositories/evaluation_score_repository.go:306-316 | Both series are given for minute, hour, day and week and refused for any other text. |
| `ScoreAggregation.CoarseningConserves` | agent-manager-service/repositories/evaluation_score_repository.go:290-335 | A coarse bucket's total and skipped counts are the sums over the fine buckets it covers, and so is its mean times its number of scored traces. |
| `ScoreAggregation.BucketsNest` | agent-manager-service/repositories/evaluation_score_repository.go:304-316 | In UTC minute, hour, day and week buckets nest. |
| `ScoreAggregation.InOwnBucket` | agent-manager-service/repositories/evaluation_score_repository.go:304-316 | A moment lies in its bucket. |
| `ScoreAggregation.EachTraceInOneBucket` | agent-manager-service/repositories/evaluation_score_repository.go:304-334 | Each trace is counted in exactly one bucket: over a whole series the totals add up to the number of traces, the skipped counts to the skipped traces, and the weighted means to the sum of the trace means. |
| `ScoreAggregation.MeansInRange` | agent-manager-service/db_migrations/006_create_evaluation_scores.go:59 | With scores in [0, 1], every mean of a series is, and a bucket has no mean exactly when all its traces were skipped. |
| `ScoreAggregation.TraceMeanInRange` | agent-manager-service/repositories/evaluation_score_repository.go:339-368 | The mean of a trace's scores lies in [0, 1]. |
| `TracePages.PagesAreExact` | agent-manager-service/repositories/evaluation_score_repository.go:407-447 | On fixed tables, consecutive pages that reach the reported total concatenate to the full listing, which has every trace of the query exactly once and the reported total as its length. |
| `TracePages.OnPageIff` | agent-manager-service/repositories/evaluation_score_repository.go:430-446 | A trace is on a page iff the number of traces sorted before it falls into the page. |
| `TracePages.AscendingReversesDescending` | agent-manager-service/repositories/evaluation_score_repository.go:398-446 | The ascending listing is the exact reverse of the descending one. |
| `TracePages.ListingTraces` | agent-manager-service/repositories/evaluation_score_repository.go:418-428 | The listing has distinct traces, exactly those of the query, as many as COUNT(DISTINCT trace_id). |
| `TracePages.ListedTraces` | agent-manager-service/repositories/evaluation_score_repository.go:413-443 | A trace is listed iff some score of a monitor of the agent in the window has it; its row holds the least start time, the number of scores and of skipped ones, and the mean of the others. |
| `TracePages.ListingOrder` | agent-manager-service/repositories/evaluation_score_repository.go:398-443 | With "asc" in any case earlier traces come first, ties by ascending id; with any other text later ones, ties by descending id. |
| `TracePages.PageRows` | agent-manager-service/repositories/evaluation_score_repository.go:444-446 | A page holds the rows of the listing from its offset on, at most as many as its limit, and reports the length of the listing. |
| `TracePages.GroupingConserves` | agent-manager-service/repositories/evaluation_score_repository.go:430-446 | The per-trace counts add up to the number of scores the query selects, and skipped scores never exceed the count. |

## Left out

- HTTP handlers, routing, authentication, logging, configuration, YAML generation and WebSocket broadcasts: input and output only.
- Concurrent READ COMMITTED transactions: each transaction is one atomic step, so the count bound is not claimed for two creates that overlap.
- GORM and PostgreSQL internals, including what reads through `Scan` report when no row is found: read properties are about existing rows.
- Soft deletion of gateways: the repository never sets the deletion time it filters by.
- Updates of gateways, activity flags and catalog flags, and the columns of provider and proxy updates other than configuration and provider: they rewrite columns that are not modelled and that no constraint mentions.
- Creation of associations: the repositories only delete them.
- API keys and agent configuration tables: they only take part through CASCADE foreign keys like those modelled.
- CreateGateway, CreateMapping, DeleteMapping, CreateProxy, UpdateProxy and DeleteProxy are modelled as transactions on values only, not as methods of `Store`.
- Token hashes: a token is found by its prefix, comparing hashes is outside the model.
- Length limits of text columns outside the score tables, texts with NUL characters, and texts over a limit only by trailing blanks, which the database cuts instead of refusing.
- The limit of 65535 parameters per PostgreSQL statement, which the stale delete and the evaluator upsert of a very large request can exceed.
- Other writes to the score store between the attempts of one job: the retry theorems are about one job and its server.
- Deployment contents in listings: the ranked query does not select the content column.
- The catalog's totals under an environment filter and the grouping of deployments per catalog entry: the first depends on how GORM combines Distinct and Count, the second repeats the grouping proved for gateway environments.
- The linear scores of iteration and token efficiency: closed formulas with easy laws.
- Label tables, monitor summaries and the multi-evaluator trace query: the first two repeat the grouping laws shown here, the third has one limit for all evaluators.
- Rounding of DECIMAL columns and floating point: scores and means are exact.
- Time series are maps from buckets; their order by time is not modelled.
- Generated score ids and creation times: a score's key identifies it.
