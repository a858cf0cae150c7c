/**
 * The deployment service of LLM providers and proxies: checks on what was read, then one
 * repository call. Here nothing happens between checks and call; `DeploymentRaces` says
 * what remains of these contracts when other calls come in between.
 */
module DeploymentService {
  import opened Common
  import opened Tables
  import opened Transactions
  import opened Integrity

  function Undeploy(db: Db, artifact: Id, id: Id, gateway: Id, org: string, now: int): Outcome {
    if !Found(db, id, artifact, org) then RolledBack(NotFound)
    else if db.deployments[id].key.gateway != gateway then RolledBack(GatewayMismatch)
    else if StateOf(db, id) != Deployed then RolledBack(NotActive)
    else SetCurrent(db, Some(artifact), org, Some(gateway), Some(id), Undeployed, now)
  }

  function Restore(db: Db, artifact: Id, id: Id, gateway: Id, org: string, now: int): Outcome {
    var k := Key(artifact, org, gateway);
    if !Found(db, id, artifact, org) then RolledBack(NotFound)
    else if db.deployments[id].key.gateway != gateway then RolledBack(GatewayMismatch)
    else if k in db.statuses && db.statuses[k].deploymentId == id && db.statuses[k].status == Deployed then
      RolledBack(AlreadyDeployed)
    else SetCurrent(db, Some(artifact), org, Some(gateway), Some(id), Deployed, now)
  }

  function Remove(db: Db, artifact: Id, id: Id, org: string): Outcome {
    if !Found(db, id, artifact, org) then RolledBack(NotFound)
    else if StateOf(db, id) == Deployed then RolledBack(StillDeployed)
    else DeleteDeployment(db, id, artifact, org)
  }

  /** Why the service refuses, in this order: not found, another gateway, wrong state. */
  lemma Refusals(db: Db, artifact: Id, id: Id, gateway: Id, org: string, now: int)
    ensures var found := id in db.deployments && db.deployments[id].key.artifact == artifact && db.deployments[id].key.org == org;
            && (!found ==>
                  && Undeploy(db, artifact, id, gateway, org, now) == RolledBack(NotFound)
                  && Restore(db, artifact, id, gateway, org, now) == RolledBack(NotFound)
                  && Remove(db, artifact, id, org) == RolledBack(NotFound))
            && (found && db.deployments[id].key.gateway != gateway ==>
                  && Undeploy(db, artifact, id, gateway, org, now) == RolledBack(GatewayMismatch)
                  && Restore(db, artifact, id, gateway, org, now) == RolledBack(GatewayMismatch))
            && (found && db.deployments[id].key.gateway == gateway ==>
                  && (StateOf(db, id) != Deployed ==> Undeploy(db, artifact, id, gateway, org, now) == RolledBack(NotActive))
                  && (StateOf(db, id) == Deployed ==> Restore(db, artifact, id, gateway, org, now) == RolledBack(AlreadyDeployed)))
            && (found && StateOf(db, id) == Deployed ==> Remove(db, artifact, id, org) == RolledBack(StillDeployed))
  {
  }

  function PointTo(db: Db, k: Key, row: StatusRow): Db {
    db.(statuses := db.statuses[k := row])
  }

  /** Pointing a slot at one of its deployments archives the slot's others and touches no other slot. */
  lemma PointToStates(db: Db, k: Key, row: StatusRow)
    requires KeysAgree(db) && CreatedFor(db, row.deploymentId, k)
    ensures KeysAgree(PointTo(db, k, row))
    ensures forall d | d in db.deployments ::
              StateOf(PointTo(db, k, row), d) == if d == row.deploymentId then row.status
                                                 else if db.deployments[d].key == k then Archived
                                                 else StateOf(db, d)
  {
  }

  /**
   * Undeploying succeeds iff the deployment is the deployed one of that slot, and then
   * only turns its state to UNDEPLOYED.
   */
  lemma UndeployContract(db: Db, artifact: Id, id: Id, gateway: Id, org: string, now: int)
    requires Consistent(db) && KeysAgree(db)
    ensures var o := Undeploy(db, artifact, id, gateway, org, now);
            && (o.Committed? <==> CreatedFor(db, id, Key(artifact, org, gateway)) && StateOf(db, id) == Deployed)
            && (o.Committed? ==>
                  && KeysAgree(o.db) && o.db.deployments == db.deployments
                  && (forall d | d in db.deployments ::
                        StateOf(o.db, d) == if d == id then Undeployed else StateOf(db, d)))
  {
    var k := Key(artifact, org, gateway);
    if CreatedFor(db, id, k) && StateOf(db, id) == Deployed {
      PointToStates(db, k, StatusRow(id, Undeployed, now));
    }
  }

  /**
   * Restoring succeeds iff the deployment is of that slot and not deployed already; it
   * becomes the deployed one and whichever was current before becomes archived.
   */
  lemma RestoreContract(db: Db, artifact: Id, id: Id, gateway: Id, org: string, now: int)
    requires Consistent(db) && KeysAgree(db)
    ensures var k := Key(artifact, org, gateway);
            var o := Restore(db, artifact, id, gateway, org, now);
            && (o.Committed? <==> CreatedFor(db, id, k) && StateOf(db, id) != Deployed)
            && (o.Committed? ==>
                  && KeysAgree(o.db) && o.db.deployments == db.deployments
                  && (forall d | d in db.deployments ::
                        StateOf(o.db, d) == if d == id then Deployed
                                            else if db.deployments[d].key == k then Archived
                                            else StateOf(db, d)))
  {
    var k := Key(artifact, org, gateway);
    if CreatedFor(db, id, k) && StateOf(db, id) != Deployed {
      PointToStates(db, k, StatusRow(id, Deployed, now));
    }
  }

  lemma UndeployRewrites(db: Db, artifact: Id, id: Id, gateway: Id, org: string, now: int)
    requires Undeploy(db, artifact, id, gateway, org, now).Committed?
    ensures var k := Key(artifact, org, gateway);
            && CreatedFor(db, id, k) && k in db.statuses
            && db.statuses[k] == StatusRow(id, Deployed, db.statuses[k].updatedAt)
            && k.artifact in db.artifacts && k.gateway in db.gateways
            && Undeploy(db, artifact, id, gateway, org, now).db == PointTo(db, k, StatusRow(id, Undeployed, now))
  {
  }

  lemma RestoreRewrites(db: Db, artifact: Id, id: Id, gateway: Id, org: string, now: int)
    requires CreatedFor(db, id, Key(artifact, org, gateway)) && artifact in db.artifacts && gateway in db.gateways
    requires StateOf(db, id) != Deployed
    ensures Restore(db, artifact, id, gateway, org, now)
            == Committed(PointTo(db, Key(artifact, org, gateway), StatusRow(id, Deployed, now)))
  {
  }

  lemma PointToTwice(db: Db, k: Key, row: StatusRow, again: StatusRow)
    ensures PointTo(PointTo(db, k, row), k, again) == PointTo(db, k, again)
  {
    assert db.statuses[k := row][k := again] == db.statuses[k := again];
  }

  /** Undeploy then restore gives back the same database, the time of the status row aside. */
  lemma UndeployRestoreRoundTrip(db: Db, artifact: Id, id: Id, gateway: Id, org: string, t0: int, t1: int)
    requires Consistent(db) && KeysAgree(db)
    requires Undeploy(db, artifact, id, gateway, org, t0).Committed?
    ensures var k := Key(artifact, org, gateway);
            && k in db.statuses
            && Restore(Undeploy(db, artifact, id, gateway, org, t0).db, artifact, id, gateway, org, t1)
               == Committed(db.(statuses := db.statuses[k := db.statuses[k].(updatedAt := t1)]))
  {
    var k := Key(artifact, org, gateway);
    UndeployRewrites(db, artifact, id, gateway, org, t0);
    RestoreRewrites(PointTo(db, k, StatusRow(id, Undeployed, t0)), artifact, id, gateway, org, t1);
    PointToTwice(db, k, StatusRow(id, Undeployed, t0), StatusRow(id, Deployed, t1));
  }

  /** Deleting a slot's status archives every deployment of the slot and changes no other state. */
  lemma DeleteStatusArchives(db: Db, k: Key)
    ensures var o := DeleteStatus(db, k);
            && o.Committed? && o.db.deployments == db.deployments
            && (forall d | d in db.deployments ::
                  StateOf(o.db, d) == if db.deployments[d].key == k then Archived else StateOf(db, d))
  {
  }

  /** A deployed row cannot be removed; removing any other keeps the state of all remaining ones. */
  lemma RemoveContract(db: Db, artifact: Id, id: Id, org: string)
    requires Consistent(db) && KeysAgree(db)
    ensures var o := Remove(db, artifact, id, org);
            && (o.Committed? <==> Found(db, id, artifact, org) && StateOf(db, id) != Deployed)
            && (o.Committed? ==>
                  && Consistent(o.db) && KeysAgree(o.db)
                  && o.db.deployments.Keys == db.deployments.Keys - {id}
                  && (forall d | d in o.db.deployments :: StateOf(o.db, d) == StateOf(db, d)))
  {
    DropDeploymentsConsistent(db, {id});
    DropKeepsKeysAgree(db, {id});
  }
}
