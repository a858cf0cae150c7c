/**
 * What the deployment service achieves when other calls come between the transaction in
 * which it checks a deployment and the one in which it writes.
 */
module DeploymentRaces {
  import opened Common
  import opened Tables
  import opened Transactions
  import opened Integrity
  import opened DeploymentLimits
  import opened DeploymentRuns
  import opened DeploymentService

  // ---- The write ----------------------------------------------------------------------------------

  /** The slot has no current deployment, or this one. */
  predicate FreeFor(db: Db, k: Key, id: Id) {
    k in db.statuses ==> db.statuses[k].deploymentId == id
  }

  ghost predicate OthersUnchanged(before: Db, after: Db, id: Id) {
    forall d | d in before.deployments && d != id :: d in after.deployments && StateOf(after, d) == StateOf(before, d)
  }

  /** `SetCurrent` for the right slot leaves all other deployments in their states iff no other one is current there. */
  lemma SetCurrentSparesOthersIff(db: Db, k: Key, row: StatusRow)
    requires Consistent(db) && KeysAgree(db) && CreatedFor(db, row.deploymentId, k)
    ensures OthersUnchanged(db, PointTo(db, k, row), row.deploymentId) <==> FreeFor(db, k, row.deploymentId)
  {
    PointToStates(db, k, row);
    if !FreeFor(db, k, row.deploymentId) {
      var other := db.statuses[k].deploymentId;
      assert StateOf(db, other) != Archived && StateOf(PointTo(db, k, row), other) == Archived;
    }
  }

  /** The service's write of a deployment that it found, at some point, to be of slot `k`. */
  ghost predicate Writes(states: seq<Db>, steps: seq<Step>, c: nat, i: nat, k: Key, id: Id, status: DeploymentStatus)
    requires IsRun(states, steps)
  {
    && c <= i < |steps|
    && CreatedFor(states[c], id, k)
    && steps[i].StepSetCurrent?
    && steps[i] == StepSetCurrent(Some(k.artifact), k.org, Some(k.gateway), Some(id), status, steps[i].updatedAt)
  }

  /**
   * Whatever happened since the check, a committed write of the service gives the deployment
   * the state, archives the others of the slot and touches no other slot; it leaves all other
   * deployments in their states iff no other one is current in the slot when it commits.
   */
  lemma WriteInRun(states: seq<Db>, steps: seq<Step>, c: nat, i: nat, k: Key, id: Id, status: DeploymentStatus)
    requires IsRun(states, steps) && Writes(states, steps, c, i, k, id, status)
    requires Apply(states[i], steps[i]).Committed?
    ensures CreatedFor(states[i], id, k)
    ensures states[i + 1].deployments == states[i].deployments
    ensures forall d | d in states[i].deployments ::
              StateOf(states[i + 1], d) == if d == id then status
                                           else if states[i].deployments[d].key == k then Archived
                                           else StateOf(states[i], d)
    ensures OthersUnchanged(states[i], states[i + 1], id) <==> FreeFor(states[i], k, id)
  {
    var db, row := states[i], StatusRow(id, status, steps[i].updatedAt);
    RunIsSafe(states, steps, i);
    assert StepOfRun(states, steps, i);
    GuardIsStable(states, steps, c, i, id, k);
    assert states[i + 1] == PointTo(db, k, row);
    PointToStates(db, k, row);
    SetCurrentSparesOthersIff(db, k, row);
  }

  // ---- What the check is still worth -----------------------------------------------------------------

  /** No call from `c` on, before `i`, makes a deployment other than `id` current in the slot. */
  ghost predicate NoOtherMade(states: seq<Db>, steps: seq<Step>, c: nat, i: nat, k: Key, id: Id)
    requires |states| == |steps| + 1 && i < |states|
  {
    forall m: nat, x | c <= m < i && x != id :: !MakesCurrent(states[m], steps[m], k, x)
  }

  lemma {:induction false} SlotStaysFree(states: seq<Db>, steps: seq<Step>, c: nat, i: nat, k: Key, id: Id)
    requires IsRun(states, steps) && c <= i < |states|
    requires FreeFor(states[c], k, id) && NoOtherMade(states, steps, c, i, k, id)
    ensures FreeFor(states[i], k, id)
    decreases i - c
  {
    if c < i {
      SlotStaysFree(states, steps, c, i - 1, k, id);
      assert StepOfRun(states, steps, i - 1);
      if k in states[i].statuses {
        var now := states[i].statuses[k].deploymentId;
        if now != id {
          OnlyWritersMovePointers(states[i - 1], steps[i - 1], k, now);
        }
      }
    }
  }

  /**
   * An undeploy whose check found the deployment deployed changes no other deployment's
   * state, unless another one was made current in the slot between check and write.
   */
  lemma UndeployInRun(states: seq<Db>, steps: seq<Step>, c: nat, i: nat, k: Key, id: Id)
    requires IsRun(states, steps) && Writes(states, steps, c, i, k, id, Undeployed)
    requires Apply(states[i], steps[i]).Committed? && StateOf(states[c], id) == Deployed
    requires NoOtherMade(states, steps, c, i, k, id)
    ensures OthersUnchanged(states[i], states[i + 1], id)
    ensures id in states[i + 1].deployments && StateOf(states[i + 1], id) == Undeployed
  {
    WriteInRun(states, steps, c, i, k, id, Undeployed);
    SlotStaysFree(states, steps, c, i, k, id);
  }

  /** The calls that can turn an existing deployment's state to DEPLOYED. */
  predicate Redeploys(s: Step, id: Id) {
    match s
    case StepSetCurrent(_, _, _, text, status, _) => text == Some(id) && status == Deployed
    case StepUpdateStatus(d, _, status, _) => d == id && status == Deployed
    case _ => false
  }

  /** What is current and DEPLOYED after a call was so before, or the call made it so. */
  ghost predicate NothingRedeployed(before: map<Key, StatusRow>, after: map<Key, StatusRow>, id: Id) {
    forall k | k in after && after[k].deploymentId == id && after[k].status == Deployed ::
      k in before && before[k].deploymentId == id && before[k].status == Deployed
  }

  lemma AcknowledgedRow(db: Db, d: Id, gateway: Id, status: DeploymentStatus, u: int, k: Key)
    requires k in After(db, UpdateStatus(db, d, gateway, status, u)).statuses
    ensures var row := After(db, UpdateStatus(db, d, gateway, status, u)).statuses[k];
            k in db.statuses && (row == db.statuses[k] || (db.statuses[k].deploymentId == d && row == StatusRow(d, status, u)))
  {
  }

  lemma AcknowledgementDoesNotRedeploy(db: Db, d: Id, gateway: Id, status: DeploymentStatus, u: int, id: Id)
    requires d != id || status != Deployed
    ensures NothingRedeployed(db.statuses, After(db, UpdateStatus(db, d, gateway, status, u)).statuses, id)
  {
    var after := After(db, UpdateStatus(db, d, gateway, status, u)).statuses;
    forall k | k in after && after[k].deploymentId == id && after[k].status == Deployed
      ensures k in db.statuses && db.statuses[k] == after[k]
    {
      AcknowledgedRow(db, d, gateway, status, u, k);
    }
  }

  lemma StatusWritesDoNotRedeploy(db: Db, s: Step, id: Id)
    requires (s.StepSetCurrent? || s.StepDeleteStatus?) && !Redeploys(s, id)
    ensures NothingRedeployed(db.statuses, After(db, Apply(db, s)).statuses, id)
  {
  }

  lemma CreateDoesNotRedeploy(db: Db, s: Step, id: Id)
    requires s.StepCreate? && s.req.id != id
    ensures NothingRedeployed(db.statuses, After(db, Apply(db, s)).statuses, id)
  {
  }

  lemma DeletesDoNotRedeploy(db: Db, s: Step, id: Id)
    requires s.StepDeleteDeployment? || s.StepDeleteGateway? || s.StepDeleteProvider? || s.StepDeleteProxy?
    ensures NothingRedeployed(db.statuses, After(db, Apply(db, s)).statuses, id)
  {
  }

  lemma StepDoesNotRedeploy(db: Db, s: Step, id: Id)
    requires !Redeploys(s, id) && (s.StepCreate? ==> s.req.id != id)
    ensures NothingRedeployed(db.statuses, After(db, Apply(db, s)).statuses, id)
  {
    if LeavesDeployments(s) {
      DeploymentsLeft(db, s);
    } else if s.StepCreate? {
      CreateDoesNotRedeploy(db, s, id);
    } else if s.StepUpdateStatus? {
      AcknowledgementDoesNotRedeploy(db, s.id, s.gateway, s.status, s.updatedAt, id);
    } else if s.StepSetCurrent? || s.StepDeleteStatus? {
      StatusWritesDoNotRedeploy(db, s, id);
    } else {
      DeletesDoNotRedeploy(db, s, id);
    }
  }

  lemma StateAfterStep(db: Db, t: Db, id: Id)
    requires id in db.deployments && id in t.deployments && t.deployments[id].key == db.deployments[id].key
    requires NothingRedeployed(db.statuses, t.statuses, id) && StateOf(db, id) != Deployed
    ensures StateOf(t, id) != Deployed
  {
  }

  /** Ids of earlier deployments are not used for new ones. */
  lemma CreatesAnother(states: seq<Db>, steps: seq<Step>, c: nat, i: nat, id: Id)
    requires IsRun(states, steps) && c <= i < |steps| && id in states[c].deployments
    ensures steps[i].StepCreate? ==> steps[i].req.id != id
  {
    assert StepOfRun(states, steps, i);
    assert states[..i + 1][c] == states[c];
  }

  /** A deployment found not deployed stays so until a restore or an acknowledgement deploys it. */
  lemma {:induction false} StaysNotDeployed(states: seq<Db>, steps: seq<Step>, c: nat, i: nat, id: Id)
    requires IsRun(states, steps) && c <= i < |states|
    requires id in states[c].deployments && StateOf(states[c], id) != Deployed
    requires id in states[i].deployments
    requires forall m | c <= m < i :: !Redeploys(steps[m], id)
    ensures StateOf(states[i], id) != Deployed
    decreases i - c
  {
    if c < i {
      Immutable(states, steps, c, i, id);
      Immutable(states, steps, i - 1, i, id);
      StaysNotDeployed(states, steps, c, i - 1, id);
      NextNotDeployed(states, steps, c, i - 1, id);
    }
  }

  lemma NextNotDeployed(states: seq<Db>, steps: seq<Step>, c: nat, i: nat, id: Id)
    requires IsRun(states, steps) && c <= i < |steps| && !Redeploys(steps[i], id)
    requires id in states[c].deployments && id in states[i].deployments && StateOf(states[i], id) != Deployed
    requires id in states[i + 1].deployments && SameRow(states[i].deployments[id], states[i + 1].deployments[id])
    ensures StateOf(states[i + 1], id) != Deployed
  {
    assert StepOfRun(states, steps, i);
    CreatesAnother(states, steps, c, i, id);
    StepDoesNotRedeploy(states[i], steps[i], id);
    StateAfterStep(states[i], states[i + 1], id);
  }

  /**
   * A committed delete removes one row and keeps the states of all others. When its check
   * found the deployment not deployed, it removes a deployed one only if a restore or an
   * acknowledgement deployed it between check and delete.
   */
  lemma RemoveInRun(states: seq<Db>, steps: seq<Step>, c: nat, i: nat, id: Id)
    requires IsRun(states, steps) && c <= i < |steps| && steps[i].StepDeleteDeployment? && steps[i].id == id
    requires Found(states[c], id, steps[i].artifact, steps[i].org) && StateOf(states[c], id) != Deployed
    requires Apply(states[i], steps[i]).Committed?
    ensures states[i + 1].deployments.Keys == states[i].deployments.Keys - {id}
    ensures forall d | d in states[i + 1].deployments :: StateOf(states[i + 1], d) == StateOf(states[i], d)
    ensures StateOf(states[i], id) == Deployed ==>
              exists m | c <= m < i ::
                || (steps[m].StepSetCurrent? && steps[m].idText == Some(id) && steps[m].status == Deployed)
                || (steps[m].StepUpdateStatus? && steps[m].id == id && steps[m].status == Deployed)
  {
    RunIsSafe(states, steps, i);
    assert StepOfRun(states, steps, i);
    DeleteKeepsStates(states[i], id);
    if forall m | c <= m < i :: !Redeploys(steps[m], id) {
      StaysNotDeployed(states, steps, c, i, id);
    }
  }

  lemma DeleteKeepsStates(db: Db, id: Id)
    ensures var t := DropDeployments(db, {id});
            && t.deployments.Keys == db.deployments.Keys - {id}
            && forall d | d in t.deployments :: StateOf(t, d) == StateOf(db, d)
  {
  }

  // ---- Both can go wrong -----------------------------------------------------------------------------

  lemma RunExtends(states: seq<Db>, steps: seq<Step>, s: Step)
    requires IsRun(states, steps)
    requires Guarded(states, s) && LegalAnswer(states[|steps|], s)
    ensures IsRun(states + [After(states[|steps|], Apply(states[|steps|], s))], steps + [s])
  {
    var longer, more := states + [After(states[|steps|], Apply(states[|steps|], s))], steps + [s];
    forall i: nat | i < |more| ensures StepOfRun(longer, more, i) {
      assert longer[..i + 1] == states[..i + 1];
      if i < |steps| {
        assert StepOfRun(states, steps, i);
      } else {
        assert states[..i + 1] == states;
      }
    }
  }

  /** A deploy to the slot, then the write of an undeploy that was checked before it. */
  function DeployThenUndeploy(req: NewDeployment, hardLimit: int, victims: seq<Id>, c: int, u: int, id: Id): seq<Step> {
    var k := req.key;
    [StepCreate(req, hardLimit, victims, c, u), StepSetCurrent(Some(k.artifact), k.org, Some(k.gateway), Some(id), Undeployed, u)]
  }

  /** A deploy to the slot keeps the deployment that was current, and makes the new one current. */
  lemma AfterDeploy(db: Db, req: NewDeployment, hardLimit: int, victims: seq<Id>, c: int, u: int, id: Id)
    requires KeysAgree(db) && CreatedFor(db, id, req.key) && IsCurrent(db, id)
    requires LimitReached(db, req.key, hardLimit) ==> OldestArchived(db, req.key, EVICTION_BATCH, victims)
    requires Create(db, req, hardLimit, victims, c, u).Committed?
    ensures var t := Create(db, req, hardLimit, victims, c, u).db;
            && KeysAgree(t) && CreatedFor(t, id, req.key) && CreatedFor(t, req.id, req.key) && req.id != id
            && req.key.artifact in t.artifacts && req.key.gateway in t.gateways
            && StateOf(t, req.id) == InitialStatus(req)
  {
    CreateEffect(db, req, hardLimit, victims, c, u);
    CreateRows(db, req, hardLimit, victims, c, u);
    CreateStatuses(db, req, hardLimit, victims, c, u);
    CreateKeysAgree(db, req, hardLimit, victims, c, u);
    assert id !in ArchivedOf(db, req.key);
    assert id in db.deployments.Keys - Gone(db, req.key, hardLimit, victims);
  }

  lemma UndeployWrite(t: Db, k: Key, id: Id, u: int)
    requires KeysAgree(t) && CreatedFor(t, id, k) && k.artifact in t.artifacts && k.gateway in t.gateways
    ensures var o := SetCurrent(t, Some(k.artifact), k.org, Some(k.gateway), Some(id), Undeployed, u);
            && o.Committed? && o.db.deployments == t.deployments
            && (forall d | d in t.deployments && t.deployments[d].key == k ::
                  StateOf(o.db, d) == if d == id then Undeployed else Archived)
  {
    PointToStates(t, k, StatusRow(id, Undeployed, u));
  }

  lemma LateUndeploy(db: Db, req: NewDeployment, hardLimit: int, victims: seq<Id>, c: int, u: int, id: Id)
    requires Consistent(db) && KeysAgree(db) && CreatedFor(db, id, req.key) && StateOf(db, id) == Deployed
    requires LimitReached(db, req.key, hardLimit) ==> OldestArchived(db, req.key, EVICTION_BATCH, victims)
    requires Create(db, req, hardLimit, victims, c, u).Committed?
    ensures var k, t := req.key, Create(db, req, hardLimit, victims, c, u).db;
            var o := SetCurrent(t, Some(k.artifact), k.org, Some(k.gateway), Some(id), Undeployed, u);
            && req.id in t.deployments && StateOf(t, req.id) == InitialStatus(req)
            && o.Committed? && o.db.deployments == t.deployments && id in o.db.deployments
            && StateOf(o.db, id) == Undeployed && StateOf(o.db, req.id) == Archived
  {
    var t := Create(db, req, hardLimit, victims, c, u).db;
    AfterDeploy(db, req, hardLimit, victims, c, u, id);
    UndeployWrite(t, req.key, id, u);
  }

  /**
   * From every state of every run with a deployed deployment: when a new one is deployed to
   * its slot between the check and the write of an undeploy, both calls commit, the old one
   * ends UNDEPLOYED, and the new one, which nobody undeployed, ends ARCHIVED.
   */
  lemma UndeployArchivesNewer(states: seq<Db>, steps: seq<Step>, req: NewDeployment, hardLimit: int, victims: seq<Id>, c: int, u: int, id: Id)
    requires IsRun(states, steps)
    requires var db := states[|steps|];
             && CreatedFor(db, id, req.key) && StateOf(db, id) == Deployed
             && Guarded(states, StepCreate(req, hardLimit, victims, c, u))
             && LegalAnswer(db, StepCreate(req, hardLimit, victims, c, u))
             && Create(db, req, hardLimit, victims, c, u).Committed?
    ensures var calls := DeployThenUndeploy(req, hardLimit, victims, c, u, id);
            var t := After(states[|steps|], Apply(states[|steps|], calls[0]));
            var end := After(t, Apply(t, calls[1]));
            && IsRun(states + [t] + [end], steps + [calls[0]] + [calls[1]])
            && StateOf(t, req.id) == InitialStatus(req)
            && id in end.deployments && StateOf(end, id) == Undeployed
            && req.id in end.deployments && StateOf(end, req.id) == Archived
  {
    var db, calls := states[|steps|], DeployThenUndeploy(req, hardLimit, victims, c, u, id);
    RunIsSafe(states, steps, |steps|);
    assert id in states[|steps|].deployments;
    LateUndeploy(db, req, hardLimit, victims, c, u, id);
    RunExtends(states, steps, calls[0]);
    var t := After(db, Apply(db, calls[0]));
    assert (states + [t])[|steps|] == db;
    assert Guarded(states + [t], calls[1]);
    RunExtends(states + [t], steps + [calls[0]], calls[1]);
  }

  /**
   * When a deployment is restored between the check and the write of a delete, both calls
   * commit, and the slot is left without a current deployment.
   */
  lemma DeleteRemovesRestored(db: Db, artifact: Id, id: Id, gateway: Id, org: string, now: int)
    requires Consistent(db) && KeysAgree(db)
    requires CreatedFor(db, id, Key(artifact, org, gateway)) && StateOf(db, id) != Deployed
    ensures Restore(db, artifact, id, gateway, org, now).Committed?
    ensures var t := Restore(db, artifact, id, gateway, org, now).db;
            var o := DeleteDeployment(t, id, artifact, org);
            && id in t.deployments && StateOf(t, id) == Deployed
            && o.Committed? && id !in o.db.deployments && Key(artifact, org, gateway) !in o.db.statuses
  {
    RestoreContract(db, artifact, id, gateway, org, now);
    RestoreRewrites(db, artifact, id, gateway, org, now);
  }
}
