/**
 * Whole runs of the deployment store: any interleaving of repository calls from an
 * empty database. Callers read before they write, in separate transactions, so a
 * guard may have been evaluated on any earlier state of the run.
 */
module DeploymentRuns {
  import opened Common
  import opened Tables
  import opened Transactions
  import opened Integrity
  import opened DeploymentLimits

  /**
   * What the services check before they call the repository: new deployments and tokens
   * carry freshly generated ids, bases were found at some point for the same artifact and
   * organization, and `SetCurrent` names a deployment that was found, at some point, to be
   * of that slot.
   */
  ghost predicate Guarded(past: seq<Db>, s: Step) {
    match s
    case StepCreate(req, _, _, _, _) =>
      && (forall j | 0 <= j < |past| :: req.id !in past[j].deployments)
      && (req.base.Some? ==>
            exists j | 0 <= j < |past| :: Found(past[j], req.base.value, req.key.artifact, req.key.org))
    case StepCreateToken(t, _) => forall j | 0 <= j < |past| :: t !in past[j].tokens
    case StepSetCurrent(artifact, org, gateway, id, _, _) =>
      artifact.Some? && gateway.Some? && id.Some? ==>
        exists j | 0 <= j < |past| :: CreatedFor(past[j], id.value, Key(artifact.value, org, gateway.value))
    case _ => true
  }

  ghost predicate StepOfRun(states: seq<Db>, steps: seq<Step>, i: nat)
    requires i < |steps| < |states|
  {
    && Guarded(states[..i + 1], steps[i])
    && LegalAnswer(states[i], steps[i])
    && states[i + 1] == After(states[i], Apply(states[i], steps[i]))
  }

  ghost predicate IsRun(states: seq<Db>, steps: seq<Step>) {
    && |states| == |steps| + 1
    && states[0] == EMPTY_DB
    && (forall i: nat | i < |steps| :: StepOfRun(states, steps, i))
  }

  /** A row of an earlier state that is present after a step was present before it: ids do not come back. */
  lemma IdsDoNotReturn(states: seq<Db>, steps: seq<Step>, i: nat, j: nat, id: Id)
    requires IsRun(states, steps) && i < j < |states|
    requires id in states[i].deployments && id in states[j].deployments
    ensures id in states[j - 1].deployments && SameRow(states[j - 1].deployments[id], states[j].deployments[id])
  {
    assert StepOfRun(states, steps, j - 1);
    var past := states[..j];
    assert past[i] == states[i];
    RowsAreImmutable(states[j - 1], steps[j - 1], id);
  }

  /** An id is present over one unbroken stretch of a run and its row stays the same, base aside. */
  lemma {:induction false} Immutable(states: seq<Db>, steps: seq<Step>, i: nat, j: nat, id: Id)
    requires IsRun(states, steps) && i <= j < |states|
    requires id in states[i].deployments && id in states[j].deployments
    ensures var d, e := states[i].deployments[id], states[j].deployments[id]; e == d || e == d.(base := None)
    ensures forall m | i <= m <= j :: id in states[m].deployments
    decreases j - i
  {
    if i < j {
      IdsDoNotReturn(states, steps, i, j, id);
      Immutable(states, steps, i, j - 1, id);
    }
  }

  /** A slot checked on an earlier state is still the slot of the deployment, if it is still there. */
  lemma GuardIsStable(states: seq<Db>, steps: seq<Step>, i: nat, j: nat, id: Id, k: Key)
    requires IsRun(states, steps) && i <= j < |states|
    requires CreatedFor(states[i], id, k) && id in states[j].deployments
    ensures CreatedFor(states[j], id, k)
  {
    Immutable(states, steps, i, j, id);
  }

  /** A create's base cannot be the new row itself. */
  lemma BaseIsOther(past: seq<Db>, req: NewDeployment, hardLimit: int, victims: seq<Id>, c: int, u: int)
    requires Guarded(past, StepCreate(req, hardLimit, victims, c, u))
    ensures req.base != Some(req.id)
  {
    if req.base.Some? {
      var j :| 0 <= j < |past| && Found(past[j], req.base.value, req.key.artifact, req.key.org);
      assert req.base.value in past[j].deployments;
    }
  }

  ghost predicate Safe(db: Db) {
    Consistent(db) && KeysAgree(db) && ChainsEnd(db.deployments) && BasesAgree(db.deployments)
  }

  /** In every state of every run all constraints hold, slots agree, and bases agree and end. */
  lemma {:induction false} RunIsSafe(states: seq<Db>, steps: seq<Step>, i: nat)
    requires IsRun(states, steps) && i < |states|
    ensures Safe(states[i])
  {
    if i > 0 {
      assert StepOfRun(states, steps, i - 1);
      var db, s := states[i - 1], steps[i - 1];
      RunIsSafe(states, steps, i - 1);
      StepConsistent(db, s);
      if s.StepCreate? {
        BaseIsOther(states[..i], s.req, s.hardLimit, s.victims, s.createdAt, s.updatedAt);
      }
      StepKeepsChains(db, s);
      BasesAgreeInRun(states, steps, i - 1);
      if s.StepSetCurrent? {
        SetCurrentInRun(states, steps, i - 1);
      } else {
        StepKeysAgree(db, s);
      }
    }
  }

  lemma BasesAgreeInRun(states: seq<Db>, steps: seq<Step>, i: nat)
    requires IsRun(states, steps) && i < |steps|
    requires Consistent(states[i]) && BasesAgree(states[i].deployments)
    ensures BasesAgree(states[i + 1].deployments)
  {
    var db, s := states[i], steps[i];
    assert StepOfRun(states, steps, i);
    if !s.StepCreate? {
      OtherCallsOnlyShrink(db, s);
      ShrinkingKeepsBases(db.deployments, states[i + 1].deployments);
    } else if Apply(db, s).Committed? {
      if s.req.base.Some? {
        BaseIsOther(states[..i + 1], s.req, s.hardLimit, s.victims, s.createdAt, s.updatedAt);
        BaseStillFound(states, steps, i);
      }
      CreateKeepsBases(db, s.req, s.hardLimit, s.victims, s.createdAt, s.updatedAt);
    }
  }

  /** The base found for a create is still of the same artifact and organization when it commits. */
  lemma BaseStillFound(states: seq<Db>, steps: seq<Step>, i: nat)
    requires IsRun(states, steps) && i < |steps| && steps[i].StepCreate?
    requires Apply(states[i], steps[i]).Committed? && steps[i].req.base.Some? && steps[i].req.base != Some(steps[i].req.id)
    ensures var req := steps[i].req; Found(states[i], req.base.value, req.key.artifact, req.key.org)
  {
    var db, s := states[i], steps[i];
    assert StepOfRun(states, steps, i);
    var past := states[..i + 1];
    var j :| 0 <= j < |past| && Found(past[j], s.req.base.value, s.req.key.artifact, s.req.key.org);
    CreateSucceedsIff(db, s.req, s.hardLimit, s.victims, s.createdAt, s.updatedAt);
    Immutable(states, steps, j, i, s.req.base.value);
  }

  lemma SetCurrentInRun(states: seq<Db>, steps: seq<Step>, i: nat)
    requires IsRun(states, steps) && i < |steps| && steps[i].StepSetCurrent? && KeysAgree(states[i])
    ensures KeysAgree(states[i + 1])
  {
    var db, s := states[i], steps[i];
    assert StepOfRun(states, steps, i);
    if Apply(db, s).Committed? {
      var k := Key(s.artifactText.value, s.org, s.gatewayText.value);
      var j :| 0 <= j < i + 1 && CreatedFor(states[..i + 1][j], s.idText.value, k);
      GuardIsStable(states, steps, j, i, s.idText.value, k);
      SetCurrentGuardExact(db, k.artifact, k.org, k.gateway, s.idText.value, s.status, s.updatedAt);
    }
  }

  /** What safety means for the rows: status rows name deployments of their slot, and bases are of the same artifact and organization. */
  lemma SafeRows(states: seq<Db>, steps: seq<Step>, i: nat)
    requires IsRun(states, steps) && i < |states|
    ensures var db := states[i];
            && (forall k | k in db.statuses ::
                  db.statuses[k].deploymentId in db.deployments && db.deployments[db.statuses[k].deploymentId].key == k)
            && (forall id | id in db.deployments && db.deployments[id].base.Some? ::
                  && db.deployments[id].base.value in db.deployments
                  && var base := db.deployments[db.deployments[id].base.value];
                  base.key.artifact == db.deployments[id].key.artifact && base.key.org == db.deployments[id].key.org)
  {
    RunIsSafe(states, steps, i);
  }

  /** With one hard limit throughout, no slot ever holds more than max(limit, 2) deployments. */
  lemma {:induction false} CountBound(states: seq<Db>, steps: seq<Step>, i: nat, hardLimit: int, k: Key)
    requires IsRun(states, steps) && i < |states|
    requires forall j | 0 <= j < |steps| :: steps[j].StepCreate? ==> steps[j].hardLimit == hardLimit
    ensures |DeploymentsOf(states[i], k)| <= Max(hardLimit, 2)
  {
    if i == 0 {
      assert DeploymentsOf(states[0], k) == {};
    } else {
      assert StepOfRun(states, steps, i - 1);
      var db, s := states[i - 1], steps[i - 1];
      CountBound(states, steps, i - 1, hardLimit, k);
      if s.StepCreate? && s.req.key == k {
        if Apply(db, s).Committed? {
          CountAfterCreate(db, s.req, s.hardLimit, s.victims, s.createdAt, s.updatedAt);
        }
      } else {
        CountOtherwise(db, s, k);
      }
    }
  }

  /** In a run, a late acknowledgement changes nothing and a timely one only its own slot's status. */
  lemma AcknowledgementInRun(states: seq<Db>, steps: seq<Step>, i: nat)
    requires IsRun(states, steps) && i < |steps| && steps[i].StepUpdateStatus?
    ensures var db, s, t := states[i], steps[i], states[i + 1];
            && (!CurrentOn(db, s.id, s.gateway) ==> t == db)
            && (CurrentOn(db, s.id, s.gateway) && s.status != Archived ==>
                  t == db.(statuses := db.statuses[db.deployments[s.id].key := StatusRow(s.id, s.status, s.updatedAt)]))
            && (forall d | d in db.deployments :: d in t.deployments && IsCurrent(t, d) == IsCurrent(db, d))
  {
    RunIsSafe(states, steps, i);
    assert StepOfRun(states, steps, i);
    AcknowledgementEffect(states[i], steps[i].id, steps[i].gateway, steps[i].status, steps[i].updatedAt);
  }

  // ---- The current pointer follows the last write --------------------------------------

  /** The step commits and makes `id` current in slot `k`. */
  predicate MakesCurrent(db: Db, s: Step, k: Key, id: Id) {
    && Apply(db, s).Committed?
    && match s
       case StepCreate(req, _, _, _, _) => req.key == k && req.id == id
       case StepSetCurrent(artifact, org, gateway, text, _, _) =>
         artifact == Some(k.artifact) && org == k.org && gateway == Some(k.gateway) && text == Some(id)
       case _ => false
  }

  /** Rows of the status table only go, or keep the deployment they name. */
  ghost predicate PointersKept(before: map<Key, StatusRow>, after: map<Key, StatusRow>) {
    forall k | k in after :: k in before && before[k].deploymentId == after[k].deploymentId
  }

  lemma DeletesKeepPointers(db: Db, s: Step)
    requires s.StepDeleteDeployment? || s.StepDeleteGateway? || s.StepDeleteProvider? || s.StepDeleteProxy?
    ensures PointersKept(db.statuses, After(db, Apply(db, s)).statuses)
  {
  }

  /** Calls that do not make anything current only remove status rows or rewrite their status. */
  lemma OtherCallsKeepPointers(db: Db, s: Step)
    requires !s.StepCreate? && !s.StepSetCurrent?
    ensures PointersKept(db.statuses, After(db, Apply(db, s)).statuses)
  {
    if LeavesDeployments(s) {
      DeploymentsLeft(db, s);
    } else if !s.StepUpdateStatus? && !s.StepDeleteStatus? {
      DeletesKeepPointers(db, s);
    }
  }

  lemma CreateMovesOwnPointer(db: Db, req: NewDeployment, hardLimit: int, victims: seq<Id>, c: int, u: int, k: Key)
    requires k in After(db, Create(db, req, hardLimit, victims, c, u)).statuses
    requires !(Create(db, req, hardLimit, victims, c, u).Committed? && req.key == k)
    ensures k in db.statuses && db.statuses[k] == After(db, Create(db, req, hardLimit, victims, c, u)).statuses[k]
  {
  }

  /** Only those two calls move a pointer; any other call keeps or removes it. */
  lemma OnlyWritersMovePointers(db: Db, s: Step, k: Key, id: Id)
    requires k in After(db, Apply(db, s)).statuses && After(db, Apply(db, s)).statuses[k].deploymentId == id
    requires !MakesCurrent(db, s, k, id)
    ensures k in db.statuses && db.statuses[k].deploymentId == id
    ensures forall x :: !MakesCurrent(db, s, k, x)
  {
    if s.StepCreate? {
      if !(Apply(db, s).Committed? && s.req.key == k) {
        CreateMovesOwnPointer(db, s.req, s.hardLimit, s.victims, s.createdAt, s.updatedAt, k);
      }
    } else if !s.StepSetCurrent? {
      OtherCallsKeepPointers(db, s);
    }
  }

  /** A call that makes a deployment current leaves the slot pointing at it. */
  lemma MakingIsPointing(db: Db, s: Step, k: Key, id: Id)
    requires MakesCurrent(db, s, k, id)
    ensures k in After(db, Apply(db, s)).statuses && After(db, Apply(db, s)).statuses[k].deploymentId == id
  {
  }

  ghost predicate LastMade(states: seq<Db>, steps: seq<Step>, i: nat, k: Key, id: Id, m: nat)
    requires |states| == |steps| + 1 && i < |states|
  {
    && m < i
    && MakesCurrent(states[m], steps[m], k, id)
    && forall n, x | m < n < i :: !MakesCurrent(states[n], steps[n], k, x)
  }

  lemma LastMadeLater(states: seq<Db>, steps: seq<Step>, i: nat, k: Key, id: Id, m: nat)
    requires |states| == |steps| + 1 && i + 1 < |states| && LastMade(states, steps, i, k, id, m)
    requires forall x :: !MakesCurrent(states[i], steps[i], k, x)
    ensures LastMade(states, steps, i + 1, k, id, m)
  {
  }

  /** Whatever a slot points at is what the latest committed create or `SetCurrent` of the slot named. */
  lemma {:induction false} PointerIsLastWrite(states: seq<Db>, steps: seq<Step>, i: nat, k: Key)
    requires IsRun(states, steps) && i < |states|
    requires k in states[i].statuses
    ensures exists m: nat :: LastMade(states, steps, i, k, states[i].statuses[k].deploymentId, m)
  {
    assert i > 0;
    assert StepOfRun(states, steps, i - 1);
    var id := states[i].statuses[k].deploymentId;
    if MakesCurrent(states[i - 1], steps[i - 1], k, id) {
      assert LastMade(states, steps, i, k, id, i - 1);
    } else {
      OnlyWritersMovePointers(states[i - 1], steps[i - 1], k, id);
      PointerIsLastWrite(states, steps, i - 1, k);
      var m: nat :| LastMade(states, steps, i - 1, k, id, m);
      LastMadeLater(states, steps, i - 1, k, id, m);
    }
  }
}
