/** The read side: deployments with their derived state, ranked per gateway. */
module DeploymentQueries {
  import opened Common
  import opened Ordering
  import opened Tables

  /** Which of two rows with equal timestamps the database happens to list first. */
  type Plan = Id -> int

  ghost predicate Decides(plan: Plan) {
    forall x, y :: plan(x) == plan(y) ==> x == y
  }

  datatype Row = Row(id: Id, name: string, key: Key, base: Option<Id>, metadata: string,
                     createdAt: int, status: DeploymentStatus)

  datatype Query = Query(artifact: Id, org: string, gateway: Option<Id>, maxPerGateway: int)

  /** The status column of the LEFT JOIN; NULL when no status row names the deployment. */
  function JoinedStatus(db: Db, id: Id): Option<DeploymentStatus>
    requires id in db.deployments
  {
    var k := db.deployments[id].key;
    if k in db.statuses && db.statuses[k].deploymentId == id then Some(db.statuses[k].status) else None
  }

  function RowFor(db: Db, id: Id): Row
    requires id in db.deployments
  {
    var d, s := db.deployments[id], JoinedStatus(db, id);
    Row(id, d.name, d.key, d.base, d.metadata, d.createdAt, if s.None? then Archived else s.value)
  }

  function GatewayOf(db: Db, id: Id): Id {
    if id in db.deployments then db.deployments[id].key.gateway else Uuid(0)
  }

  function GetWithState(db: Db, id: Id, artifact: Id, org: string): Option<Row> {
    if id in db.deployments && db.deployments[id].key.artifact == artifact && db.deployments[id].key.org == org then
      Some(RowFor(db, id))
    else None
  }

  // ---- GetDeploymentsWithState --------------------------------------------------------

  function Annotated(db: Db, q: Query): set<Id> {
    set id | && id in db.deployments
             && db.deployments[id].key.artifact == q.artifact
             && db.deployments[id].key.org == q.org
             && (q.gateway.Some? ==> db.deployments[id].key.gateway == q.gateway.value)
  }

  function Partition(db: Db, q: Query, gateway: Id): set<Id> {
    set id | id in Annotated(db, q) && GatewayOf(db, id) == gateway
  }

  function StatusClass(db: Db, id: Id): int {
    if id in db.deployments && JoinedStatus(db, id).Some? then 0 else 1
  }

  /** The window's ORDER BY: rows with a status first, then newest first. */
  predicate Ahead(db: Db, plan: Plan, x: Id, y: Id) {
    || StatusClass(db, x) < StatusClass(db, y)
    || (StatusClass(db, x) == StatusClass(db, y)
        && (CreatedAt(db, x) > CreatedAt(db, y) || (CreatedAt(db, x) == CreatedAt(db, y) && plan(x) < plan(y))))
  }

  ghost function WindowOrder(db: Db, plan: Plan): (Id, Id) -> bool {
    (x: Id, y: Id) => Ahead(db, plan, x, y)
  }

  ghost function Rank(db: Db, plan: Plan, q: Query, id: Id): nat {
    1 + Position(Partition(db, q, GatewayOf(db, id)), WindowOrder(db, plan), id)
  }

  function ParseStatus(text: string): Option<DeploymentStatus> {
    if text == "DEPLOYED" then Some(Deployed)
    else if text == "UNDEPLOYED" then Some(Undeployed)
    else if text == "ARCHIVED" then Some(Archived)
    else None
  }

  predicate StatusMatches(db: Db, id: Id, wanted: Option<DeploymentStatus>)
    requires id in db.deployments
  {
    match wanted
    case None => true
    case Some(Archived) => JoinedStatus(db, id).None?
    case Some(s) => JoinedStatus(db, id) == Some(s)
  }

  ghost function Kept(db: Db, plan: Plan, q: Query, wanted: Option<DeploymentStatus>): set<Id> {
    set id | id in Annotated(db, q) && Rank(db, plan, q, id) <= q.maxPerGateway && StatusMatches(db, id, wanted)
  }

  /** ORDER BY gateway_uuid, rank_idx. */
  ghost predicate Listed(db: Db, plan: Plan, q: Query, x: Id, y: Id) {
    || GatewayOf(db, x).value < GatewayOf(db, y).value
    || (GatewayOf(db, x) == GatewayOf(db, y) && Rank(db, plan, q, x) < Rank(db, plan, q, y))
  }

  ghost function OutputOrder(db: Db, plan: Plan, q: Query): (Id, Id) -> bool {
    (x: Id, y: Id) => Listed(db, plan, q, x, y)
  }

  ghost function ListIds(db: Db, plan: Plan, q: Query, wanted: Option<DeploymentStatus>): (r: seq<Id>)
    requires Decides(plan)
    ensures Elements(r) == Kept(db, plan, q, wanted)
    ensures forall id | id in r :: id in db.deployments
  {
    OutputIsTotal(db, plan, q, Kept(db, plan, q, wanted));
    var r := Sorted(Kept(db, plan, q, wanted), OutputOrder(db, plan, q));
    assert forall id | id in r :: id in Elements(r);
    r
  }

  function Rows(db: Db, ids: seq<Id>): seq<Row>
    requires forall id | id in ids :: id in db.deployments
  {
    seq(|ids|, i requires 0 <= i < |ids| => RowFor(db, ids[i]))
  }

  /** None stands for the error on an invalid status text. */
  ghost function GetDeploymentsWithState(db: Db, plan: Plan, q: Query, status: Option<string>): Option<seq<Row>>
    requires Decides(plan)
  {
    if status.Some? && ParseStatus(status.value).None? then None
    else Some(Rows(db, ListIds(db, plan, q, if status.None? then None else ParseStatus(status.value))))
  }

  // ---- The ranking is a total order ------------------------------------------------------

  lemma WindowIsTotal(db: Db, plan: Plan, s: set<Id>)
    requires Decides(plan)
    ensures StrictTotal(WindowOrder(db, plan), s)
  {
  }

  lemma RanksDiffer(db: Db, plan: Plan, q: Query, x: Id, y: Id)
    requires Decides(plan) && x in Annotated(db, q) && y in Annotated(db, q) && x != y
    requires GatewayOf(db, x) == GatewayOf(db, y)
    ensures Rank(db, plan, q, x) != Rank(db, plan, q, y)
  {
    var s := Partition(db, q, GatewayOf(db, x));
    var less := WindowOrder(db, plan);
    WindowIsTotal(db, plan, s);
    if less(x, y) { PositionIncreases(s, less, x, y); } else { PositionIncreases(s, less, y, x); }
  }

  lemma OutputIsTotal(db: Db, plan: Plan, q: Query, s: set<Id>)
    requires Decides(plan) && s <= Annotated(db, q)
    ensures StrictTotal(OutputOrder(db, plan, q), s)
  {
    forall x, y | x in s && y in s && x != y && GatewayOf(db, x) == GatewayOf(db, y)
      ensures Rank(db, plan, q, x) != Rank(db, plan, q, y)
    {
      RanksDiffer(db, plan, q, x, y);
    }
  }

  // ---- Laws -----------------------------------------------------------------------------------

  /** Every listed row is what `GetWithState` returns for it. */
  lemma ListingAgreesWithGetWithState(db: Db, plan: Plan, q: Query, status: Option<string>, i: nat)
    requires Decides(plan)
    requires var rows := GetDeploymentsWithState(db, plan, q, status); rows.Some? && i < |rows.value|
    ensures var row := GetDeploymentsWithState(db, plan, q, status).value[i];
            && GetWithState(db, row.id, q.artifact, q.org) == Some(row)
            && row.status == StateOf(db, row.id)
            && (status.Some? ==> ParseStatus(status.value) == Some(row.status))
  {
    var ids := ListIds(db, plan, q, if status.None? then None else ParseStatus(status.value));
    assert ids[i] in Elements(ids);
  }

  ghost function InState(db: Db, state: DeploymentStatus): Id -> bool {
    (id: Id) => id in db.deployments && StateOf(db, id) == state
  }

  ghost function AtGateway(db: Db, gateway: Id): Id -> bool {
    (id: Id) => GatewayOf(db, id) == gateway
  }

  lemma KeptInState(db: Db, plan: Plan, q: Query, state: DeploymentStatus)
    requires StatusRefs(db.statuses, db.artifacts.Keys, db.gateways.Keys, db.deployments.Keys)
    ensures Select(Kept(db, plan, q, None), InState(db, state)) == Kept(db, plan, q, Some(state))
  {
    forall id | id in Annotated(db, q) ensures StatusMatches(db, id, Some(state)) == InState(db, state)(id) {
    }
  }

  /** Asking for one state lists exactly the rows of the unfiltered listing in that state, in the same order. */
  lemma StateFilter(db: Db, plan: Plan, q: Query, state: DeploymentStatus)
    requires Consistent(db) && Decides(plan)
    ensures ListIds(db, plan, q, Some(state)) == Filter(ListIds(db, plan, q, None), InState(db, state))
  {
    OutputIsTotal(db, plan, q, Kept(db, plan, q, None));
    SortedFilter(Kept(db, plan, q, None), OutputOrder(db, plan, q), InState(db, state));
    KeptInState(db, plan, q, state);
  }

  /** The three state listings together are the unfiltered one: no row is lost and none is listed twice. */
  lemma StatesPartition(db: Db, plan: Plan, q: Query)
    requires Consistent(db) && Decides(plan)
    ensures |ListIds(db, plan, q, Some(Deployed))| + |ListIds(db, plan, q, Some(Undeployed))|
            + |ListIds(db, plan, q, Some(Archived))| == |ListIds(db, plan, q, None)|
    ensures multiset(ListIds(db, plan, q, None)) ==
            multiset(ListIds(db, plan, q, Some(Deployed))) + multiset(ListIds(db, plan, q, Some(Undeployed)))
            + multiset(ListIds(db, plan, q, Some(Archived)))
  {
    StateFilter(db, plan, q, Deployed);
    StateFilter(db, plan, q, Undeployed);
    StateFilter(db, plan, q, Archived);
    var ids := ListIds(db, plan, q, None);
    OneStateEach(db, ids);
    FilterInThree(ids, InState(db, Deployed), InState(db, Undeployed), InState(db, Archived));
  }

  lemma OneStateEach(db: Db, ids: seq<Id>)
    requires forall id | id in ids :: id in db.deployments
    ensures forall id | id in ids ::
              || (InState(db, Deployed)(id) && !InState(db, Undeployed)(id) && !InState(db, Archived)(id))
              || (!InState(db, Deployed)(id) && InState(db, Undeployed)(id) && !InState(db, Archived)(id))
              || (!InState(db, Deployed)(id) && !InState(db, Undeployed)(id) && InState(db, Archived)(id))
  {
  }

  /** Asking for one gateway lists exactly that gateway's rows of the unrestricted listing. */
  lemma GatewayFilter(db: Db, plan: Plan, q: Query, gateway: Id, wanted: Option<DeploymentStatus>)
    requires Decides(plan) && q.gateway.None?
    ensures ListIds(db, plan, q.(gateway := Some(gateway)), wanted)
            == Filter(ListIds(db, plan, q, wanted), AtGateway(db, gateway))
  {
    var one := q.(gateway := Some(gateway));
    var part := Kept(db, plan, one, wanted);
    OutputIsTotal(db, plan, q, Kept(db, plan, q, wanted));
    SortedFilter(Kept(db, plan, q, wanted), OutputOrder(db, plan, q), AtGateway(db, gateway));
    KeptAtGateway(db, plan, q, gateway, wanted);
    OutputAtGateway(db, plan, q, gateway, part);
    SortedCongruence(part, OutputOrder(db, plan, q), OutputOrder(db, plan, one));
  }

  lemma KeptAtGateway(db: Db, plan: Plan, q: Query, gateway: Id, wanted: Option<DeploymentStatus>)
    requires q.gateway.None?
    ensures Select(Kept(db, plan, q, wanted), AtGateway(db, gateway))
            == Kept(db, plan, q.(gateway := Some(gateway)), wanted)
  {
    SameRanks(db, plan, q, gateway);
  }

  lemma OutputAtGateway(db: Db, plan: Plan, q: Query, gateway: Id, part: set<Id>)
    requires q.gateway.None? && forall id | id in part :: GatewayOf(db, id) == gateway
    ensures forall x, y | x in part && y in part ::
              OutputOrder(db, plan, q)(x, y) == OutputOrder(db, plan, q.(gateway := Some(gateway)))(x, y)
  {
    SameRanks(db, plan, q, gateway);
  }

  /** Ranks are taken within one gateway, so restricting to that gateway does not move them. */
  lemma SameRanks(db: Db, plan: Plan, q: Query, gateway: Id)
    requires q.gateway.None?
    ensures forall id | GatewayOf(db, id) == gateway ::
              Rank(db, plan, q.(gateway := Some(gateway)), id) == Rank(db, plan, q, id)
  {
    assert Partition(db, q.(gateway := Some(gateway)), gateway) == Partition(db, q, gateway);
  }

  /** Each gateway yields min(limit, available) rows of the unfiltered listing. */
  lemma PerGatewayCount(db: Db, plan: Plan, q: Query, gateway: Id)
    requires Decides(plan)
    ensures |set id | id in Kept(db, plan, q, None) && GatewayOf(db, id) == gateway|
            == Min(|Partition(db, q, gateway)|, Max(q.maxPerGateway, 0))
  {
    var s, less := Partition(db, q, gateway), WindowOrder(db, plan);
    WindowIsTotal(db, plan, s);
    FirstPositions(s, less, Max(q.maxPerGateway, 0));
    assert (set id | id in Kept(db, plan, q, None) && GatewayOf(db, id) == gateway)
        == (set id | id in s && Position(s, less, id) < Max(q.maxPerGateway, 0));
  }

  /** With a limit of at least one, a deployment with a status row is always listed, first of its gateway. */
  lemma CurrentIsFirst(db: Db, plan: Plan, q: Query, id: Id)
    requires Decides(plan) && q.maxPerGateway >= 1
    requires id in Annotated(db, q) && IsCurrent(db, id)
    ensures id in ListIds(db, plan, q, None) && Rank(db, plan, q, id) == 1
  {
    var s := Partition(db, q, GatewayOf(db, id));
    assert (set y | y in s && WindowOrder(db, plan)(y, id)) == {};
    assert id in Elements(ListIds(db, plan, q, None));
  }

  /** When no two rows of a gateway share a timestamp, the listing does not depend on the plan. */
  lemma PlanIndependent(db: Db, plan: Plan, plan': Plan, q: Query, wanted: Option<DeploymentStatus>)
    requires Decides(plan) && Decides(plan')
    requires forall x, y | x in Annotated(db, q) && y in Annotated(db, q) ::
               x != y && GatewayOf(db, x) == GatewayOf(db, y) ==> CreatedAt(db, x) != CreatedAt(db, y)
    ensures ListIds(db, plan, q, wanted) == ListIds(db, plan', q, wanted)
  {
    forall id | id in Annotated(db, q) ensures Rank(db, plan, q, id) == Rank(db, plan', q, id) {
      var s := Partition(db, q, GatewayOf(db, id));
      PositionCongruence(s, WindowOrder(db, plan), WindowOrder(db, plan'), id);
    }
    var kept := Kept(db, plan, q, wanted);
    assert kept == Kept(db, plan', q, wanted);
    OutputIsTotal(db, plan, q, kept);
    SortedCongruence(kept, OutputOrder(db, plan, q), OutputOrder(db, plan', q));
  }

  // ---- Rows, texts and order ---------------------------------------------------------------

  /** A row shows the deployment's columns, and as status that of the slot's status row if it names the deployment, else ARCHIVED. */
  ghost predicate ShowsDeployment(db: Db, row: Row) {
    && row.id in db.deployments
    && var d := db.deployments[row.id];
    && row.name == d.name && row.key == d.key && row.base == d.base && row.metadata == d.metadata && row.createdAt == d.createdAt
    && row.status == if d.key in db.statuses && db.statuses[d.key].deploymentId == row.id then db.statuses[d.key].status else Archived
  }

  /** The single lookup finds a deployment by id, artifact and organization. */
  lemma GetWithStateRow(db: Db, id: Id, artifact: Id, org: string)
    ensures var r := GetWithState(db, id, artifact, org);
            && (r.Some? <==> id in db.deployments && db.deployments[id].key.artifact == artifact && db.deployments[id].key.org == org)
            && (r.Some? ==> r.value.id == id && ShowsDeployment(db, r.value))
  {
  }

  /** Every listed row is of the artifact, the organization and, if one is given, the gateway. */
  lemma ListedRows(db: Db, plan: Plan, q: Query, status: Option<string>, i: nat)
    requires Decides(plan)
    requires var rows := GetDeploymentsWithState(db, plan, q, status); rows.Some? && i < |rows.value|
    ensures var row := GetDeploymentsWithState(db, plan, q, status).value[i];
            && ShowsDeployment(db, row)
            && row.key.artifact == q.artifact && row.key.org == q.org
            && (q.gateway.Some? ==> row.key.gateway == q.gateway.value)
  {
    var ids := ListIds(db, plan, q, if status.None? then None else ParseStatus(status.value));
    assert ids[i] in Elements(ids);
  }

  function WithStatus(state: DeploymentStatus): Row -> bool {
    (r: Row) => r.status == state
  }

  lemma RowsCons(db: Db, id: Id, ids: seq<Id>)
    requires id in db.deployments && forall x | x in ids :: x in db.deployments
    ensures Rows(db, [id] + ids) == [RowFor(db, id)] + Rows(db, ids)
  {
  }

  lemma {:induction false} RowsOfFilter(db: Db, ids: seq<Id>, p: Id -> bool, p': Row -> bool)
    requires forall id | id in ids :: id in db.deployments && p(id) == p'(RowFor(db, id))
    ensures Rows(db, Filter(ids, p)) == Filter(Rows(db, ids), p')
  {
    if ids != [] {
      var id, rest := ids[0], ids[1..];
      assert ids == [id] + rest;
      RowsOfFilter(db, rest, p, p');
      RowsCons(db, id, rest);
      RowsCons(db, id, Filter(rest, p));
      assert Rows(db, ids)[1..] == Rows(db, rest);
    }
  }

  lemma OneState(db: Db, plan: Plan, q: Query, state: DeploymentStatus)
    requires Consistent(db) && Decides(plan)
    ensures Rows(db, ListIds(db, plan, q, Some(state))) == Filter(Rows(db, ListIds(db, plan, q, None)), WithStatus(state))
  {
    StateFilter(db, plan, q, state);
    RowsOfFilter(db, ListIds(db, plan, q, None), InState(db, state), WithStatus(state));
  }

  /** The status texts: each of the three lists exactly the rows in that state, any other text is an error. */
  lemma StatusTexts(db: Db, plan: Plan, q: Query, text: string)
    requires Consistent(db) && Decides(plan)
    ensures var all, some := GetDeploymentsWithState(db, plan, q, None), GetDeploymentsWithState(db, plan, q, Some(text));
            && all.Some?
            && (some.Some? <==> text == "DEPLOYED" || text == "UNDEPLOYED" || text == "ARCHIVED")
            && (text == "DEPLOYED" ==> some.value == Filter(all.value, WithStatus(Deployed)))
            && (text == "UNDEPLOYED" ==> some.value == Filter(all.value, WithStatus(Undeployed)))
            && (text == "ARCHIVED" ==> some.value == Filter(all.value, WithStatus(Archived)))
  {
    OneState(db, plan, q, Deployed);
    OneState(db, plan, q, Undeployed);
    OneState(db, plan, q, Archived);
  }

  /** Two deployments that the query asks about, on the same gateway. */
  predicate BothAsked(db: Db, q: Query, x: Id, y: Id) {
    && x in db.deployments && y in db.deployments
    && db.deployments[x].key == db.deployments[y].key
    && db.deployments[x].key.artifact == q.artifact && db.deployments[x].key.org == q.org
    && (q.gateway.Some? ==> db.deployments[x].key.gateway == q.gateway.value)
  }

  /** `x` is named by the slot's status row and `y` is not, or neither is and `x` is newer. */
  predicate ComesFirst(db: Db, x: Id, y: Id)
    requires x in db.deployments && y in db.deployments && db.deployments[x].key == db.deployments[y].key
  {
    var k := db.deployments[x].key;
    var named := k in db.statuses && db.statuses[k].deploymentId == x;
    (k in db.statuses ==> db.statuses[k].deploymentId != y) && (named || db.deployments[x].createdAt > db.deployments[y].createdAt)
  }

  /**
   * Of two deployments of a gateway, the current one comes before the archived one, and of
   * two archived ones the newer: it is never omitted while the other is listed, and stands
   * before it.
   */
  lemma NewerFirst(db: Db, plan: Plan, q: Query, x: Id, y: Id)
    requires Decides(plan) && BothAsked(db, q, x, y) && ComesFirst(db, x, y)
    requires y in ListIds(db, plan, q, None)
    ensures var ids := ListIds(db, plan, q, None);
            exists i, j | 0 <= i < j < |ids| :: ids[i] == x && ids[j] == y
  {
    var kept := Kept(db, plan, q, None);
    var s := Partition(db, q, GatewayOf(db, x));
    assert y in Elements(ListIds(db, plan, q, None));
    WindowIsTotal(db, plan, s);
    assert Ahead(db, plan, x, y);
    PositionIncreases(s, WindowOrder(db, plan), x, y);
    OutputIsTotal(db, plan, q, kept);
    StandsBefore(kept, OutputOrder(db, plan, q), x, y);
  }

  /** Gateways appear in ascending order. */
  lemma GatewaysAscend(db: Db, plan: Plan, q: Query, wanted: Option<DeploymentStatus>, i: nat, j: nat)
    requires Decides(plan) && i < j < |ListIds(db, plan, q, wanted)|
    ensures var ids := ListIds(db, plan, q, wanted);
            && ids[i] in db.deployments && ids[j] in db.deployments
            && db.deployments[ids[i]].key.gateway.value <= db.deployments[ids[j]].key.gateway.value
  {
    var ids := ListIds(db, plan, q, wanted);
    OutputIsTotal(db, plan, q, Kept(db, plan, q, wanted));
    assert ids == Sorted(Kept(db, plan, q, wanted), OutputOrder(db, plan, q));
    assert OutputOrder(db, plan, q)(ids[i], ids[j]);
  }

  // ---- GetCurrentByGateway -----------------------------------------------------------------

  /** The rows of the INNER JOIN with status DEPLOYED. */
  function CurrentlyDeployed(db: Db, k: Key): set<Id> {
    set id | id in db.deployments && db.deployments[id].key == k && JoinedStatus(db, id) == Some(Deployed)
  }

  /** The join yields at most one row, so its ORDER BY and LIMIT choose nothing: it is the slot's deployed row. */
  lemma CurrentByGatewayIsUnique(db: Db, k: Key)
    requires Consistent(db) && KeysAgree(db)
    ensures CurrentlyDeployed(db, k) == if k in db.statuses && db.statuses[k].status == Deployed
                                        then {db.statuses[k].deploymentId} else {}
  {
  }
}
