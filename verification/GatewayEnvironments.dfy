/**
 * Environments of gateways: the listing fetches all mappings in one query and groups
 * them, the single lookup queries per gateway. Neither query orders its rows, so each may
 * answer in any order. Failed fetches are None.
 */
module GatewayEnvironments {
  import opened Common

  /** A mapping row; environment ids appear in their canonical text form. */
  datatype EnvMapping = EnvMapping(gateway: string, environment: string)

  datatype Environment = Environment(uuid: string, name: string, displayName: string, dataplaneRef: string,
                                     dnsPrefix: string, isProduction: bool, createdAt: int)

  datatype EnvResponse = EnvResponse(uuid: string, org: string, name: string, displayName: string,
                                     dataplaneRef: string, dnsPrefix: string, isProduction: bool,
                                     createdAt: int, updatedAt: int)

  /** Gateway and environment together are unique. */
  type Table = set<EnvMapping>

  type Rows = seq<EnvMapping>

  function OfGateway(gateway: string): EnvMapping -> bool {
    (m: EnvMapping) => m.gateway == gateway
  }

  function InList(gateways: seq<string>): EnvMapping -> bool {
    (m: EnvMapping) => m.gateway in gateways
  }

  function Respond(e: Environment, org: string): EnvResponse {
    EnvResponse(e.uuid, org, e.name, e.displayName, e.dataplaneRef, e.dnsPrefix, e.isProduction, e.createdAt, e.createdAt)
  }

  /** The environment with the given id; of several the last one counts. */
  function Find(envs: seq<Environment>, uuid: string): Option<Environment> {
    if envs == [] then None
    else if envs[|envs| - 1].uuid == uuid then Some(envs[|envs| - 1])
    else Find(envs[..|envs| - 1], uuid)
  }

  function Match(mappings: seq<EnvMapping>, envs: seq<Environment>, org: string): seq<EnvResponse> {
    if mappings == [] then []
    else
      var earlier, env := Match(mappings[..|mappings| - 1], envs, org), Find(envs, mappings[|mappings| - 1].environment);
      if env.Some? then earlier + [Respond(env.value, org)] else earlier
  }

  function Selected(table: Table, p: EnvMapping -> bool): Table {
    set m | m in table && p(m)
  }

  /** A query without ORDER BY answers with the selected rows in any order. */
  ghost predicate Lists(rows: Rows, selected: Table) {
    Distinct(rows) && Elements(rows) == selected
  }

  ghost predicate Answers(answer: Option<Rows>, table: Option<Table>, p: EnvMapping -> bool) {
    && answer.Some? == table.Some?
    && (table.Some? ==> Lists(answer.value, Selected(table.value, p)))
  }

  /** The environments a gateway is mapped to, as far as they exist. */
  function EnvironmentsOf(table: Option<Table>, envs: Option<seq<Environment>>, org: string, gateway: string): set<EnvResponse> {
    if table.None? || envs.None? then {}
    else
      set m | m in table.value && m.gateway == gateway && Find(envs.value, m.environment).Some? ::
        Respond(Find(envs.value, m.environment).value, org)
  }

  /** Each of the environments once, in whatever order. */
  ghost predicate Shows(result: seq<EnvResponse>, table: Option<Table>, envs: Option<seq<Environment>>, org: string, gateway: string) {
    Distinct(result) && Elements(result) == EnvironmentsOf(table, envs, org, gateway)
  }

  lemma {:induction false} FindFinds(envs: seq<Environment>, uuid: string)
    ensures Find(envs, uuid).Some? <==> Known(envs, uuid)
    ensures Find(envs, uuid).Some? ==> Find(envs, uuid).value in envs && Find(envs, uuid).value.uuid == uuid
  {
    if envs != [] {
      FindFinds(envs[..|envs| - 1], uuid);
    }
  }

  ghost predicate Known(envs: seq<Environment>, uuid: string) {
    exists i | 0 <= i < |envs| :: envs[i].uuid == uuid
  }

  /** Matching a gateway's rows shows each of its environments once: rows of one gateway have different environments. */
  lemma {:induction false} MatchShows(rows: Rows, envs: seq<Environment>, org: string, gateway: string)
    requires Distinct(rows) && forall m | m in rows :: m.gateway == gateway
    ensures Distinct(Match(rows, envs, org))
    ensures Elements(Match(rows, envs, org)) == EnvironmentsOf(Some(Elements(rows)), Some(envs), org, gateway)
    ensures forall r | r in Match(rows, envs, org) :: EnvMapping(gateway, r.uuid) in rows
    decreases |rows|
  {
    if rows != [] {
      var rest, last := rows[..|rows| - 1], rows[|rows| - 1];
      assert rows == rest + [last];
      MatchShows(rest, envs, org, gateway);
      FindFinds(envs, last.environment);
      MatchOneMore(rest, last, envs, org, gateway);
    }
  }

  lemma MatchOneMore(rest: Rows, last: EnvMapping, envs: seq<Environment>, org: string, gateway: string)
    requires last.gateway == gateway
    ensures EnvironmentsOf(Some(Elements(rest + [last])), Some(envs), org, gateway)
            == EnvironmentsOf(Some(Elements(rest)), Some(envs), org, gateway)
               + (if Find(envs, last.environment).Some? then {Respond(Find(envs, last.environment).value, org)} else {})
  {
    ElementsSnoc(rest, last);
  }

  lemma RowsShow(rows: Rows, table: Table, envs: seq<Environment>, org: string, gateway: string)
    requires Lists(rows, Selected(table, OfGateway(gateway)))
    ensures Shows(Match(rows, envs, org), Some(table), Some(envs), org, gateway)
  {
    assert forall m | m in rows :: m in Elements(rows);
    MatchShows(rows, envs, org, gateway);
  }

  // ---- The repository and the controller --------------------------------------------------

  function RowsOf(grouped: map<string, Rows>, gateway: string): Rows {
    if gateway in grouped then grouped[gateway] else []
  }

  /** Each gateway's entry holds its rows, in order. */
  ghost predicate Groups(grouped: map<string, Rows>, rows: Rows) {
    forall g: string :: RowsOf(grouped, g) == Filter(rows, OfGateway(g))
  }

  lemma GroupOne(grouped: map<string, Rows>, rows: Rows, m: EnvMapping)
    requires Groups(grouped, rows)
    ensures Groups(grouped[m.gateway := RowsOf(grouped, m.gateway) + [m]], rows + [m])
  {
    var next := grouped[m.gateway := RowsOf(grouped, m.gateway) + [m]];
    forall g: string ensures RowsOf(next, g) == Filter(rows + [m], OfGateway(g)) {
      FilterSnoc(rows, m, OfGateway(g));
    }
  }

  lemma GroupLists(rows: Rows, table: Table, gateways: seq<string>, g: string)
    requires Lists(rows, Selected(table, InList(gateways))) && g in gateways
    ensures Lists(Filter(rows, OfGateway(g)), Selected(table, OfGateway(g)))
  {
    FilterDistinct(rows, OfGateway(g));
    assert forall m :: m in rows <==> m in Elements(rows);
  }

  lemma NotListed(rows: Rows, table: Table, gateways: seq<string>, g: string)
    requires Lists(rows, Selected(table, InList(gateways))) && g !in gateways
    ensures Filter(rows, OfGateway(g)) == []
  {
    forall m | m in rows ensures m.gateway != g {
      assert m in Elements(rows);
    }
    FilterNone(rows, OfGateway(g));
  }

  /** One query for all gateways, its rows grouped by gateway. */
  method GetEnvironmentMappingsByGatewayIDs(ghost table: Table, gateways: seq<string>, answer: Rows) returns (grouped: map<string, Rows>)
    requires Lists(answer, Selected(table, InList(gateways)))
    ensures forall g | g in gateways :: Lists(RowsOf(grouped, g), Selected(table, OfGateway(g)))
    ensures forall g | g !in gateways :: RowsOf(grouped, g) == []
  {
    grouped := map[];
    if |gateways| == 0 {
      return;
    }
    for i := 0 to |answer|
      invariant Groups(grouped, answer[..i])
    {
      GroupOne(grouped, answer[..i], answer[i]);
      assert answer[..i + 1] == answer[..i] + [answer[i]];
      grouped := grouped[answer[i].gateway := RowsOf(grouped, answer[i].gateway) + [answer[i]]];
    }
    assert answer[..|answer|] == answer;
    forall g | g in gateways ensures Lists(RowsOf(grouped, g), Selected(table, OfGateway(g))) {
      GroupLists(answer, table, gateways, g);
    }
    forall g | g !in gateways ensures RowsOf(grouped, g) == [] {
      NotListed(answer, table, gateways, g);
    }
  }

  method MatchGatewayEnvironments(mappings: Rows, envs: Option<seq<Environment>>, org: string)
    returns (result: seq<EnvResponse>)
    ensures result == if envs.None? then [] else Match(mappings, envs.value, org)
  {
    if |mappings| == 0 || envs.None? {
      return [];
    }
    var byId: map<string, Environment> := map[];
    for i := 0 to |envs.value|
      invariant forall u :: Find(envs.value[..i], u) == if u in byId then Some(byId[u]) else None
    {
      assert envs.value[..i + 1][..i] == envs.value[..i];
      byId := byId[envs.value[i].uuid := envs.value[i]];
    }
    assert envs.value[..|envs.value|] == envs.value;
    result := [];
    for i := 0 to |mappings|
      invariant result == Match(mappings[..i], envs.value, org)
    {
      assert mappings[..i + 1][..i] == mappings[..i];
      var u := mappings[i].environment;
      assert Find(envs.value, u) == if u in byId then Some(byId[u]) else None;
      if u in byId {
        result := result + [Respond(byId[u], org)];
      }
    }
    assert mappings[..|mappings|] == mappings;
  }

  /** `answer` is what the query for this gateway returns. */
  method GetGatewayEnvironmentsFromDB(ghost table: Option<Table>, answer: Option<Rows>, envs: Option<seq<Environment>>, org: string, gateway: string)
    returns (result: seq<EnvResponse>)
    requires Answers(answer, table, OfGateway(gateway))
    ensures Shows(result, table, envs, org, gateway)
  {
    if answer.None? {
      return [];
    }
    if envs.Some? {
      RowsShow(answer.value, table.value, envs.value, org, gateway);
    }
    if |answer.value| == 0 {
      return [];
    }
    if envs.None? {
      return [];
    }
    result := MatchGatewayEnvironments(answer.value, envs, org);
  }

  /**
   * The bulk path gives every listed gateway exactly the environments its own lookup gives,
   * each once, failures included. `answer` is what the one query for all gateways returns.
   */
  method ListGateways(ghost table: Option<Table>, answer: Option<Rows>, envs: Option<seq<Environment>>, org: string, gateways: seq<string>)
    returns (result: seq<seq<EnvResponse>>)
    requires Answers(answer, table, InList(gateways))
    ensures |result| == |gateways|
    ensures forall i | 0 <= i < |gateways| :: Shows(result[i], table, envs, org, gateways[i])
  {
    var all: map<string, Rows> := map[];
    if answer.Some? {
      all := GetEnvironmentMappingsByGatewayIDs(table.value, gateways, answer.value);
    }
    result := [];
    for i := 0 to |gateways|
      invariant |result| == i
      invariant forall j | 0 <= j < i :: Shows(result[j], table, envs, org, gateways[j])
    {
      var environments := MatchGatewayEnvironments(RowsOf(all, gateways[i]), envs, org);
      if envs.Some? && table.Some? {
        RowsShow(RowsOf(all, gateways[i]), table.value, envs.value, org, gateways[i]);
      }
      result := result + [environments];
    }
  }

  // ---- What the common result means ---------------------------------------------------------

  /** Every environment shown is one of the fetched ones, with all its fields, for the organization. */
  lemma ShownFields(table: Table, envs: seq<Environment>, org: string, gateway: string, r: EnvResponse)
    requires r in EnvironmentsOf(Some(table), Some(envs), org, gateway)
    ensures exists e | e in envs ::
              && r.uuid == e.uuid && r.name == e.name && r.displayName == e.displayName
              && r.dataplaneRef == e.dataplaneRef && r.dnsPrefix == e.dnsPrefix && r.isProduction == e.isProduction
              && r.createdAt == e.createdAt && r.updatedAt == e.createdAt
              && r.org == org && EnvMapping(gateway, e.uuid) in table
  {
    var m :| m in table && m.gateway == gateway && Find(envs, m.environment).Some? && r == Respond(Find(envs, m.environment).value, org);
    FindFinds(envs, m.environment);
  }

  /** A gateway is shown an environment iff it is mapped to it and the environment exists. */
  lemma ShownIffMapped(table: Table, envs: seq<Environment>, org: string, gateway: string, uuid: string)
    ensures (exists r | r in EnvironmentsOf(Some(table), Some(envs), org, gateway) :: r.uuid == uuid)
            <==> Known(envs, uuid) && EnvMapping(gateway, uuid) in table
  {
    forall m | m in table ensures Find(envs, m.environment).Some? ==> Find(envs, m.environment).value.uuid == m.environment {
      FindFinds(envs, m.environment);
    }
    FindFinds(envs, uuid);
    if Known(envs, uuid) && EnvMapping(gateway, uuid) in table {
      var m := EnvMapping(gateway, uuid);
      assert Respond(Find(envs, m.environment).value, org) in EnvironmentsOf(Some(table), Some(envs), org, gateway);
    }
  }
}
