/** A run of the custom engine over the whole inventory (`execute`, `_authorization_tests`). */
module EngineRuns {
  import opened JsonValues
  import opened Strings
  import opened MutationPoints
  import opened Budgets
  import opened CheckMatrix
  import Requests

  datatype Identity = Identity(resourceIds: seq<string>, isAdmin: bool)

  predicate BolaApplicable(endpoint: Endpoint) {
    endpoint.method_ == "GET" && endpoint.authRequired
    && exists i :: 0 <= i < |endpoint.parameters| && endpoint.parameters[i].location == "path"
  }

  predicate BflaCandidate(endpoint: Endpoint, text: Text) {
    (exists i :: 0 <= i < |endpoint.tags| && text.lower(endpoint.tags[i]) == "admin")
    || Contains(text.lower(endpoint.path), "/admin")
  }

  /** Two rows per endpoint, in endpoint order. */
  predicate AuthorizationRows(rows: seq<Check>, endpoints: seq<Endpoint>) {
    && |rows| == 2 * |endpoints|
    && forall i | 0 <= i < |endpoints| ::
         SoundRow(rows[2 * i], endpoints[i].endpointId, Bola)
             && SoundRow(rows[2 * i + 1], endpoints[i].endpointId, Bfla)
  }

  /** Two identities bring identifiers of their own resources. */
  predicate TwoOwners(identities: seq<Identity>) {
    exists i, j :: 0 <= i < j < |identities| && identities[i].resourceIds != [] && identities[j].resourceIds != []
  }

  /** There are an administrator and another user. */
  predicate BothRoles(identities: seq<Identity>) {
    (exists i :: 0 <= i < |identities| && identities[i].isAdmin)
    && exists i :: 0 <= i < |identities| && !identities[i].isAdmin
  }

  /** The object-level row: compared for protected GET operations with a path parameter, given two owners. */
  predicate BolaSays(row: Check, endpoint: Endpoint, identities: seq<Identity>, exposed: bool) {
    if !(endpoint.method_ == "GET" && endpoint.authRequired
         && exists i :: 0 <= i < |endpoint.parameters| && endpoint.parameters[i].location == "path") then
      && row.status == NOT_APPLICABLE
      && row.reason == Some(if endpoint.authRequired then NotApplicable(Bola) else NotProtected)
    else if !TwoOwners(identities) then row.status == SKIPPED && row.reason == Some(IdentitiesRequired)
    else RanOrFailed(row, true, exposed)
  }

  /** The function-level row: compared for administrative GET and HEAD operations, given both roles. */
  predicate BflaSays(row: Check, endpoint: Endpoint, text: Text, identities: seq<Identity>, exposed: bool) {
    if !((exists i :: 0 <= i < |endpoint.tags| && text.lower(endpoint.tags[i]) == "admin")
         || Contains(text.lower(endpoint.path), "/admin")) then
      row.status == NOT_APPLICABLE && row.reason == Some(NotApplicable(Bfla))
    else if !(BothRoles(identities) && endpoint.method_ in {"GET", "HEAD"}) then
      row.status == SKIPPED && row.reason == Some(AdministratorRequired)
    else RanOrFailed(row, true, exposed)
  }

  /** Both rows of one endpoint. */
  predicate PairSays(bola: Check, bfla: Check, endpoint: Endpoint, k: nat, engine: Engine, text: Text,
        identities: seq<Identity>, quiet: bool)
  {
    && BolaSays(bola, endpoint, identities, engine.exposes(k, Bola))
    && BflaSays(bfla, endpoint, text, identities, engine.exposes(k, Bfla))
    && (quiet ==> bola.status != ERROR && bfla.status != ERROR)
  }

  /** Two requests by different identities, whose answers are compared. */
  method Compare(name: CheckName, budget: RequestBudget, task: Task, endpointId: string, exposed: bool)
    returns (row: Check, escaped: bool)
    requires budget.Valid()
    modifies budget
    ensures budget.Valid() && budget.Proceeds(task)
    ensures SoundRow(row, endpointId, name) && RanOrFailed(row, true, exposed)
    ensures Mine(budget.log, task) >= Mine(old(budget.log), task) + row.requests
    ensures budget.Quiet(task) ==>
      && !escaped && Ran(row, true, exposed)
      && Mine(budget.log, task) == Mine(old(budget.log), task) + row.requests
  {
    var failed := SendPair(budget, task);
    if failed.Some? {
      return Check(endpointId, name, ERROR, 0, Some(ProbeFailed(name, failed.value))), failed.value.Other?;
    }
    return PassiveRow(endpointId, name, exposed, 2), false;
  }

  method BolaCheck(budget: RequestBudget, task: Task, endpoint: Endpoint, identities: seq<Identity>, owners: nat,
        exposed: bool)
    returns (row: Check, escaped: bool)
    requires budget.Valid() && (owners >= 2 <==> TwoOwners(identities))
    modifies budget
    ensures budget.Valid() && budget.Proceeds(task)
    ensures SoundRow(row, endpoint.endpointId, Bola) && BolaSays(row, endpoint, identities, exposed)
    ensures Mine(budget.log, task) >= Mine(old(budget.log), task) + row.requests
    ensures budget.Quiet(task) ==>
      !escaped && row.status != ERROR && Mine(budget.log, task) == Mine(old(budget.log), task) + row.requests
  {
    escaped := false;
    var id := endpoint.endpointId;
    if BolaApplicable(endpoint) && owners >= 2 {
      row, escaped := Compare(Bola, budget, task, id, exposed);
    } else if BolaApplicable(endpoint) {
      row := Check(id, Bola, SKIPPED, 0, Some(IdentitiesRequired));
    } else {
      row := Check(id, Bola, NOT_APPLICABLE, 0,
          Some(if endpoint.authRequired then NotApplicable(Bola) else NotProtected));
    }
  }

  method BflaCheck(budget: RequestBudget, task: Task, endpoint: Endpoint, text: Text, identities: seq<Identity>,
        admins: nat, regulars: nat, exposed: bool)
    returns (row: Check, escaped: bool)
    requires budget.Valid() && (admins > 0 && regulars > 0 <==> BothRoles(identities))
    modifies budget
    ensures budget.Valid() && budget.Proceeds(task)
    ensures SoundRow(row, endpoint.endpointId, Bfla) && BflaSays(row, endpoint, text, identities, exposed)
    ensures Mine(budget.log, task) >= Mine(old(budget.log), task) + row.requests
    ensures budget.Quiet(task) ==>
      !escaped && row.status != ERROR && Mine(budget.log, task) == Mine(old(budget.log), task) + row.requests
  {
    escaped := false;
    var id := endpoint.endpointId;
    if !BflaCandidate(endpoint, text) {
      row := Check(id, Bfla, NOT_APPLICABLE, 0, Some(NotApplicable(Bfla)));
    } else if admins > 0 && regulars > 0 && (endpoint.method_ == "GET" || endpoint.method_ == "HEAD") {
      row, escaped := Compare(Bfla, budget, task, id, exposed);
    } else {
      row := Check(id, Bfla, SKIPPED, 0, Some(AdministratorRequired));
    }
  }

  function CountIdentities(identities: seq<Identity>, keep: Identity -> bool): nat {
    if identities == [] then 0 else (if keep(identities[0]) then 1 else 0) + CountIdentities(identities[1..], keep)
  }

  lemma {:induction false} CountExactly(identities: seq<Identity>, keep: Identity -> bool)
    ensures CountIdentities(identities, keep) > 0 <==> exists i :: 0 <= i < |identities| && keep(identities[i])
    ensures CountIdentities(identities, keep) >= 2
       <==> exists i, j :: 0 <= i < j < |identities| && keep(identities[i]) && keep(identities[j])
  {
    if identities != [] {
      var rest := identities[1..];
      CountExactly(rest, keep);
      assert forall i | 0 <= i < |rest| :: rest[i] == identities[i + 1];
      assert forall i | 1 <= i < |identities| :: identities[i] == rest[i - 1];
    }
  }

  /** Both authorization rows of one endpoint. */
  method AuthorizeEndpoint(budget: RequestBudget, task: Task, engine: Engine, endpoint: Endpoint, k: nat, text: Text,
        identities: seq<Identity>, owners: nat, admins: nat, regulars: nat)
    returns (bola: Check, bfla: Check, escaped: bool)
    requires budget.Valid()
    requires (owners >= 2 <==> TwoOwners(identities)) && (admins > 0 && regulars > 0 <==> BothRoles(identities))
    modifies budget
    ensures budget.Valid() && budget.Proceeds(task)
    ensures !escaped ==> SoundRow(bola, endpoint.endpointId, Bola) && SoundRow(bfla, endpoint.endpointId, Bfla)
    ensures !escaped ==> PairSays(bola, bfla, endpoint, k, engine, text, identities, budget.Quiet(task))
    ensures !escaped ==> Mine(budget.log, task) >= Mine(old(budget.log), task) + bola.requests + bfla.requests
    ensures budget.Quiet(task) ==>
      !escaped && Mine(budget.log, task) == Mine(old(budget.log), task) + bola.requests + bfla.requests
  {
    bola, escaped := BolaCheck(budget, task, endpoint, identities, owners, engine.exposes(k, Bola));
    bfla := bola;
    if !escaped {
      bfla, escaped := BflaCheck(budget, task, endpoint, text, identities, admins, regulars, engine.exposes(k, Bfla));
    }
  }

  /** What the rows of the first endpoints say. */
  predicate AuthorizationSays(rows: seq<Check>, endpoints: seq<Endpoint>, engine: Engine, text: Text,
        identities: seq<Identity>, quiet: bool)
  {
    && |rows| == 2 * |endpoints|
    && forall k | 0 <= k < |endpoints| ::
         PairSays(rows[2 * k], rows[2 * k + 1], endpoints[k], k, engine, text, identities, quiet)
  }

  /** Object-level and function-level authorization, one endpoint after the other. */
  method AuthorizationTests(budget: RequestBudget, task: Task, engine: Engine, endpoints: seq<Endpoint>,
        identities: seq<Identity>, text: Text)
    returns (rows: seq<Check>, escaped: bool)
    requires budget.Valid()
    modifies budget
    ensures budget.Valid() && budget.Proceeds(task)
    ensures !escaped ==>
      && AuthorizationRows(rows, endpoints)
      && AuthorizationSays(rows, endpoints, engine, text, identities, budget.Quiet(task))
    ensures TotalRequests(rows) <= Mine(budget.log, task) - Mine(old(budget.log), task)
    ensures budget.Quiet(task) ==>
      !escaped && TotalRequests(rows) == Mine(budget.log, task) - Mine(old(budget.log), task)
  {
    rows, escaped := [], false;
    var owners := CountIdentities(identities, (i: Identity) => i.resourceIds != []);
    var admins := CountIdentities(identities, (i: Identity) => i.isAdmin);
    var regulars := CountIdentities(identities, (i: Identity) => !i.isAdmin);
    CountExactly(identities, (i: Identity) => i.resourceIds != []);
    CountExactly(identities, (i: Identity) => i.isAdmin);
    CountExactly(identities, (i: Identity) => !i.isAdmin);
    for i := 0 to |endpoints|
      invariant budget.Valid() && budget.Proceeds(task)
      invariant AuthorizationRows(rows, endpoints[..i])
      invariant AuthorizationSays(rows, endpoints[..i], engine, text, identities, budget.Quiet(task))
      invariant TotalRequests(rows) <= Mine(budget.log, task) - Mine(old(budget.log), task)
      invariant budget.Quiet(task) ==> TotalRequests(rows) == Mine(budget.log, task) - Mine(old(budget.log), task)
    {
      ghost var calm := budget.Quiet(task);
      var bola, bfla;
      bola, bfla, escaped :=
        AuthorizeEndpoint(budget, task, engine, endpoints[i], i, text, identities, owners, admins, regulars);
      if escaped {
        return;
      }
      TwoMoreRows(rows, bola, bfla, endpoints, i);
      TwoMoreSay(rows, bola, bfla, endpoints, i, engine, text, identities, calm, budget.Quiet(task));
      TwoMoreTotal(rows, bola, bfla);
      rows := rows + [bola] + [bfla];
    }
    escaped := false;
    assert endpoints[..|endpoints|] == endpoints;
  }

  lemma {:induction false} TwoMoreSay(rows: seq<Check>, bola: Check, bfla: Check, endpoints: seq<Endpoint>, i: nat,
        engine: Engine, text: Text, identities: seq<Identity>, calm: bool, quiet: bool)
    requires i < |endpoints| && (quiet ==> calm)
    requires AuthorizationSays(rows, endpoints[..i], engine, text, identities, calm)
    requires PairSays(bola, bfla, endpoints[i], i, engine, text, identities, quiet)
    ensures AuthorizationSays(rows + [bola] + [bfla], endpoints[..i + 1], engine, text, identities, quiet)
  {
    var all := rows + [bola] + [bfla];
    forall k | 0 <= k < i + 1
      ensures PairSays(all[2 * k], all[2 * k + 1], endpoints[k], k, engine, text, identities, quiet)
    {
      if k < i {
        assert all[2 * k] == rows[2 * k] && all[2 * k + 1] == rows[2 * k + 1];
        assert endpoints[..i][k] == endpoints[k];
      }
    }
  }

  lemma {:induction false} TwoMoreTotal(rows: seq<Check>, bola: Check, bfla: Check)
    ensures TotalRequests(rows + [bola] + [bfla]) == TotalRequests(rows) + bola.requests + bfla.requests
  {
    OneMoreTotal(rows, bola);
    OneMoreTotal(rows + [bola], bfla);
  }

  lemma {:induction false} TwoMoreRows(rows: seq<Check>, bola: Check, bfla: Check, endpoints: seq<Endpoint>, i: nat)
    requires i < |endpoints| && AuthorizationRows(rows, endpoints[..i])
    requires SoundRow(bola, endpoints[i].endpointId, Bola) && SoundRow(bfla, endpoints[i].endpointId, Bfla)
    ensures AuthorizationRows(rows + [bola] + [bfla], endpoints[..i + 1])
  {
    var all := rows + [bola] + [bfla];
    forall j | 0 <= j < i + 1
      ensures SoundRow(all[2 * j], endpoints[j].endpointId, Bola)
        && SoundRow(all[2 * j + 1], endpoints[j].endpointId, Bfla)
    {
      if j < i {
        assert all[2 * j] == rows[2 * j] && all[2 * j + 1] == rows[2 * j + 1];
        assert endpoints[..i][j] == endpoints[j];
      }
    }
  }

  // ---------- the whole matrix ----------

  function Flatten(batches: seq<Tested>): seq<Check> {
    if batches == [] then []
    else Flatten(batches[..|batches| - 1])
         + (if batches[|batches| - 1].Returned? then batches[|batches| - 1].rows else [])
  }

  /** The rows gathered from the endpoint tasks, then the authorization rows. */
  function Matrix(batches: seq<Tested>, authorization: seq<Check>): seq<Check> {
    Flatten(batches) + authorization
  }

  /** What the tasks of one engine run guarantee together. */
  predicate ProducedMatrix(endpoints: seq<Endpoint>, batches: seq<Tested>, authorization: seq<Check>) {
    && |batches| == |endpoints|
    && (forall i | 0 <= i < |endpoints| :: batches[i].Returned? ==>
       EndpointRows(batches[i].rows, endpoints[i].endpointId))
    && AuthorizationRows(authorization, endpoints)
  }

  predicate UniqueIds(endpoints: seq<Endpoint>) {
    forall i, j | 0 <= i < j < |endpoints| :: endpoints[i].endpointId != endpoints[j].endpointId
  }

  function CountRows(rows: seq<Check>, endpointId: string, name: CheckName): nat {
    if rows == [] then 0
    else CountRows(rows[..|rows| - 1], endpointId, name)
         + (if rows[|rows| - 1].endpointId == endpointId && rows[|rows| - 1].name == name then 1 else 0)
  }

  lemma {:induction false} CountAppend(rows: seq<Check>, more: seq<Check>, endpointId: string, name: CheckName)
    ensures CountRows(rows + more, endpointId, name)
         == CountRows(rows, endpointId, name) + CountRows(more, endpointId, name)
    decreases |more|
  {
    if more == [] {
      assert rows + more == rows;
    } else {
      assert (rows + more)[..|rows + more| - 1] == rows + more[..|more| - 1];
      CountAppend(rows, more[..|more| - 1], endpointId, name);
    }
  }

  lemma {:induction false} CountNone(rows: seq<Check>, endpointId: string, name: CheckName)
    requires forall row | row in rows :: row.endpointId != endpointId || row.name != name
    ensures CountRows(rows, endpointId, name) == 0
  {
    if rows != [] {
      CountNone(rows[..|rows| - 1], endpointId, name);
    }
  }

  lemma {:induction false} CountOne(rows: seq<Check>, i: nat, endpointId: string, name: CheckName)
    requires i < |rows| && rows[i].endpointId == endpointId && rows[i].name == name
    requires forall j | 0 <= j < |rows| && j != i :: rows[j].endpointId != endpointId || rows[j].name != name
    ensures CountRows(rows, endpointId, name) == 1
  {
    assert rows == rows[..i] + ([rows[i]] + rows[i + 1..]);
    CountAppend(rows[..i], [rows[i]] + rows[i + 1..], endpointId, name);
    CountAppend([rows[i]], rows[i + 1..], endpointId, name);
    CountNone(rows[..i], endpointId, name);
    CountNone(rows[i + 1..], endpointId, name);
    assert [rows[i]][..0] == [];
  }

  function Position(name: CheckName): nat {
    match name
    case InsecureTransport => 0
    case Baseline => 1
    case SecurityHeaders => 2
    case ExcessiveDataExposure => 3
    case CorsMisconfiguration => 4
    case MissingAuthentication => 5
    case SqlInjection => 6
    case NosqlInjection => 7
    case PathTraversal => 8
    case ReflectedXss => 9
    case OpenRedirect => 10
    case CommandInjection => 11
    case Ssrf => 12
    case Bola => 13
    case Bfla => 14
  }

  lemma {:induction false} PositionOfCheck(i: nat)
    requires i < |ENDPOINT_CHECKS|
    ensures Position(ENDPOINT_CHECKS[i]) == i
  {
    assert ENDPOINT_CHECKS[i] == if i < 6 then PASSIVE_CHECKS[i] else ACTIVE_CHECKS[i - 6];
  }

  lemma {:induction false} CheckAtPosition(name: CheckName)
    requires Position(name) < |ENDPOINT_CHECKS|
    ensures ENDPOINT_CHECKS[Position(name)] == name
  {
    var i := Position(name);
    assert ENDPOINT_CHECKS[i] == if i < 6 then PASSIVE_CHECKS[i] else ACTIVE_CHECKS[i - 6];
  }

  lemma {:induction false} EndpointRowsCount(rows: seq<Check>, id: string, endpointId: string, name: CheckName)
    requires EndpointRows(rows, id)
    ensures CountRows(rows, endpointId, name) == if endpointId == id && Position(name) < 13 then 1 else 0
  {
    if endpointId == id && Position(name) < 13 {
      CheckAtPosition(name);
      forall j | 0 <= j < |rows| && j != Position(name) ensures rows[j].name != name {
        PositionOfCheck(j);
      }
      CountOne(rows, Position(name), endpointId, name);
    } else {
      forall row | row in rows ensures row.endpointId != endpointId || row.name != name {
        var j :| 0 <= j < |rows| && rows[j] == row;
        PositionOfCheck(j);
      }
      CountNone(rows, endpointId, name);
    }
  }

  lemma {:induction false} FlattenCount(endpoints: seq<Endpoint>, batches: seq<Tested>, m: nat, id: string, k: nat,
        name: CheckName)
    requires |batches| == |endpoints| && m <= |batches|
    requires forall i | 0 <= i < |batches| ::
      batches[i].Returned? && EndpointRows(batches[i].rows, endpoints[i].endpointId)
    requires forall i | 0 <= i < |batches| :: endpoints[i].endpointId == id <==> i == k
    ensures CountRows(Flatten(batches[..m]), id, name) == if k < m && Position(name) < 13 then 1 else 0
  {
    if m > 0 {
      assert Flatten(batches[..m]) == Flatten(batches[..m - 1]) + batches[m - 1].rows by {
        assert batches[..m][..m - 1] == batches[..m - 1];
      }
      FlattenCount(endpoints, batches, m - 1, id, k, name);
      CountAppend(Flatten(batches[..m - 1]), batches[m - 1].rows, id, name);
      EndpointRowsCount(batches[m - 1].rows, endpoints[m - 1].endpointId, id, name);
    }
  }

  lemma {:induction false} FlattenSize(batches: seq<Tested>)
    requires forall i | 0 <= i < |batches| :: batches[i].Returned? && |batches[i].rows| == 13
    ensures |Flatten(batches)| == 13 * |batches|
  {
    if batches != [] {
      FlattenSize(batches[..|batches| - 1]);
    }
  }

  lemma {:induction false} AuthorizationCount(rows: seq<Check>, endpoints: seq<Endpoint>, k: nat, name: CheckName)
    requires AuthorizationRows(rows, endpoints) && UniqueIds(endpoints) && k < |endpoints|
    ensures CountRows(rows, endpoints[k].endpointId, name) == if Position(name) < 13 then 0 else 1
  {
    if Position(name) < 13 {
      forall row | row in rows ensures row.name != name {
        var j :| 0 <= j < |rows| && rows[j] == row;
        RowOwner(rows, endpoints, j);
      }
      CountNone(rows, endpoints[k].endpointId, name);
    } else {
      var at := 2 * k + (if name.Bola? then 0 else 1);
      forall j | 0 <= j < |rows| && j != at
        ensures rows[j].endpointId != endpoints[k].endpointId || rows[j].name != name
      {
        RowOwner(rows, endpoints, j);
      }
      CountOne(rows, at, endpoints[k].endpointId, name);
    }
  }

  lemma {:induction false} RowOwner(rows: seq<Check>, endpoints: seq<Endpoint>, j: nat)
    requires AuthorizationRows(rows, endpoints) && j < |rows|
    ensures j / 2 < |endpoints| && SoundRow(rows[j], endpoints[j / 2].endpointId, if j % 2 == 0 then Bola else Bfla)
  {
    assert j == 2 * (j / 2) + j % 2;
  }

  /** With no escaped exception, every endpoint has exactly one row for each of the fifteen
      checks, and the matrix has no other rows. */
  lemma {:induction false} ExactlyOnce(endpoints: seq<Endpoint>, batches: seq<Tested>, authorization: seq<Check>,
        k: nat, name: CheckName)
    requires ProducedMatrix(endpoints, batches, authorization) && UniqueIds(endpoints) && k < |endpoints|
    requires forall i | 0 <= i < |batches| :: batches[i].Returned?
    ensures CountRows(Matrix(batches, authorization), endpoints[k].endpointId, name) == 1
    ensures |Matrix(batches, authorization)| == 15 * |endpoints|
  {
    FlattenSize(batches);
    RowCount(endpoints, batches, authorization, endpoints[k].endpointId, k, name);
  }

  lemma {:induction false} RowCount(endpoints: seq<Endpoint>, batches: seq<Tested>, authorization: seq<Check>,
        id: string, k: nat, name: CheckName)
    requires ProducedMatrix(endpoints, batches, authorization) && UniqueIds(endpoints)
    requires k < |endpoints| && id == endpoints[k].endpointId
    requires forall i | 0 <= i < |batches| :: batches[i].Returned?
    ensures CountRows(Matrix(batches, authorization), id, name) == 1
  {
    assert CountRows(Flatten(batches), id, name) == (if Position(name) < 13 then 1 else 0) by {
      FlattenCount(endpoints, batches, |batches|, id, k, name);
      assert batches[..|batches|] == batches;
    }
    assert CountRows(authorization, id, name) == (if Position(name) < 13 then 0 else 1) by {
      AuthorizationCount(authorization, endpoints, k, name);
    }
    CountAppend(Flatten(batches), authorization, id, name);
  }

  // ---------- request conservation ----------

  /** Each endpoint task reports at most what it was granted; the authorization pass comes after them. */
  predicate WithinGrants(log: seq<Task>, batches: seq<Tested>, authorization: seq<Check>) {
    && (forall i | 0 <= i < |batches| && batches[i].Returned? :: TotalRequests(batches[i].rows) <= Mine(log, i))
    && TotalRequests(authorization) <= Mine(log, |batches|)
  }

  lemma {:induction false} FlattenWithin(log: seq<Task>, batches: seq<Tested>, m: nat)
    requires m <= |batches|
    requires forall i | 0 <= i < |batches| && batches[i].Returned? :: TotalRequests(batches[i].rows) <= Mine(log, i)
    ensures TotalRequests(Flatten(batches[..m])) <= MineTotal(log, m)
    ensures (forall i | 0 <= i < |batches| :: batches[i].Returned? && TotalRequests(batches[i].rows) == Mine(log, i))
            ==> TotalRequests(Flatten(batches[..m])) == MineTotal(log, m)
  {
    if m > 0 {
      assert batches[..m][..m - 1] == batches[..m - 1];
      FlattenWithin(log, batches, m - 1);
      var last := batches[m - 1];
      TotalAppend(Flatten(batches[..m - 1]), if last.Returned? then last.rows else []);
    }
  }

  /** The matrix never reports more requests than the shared budget granted, and exactly as many
      when every task returned, reported its own grants, and no one else was granted. */
  lemma {:induction false} RequestsConserved(log: seq<Task>, batches: seq<Tested>, authorization: seq<Check>)
    requires WithinGrants(log, batches, authorization)
    ensures TotalRequests(Matrix(batches, authorization)) <= |log|
    ensures (forall i | 0 <= i < |batches| :: batches[i].Returned? && TotalRequests(batches[i].rows) == Mine(log, i))
            && TotalRequests(authorization) == Mine(log, |batches|)
            && (forall i | 0 <= i < |log| :: log[i] <= |batches|)
            ==> TotalRequests(Matrix(batches, authorization)) == |log|
  {
    FlattenWithin(log, batches, |batches|);
    assert batches[..|batches|] == batches;
    TotalAppend(Flatten(batches), authorization);
    SharesAddUp(log, |batches| + 1);
  }

  // ---------- the engine's result ----------

  datatype EngineStatus = COMPLETED | FAILED | SKIPPED_ENGINE | TIMEOUT | CANCELLED

  datatype EngineResult = EngineResult(isCustom: bool, status: EngineStatus, requestCount: nat,
      checks: Option<seq<Check>>)

  function BaselineRows(rows: seq<Check>): seq<Check> {
    if rows == [] then []
    else BaselineRows(rows[..|rows| - 1]) + (if rows[|rows| - 1].name.Baseline? then [rows[|rows| - 1]] else [])
  }

  lemma {:induction false} BaselineRowsMembers(rows: seq<Check>, row: Check)
    ensures row in BaselineRows(rows) <==> row in rows && row.name.Baseline?
  {
    if rows != [] {
      BaselineRowsMembers(rows[..|rows| - 1], row);
      assert rows == rows[..|rows| - 1] + [rows[|rows| - 1]];
    }
  }

  /** There are baseline rows, and none of them was tested. */
  predicate Unanswered(rows: seq<Check>) {
    var baselines := BaselineRows(rows);
    baselines != [] && forall row | row in baselines :: !row.status.TESTED?
  }

  /** Nothing answered exactly if some endpoint was asked and each that was failed. */
  lemma {:induction false} UnansweredExactly(rows: seq<Check>)
    ensures Unanswered(rows) <==>
      && (exists row :: row in rows && row.name == Baseline)
      && forall row | row in rows && row.name == Baseline :: row.status in {DETECTED, SKIPPED, ERROR, NOT_APPLICABLE}
  {
    forall row ensures row in BaselineRows(rows) <==> row in rows && row.name.Baseline? {
      BaselineRowsMembers(rows, row);
    }
    if BaselineRows(rows) != [] {
      assert BaselineRows(rows)[0] in BaselineRows(rows);
    }
  }

  /** Gathers the batches and judges the run. */
  method Gather(batches: seq<Tested>, authorization: seq<Check>, hasFindings: bool, granted: nat)
    returns (result: EngineResult)
    ensures result.isCustom && result.requestCount == granted && result.checks == Some(Matrix(batches, authorization))
    ensures result.status.COMPLETED? || result.status.FAILED?
    ensures result.status.FAILED? <==>
              || Unanswered(Matrix(batches, authorization))
              || ((exists i :: 0 <= i < |batches| && batches[i].Escaped?) && !hasFindings)
  {
    var checks: seq<Check> := [];
    var errors := false;
    for i := 0 to |batches|
      invariant checks == Flatten(batches[..i])
      invariant errors <==> exists j :: 0 <= j < i && batches[j].Escaped?
    {
      assert batches[..i + 1][..i] == batches[..i];
      match batches[i] {
        case Returned(rows) => checks := checks + rows;
        case Escaped => errors := true;
      }
    }
    assert batches[..|batches|] == batches;
    checks := checks + authorization;
    var baselines := BaselineRows(checks);
    var success := false;
    for i := 0 to |baselines|
      invariant success <==> exists j :: 0 <= j < i && baselines[j].status.TESTED?
    {
      success := success || baselines[i].status.TESTED?;
    }
    var unreachable := baselines != [] && !success;
    result := EngineResult(true, if unreachable || (errors && !hasFindings) then FAILED else COMPLETED, granted,
        Some(checks));
  }

  // ---------- the whole run ----------

  /** The tasks returned their rows, within the grants the log shows for them. */
  predicate TasksSound(log: seq<Task>, endpoints: seq<Endpoint>, batches: seq<Tested>) {
    && |batches| <= |endpoints|
    && forall i | 0 <= i < |batches| && batches[i].Returned? ::
         EndpointRows(batches[i].rows, endpoints[i].endpointId) && TotalRequests(batches[i].rows) <= Mine(log, i)
  }

  /** No probe of the first `tasks` tasks raised. */
  predicate NoneRaised(raises: seq<Task>, tasks: nat) {
    forall task | 0 <= task < tasks :: Mine(raises, task) == 0
  }

  predicate AllReturned(batches: seq<Tested>) {
    forall i | 0 <= i < |batches| :: batches[i].Returned?
  }

  predicate AllBaselinesTested(batches: seq<Tested>) {
    forall i | 0 <= i < |batches| :: batches[i].Returned? && |batches[i].rows| > 1 && batches[i].rows[1].status.TESTED?
  }

  lemma {:induction false} MineLater(log: seq<Task>, later: seq<Task>, task: Task)
    requires log <= later
    ensures Mine(log, task) <= Mine(later, task)
    decreases |later|
  {
    if |log| < |later| {
      MineLater(log, later[..|later| - 1], task);
    } else {
      assert log == later;
    }
  }

  lemma {:induction false} NoneRaisedEarlier(raises: seq<Task>, later: seq<Task>, tasks: nat)
    requires raises <= later && NoneRaised(later, tasks)
    ensures NoneRaised(raises, tasks)
  {
    forall task | 0 <= task < tasks ensures Mine(raises, task) == 0 {
      MineLater(raises, later, task);
    }
  }

  lemma {:induction false} OneMoreTask(log: seq<Task>, later: seq<Task>, endpoints: seq<Endpoint>, batches: seq<Tested>,
        batch: Tested)
    requires TasksSound(log, endpoints, batches) && log <= later && |batches| < |endpoints|
    requires batch.Returned? ==>
      EndpointRows(batch.rows, endpoints[|batches|].endpointId) && TotalRequests(batch.rows) <= Mine(later, |batches|)
    ensures TasksSound(later, endpoints, batches + [batch])
  {
    forall i | 0 <= i < |batches| && batches[i].Returned? ensures TotalRequests(batches[i].rows) <= Mine(later, i) {
      MineLater(log, later, i);
    }
  }

  lemma {:induction false} OneMoreBatch(batches: seq<Tested>, batch: Tested)
    ensures TotalRequests(Flatten(batches + [batch]))
         == TotalRequests(Flatten(batches)) + (if batch.Returned? then TotalRequests(batch.rows) else 0)
  {
    assert (batches + [batch])[..|batches|] == batches;
    TotalAppend(Flatten(batches), if batch.Returned? then batch.rows else []);
  }

  lemma {:induction false} QuietTask(raises: seq<Task>, later: seq<Task>, task: Task)
    requires raises <= later && NoneRaised(later, task + 1)
    ensures NoneRaised(raises, task) && Mine(raises, task) == Mine(later, task)
  {
    NoneRaisedEarlier(raises, later, task + 1);
  }

  /** If no probe raised, every baseline was tested and the rows report all grants but foreign ones. */
  predicate AllReported(raises: seq<Task>, batches: seq<Tested>, own: int) {
    NoneRaised(raises, |batches|) ==> AllBaselinesTested(batches) && TotalRequests(Flatten(batches)) == own
  }

  lemma {:induction false} OneMoreReported(raises: seq<Task>, later: seq<Task>, batches: seq<Tested>, batch: Tested,
        own: int, ownLater: int)
    requires raises <= later && AllReported(raises, batches, own)
    requires Mine(later, |batches|) == Mine(raises, |batches|) ==>
      batch.Returned? && |batch.rows| > 1 && batch.rows[1].status.TESTED? && TotalRequests(batch.rows) == ownLater - own
    ensures AllReported(later, batches + [batch], ownLater)
  {
    OneMoreBatch(batches, batch);
    if NoneRaised(later, |batches| + 1) {
      QuietTask(raises, later, |batches|);
    }
  }

  /** The next endpoint's task. */
  method RunTask(budget: RequestBudget, engine: Engine, endpoints: seq<Endpoint>, batches: seq<Tested>, text: Text)
    returns (batch: Tested)
    requires budget.Valid() && |batches| < |endpoints| && TasksSound(budget.log, endpoints, batches)
    requires AllReported(budget.raises, batches, budget.count - budget.foreign)
    modifies budget
    ensures budget.Valid() && TasksSound(budget.log, endpoints, batches + [batch])
    ensures AllReported(budget.raises, batches + [batch], budget.count - budget.foreign)
  {
    var endpoint := endpoints[|batches|];
    var eligible, _ := Requests.EligiblePoints(endpoint, text);
    var insecure: bool := *;
    batch := TestEndpoint(budget, |batches|, engine, endpoint, eligible, insecure);
    OneMoreTask(old(budget.log), budget.log, endpoints, batches, batch);
    OneMoreReported(old(budget.raises), budget.raises, batches, batch, old(budget.count - budget.foreign),
                    budget.count - budget.foreign);
  }

  /** The endpoint tasks on one budget; grants to anyone else count as foreign. */
  method RunTasks(budget: RequestBudget, engine: Engine, endpoints: seq<Endpoint>, text: Text)
    returns (batches: seq<Tested>)
    requires budget.Valid() && budget.log == [] && budget.raises == [] && budget.foreign == 0
    modifies budget
    ensures budget.Valid() && |batches| == |endpoints| && TasksSound(budget.log, endpoints, batches)
    ensures AllReported(budget.raises, batches, budget.count - budget.foreign)
  {
    batches := [];
    for i := 0 to |endpoints|
      invariant budget.Valid() && |batches| == i && TasksSound(budget.log, endpoints, batches)
      invariant AllReported(budget.raises, batches, budget.count - budget.foreign)
    {
      var batch := RunTask(budget, engine, endpoints, batches, text);
      batches := batches + [batch];
    }
  }

  /** One run of the engine. Unless an exception of the authorization tests escapes, the matrix it
      reports is a produced one and reports no more requests than the budget granted: exactly as
      many as were granted to its own tasks, if none of their probes raised. */
  method Execute(maximum: nat, rate: real, engine: Engine, endpoints: seq<Endpoint>, identities: seq<Identity>,
        text: Text)
    returns (result: Option<EngineResult>, budget: RequestBudget, ghost batches: seq<Tested>,
        ghost authorization: seq<Check>)
    requires rate > 0.0
    ensures fresh(budget) && budget.Valid() && budget.maximum == maximum
    ensures result.Some? ==>
      && ProducedMatrix(endpoints, batches, authorization) && WithinGrants(budget.log, batches, authorization)
      && result.value.isCustom && result.value.checks == Some(Matrix(batches, authorization))
      && TotalRequests(Matrix(batches, authorization)) <= result.value.requestCount == budget.count <= maximum
    ensures NoneRaised(budget.raises, |endpoints| + 1) ==>
      && result.Some? && AllBaselinesTested(batches) && result.value.status.COMPLETED?
      && TotalRequests(Matrix(batches, authorization)) == budget.count - budget.foreign
    ensures result.Some? && AllReturned(batches) && UniqueIds(endpoints) ==>
      CountedOnce(endpoints, batches, authorization)
  {
    budget := new RequestBudget(maximum, rate);
    var tested := RunTasks(budget, engine, endpoints, text);
    label Gathered:
    var rows, escaped := AuthorizationTests(budget, |endpoints|, engine, endpoints, identities, text);
    batches, authorization := tested, rows;
    if NoneRaised(budget.raises, |endpoints| + 1) {
      NoneRaisedEarlier(old@Gathered(budget.raises), budget.raises, |endpoints| + 1);
      assert NoneRaised(old@Gathered(budget.raises), |endpoints|);
    }
    if escaped {
      return None, budget, batches, authorization;
    }
    var hasFindings: bool := *;
    var gathered := Gather(tested, rows, hasFindings, budget.count);
    result := Some(gathered);
    RunConserved(old@Gathered(budget.log), budget.log, endpoints, batches, authorization);
  }

  /** What the tasks and the authorization tests guarantee makes up the whole run. */
  lemma {:induction false} RunConserved(log: seq<Task>, later: seq<Task>, endpoints: seq<Endpoint>,
        batches: seq<Tested>, authorization: seq<Check>)
    requires TasksSound(log, endpoints, batches) && log <= later && |batches| == |endpoints|
    requires AuthorizationRows(authorization, endpoints) && TotalRequests(authorization) <= Mine(later, |batches|)
    ensures ProducedMatrix(endpoints, batches, authorization) && WithinGrants(later, batches, authorization)
    ensures TotalRequests(Matrix(batches, authorization)) <= |later|
    ensures TotalRequests(Matrix(batches, authorization))
         == TotalRequests(Flatten(batches)) + TotalRequests(authorization)
    ensures AllBaselinesTested(batches) ==> !Unanswered(Matrix(batches, authorization))
    ensures AllReturned(batches) && UniqueIds(endpoints) ==> CountedOnce(endpoints, batches, authorization)
  {
    TasksWithinGrants(log, later, endpoints, batches, authorization);
    RequestsConserved(later, batches, authorization);
    TotalAppend(Flatten(batches), authorization);
    if AllBaselinesTested(batches) {
      BaselineAnswered(endpoints, batches, authorization);
    }
    if AllReturned(batches) && UniqueIds(endpoints) {
      AllCountedOnce(endpoints, batches, authorization);
    }
  }

  lemma {:induction false} BaselineAnswered(endpoints: seq<Endpoint>, batches: seq<Tested>, authorization: seq<Check>)
    requires ProducedMatrix(endpoints, batches, authorization) && AllBaselinesTested(batches)
    ensures !Unanswered(Matrix(batches, authorization))
  {
    var rows := Matrix(batches, authorization);
    if batches == [] {
      assert rows == [];
    } else {
      var last := batches[|batches| - 1];
      CheckAtPosition(Baseline);
      assert last.rows[1] in last.rows && last.rows[1] in rows;
      BaselineRowsMembers(rows, last.rows[1]);
    }
  }

  lemma {:induction false} TasksWithinGrants(log: seq<Task>, later: seq<Task>, endpoints: seq<Endpoint>,
        batches: seq<Tested>, authorization: seq<Check>)
    requires TasksSound(log, endpoints, batches) && log <= later && |batches| == |endpoints|
    requires TotalRequests(authorization) <= Mine(later, |batches|)
    ensures WithinGrants(later, batches, authorization)
  {
    forall i | 0 <= i < |batches| && batches[i].Returned? ensures TotalRequests(batches[i].rows) <= Mine(later, i) {
      MineLater(log, later, i);
    }
  }

  /** Every endpoint has exactly one row for each of the fifteen checks, and there are no others. */
  predicate CountedOnce(endpoints: seq<Endpoint>, batches: seq<Tested>, authorization: seq<Check>) {
    && |Matrix(batches, authorization)| == 15 * |endpoints|
    && forall k, name | 0 <= k < |endpoints| ::
       CountRows(Matrix(batches, authorization), endpoints[k].endpointId, name) == 1
  }

  lemma {:induction false} AllCountedOnce(endpoints: seq<Endpoint>, batches: seq<Tested>, authorization: seq<Check>)
    requires ProducedMatrix(endpoints, batches, authorization) && UniqueIds(endpoints) && AllReturned(batches)
    ensures CountedOnce(endpoints, batches, authorization)
  {
    forall k, name | 0 <= k < |endpoints|
      ensures CountRows(Matrix(batches, authorization), endpoints[k].endpointId, name) == 1
    {
      ExactlyOnce(endpoints, batches, authorization, k, name);
    }
    if endpoints != [] {
      ExactlyOnce(endpoints, batches, authorization, 0, Baseline);
    }
  }

  // ---------- tasks that overlap ----------

  /** The log when a task begins and when it ends. */
  datatype Span = Span(begin: seq<Task>, end: seq<Task>)

  /** However the tasks overlap, each reports at most what it was granted while it ran, which is
      what `TestEndpoint` guarantees. */
  predicate Overlapped(log: seq<Task>, spans: seq<Span>, batches: seq<Tested>) {
    && |spans| == |batches|
    && forall i | 0 <= i < |batches| ::
         && spans[i].begin <= spans[i].end <= log
         && (batches[i].Returned? ==> TotalRequests(batches[i].rows) <= Mine(spans[i].end, i) - Mine(spans[i].begin, i))
  }

  /** Nobody was granted anything in a task's name before it began or after it ended, and the task
      returned and reported all of it. */
  predicate ReportedAll(log: seq<Task>, spans: seq<Span>, batches: seq<Tested>) {
    && |spans| == |batches|
    && forall i | 0 <= i < |batches| ::
         && batches[i].Returned? && Mine(spans[i].begin, i) == 0 && Mine(spans[i].end, i) == Mine(log, i)
         && TotalRequests(batches[i].rows) == Mine(spans[i].end, i) - Mine(spans[i].begin, i)
  }

  /** Whatever the schedule, the matrix reports no more requests than were granted, and exactly as
      many when all was reported and no one else was granted. */
  lemma {:induction false} OverlappingConserved(log: seq<Task>, spans: seq<Span>, batches: seq<Tested>,
        authorization: seq<Check>)
    requires Overlapped(log, spans, batches) && TotalRequests(authorization) <= Mine(log, |batches|)
    ensures WithinGrants(log, batches, authorization) && TotalRequests(Matrix(batches, authorization)) <= |log|
    ensures ReportedAll(log, spans, batches) && TotalRequests(authorization) == Mine(log, |batches|)
            && (forall i | 0 <= i < |log| :: log[i] <= |batches|)
            ==> TotalRequests(Matrix(batches, authorization)) == |log|
  {
    forall i | 0 <= i < |batches| && batches[i].Returned? ensures TotalRequests(batches[i].rows) <= Mine(log, i) {
      MineLater(spans[i].end, log, i);
    }
    RequestsConserved(log, batches, authorization);
  }
}
