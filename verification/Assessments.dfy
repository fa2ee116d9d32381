/** From the custom engine's rows to the verdict on the scan: what COMPLETE and COMPLETED mean
    end to end. */
module Assessments {
  import opened Budgets
  import opened JsonValues
  import opened MutationPoints
  import opened CheckMatrix
  import opened EngineRuns
  import opened Coverage

  /** The record says what the baseline rows say (`Follows`, as a value). */
  predicate StateFollows(state: RecordState, rows: seq<Check>) {
    if Reached(rows, state.endpointId)
    then state.testStatus.REACHED? && state.skipReason == None
    else state.testStatus.UNREACHED? && state.skipReason == Some(SkipReason(rows, state.endpointId))
  }

  /** One record per endpoint, brought up to date from the matrix; the custom engine is the one
      engine that reports checks. */
  ghost predicate Recorded(endpoints: seq<Endpoint>, states: seq<RecordState>, rows: seq<Check>,
        engines: seq<EngineResult>)
  {
    && |states| == |endpoints|
    && (forall i | 0 <= i < |states| ::
       states[i].endpointId == endpoints[i].endpointId && StateFollows(states[i], rows))
    && MatrixOf(engines) == WithoutBaseline(rows)
  }

  /** `ApplyEndpointBaselines` brings the records into this state. */
  lemma {:induction false} AppliedRecordsFollow(records: seq<EndpointRecord>, rows: seq<Check>)
    requires forall record | record in records :: Follows(record, rows)
    ensures forall i | 0 <= i < |records| :: StateFollows(StatesOf(records)[i], rows)
  {
    forall i | 0 <= i < |records| ensures StateFollows(StatesOf(records)[i], rows) {
      assert records[i] in records;
    }
  }

  /** The custom engine runs first and the others report no checks. */
  lemma {:induction false} CustomMatrix(engines: seq<EngineResult>, rows: seq<Check>)
    requires engines != [] && engines[0].checks == Some(rows)
    requires forall i | 0 < i < |engines| :: engines[i].checks.None?
    ensures MatrixOf(engines) == WithoutBaseline(rows)
  {
    if |engines| > 1 {
      CustomMatrix(engines[..|engines| - 1], rows);
    } else {
      assert engines[..0] == [];
    }
  }

  // ---------- which rows are in the matrix ----------

  lemma {:induction false} FlattenMembers(batches: seq<Tested>, row: Check)
    ensures row in Flatten(batches)
       <==> exists i :: 0 <= i < |batches| && batches[i].Returned? && row in batches[i].rows
  {
    if batches != [] {
      var init := batches[..|batches| - 1];
      FlattenMembers(init, row);
      if i :| 0 <= i < |batches| && batches[i].Returned? && row in batches[i].rows {
        if i < |init| {
          assert init[i] == batches[i];
        }
      }
      if row in Flatten(init) {
        var i :| 0 <= i < |init| && init[i].Returned? && row in init[i].rows;
        assert batches[i] == init[i];
      }
    }
  }

  lemma {:induction false} WithoutBaselineMembers(rows: seq<Check>, row: Check)
    ensures row in WithoutBaseline(rows) <==> row in rows && !row.name.Baseline?
  {
    if rows != [] {
      WithoutBaselineMembers(rows[..|rows| - 1], row);
      assert rows == rows[..|rows| - 1] + [rows[|rows| - 1]];
    }
  }

  lemma {:induction false} LastBaselineIsRow(rows: seq<Check>, endpointId: string)
    ensures match LastBaseline(rows, endpointId)
            case Some(row) => row in rows && row.name.Baseline? && row.endpointId == endpointId
            case None => forall row | row in rows :: !(row.name.Baseline? && row.endpointId == endpointId)
  {
    if rows != [] {
      LastBaselineIsRow(rows[..|rows| - 1], endpointId);
      assert rows == rows[..|rows| - 1] + [rows[|rows| - 1]];
    }
  }

  /** The baseline row of an endpoint, among the rows of all tasks. */
  lemma {:induction false} BaselineOf(endpoints: seq<Endpoint>, batches: seq<Tested>, authorization: seq<Check>, k: nat)
    requires ProducedMatrix(endpoints, batches, authorization) && UniqueIds(endpoints) && k < |endpoints|
    ensures batches[k].Returned? ==> |batches[k].rows| > 1
    ensures LastBaseline(Matrix(batches, authorization), endpoints[k].endpointId)
         == if batches[k].Returned? then Some(batches[k].rows[1]) else None
  {
    var rows := Matrix(batches, authorization);
    var id := endpoints[k].endpointId;
    LastBaselineIsRow(rows, id);
    var found := LastBaseline(rows, id);
    if batches[k].Returned? {
      var own := batches[k].rows[1];
      CheckAtPosition(Baseline);
      assert own.name.Baseline? && own in batches[k].rows;
      FlattenMembers(batches, own);
      assert own in rows;
    }
    if found.Some? {
      BaselineRowOwner(endpoints, batches, authorization, k, found.value);
    }
  }

  lemma {:induction false} BaselineInBatch(rows: seq<Check>, id: string, row: Check)
    requires EndpointRows(rows, id) && row in rows && row.name.Baseline?
    ensures |rows| > 1 && row == rows[1] && row.endpointId == id
  {
    var j :| 0 <= j < |rows| && rows[j] == row;
    PositionOfCheck(j);
  }

  lemma {:induction false} AuthorizationRow(rows: seq<Check>, endpoints: seq<Endpoint>, row: Check)
    requires AuthorizationRows(rows, endpoints) && row in rows
    ensures !row.name.Baseline? && !BlamesBaseline(row) && Explained(row)
  {
    var j :| 0 <= j < |rows| && rows[j] == row;
    RowOwner(rows, endpoints, j);
  }

  /** Where a row of the matrix comes from. */
  lemma {:induction false} MatrixRowOwner(batches: seq<Tested>, authorization: seq<Check>, row: Check) returns (k: nat)
    requires row in Matrix(batches, authorization) && row !in authorization
    ensures k < |batches| && batches[k].Returned? && row in batches[k].rows
  {
    FlattenMembers(batches, row);
    k :| 0 <= k < |batches| && batches[k].Returned? && row in batches[k].rows;
  }

  lemma {:induction false} BaselineRowOwner(endpoints: seq<Endpoint>, batches: seq<Tested>, authorization: seq<Check>,
        k: nat, row: Check)
    requires ProducedMatrix(endpoints, batches, authorization) && UniqueIds(endpoints) && k < |endpoints|
    requires row in Matrix(batches, authorization) && row.name.Baseline? && row.endpointId == endpoints[k].endpointId
    ensures batches[k].Returned? && |batches[k].rows| > 1 && row == batches[k].rows[1]
  {
    if row in authorization {
      AuthorizationRow(authorization, endpoints, row);
    }
    var i := MatrixRowOwner(batches, authorization, row);
    BaselineInBatch(batches[i].rows, endpoints[i].endpointId, row);
  }

  /** A row that blames the baseline belongs to an endpoint whose baseline row is an error. */
  lemma {:induction false} BlamingRow(endpoints: seq<Endpoint>, batches: seq<Tested>, authorization: seq<Check>,
        row: Check)
    returns (k: nat)
    requires ProducedMatrix(endpoints, batches, authorization) && UniqueIds(endpoints)
    requires row in Matrix(batches, authorization) && BlamesBaseline(row)
    ensures k < |endpoints| && !Reached(Matrix(batches, authorization), endpoints[k].endpointId)
  {
    if row in authorization {
      AuthorizationRow(authorization, endpoints, row);
    }
    k := MatrixRowOwner(batches, authorization, row);
    BaselineOf(endpoints, batches, authorization, k);
  }

  lemma {:induction false} MatrixExplained(endpoints: seq<Endpoint>, batches: seq<Tested>, authorization: seq<Check>,
        row: Check)
    requires ProducedMatrix(endpoints, batches, authorization) && row in Matrix(batches, authorization)
    ensures Explained(row)
  {
    if row in authorization {
      AuthorizationRow(authorization, endpoints, row);
    } else {
      var k := MatrixRowOwner(batches, authorization, row);
    }
  }

  lemma {:induction false} NoEndpointReasons(states: seq<RecordState>)
    ensures EndpointReasons(states) == multiset{} <==> forall i | 0 <= i < |states| :: states[i].skipReason.None?
  {
    if states != [] {
      NoEndpointReasons(states[..|states| - 1]);
    }
  }

  // ---------- when COMPLETE means that nothing blocks ----------

  /** The baseline row of every id, its last one, was tested. */
  predicate AllIdsReached(endpoints: seq<Endpoint>, rows: seq<Check>) {
    forall i | 0 <= i < |endpoints| :: Reached(rows, endpoints[i].endpointId)
  }

  predicate AllExplained(rows: seq<Check>) {
    forall row | row in rows :: Explained(row)
  }

  /** Some applicable check of these, other than a baseline, was skipped or failed. */
  predicate AnyBlocked(rows: seq<Check>, names: set<CheckName>) {
    exists row :: row in rows && !row.name.Baseline? && row.name in names && Blocked(row.status)
  }

  /** All of those blame a failed baseline. */
  predicate OnlyBaselinesBlamed(rows: seq<Check>, names: set<CheckName>) {
    forall row | row in rows && !row.name.Baseline? && row.name in names && Blocked(row.status) :: BlamesBaseline(row)
  }

  /** An assessment that is not COMPLETE and gives no reason: nothing was asked for, or every id is
      reached and each blocked check blames a baseline that failed. */
  predicate Silent(endpoints: seq<Endpoint>, rows: seq<Check>) {
    && AllIdsReached(endpoints, rows) && OnlyBaselinesBlamed(rows, RUNTIME)
    && (endpoints == [] || AnyBlocked(rows, RUNTIME))
  }

  lemma {:induction false} StatesSayReached(endpoints: seq<Endpoint>, states: seq<RecordState>, rows: seq<Check>,
        engines: seq<EngineResult>)
    requires Recorded(endpoints, states, rows, engines)
    ensures EndpointReasons(states) == multiset{} <==> AllIdsReached(endpoints, rows)
    ensures CountTested(states) <= |states|
    ensures CountTested(states) == |states| <==> AllIdsReached(endpoints, rows)
  {
    NoEndpointReasons(states);
    CountTestedBound(states);
    forall i | 0 <= i < |states|
      ensures states[i].skipReason.None? <==> Reached(rows, endpoints[i].endpointId)
      ensures states[i].testStatus.REACHED? <==> Reached(rows, endpoints[i].endpointId)
    {
      assert StateFollows(states[i], rows);
    }
  }

  lemma {:induction false} BlockedCounted(rows: seq<Check>, names: set<CheckName>)
    ensures Count(WithoutBaseline(rows), names, BlockedRow) == 0 <==> !AnyBlocked(rows, names)
  {
    var matrix := WithoutBaseline(rows);
    CountZero(matrix, names, BlockedRow);
    if AnyBlocked(rows, names) {
      var row :| row in rows && !row.name.Baseline? && row.name in names && Blocked(row.status);
      WithoutBaselineMembers(rows, row);
    } else {
      forall row | row in matrix && row.name in names ensures !IsKind(row, BlockedRow) {
        WithoutBaselineMembers(rows, row);
      }
    }
  }

  lemma {:induction false} NotBlockedFor(rows: seq<Check>, names: set<CheckName>, reason: Reason)
    requires !reason.BaselineFailed? && OnlyBaselinesBlamed(rows, names)
    ensures Count(WithoutBaseline(rows), names, BlockedFor(reason)) == 0
  {
    var matrix := WithoutBaseline(rows);
    forall row | row in matrix && row.name in names ensures !IsKind(row, BlockedFor(reason)) {
      WithoutBaselineMembers(rows, row);
    }
    CountZero(matrix, names, BlockedFor(reason));
  }

  lemma {:induction false} ReasonCounted(rows: seq<Check>, names: set<CheckName>, row: Check)
    requires row in rows && !row.name.Baseline? && row.name in names && Blocked(row.status) && row.reason.Some?
    ensures Count(WithoutBaseline(rows), names, BlockedFor(row.reason.value)) > 0
  {
    WithoutBaselineMembers(rows, row);
    CountZero(WithoutBaseline(rows), names, BlockedFor(row.reason.value));
  }

  /** There is no blocking reason exactly when every id is reached and the blocked checks all
      blame failed baselines. */
  lemma {:induction false} NoReasonExactly(states: seq<RecordState>, rows: seq<Check>, names: set<CheckName>,
        blocking: multiset<Reason>)
    requires AllExplained(rows) && Blocks(blocking, states, WithoutBaseline(rows), names)
    ensures blocking == multiset{} <==> EndpointReasons(states) == multiset{} && OnlyBaselinesBlamed(rows, names)
  {
    if EndpointReasons(states) == multiset{} && OnlyBaselinesBlamed(rows, names) {
      forall reason ensures blocking[reason] == 0 {
        if !reason.BaselineFailed? {
          NotBlockedFor(rows, names, reason);
        }
      }
    }
    if blocking == multiset{} {
      forall reason ensures EndpointReasons(states)[reason] == 0 {
        assert blocking[reason] == 0;
      }
      forall row | row in rows && !row.name.Baseline? && row.name in names && Blocked(row.status)
        ensures BlamesBaseline(row)
      {
        ReasonCounted(rows, names, row);
        assert blocking[row.reason.value] == 0;
      }
    }
  }

  /** For every inventory: the assessment is COMPLETE exactly when it is not empty, every id is
      reached and no applicable check was skipped or failed. */
  lemma {:induction false} CompleteExactly(endpoints: seq<Endpoint>, rows: seq<Check>, states: seq<RecordState>,
        engines: seq<EngineResult>)
    requires Recorded(endpoints, states, rows, engines)
    ensures Verdict(|states|, CountTested(states), Count(MatrixOf(engines), RUNTIME, BlockedRow)).COMPLETE?
       <==> endpoints != [] && AllIdsReached(endpoints, rows) && !AnyBlocked(rows, RUNTIME)
  {
    StatesSayReached(endpoints, states, rows, engines);
    BlockedCounted(rows, RUNTIME);
  }

  /** For every inventory: COMPLETE and "no blocking reason" agree exactly unless the assessment
      is silent. */
  lemma {:induction false} ReasonsAgreeExactly(endpoints: seq<Endpoint>, rows: seq<Check>, states: seq<RecordState>,
        engines: seq<EngineResult>, blocking: multiset<Reason>)
    requires AllExplained(rows) && Recorded(endpoints, states, rows, engines)
    requires Blocks(blocking, states, MatrixOf(engines), RUNTIME)
    ensures var complete := Verdict(|states|, CountTested(states),
      Count(MatrixOf(engines), RUNTIME, BlockedRow)).COMPLETE?;
            (complete <==> blocking == multiset{}) <==> !Silent(endpoints, rows)
  {
    StatesSayReached(endpoints, states, rows, engines);
    NoReasonExactly(states, rows, RUNTIME, blocking);
    CompleteExactly(endpoints, rows, states, engines);
  }

  lemma {:induction false} ProducedExplained(endpoints: seq<Endpoint>, batches: seq<Tested>, authorization: seq<Check>)
    requires ProducedMatrix(endpoints, batches, authorization)
    ensures AllExplained(Matrix(batches, authorization))
  {
    forall row | row in Matrix(batches, authorization) ensures Explained(row) {
      MatrixExplained(endpoints, batches, authorization, row);
    }
  }

  /** With unique ids, a row that blames a baseline has an unreached endpoint behind it. */
  lemma {:induction false} NeverSilent(endpoints: seq<Endpoint>, batches: seq<Tested>, authorization: seq<Check>)
    requires endpoints != [] && UniqueIds(endpoints) && ProducedMatrix(endpoints, batches, authorization)
    ensures !Silent(endpoints, Matrix(batches, authorization))
  {
    var rows := Matrix(batches, authorization);
    if AnyBlocked(rows, RUNTIME) && OnlyBaselinesBlamed(rows, RUNTIME) {
      var row :| row in rows && !row.name.Baseline? && row.name in RUNTIME && Blocked(row.status);
      var k := BlamingRow(endpoints, batches, authorization, row);
    }
  }

  /** For a non-empty inventory with unique endpoint ids: the assessment is COMPLETE exactly when
      there are no blocking reasons, although failed baselines are left out of the per-check ones. */
  lemma {:induction false} CompleteIffNothingBlocks(endpoints: seq<Endpoint>, batches: seq<Tested>,
        authorization: seq<Check>, states: seq<RecordState>, engines: seq<EngineResult>, blocking: multiset<Reason>)
    requires endpoints != [] && UniqueIds(endpoints) && ProducedMatrix(endpoints, batches, authorization)
    requires Recorded(endpoints, states, Matrix(batches, authorization), engines)
    requires Blocks(blocking, states, MatrixOf(engines), RUNTIME)
    ensures Verdict(|states|, CountTested(states), Count(MatrixOf(engines), RUNTIME, BlockedRow)).COMPLETE?
       <==> blocking == multiset{}
  {
    ProducedExplained(endpoints, batches, authorization);
    NeverSilent(endpoints, batches, authorization);
    ReasonsAgreeExactly(endpoints, Matrix(batches, authorization), states, engines, blocking);
  }

  // ---------- COMPLETED end to end ----------

  predicate PartialFailure(engines: seq<EngineResult>) {
    exists i :: 0 <= i < |engines| && (engines[i].status.FAILED? || engines[i].status.TIMEOUT?)
  }

  /** No engine ended as failed or timed out. */
  predicate NoneFailed(engines: seq<EngineResult>) {
    forall e | e in engines :: e.status in {EngineStatus.COMPLETED, SKIPPED_ENGINE, EngineStatus.CANCELLED}
  }

  lemma {:induction false} PartialFailureExactly(engines: seq<EngineResult>)
    ensures PartialFailure(engines) <==> !NoneFailed(engines)
  {
    if i :| 0 <= i < |engines| && (engines[i].status.FAILED? || engines[i].status.TIMEOUT?) {
      assert engines[i] in engines;
    }
  }

  /** The status the last stage of a scan writes. */
  predicate EndsCompleted(engines: seq<EngineResult>, assessment: Assessment) {
    !PartialFailure(engines) && assessment.COMPLETE?
  }

  predicate BaselineTested(batch: Tested) {
    batch.Returned? && |batch.rows| > 1 && batch.rows[1].status.TESTED?
  }

  /** No applicable check of these was skipped or failed. */
  predicate AllAttempted(rows: seq<Check>, names: set<CheckName>) {
    forall row | row in rows && row.name in names :: !Blocked(row.status)
  }

  predicate AllAnswered(batches: seq<Tested>) {
    forall i | 0 <= i < |batches| :: BaselineTested(batches[i])
  }

  /** Every endpoint answered its baseline and every applicable runtime check was attempted. */
  predicate FullyTested(batches: seq<Tested>, authorization: seq<Check>) {
    AllAnswered(batches) && AllAttempted(Matrix(batches, authorization), RUNTIME)
  }

  /** With unique ids, a scan ends COMPLETED exactly when no engine failed or timed out, the
      inventory is not empty, every endpoint's task returned with a tested baseline, and no
      applicable runtime check was skipped or failed. */
  lemma {:induction false} CompletedExactly(endpoints: seq<Endpoint>, batches: seq<Tested>, authorization: seq<Check>,
        states: seq<RecordState>, engines: seq<EngineResult>)
    requires UniqueIds(endpoints) && ProducedMatrix(endpoints, batches, authorization)
    requires Recorded(endpoints, states, Matrix(batches, authorization), engines)
    ensures EndsCompleted(engines,
      Verdict(|states|, CountTested(states), Count(MatrixOf(engines), RUNTIME, BlockedRow)))
       <==> NoneFailed(engines) && endpoints != [] && FullyTested(batches, authorization)
  {
    PartialFailureExactly(engines);
    CompleteExactly(endpoints, Matrix(batches, authorization), states, engines);
    ReachedIsFullyTested(endpoints, batches, authorization);
  }

  lemma {:induction false} ReachedIsFullyTested(endpoints: seq<Endpoint>, batches: seq<Tested>,
        authorization: seq<Check>)
    requires UniqueIds(endpoints) && ProducedMatrix(endpoints, batches, authorization)
    ensures var rows := Matrix(batches, authorization);
            AllIdsReached(endpoints, rows) && !AnyBlocked(rows, RUNTIME) <==> FullyTested(batches, authorization)
  {
    forall i | 0 <= i < |endpoints|
      ensures Reached(Matrix(batches, authorization), endpoints[i].endpointId) <==> BaselineTested(batches[i])
    {
      BaselineOf(endpoints, batches, authorization, i);
    }
    if AllAnswered(batches) {
      RuntimeRowsUnblocked(endpoints, batches, authorization);
    }
  }

  /** With every baseline tested, leaving out the baseline rows leaves out no blocked one. */
  lemma {:induction false} RuntimeRowsUnblocked(endpoints: seq<Endpoint>, batches: seq<Tested>,
        authorization: seq<Check>)
    requires ProducedMatrix(endpoints, batches, authorization) && AllAnswered(batches)
    ensures !AnyBlocked(Matrix(batches, authorization), RUNTIME)
       <==> AllAttempted(Matrix(batches, authorization), RUNTIME)
  {
    var rows := Matrix(batches, authorization);
    forall row | row in rows && row.name.Baseline? ensures !Blocked(row.status) {
      TestedBaselineRow(endpoints, batches, authorization, row);
    }
    UnblockedWithout(rows, RUNTIME);
  }

  lemma {:induction false} UnblockedWithout(rows: seq<Check>, names: set<CheckName>)
    requires forall row | row in rows && row.name.Baseline? :: !Blocked(row.status)
    ensures !AnyBlocked(rows, names) <==> AllAttempted(rows, names)
  {
  }

  lemma {:induction false} TestedBaselineRow(endpoints: seq<Endpoint>, batches: seq<Tested>, authorization: seq<Check>,
        row: Check)
    requires ProducedMatrix(endpoints, batches, authorization) && row in Matrix(batches, authorization)
      && row.name.Baseline?
    requires AllAnswered(batches)
    ensures row.status.TESTED?
  {
    if row in authorization {
      AuthorizationRow(authorization, endpoints, row);
    }
    var i := MatrixRowOwner(batches, authorization, row);
    BaselineInBatch(batches[i].rows, endpoints[i].endpointId, row);
    assert BaselineTested(batches[i]);
  }

  // ---------- the end of a scan ----------

  method AnyFailed(engines: seq<EngineResult>) returns (failed: bool)
    ensures failed <==> PartialFailure(engines)
  {
    failed := false;
    for i := 0 to |engines|
      invariant failed <==> exists j :: 0 <= j < i && (engines[j].status.FAILED? || engines[j].status.TIMEOUT?)
    {
      failed := failed || engines[i].status.FAILED? || engines[i].status.TIMEOUT?;
    }
  }

  /** Marks the inventory from the custom engine's rows, accounts for the checks and decides
      between COMPLETED and PARTIAL; for every inventory. */
  method Judge(endpoints: seq<Endpoint>, records: seq<EndpointRecord>, engines: seq<EngineResult>, rows: seq<Check>)
    returns (completed: bool, report: CoverageReport)
    requires |records| == |endpoints|
      && forall i | 0 <= i < |records| :: records[i].endpointId == endpoints[i].endpointId
    requires MatrixOf(engines) == WithoutBaseline(rows) && AllExplained(rows)
    modifies records
    ensures completed <==> NoneFailed(engines) && report.assessment.COMPLETE?
    ensures report.assessment.COMPLETE?
       <==> endpoints != [] && AllIdsReached(endpoints, rows) && !AnyBlocked(rows, RUNTIME)
    ensures (report.assessment.COMPLETE? <==> report.blockingReasons == multiset{}) <==> !Silent(endpoints, rows)
    ensures report.matrix == MatrixOf(engines) && forall record | record in records :: Follows(record, rows)
  {
    var tested, reasons := ApplyEndpointBaselines(records, rows);
    report := CalculateCoverage(records, engines);
    var failed := AnyFailed(engines);
    PartialFailureExactly(engines);
    completed := !failed && report.assessment.COMPLETE?;
    ghost var states := StatesOf(records);
    AppliedRecordsFollow(records, rows);
    CompleteExactly(endpoints, rows, states, engines);
    ReasonsAgreeExactly(endpoints, rows, states, engines, report.blockingReasons);
  }

  // ---------- requests ----------

  /** The requests the coverage summaries of some checks add up to. */
  function SumRequests(rows: seq<Check>, names: seq<CheckName>): nat {
    if names == [] then 0 else RequestsOf(rows, names[0]) + SumRequests(rows, names[1..])
  }

  predicate Distinct(names: seq<CheckName>) {
    forall i, j | 0 <= i < j < |names| :: names[i] != names[j]
  }

  lemma {:induction false} SumOneMore(rows: seq<Check>, last: Check, names: seq<CheckName>)
    requires Distinct(names)
    ensures SumRequests(rows + [last], names)
         == SumRequests(rows, names) + (if last.name in names then last.requests else 0)
  {
    if names != [] {
      assert (rows + [last])[..|rows|] == rows;
      SumOneMore(rows, last, names[1..]);
      assert names == [names[0]] + names[1..];
      assert names[0] !in names[1..];
    }
  }

  lemma {:induction false} SumOfNothing(names: seq<CheckName>)
    ensures SumRequests([], names) == 0
  {
    if names != [] {
      SumOfNothing(names[1..]);
    }
  }

  lemma {:induction false} SumWithinTotal(rows: seq<Check>, names: seq<CheckName>)
    requires Distinct(names)
    ensures SumRequests(rows, names) <= TotalRequests(rows)
  {
    if rows == [] {
      SumOfNothing(names);
    } else {
      var (init, last) := (rows[..|rows| - 1], rows[|rows| - 1]);
      assert rows == init + [last];
      SumWithinTotal(init, names);
      SumOneMore(init, last, names);
    }
  }

  lemma {:induction false} WithoutBaselineTotal(rows: seq<Check>)
    ensures TotalRequests(WithoutBaseline(rows)) <= TotalRequests(rows)
  {
    if rows != [] {
      var (init, last) := (WithoutBaseline(rows[..|rows| - 1]), rows[|rows| - 1]);
      WithoutBaselineTotal(rows[..|rows| - 1]);
      assert (init + [last])[..|init|] == init && init + [] == init;
    }
  }

  /** The per-check request totals of the coverage report stay within the grants of the budget. */
  lemma {:induction false} CoverageRequestsBounded(log: seq<Task>, batches: seq<Tested>, authorization: seq<Check>,
        engines: seq<EngineResult>, names: seq<CheckName>)
    requires WithinGrants(log, batches, authorization) && Distinct(names)
    requires MatrixOf(engines) == WithoutBaseline(Matrix(batches, authorization))
    ensures SumRequests(MatrixOf(engines), names) <= |log|
  {
    RequestsConserved(log, batches, authorization);
    WithoutBaselineTotal(Matrix(batches, authorization));
    SumWithinTotal(MatrixOf(engines), names);
  }

  // ---------- from the engine run to the verdict ----------

  lemma {:induction false} FailedEngine(engines: seq<EngineResult>)
    requires engines != [] && engines[0].status.FAILED?
    ensures !NoneFailed(engines)
  {
    assert engines[0] in engines;
  }

  lemma {:induction false} NoMatrix(engines: seq<EngineResult>)
    requires forall i | 0 <= i < |engines| :: engines[i].checks.None?
    ensures MatrixOf(engines) == []
  {
    if engines != [] {
      NoMatrix(engines[..|engines| - 1]);
    }
  }

  /** The custom engine runs over the inventory, the other engines add their results, and the scan
      is judged. What the verdict says holds for every run, and every budget. */
  method Assess(maximum: nat, rate: real, engine: Engine, endpoints: seq<Endpoint>, identities: seq<Identity>,
        text: Text, records: seq<EndpointRecord>, others: seq<EngineResult>)
    returns (completed: bool, report: CoverageReport, engines: seq<EngineResult>, budget: RequestBudget,
        ghost batches: seq<Tested>, ghost authorization: seq<Check>)
    requires rate > 0.0 && forall i | 0 <= i < |others| :: others[i].checks.None?
    requires |records| == |endpoints|
      && forall i | 0 <= i < |records| :: records[i].endpointId == endpoints[i].endpointId
    modifies records
    ensures engines != [] && engines[1..] == others && budget.Valid() && budget.maximum == maximum
    ensures completed ==>
      && engines[0].checks == Some(Matrix(batches, authorization)) && ProducedMatrix(endpoints, batches, authorization)
      && endpoints != [] && NoneFailed(engines)
      && AllIdsReached(endpoints, Matrix(batches, authorization))
         && !AnyBlocked(Matrix(batches, authorization), RUNTIME)
    ensures UniqueIds(endpoints) && engines[0].checks.Some? ==>
      (completed <==> endpoints != [] && NoneFailed(engines) && FullyTested(batches, authorization))
    ensures UniqueIds(endpoints) && endpoints != [] ==>
      (report.assessment.COMPLETE? <==> report.blockingReasons == multiset{})
    ensures forall names | Distinct(names) :: SumRequests(report.matrix, names) <= budget.count <= maximum
  {
    var run;
    run, budget, batches, authorization := Execute(maximum, rate, engine, endpoints, identities, text);
    var rows := [];
    var custom := EngineResult(true, FAILED, 0, None);
    match run {
      case Some(result) =>
        custom := result;
        rows := result.checks.value;
        ProducedExplained(endpoints, batches, authorization);
      case None =>
    }
    engines := [custom] + others;
    MatrixOfRun(engines, rows);
    completed, report := Judge(endpoints, records, engines, rows);
    if run.None? {
      FailedEngine(engines);
      NothingReached(endpoints);
      SumOfNothingAnywhere();
    } else {
      RunVerdict(endpoints, batches, authorization);
      CoverageBounded(budget.log, batches, authorization, engines);
    }
  }

  lemma {:induction false} MatrixOfRun(engines: seq<EngineResult>, rows: seq<Check>)
    requires engines != [] && (engines[0].checks == Some(rows) || (engines[0].checks.None? && rows == []))
    requires forall i | 0 < i < |engines| :: engines[i].checks.None?
    ensures MatrixOf(engines) == WithoutBaseline(rows)
  {
    if engines[0].checks.Some? {
      CustomMatrix(engines, rows);
    } else {
      NoMatrix(engines);
    }
  }

  /** Without any row, no inventory is silent but the empty one. */
  lemma {:induction false} NothingReached(endpoints: seq<Endpoint>)
    ensures endpoints != [] ==> !AllIdsReached(endpoints, []) && !Silent(endpoints, [])
  {
    if endpoints != [] {
      assert !Reached([], endpoints[0].endpointId);
    }
  }

  lemma {:induction false} SumOfNothingAnywhere()
    ensures forall names :: SumRequests([], names) == 0
  {
    forall names ensures SumRequests([], names) == 0 {
      SumOfNothing(names);
    }
  }

  lemma {:induction false} RunVerdict(endpoints: seq<Endpoint>, batches: seq<Tested>, authorization: seq<Check>)
    requires ProducedMatrix(endpoints, batches, authorization)
    ensures var rows := Matrix(batches, authorization);
            && (UniqueIds(endpoints) ==>
                  (AllIdsReached(endpoints, rows) && !AnyBlocked(rows, RUNTIME)
                   <==> FullyTested(batches, authorization)))
            && (UniqueIds(endpoints) && endpoints != [] ==> !Silent(endpoints, rows))
  {
    if UniqueIds(endpoints) {
      ReachedIsFullyTested(endpoints, batches, authorization);
      if endpoints != [] {
        NeverSilent(endpoints, batches, authorization);
      }
    }
  }

  lemma {:induction false} CoverageBounded(log: seq<Task>, batches: seq<Tested>, authorization: seq<Check>,
        engines: seq<EngineResult>)
    requires WithinGrants(log, batches, authorization)
    requires MatrixOf(engines) == WithoutBaseline(Matrix(batches, authorization))
    ensures forall names | Distinct(names) :: SumRequests(MatrixOf(engines), names) <= |log|
  {
    forall names | Distinct(names) ensures SumRequests(MatrixOf(engines), names) <= |log| {
      CoverageRequestsBounded(log, batches, authorization, engines, names);
    }
  }

  // ---------- why the ids must be unique ----------

  lemma {:induction false} LastBaselineAppend(rows: seq<Check>, more: seq<Check>, endpointId: string)
    ensures LastBaseline(rows + more, endpointId)
         == if LastBaseline(more, endpointId).Some? then LastBaseline(more, endpointId)
            else LastBaseline(rows, endpointId)
    decreases |more|
  {
    if more == [] {
      assert rows + more == rows;
    } else {
      assert (rows + more)[..|rows + more| - 1] == rows + more[..|more| - 1];
      LastBaselineAppend(rows, more[..|more| - 1], endpointId);
    }
  }

  lemma {:induction false} UnrunRowsBlame(endpointId: string, names: seq<CheckName>, scalar: seq<MutationPoint>,
        matches: Matcher, error: Exception)
    ensures forall row | row in UnrunRows(endpointId, names, scalar, matches, BaselineFailed(error)) ::
      Blocked(row.status) ==> BlamesBaseline(row)
  {
    if names != [] {
      UnrunRowsBlame(endpointId, names[..|names| - 1], scalar, matches, error);
    }
  }

  /** Rows of two tasks that share an id: the last baseline decides for both records. */
  lemma {:induction false} LastBaselineDecides(failed: seq<Check>, tested: seq<Check>, authorization: seq<Check>,
        id: string)
    requires exists row :: row in tested && row.name.Baseline? && row.endpointId == id
    requires forall row | row in tested && row.name.Baseline? :: row.status.TESTED?
    requires forall row | row in authorization :: !row.name.Baseline?
    ensures Reached(failed + tested + authorization, id)
  {
    LastBaselineIsRow(authorization, id);
    LastBaselineIsRow(tested, id);
    LastBaselineAppend(failed + tested, authorization, id);
    LastBaselineAppend(failed, tested, id);
  }

  /** Without unique ids it is false: when two endpoints share an id, the first one's baseline
      fails and the second one is fully tested, the assessment is PARTIAL with no reason given. */
  lemma {:induction false} SharedIdHidesReason(endpoint: Endpoint, eligible: seq<MutationPoint>, matches: Matcher,
        transport: Check, error: Exception, tested: seq<Check>, authorization: seq<Check>, states: seq<RecordState>,
        engines: seq<EngineResult>, blocking: multiset<Reason>)
    requires Retrieval(endpoint.method_)
    requires transport.name == InsecureTransport && transport.endpointId == endpoint.endpointId
    requires !Blocked(transport.status) && transport.requests == 0
    requires EndpointRows(tested, endpoint.endpointId) && AuthorizationRows(authorization, [endpoint, endpoint])
    requires forall row | row in tested + authorization :: !Blocked(row.status)
    requires var batches := [Returned(FailedRows(endpoint, eligible, matches, transport, error)), Returned(tested)];
             Recorded([endpoint, endpoint], states, Matrix(batches, authorization), engines)
    requires Blocks(blocking, states, MatrixOf(engines), RUNTIME)
    ensures ProducedMatrix([endpoint, endpoint],
      [Returned(FailedRows(endpoint, eligible, matches, transport, error)), Returned(tested)], authorization)
    ensures Verdict(|states|, CountTested(states), Count(MatrixOf(engines), RUNTIME, BlockedRow)).PARTIAL_ASSESSMENT?
    ensures blocking == multiset{}
  {
    var failed := FailedRows(endpoint, eligible, matches, transport, error);
    TwoBatches(failed, tested, authorization);
    SharedProduced(endpoint, eligible, matches, transport, error, tested, authorization);
    ProducedExplained([endpoint, endpoint], [Returned(failed), Returned(tested)], authorization);
    SharedSilent(endpoint, eligible, matches, transport, error, tested, authorization);
    SilentIsPartial([endpoint, endpoint], failed + tested + authorization, states, engines, blocking);
  }

  /** A silent assessment of some endpoints is PARTIAL. */
  lemma {:induction false} SilentIsPartial(endpoints: seq<Endpoint>, rows: seq<Check>, states: seq<RecordState>,
        engines: seq<EngineResult>, blocking: multiset<Reason>)
    requires Silent(endpoints, rows) && endpoints != [] && AllExplained(rows)
    requires Recorded(endpoints, states, rows, engines) && Blocks(blocking, states, MatrixOf(engines), RUNTIME)
    ensures Verdict(|states|, CountTested(states), Count(MatrixOf(engines), RUNTIME, BlockedRow)).PARTIAL_ASSESSMENT?
    ensures blocking == multiset{}
  {
    CompleteExactly(endpoints, rows, states, engines);
    StatesSayReached(endpoints, states, rows, engines);
    NoReasonExactly(states, rows, RUNTIME, blocking);
  }

  lemma {:induction false} SharedSilent(endpoint: Endpoint, eligible: seq<MutationPoint>, matches: Matcher,
        transport: Check, error: Exception, tested: seq<Check>, authorization: seq<Check>)
    requires Retrieval(endpoint.method_) && !Blocked(transport.status)
    requires EndpointRows(tested, endpoint.endpointId) && AuthorizationRows(authorization, [endpoint, endpoint])
    requires forall row | row in tested + authorization :: !Blocked(row.status)
    ensures Silent([endpoint, endpoint],
      FailedRows(endpoint, eligible, matches, transport, error) + tested + authorization)
  {
    var failed := FailedRows(endpoint, eligible, matches, transport, error);
    var rows := failed + tested + authorization;
    SharedRows(endpoint, eligible, matches, transport, error, tested, authorization);
    assert rows[2] == failed[2] && rows[2] in rows;
  }

  lemma {:induction false} SharedProduced(endpoint: Endpoint, eligible: seq<MutationPoint>, matches: Matcher,
        transport: Check, error: Exception, tested: seq<Check>, authorization: seq<Check>)
    requires transport.name == InsecureTransport && transport.endpointId == endpoint.endpointId
    requires !Blocked(transport.status) && transport.requests == 0
    requires EndpointRows(tested, endpoint.endpointId) && AuthorizationRows(authorization, [endpoint, endpoint])
    ensures ProducedMatrix([endpoint, endpoint],
      [Returned(FailedRows(endpoint, eligible, matches, transport, error)), Returned(tested)], authorization)
  {
    FailedRowsProduced(endpoint, eligible, matches, transport, error);
  }

  lemma {:induction false} TwoBatches(failed: seq<Check>, tested: seq<Check>, authorization: seq<Check>)
    ensures Matrix([Returned(failed), Returned(tested)], authorization) == failed + tested + authorization
  {
    var batches := [Returned(failed), Returned(tested)];
    assert batches[..1] == [Returned(failed)];
    assert [Returned(failed)][..0] == [];
    assert Flatten([Returned(failed)]) == failed;
  }

  lemma {:induction false} FailedRowsBlame(endpoint: Endpoint, eligible: seq<MutationPoint>, matches: Matcher,
        transport: Check, error: Exception)
    requires !Blocked(transport.status)
    ensures forall row | row in FailedRows(endpoint, eligible, matches, transport, error) :: Blocked(row.status) ==>
      BlamesBaseline(row)
  {
    UnrunRowsBlame(endpoint.endpointId, ACTIVE_CHECKS, ScalarPoints(eligible), matches, error);
  }

  lemma {:induction false} TestedBaselines(tested: seq<Check>, id: string)
    requires EndpointRows(tested, id) && forall row | row in tested :: !Blocked(row.status)
    ensures exists row :: row in tested && row.name.Baseline? && row.endpointId == id
    ensures forall row | row in tested && row.name.Baseline? :: row.status.TESTED?
  {
    CheckAtPosition(Baseline);
    assert tested[1] in tested;
    forall row | row in tested && row.name.Baseline? ensures row.status.TESTED? {
      BaselineInBatch(tested, id, row);
    }
  }

  lemma {:induction false} SharedRows(endpoint: Endpoint, eligible: seq<MutationPoint>, matches: Matcher,
        transport: Check, error: Exception, tested: seq<Check>, authorization: seq<Check>)
    requires !Blocked(transport.status)
    requires EndpointRows(tested, endpoint.endpointId) && AuthorizationRows(authorization, [endpoint, endpoint])
    requires forall row | row in tested + authorization :: !Blocked(row.status)
    ensures var rows := FailedRows(endpoint, eligible, matches, transport, error) + tested + authorization;
            && Reached(rows, endpoint.endpointId)
            && (forall row | row in rows && Blocked(row.status) :: BlamesBaseline(row))
  {
    FailedRowsBlame(endpoint, eligible, matches, transport, error);
    forall row | row in tested ensures !Blocked(row.status) {
      assert row in tested + authorization;
    }
    forall row | row in authorization ensures !Blocked(row.status) && !row.name.Baseline? {
      assert row in tested + authorization;
      AuthorizationRow(authorization, [endpoint, endpoint], row);
    }
    TestedBaselines(tested, endpoint.endpointId);
    LastBaselineDecides(FailedRows(endpoint, eligible, matches, transport, error), tested, authorization,
        endpoint.endpointId);
  }
}
