/** Coverage accounting over the check matrix (`calculate_coverage`, `_apply_endpoint_baselines`). */
module Coverage {
  import opened JsonValues
  import opened CheckMatrix
  import opened EngineRuns

  // ---------- endpoint status from the baseline rows ----------

  datatype TestStatus = PENDING | REACHED | UNREACHED

  /** The stored inventory row of an endpoint; a scan updates its status in place. */
  class EndpointRecord {
    const endpointId: string
    var testStatus: TestStatus
    var skipReason: Option<Reason>

    constructor (endpointId: string)
      ensures this.endpointId == endpointId && testStatus == PENDING && skipReason == None
    {
      this.endpointId, testStatus, skipReason := endpointId, PENDING, None;
    }
  }

  /** `{row.endpoint_id: row for row in rows if row.check == "baseline"}`: the last row wins. */
  function LastBaseline(rows: seq<Check>, endpointId: string): Option<Check> {
    if rows == [] then None
    else
      var last := rows[|rows| - 1];
      if last.name.Baseline? && last.endpointId == endpointId then Some(last)
      else LastBaseline(rows[..|rows| - 1], endpointId)
  }

  predicate Reached(rows: seq<Check>, endpointId: string) {
    var baseline := LastBaseline(rows, endpointId);
    baseline.Some? && baseline.value.status.TESTED?
  }

  function SkipReason(rows: seq<Check>, endpointId: string): Reason {
    var baseline := LastBaseline(rows, endpointId);
    if baseline.Some? && baseline.value.reason.Some? then baseline.value.reason.value else BaselineNotCompleted
  }

  /** The record says what the baseline rows say. */
  ghost predicate Follows(record: EndpointRecord, rows: seq<Check>)
    reads record
  {
    if Reached(rows, record.endpointId)
    then record.testStatus.REACHED? && record.skipReason == None
    else record.testStatus.UNREACHED? && record.skipReason == Some(SkipReason(rows, record.endpointId))
  }

  function CountReached(records: seq<EndpointRecord>, rows: seq<Check>): nat {
    if records == [] then 0
    else CountReached(records[..|records| - 1], rows)
         + (if Reached(rows, records[|records| - 1].endpointId) then 1 else 0)
  }

  /** The reasons of the unreached records, each where it first occurs. */
  function FirstReasons(records: seq<EndpointRecord>, rows: seq<Check>): seq<Reason> {
    if records == [] then []
    else
      var (seen, id) := (FirstReasons(records[..|records| - 1], rows), records[|records| - 1].endpointId);
      if Reached(rows, id) || SkipReason(rows, id) in seen then seen else seen + [SkipReason(rows, id)]
  }

  lemma {:induction false} FirstReasonsAre(records: seq<EndpointRecord>, rows: seq<Check>)
    ensures forall i, j | 0 <= i < j < |FirstReasons(records, rows)| ::
      FirstReasons(records, rows)[i] != FirstReasons(records, rows)[j]
    ensures forall reason :: reason in FirstReasons(records, rows) <==>
              exists i :: 0 <= i < |records| && !Reached(rows, records[i].endpointId)
                  && reason == SkipReason(rows, records[i].endpointId)
  {
    if records != [] {
      var init := records[..|records| - 1];
      FirstReasonsAre(init, rows);
      assert forall i | 0 <= i < |init| :: init[i] == records[i];
    }
  }

  /** Earlier records give the earlier reasons. */
  lemma {:induction false} FirstReasonsGrow(records: seq<EndpointRecord>, rows: seq<Check>, i: nat)
    requires i <= |records|
    ensures FirstReasons(records[..i], rows) <= FirstReasons(records, rows)
    decreases |records|
  {
    if i < |records| {
      assert records[..|records| - 1][..i] == records[..i];
      FirstReasonsGrow(records[..|records| - 1], rows, i);
    } else {
      assert records[..i] == records;
    }
  }

  /** Marks every record from the baseline rows; counts the reached ones, and lists the reasons
      of the others in the order in which they first occur. */
  method ApplyEndpointBaselines(records: seq<EndpointRecord>, rows: seq<Check>)
    returns (tested: nat, reasons: seq<Reason>)
    modifies records
    ensures forall record | record in records :: Follows(record, rows)
    ensures tested == CountReached(records, rows)
    ensures reasons == FirstReasons(records, rows)
  {
    tested, reasons := 0, [];
    for i := 0 to |records|
      invariant forall j | 0 <= j < i :: Follows(records[j], rows)
      invariant tested == CountReached(records[..i], rows)
      invariant reasons == FirstReasons(records[..i], rows)
    {
      var record := records[i];
      assert records[..i + 1][..i] == records[..i];
      var baseline := LastBaseline(rows, record.endpointId);
      if baseline.Some? && baseline.value.status.TESTED? {
        record.testStatus := REACHED;
        record.skipReason := None;
        tested := tested + 1;
        continue;
      }
      record.testStatus := UNREACHED;
      var reason := SkipReason(rows, record.endpointId);
      record.skipReason := Some(reason);
      if reason !in reasons {
        reasons := reasons + [reason];
      }
    }
    assert records[..|records|] == records;
  }

  // ---------- counting rows ----------

  datatype Kind =
    | EligibleRow
    | AttemptedRow
    | DetectedRow
    | SkippedCheck
    | ErrorCheck
    | BlockedRow
    | BlockedFor(reason: Reason)

  predicate IsKind(row: Check, kind: Kind) {
    match kind
    case EligibleRow => !row.status.NOT_APPLICABLE?
    case AttemptedRow => row.status.TESTED? || row.status.DETECTED?
    case DetectedRow => row.status.DETECTED?
    case SkippedCheck => row.status.SKIPPED?
    case ErrorCheck => row.status.ERROR?
    case BlockedRow => Blocked(row.status)
    case BlockedFor(reason) => Blocked(row.status) && row.reason == Some(reason)
  }

  /** Rows of the named checks that are of a kind. */
  function Count(rows: seq<Check>, names: set<CheckName>, kind: Kind): nat {
    if rows == [] then 0
    else Count(rows[..|rows| - 1], names, kind)
         + (if rows[|rows| - 1].name in names && IsKind(rows[|rows| - 1], kind) then 1 else 0)
  }

  lemma {:induction false} CountOneMoreName(rows: seq<Check>, names: set<CheckName>, name: CheckName, kind: Kind)
    requires name !in names
    ensures Count(rows, names + {name}, kind) == Count(rows, names, kind) + Count(rows, {name}, kind)
  {
    if rows != [] {
      CountOneMoreName(rows[..|rows| - 1], names, name, kind);
    }
  }

  lemma {:induction false} CountNoNames(rows: seq<Check>, kind: Kind)
    ensures Count(rows, {}, kind) == 0
  {
    if rows != [] {
      CountNoNames(rows[..|rows| - 1], kind);
    }
  }

  lemma {:induction false} CountZero(rows: seq<Check>, names: set<CheckName>, kind: Kind)
    ensures Count(rows, names, kind) == 0 <==> forall row | row in rows :: row.name in names ==> !IsKind(row, kind)
  {
    if rows != [] {
      CountZero(rows[..|rows| - 1], names, kind);
      assert rows == rows[..|rows| - 1] + [rows[|rows| - 1]];
    }
  }

  /** What is eligible was attempted or is blocked. */
  lemma {:induction false} EligibleSplits(rows: seq<Check>, names: set<CheckName>)
    ensures Count(rows, names, EligibleRow) == Count(rows, names, AttemptedRow) + Count(rows, names, BlockedRow)
  {
    if rows != [] {
      EligibleSplits(rows[..|rows| - 1], names);
    }
  }

  /** Only checks that occur count. */
  lemma {:induction false} CountPresent(rows: seq<Check>, names: set<CheckName>, present: set<CheckName>, kind: Kind)
    requires forall row | row in rows :: row.name in present
    ensures Count(rows, names * present, kind) == Count(rows, names, kind)
  {
    if rows != [] {
      CountPresent(rows[..|rows| - 1], names, present, kind);
    }
  }

  // ---------- the coverage summary ----------

  /** Checks that run without contacting the target. */
  const OFFLINE: set<CheckName> := {InsecureTransport}

  const RUNTIME: set<CheckName> := set name: CheckName | !name.InsecureTransport?

  const ALL_CHECKS: set<CheckName> := set name: CheckName | true

  datatype CheckSummary = CheckSummary(
    eligible: nat, attempted: nat, detected: nat, skipped: nat, errors: nat, requests: nat,
        skipReasons: multiset<Reason>)

  datatype Summary = Summary(eligible: nat, attempted: nat, skippedOrError: nat)

  datatype Assessment = COMPLETE | PARTIAL_ASSESSMENT | INCOMPLETE

  datatype CoverageReport = CoverageReport(
    assessment: Assessment, total: nat, tested: nat, runtime: Summary, offline: Summary, all: Summary,
    checks: map<CheckName, CheckSummary>, blockingReasons: multiset<Reason>, matrix: seq<Check>)

  /** The rows of every engine that reports checks, baseline rows left out. */
  function WithoutBaseline(rows: seq<Check>): seq<Check> {
    if rows == [] then []
    else WithoutBaseline(rows[..|rows| - 1]) + (if rows[|rows| - 1].name.Baseline? then [] else [rows[|rows| - 1]])
  }

  function MatrixOf(engines: seq<EngineResult>): seq<Check> {
    if engines == [] then []
    else MatrixOf(engines[..|engines| - 1])
         + (match engines[|engines| - 1].checks case Some(rows) => WithoutBaseline(rows) case None => [])
  }

  function RequestsOf(rows: seq<Check>, name: CheckName): nat {
    if rows == [] then 0
    else RequestsOf(rows[..|rows| - 1], name) + (if rows[|rows| - 1].name == name then rows[|rows| - 1].requests else 0)
  }

  /** What the summary of one check says. */
  ghost predicate Summarizes(summary: CheckSummary, rows: seq<Check>, name: CheckName) {
    && summary.eligible == Count(rows, {name}, EligibleRow)
    && summary.attempted == Count(rows, {name}, AttemptedRow)
    && summary.detected == Count(rows, {name}, DetectedRow)
    && summary.skipped == Count(rows, {name}, SkippedCheck)
    && summary.errors == Count(rows, {name}, ErrorCheck)
    && summary.requests == RequestsOf(rows, name)
    && forall reason :: summary.skipReasons[reason] == Count(rows, {name}, BlockedFor(reason))
  }

  lemma {:induction false} CountNext(rows: seq<Check>, i: nat, names: set<CheckName>, kind: Kind)
    requires i < |rows|
    ensures Count(rows[..i + 1], names, kind)
         == Count(rows[..i], names, kind) + (if rows[i].name in names && IsKind(rows[i], kind) then 1 else 0)
  {
    assert rows[..i + 1][..i] == rows[..i];
  }

  function Bit(b: bool): nat {
    if b then 1 else 0
  }

  /** The summary after one more row. */
  function AddRow(summary: CheckSummary, row: Check): CheckSummary {
    CheckSummary(
      summary.eligible + Bit(!row.status.NOT_APPLICABLE?),
      summary.attempted + Bit(row.status.TESTED? || row.status.DETECTED?),
      summary.detected + Bit(row.status.DETECTED?),
      summary.skipped + Bit(row.status.SKIPPED?),
      summary.errors + Bit(row.status.ERROR?),
      summary.requests + row.requests,
      if Blocked(row.status) && row.reason.Some? then summary.skipReasons + multiset{row.reason.value}
          else summary.skipReasons)
  }

  lemma {:induction false} AddRowSummarizes(summary: CheckSummary, rows: seq<Check>, i: nat, name: CheckName)
    requires i < |rows| && Summarizes(summary, rows[..i], name)
    ensures Summarizes(if rows[i].name == name then AddRow(summary, rows[i]) else summary, rows[..i + 1], name)
  {
    CountNext(rows, i, {name}, EligibleRow);
    CountNext(rows, i, {name}, AttemptedRow);
    CountNext(rows, i, {name}, DetectedRow);
    CountNext(rows, i, {name}, SkippedCheck);
    CountNext(rows, i, {name}, ErrorCheck);
    RequestsNext(rows, i, name);
    ReasonsNext(summary, rows, i, name);
  }

  lemma {:induction false} RequestsNext(rows: seq<Check>, i: nat, name: CheckName)
    requires i < |rows|
    ensures RequestsOf(rows[..i + 1], name)
         == RequestsOf(rows[..i], name) + (if rows[i].name == name then rows[i].requests else 0)
  {
    assert rows[..i + 1][..i] == rows[..i];
  }

  lemma {:induction false} ReasonsNext(summary: CheckSummary, rows: seq<Check>, i: nat, name: CheckName)
    requires i < |rows| && forall reason :: summary.skipReasons[reason] == Count(rows[..i], {name}, BlockedFor(reason))
    ensures var next := if rows[i].name == name then AddRow(summary, rows[i]) else summary;
            forall reason :: next.skipReasons[reason] == Count(rows[..i + 1], {name}, BlockedFor(reason))
  {
    forall reason ensures (if rows[i].name == name then AddRow(summary, rows[i]) else summary).skipReasons[reason]
                       == Count(rows[..i + 1], {name}, BlockedFor(reason)) {
      CountNext(rows, i, {name}, BlockedFor(reason));
    }
  }

  method SummarizeCheck(rows: seq<Check>, name: CheckName) returns (summary: CheckSummary)
    ensures Summarizes(summary, rows, name)
  {
    summary := CheckSummary(0, 0, 0, 0, 0, 0, multiset{});
    for i := 0 to |rows|
      invariant Summarizes(summary, rows[..i], name)
    {
      AddRowSummarizes(summary, rows, i, name);
      if rows[i].name == name {
        summary := AddRow(summary, rows[i]);
      }
    }
    assert rows[..|rows|] == rows;
  }

  /** Totals over a set of checks, and what is eligible but not attempted. */
  method SummarizeAll(rows: seq<Check>, checks: map<CheckName, CheckSummary>, names: set<CheckName>)
    returns (summary: Summary)
    requires names <= checks.Keys && forall name | name in checks :: Summarizes(checks[name], rows, name)
    ensures summary.eligible == Count(rows, names, EligibleRow) && summary.attempted == Count(rows, names, AttemptedRow)
    ensures summary.skippedOrError == Count(rows, names, BlockedRow)
  {
    var eligible, attempted := 0, 0;
    var remaining := names;
    CountNoNames(rows, EligibleRow);
    CountNoNames(rows, AttemptedRow);
    assert names - names == {};
    while remaining != {}
      invariant remaining <= names
      invariant eligible == Count(rows, names - remaining, EligibleRow)
      invariant attempted == Count(rows, names - remaining, AttemptedRow)
      decreases remaining
    {
      var name :| name in remaining;
      CountOneMoreName(rows, names - remaining, name, EligibleRow);
      CountOneMoreName(rows, names - remaining, name, AttemptedRow);
      assert names - (remaining - {name}) == (names - remaining) + {name};
      eligible := eligible + checks[name].eligible;
      attempted := attempted + checks[name].attempted;
      remaining := remaining - {name};
    }
    assert names - {} == names;
    EligibleSplits(rows, names);
    summary := Summary(eligible, attempted, if eligible > attempted then eligible - attempted else 0);
  }

  /** The endpoint records as values. */
  datatype RecordState = RecordState(endpointId: string, testStatus: TestStatus, skipReason: Option<Reason>)

  ghost function StatesOf(records: seq<EndpointRecord>): (states: seq<RecordState>)
    reads records
    ensures |states| == |records|
    ensures forall i | 0 <= i < |records| ::
              states[i] == RecordState(records[i].endpointId, records[i].testStatus, records[i].skipReason)
  {
    if records == [] then []
    else
      var last := records[|records| - 1];
      StatesOf(records[..|records| - 1]) + [RecordState(last.endpointId, last.testStatus, last.skipReason)]
  }

  function CountTested(states: seq<RecordState>): nat {
    if states == [] then 0 else CountTested(states[..|states| - 1]) + Bit(states[|states| - 1].testStatus.REACHED?)
  }

  function EndpointReasons(states: seq<RecordState>): multiset<Reason> {
    if states == [] then multiset{}
    else EndpointReasons(states[..|states| - 1])
         + (match states[|states| - 1].skipReason case Some(reason) => multiset{reason} case None => multiset{})
  }

  /** The verdict on the whole assessment. */
  function Verdict(total: nat, tested: nat, blocked: nat): Assessment {
    if total == 0 || tested == 0 then INCOMPLETE
    else if tested < total || blocked > 0 then PARTIAL_ASSESSMENT
    else COMPLETE
  }

  /** Blocking reasons: every endpoint's own, and those of the blocked runtime rows, except that
      a failed baseline is not counted again for the checks depending on it. */
  ghost predicate Blocks(blocking: multiset<Reason>, states: seq<RecordState>, rows: seq<Check>, names: set<CheckName>)
  {
    forall reason ::
      blocking[reason]
      == EndpointReasons(states)[reason]
         + (if reason.BaselineFailed? then 0 else Count(rows, names, BlockedFor(reason)))
  }

  /** Adds the reasons of one check to the counter. */
  method AddReasons(blocking: multiset<Reason>, reasons: multiset<Reason>) returns (updated: multiset<Reason>)
    ensures forall reason ::
      updated[reason] == blocking[reason] + (if reason.BaselineFailed? then 0 else reasons[reason])
  {
    updated := blocking;
    var remaining := reasons;
    while remaining != multiset{}
      invariant remaining <= reasons
      invariant forall reason ::
        updated[reason] == blocking[reason]
            + (if reason.BaselineFailed? || reason in remaining then 0 else reasons[reason])
      invariant forall reason | reason in remaining :: remaining[reason] == reasons[reason]
      decreases |remaining|
    {
      var reason :| reason in remaining;
      PrefixSinglesOutBaseline(reason);
      if !(BASELINE_FAILED <= ReasonText(reason)) {
        updated := updated[reason := updated[reason] + reasons[reason]];
      }
      remaining := remaining[reason := 0];
    }
  }

  method BlockingReasons(states: seq<RecordState>, rows: seq<Check>, checks: map<CheckName, CheckSummary>,
        names: set<CheckName>)
    returns (blocking: multiset<Reason>)
    requires names <= checks.Keys && forall name | name in checks :: Summarizes(checks[name], rows, name)
    ensures Blocks(blocking, states, rows, names)
  {
    blocking := multiset{};
    for i := 0 to |states|
      invariant blocking == EndpointReasons(states[..i])
    {
      assert states[..i + 1][..i] == states[..i];
      if states[i].skipReason.Some? {
        blocking := blocking + multiset{states[i].skipReason.value};
      }
    }
    assert states[..|states|] == states;
    var remaining := names;
    forall reason ensures Count(rows, names - names, BlockedFor(reason)) == 0 {
      assert names - names == {};
      CountNoNames(rows, BlockedFor(reason));
    }
    while remaining != {}
      invariant remaining <= names
      invariant Blocks(blocking, states, rows, names - remaining)
      decreases remaining
    {
      var name :| name in remaining;
      ghost var done := names - remaining;
      forall reason ensures Count(rows, done + {name}, BlockedFor(reason))
                         == Count(rows, done, BlockedFor(reason)) + Count(rows, {name}, BlockedFor(reason)) {
        CountOneMoreName(rows, done, name, BlockedFor(reason));
      }
      blocking := AddReasons(blocking, checks[name].skipReasons);
      remaining := remaining - {name};
      assert names - remaining == done + {name};
    }
    assert names - {} == names;
  }

  lemma {:induction false} CountTestedBound(states: seq<RecordState>)
    ensures CountTested(states) <= |states|
    ensures CountTested(states) == |states| <==> forall i | 0 <= i < |states| :: states[i].testStatus.REACHED?
  {
    if states != [] {
      CountTestedBound(states[..|states| - 1]);
    }
  }

  /** What the per-check part of a report says about the matrix. */
  ghost predicate Accounts(report: CoverageReport) {
    && report.runtime.eligible == Count(report.matrix, RUNTIME, EligibleRow)
    && report.runtime.attempted == Count(report.matrix, RUNTIME, AttemptedRow)
    && report.runtime.skippedOrError == Count(report.matrix, RUNTIME, BlockedRow)
    && report.offline.eligible == Count(report.matrix, OFFLINE, EligibleRow)
    && report.offline.attempted == Count(report.matrix, OFFLINE, AttemptedRow)
    && report.offline.skippedOrError == Count(report.matrix, OFFLINE, BlockedRow)
    && report.all.eligible == Count(report.matrix, ALL_CHECKS, EligibleRow)
    && report.all.attempted == Count(report.matrix, ALL_CHECKS, AttemptedRow)
    && report.all.skippedOrError == Count(report.matrix, ALL_CHECKS, BlockedRow)
    && (forall name :: name in report.checks <==> exists row :: row in report.matrix && row.name == name)
    && (forall name | name in report.checks :: Summarizes(report.checks[name], report.matrix, name))
  }

  /** The whole report: endpoint counts, one summary per check that occurs, the totals over
      runtime, offline and all checks, the blocking reasons and the verdict. */
  method CalculateCoverage(records: seq<EndpointRecord>, engines: seq<EngineResult>) returns (report: CoverageReport)
    ensures report.matrix == MatrixOf(engines)
    ensures report.total == |records| && report.tested == CountTested(StatesOf(records))
    ensures Accounts(report)
    ensures Blocks(report.blockingReasons, StatesOf(records), report.matrix, RUNTIME)
    ensures report.assessment == Verdict(report.total, report.tested, report.runtime.skippedOrError)
  {
    var states, tested := ReadRecords(records);
    var matrix := GatherMatrix(engines);
    report := Account(states, tested, matrix);
  }

  method Account(states: seq<RecordState>, tested: nat, matrix: seq<Check>) returns (report: CoverageReport)
    ensures report.matrix == matrix && report.total == |states| && report.tested == tested && Accounts(report)
    ensures Blocks(report.blockingReasons, states, matrix, RUNTIME)
    ensures report.assessment == Verdict(report.total, report.tested, report.runtime.skippedOrError)
  {
    var present := set row | row in matrix :: row.name;
    var checks := SummarizeEach(matrix, present);
    var runtime := SummarizeGroup(matrix, checks, RUNTIME);
    var offline := SummarizeGroup(matrix, checks, OFFLINE);
    var all := SummarizeGroup(matrix, checks, ALL_CHECKS);
    var blocking := RuntimeReasons(states, matrix, checks);
    report := CoverageReport(Verdict(|states|, tested, runtime.skippedOrError), |states|, tested, runtime, offline, all,
                             checks, blocking, matrix);
  }

  method RuntimeReasons(states: seq<RecordState>, rows: seq<Check>, checks: map<CheckName, CheckSummary>)
    returns (blocking: multiset<Reason>)
    requires checks.Keys == set row | row in rows :: row.name
    requires forall name | name in checks :: Summarizes(checks[name], rows, name)
    ensures Blocks(blocking, states, rows, RUNTIME)
  {
    blocking := BlockingReasons(states, rows, checks, checks.Keys * RUNTIME);
    BlocksPresent(blocking, states, rows, RUNTIME, checks.Keys);
  }

  method GatherMatrix(engines: seq<EngineResult>) returns (matrix: seq<Check>)
    ensures matrix == MatrixOf(engines)
  {
    matrix := [];
    for i := 0 to |engines|
      invariant matrix == MatrixOf(engines[..i])
    {
      assert engines[..i + 1][..i] == engines[..i];
      match engines[i].checks {
        case Some(rows) => matrix := matrix + WithoutBaseline(rows);
        case None =>
      }
    }
    assert engines[..|engines|] == engines;
  }

  /** Totals over those checks of a group that occur at all. */
  method SummarizeGroup(rows: seq<Check>, checks: map<CheckName, CheckSummary>, names: set<CheckName>)
    returns (summary: Summary)
    requires checks.Keys == set row | row in rows :: row.name
    requires forall name | name in checks :: Summarizes(checks[name], rows, name)
    ensures summary.eligible == Count(rows, names, EligibleRow) && summary.attempted == Count(rows, names, AttemptedRow)
    ensures summary.skippedOrError == Count(rows, names, BlockedRow)
  {
    CountPresent(rows, names, checks.Keys, EligibleRow);
    CountPresent(rows, names, checks.Keys, AttemptedRow);
    CountPresent(rows, names, checks.Keys, BlockedRow);
    summary := SummarizeAll(rows, checks, names * checks.Keys);
  }

  lemma {:induction false} BlocksPresent(blocking: multiset<Reason>, states: seq<RecordState>, rows: seq<Check>,
        names: set<CheckName>, present: set<CheckName>)
    requires present == set row | row in rows :: row.name
    requires Blocks(blocking, states, rows, present * names)
    ensures Blocks(blocking, states, rows, names)
  {
    assert present * names == names * present;
    forall reason ensures Count(rows, present * names, BlockedFor(reason)) == Count(rows, names, BlockedFor(reason)) {
      CountPresent(rows, names, present, BlockedFor(reason));
    }
  }

  method ReadRecords(records: seq<EndpointRecord>) returns (states: seq<RecordState>, tested: nat)
    ensures states == StatesOf(records) && tested == CountTested(states)
  {
    states, tested := [], 0;
    for i := 0 to |records|
      invariant |states| == i && tested == CountTested(states)
      invariant forall j | 0 <= j < i ::
        states[j] == RecordState(records[j].endpointId, records[j].testStatus, records[j].skipReason)
    {
      var state := RecordState(records[i].endpointId, records[i].testStatus, records[i].skipReason);
      assert (states + [state])[..|states|] == states;
      states := states + [state];
      tested := tested + Bit(state.testStatus.REACHED?);
    }
    assert states == StatesOf(records);
  }

  method SummarizeEach(rows: seq<Check>, names: set<CheckName>) returns (checks: map<CheckName, CheckSummary>)
    ensures checks.Keys == names && forall name | name in checks :: Summarizes(checks[name], rows, name)
  {
    checks := map[];
    var remaining := names;
    while remaining != {}
      invariant remaining <= names && checks.Keys == names - remaining
      invariant forall name | name in checks :: Summarizes(checks[name], rows, name)
      decreases remaining
    {
      var name :| name in remaining;
      var summary := SummarizeCheck(rows, name);
      checks := checks[name := summary];
      remaining := remaining - {name};
    }
  }
}
