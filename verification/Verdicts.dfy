/** The verdict on a scan in terms of the rows alone: which endpoints count as reached, which checks as
    left out, and what the assessment then says. */
module Verdicts {
  import opened JsonValues
  import opened MutationPoints
  import opened CheckMatrix
  import opened EngineRuns
  import opened Coverage
  import opened Assessments

  /** Row `i` is the last baseline row of the endpoint. */
  predicate LastBaselineAt(rows: seq<Check>, id: string, i: nat) {
    && i < |rows| && rows[i].name.Baseline? && rows[i].endpointId == id
    && forall j | i < j < |rows| :: !(rows[j].name.Baseline? && rows[j].endpointId == id)
  }

  lemma {:induction false} LastBaselineExactly(rows: seq<Check>, id: string, i: nat)
    requires LastBaselineAt(rows, id, i)
    ensures LastBaseline(rows, id) == Some(rows[i])
  {
    if i < |rows| - 1 {
      assert rows[..|rows| - 1][i] == rows[i];
      LastBaselineExactly(rows[..|rows| - 1], id, i);
    }
  }

  lemma {:induction false} LastBaselineFound(rows: seq<Check>, id: string) returns (i: nat)
    requires LastBaseline(rows, id).Some?
    ensures LastBaselineAt(rows, id, i) && LastBaseline(rows, id) == Some(rows[i])
  {
    var last := rows[|rows| - 1];
    if last.name.Baseline? && last.endpointId == id {
      i := |rows| - 1;
    } else {
      i := LastBaselineFound(rows[..|rows| - 1], id);
    }
  }

  /** An endpoint is reached exactly if its last baseline row is TESTED; otherwise the reason is that
      row's, or that no baseline was completed. */
  lemma {:induction false} ReachedExactly(rows: seq<Check>, id: string)
    ensures Reached(rows, id) <==> exists i: nat :: LastBaselineAt(rows, id, i) && rows[i].status.TESTED?
    ensures forall i: nat | LastBaselineAt(rows, id, i) && rows[i].reason.Some? ::
      SkipReason(rows, id) == rows[i].reason.value
    ensures (forall i: nat | LastBaselineAt(rows, id, i) :: rows[i].reason.None?) ==>
      SkipReason(rows, id) == BaselineNotCompleted
  {
    forall i: nat | LastBaselineAt(rows, id, i) ensures LastBaseline(rows, id) == Some(rows[i]) {
      LastBaselineExactly(rows, id, i);
    }
    if LastBaseline(rows, id).Some? {
      var i := LastBaselineFound(rows, id);
    }
  }

  /** A check other than the baseline and the offline check of the URL scheme was skipped or failed. */
  predicate LeftOut(row: Check) {
    !row.name.Baseline? && !row.name.InsecureTransport? && (row.status.SKIPPED? || row.status.ERROR?)
  }

  lemma {:induction false} AnyBlockedExactly(rows: seq<Check>)
    ensures AnyBlocked(rows, RUNTIME) <==> exists row :: row in rows && LeftOut(row)
  {
    if row :| row in rows && LeftOut(row) {
      assert row.name in RUNTIME;
    }
  }

  lemma {:induction false} NoneTested(states: seq<RecordState>)
    ensures CountTested(states) == 0 <==> forall i | 0 <= i < |states| :: !states[i].testStatus.REACHED?
  {
    if states != [] {
      NoneTested(states[..|states| - 1]);
    }
  }

  predicate SomeIdReached(endpoints: seq<Endpoint>, rows: seq<Check>) {
    exists i :: 0 <= i < |endpoints| && Reached(rows, endpoints[i].endpointId)
  }

  lemma {:induction false} TestedExactly(endpoints: seq<Endpoint>, rows: seq<Check>, states: seq<RecordState>,
        engines: seq<EngineResult>)
    requires Recorded(endpoints, states, rows, engines)
    ensures CountTested(states) == 0 <==> !SomeIdReached(endpoints, rows)
  {
    NoneTested(states);
    forall i | 0 <= i < |states|
      ensures states[i].testStatus.REACHED? <==> Reached(rows, endpoints[i].endpointId)
    {
      assert StateFollows(states[i], rows);
    }
  }

  /** For every inventory: the assessment is INCOMPLETE exactly if no endpoint is reached, and else
      PARTIAL exactly if some endpoint is not reached or some check is left out. */
  lemma {:induction false} AssessmentExactly(endpoints: seq<Endpoint>, rows: seq<Check>, states: seq<RecordState>,
        engines: seq<EngineResult>)
    requires Recorded(endpoints, states, rows, engines)
    ensures var verdict := Verdict(|states|, CountTested(states), Count(MatrixOf(engines), RUNTIME, BlockedRow));
            var gaps := !AllIdsReached(endpoints, rows) || exists row :: row in rows && LeftOut(row);
            && (verdict.INCOMPLETE? <==> !SomeIdReached(endpoints, rows))
            && (verdict.PARTIAL_ASSESSMENT? <==> SomeIdReached(endpoints, rows) && gaps)
            && (verdict.COMPLETE? <==> SomeIdReached(endpoints, rows) && !gaps)
  {
    TestedExactly(endpoints, rows, states, engines);
    StatesSayReached(endpoints, states, rows, engines);
    BlockedCounted(rows, RUNTIME);
    AnyBlockedExactly(rows);
    if !SomeIdReached(endpoints, rows) && endpoints != [] {
      assert !Reached(rows, endpoints[0].endpointId);
    }
  }

  /** The kinds of rows that are counted, status by status. */
  lemma {:induction false} KindsExactly(row: Check, reason: Reason)
    ensures IsKind(row, EligibleRow) <==> row.status in {TESTED, DETECTED, SKIPPED, ERROR}
    ensures IsKind(row, AttemptedRow) <==> row.status in {TESTED, DETECTED}
    ensures IsKind(row, DetectedRow) <==> row.status == DETECTED
    ensures IsKind(row, SkippedCheck) <==> row.status == SKIPPED
    ensures IsKind(row, ErrorCheck) <==> row.status == ERROR
    ensures IsKind(row, BlockedRow) <==> row.status in {SKIPPED, ERROR}
    ensures IsKind(row, BlockedFor(reason)) <==> row.status in {SKIPPED, ERROR} && row.reason == Some(reason)
    ensures row.name in OFFLINE <==> row.name == InsecureTransport
    ensures row.name in RUNTIME <==> row.name != InsecureTransport
    ensures row.name in ALL_CHECKS
  {
  }
}
