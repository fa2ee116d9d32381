/** The end of a scan: the verdict over its checks becomes the status of its row. */
module Scans {
  import opened MutationPoints
  import opened CheckMatrix
  import opened EngineRuns
  import opened Coverage
  import opened Assessments
  import Lifecycle
  import O = Orchestration

  /** The reporting stage, with the engines' failures as the scan recorded them. The row says
      COMPLETED exactly if the stage was not interrupted, no engine failed, every id was reached
      and no applicable check was left out; an uninterrupted stage says PARTIAL otherwise. */
  method Publish(o: O.Orchestrator, endpoints: seq<Endpoint>, records: seq<EndpointRecord>, engines: seq<EngineResult>,
        rows: seq<Check>)
    returns (exit: O.Exit)
    requires o.Valid() && o.s.pc == Lifecycle.At(Lifecycle.Report) && o.s.failures == PartialFailure(engines)
    requires |records| == |endpoints|
      && forall i | 0 <= i < |records| :: records[i].endpointId == endpoints[i].endpointId
    requires MatrixOf(engines) == WithoutBaseline(rows) && AllExplained(rows)
    modifies o, records
    ensures o.Valid() && o.Continues() && o.Left(exit, Lifecycle.Done)
    ensures exit.Passed? ==> o.s.row.status.COMPLETED? || o.s.row.status.PARTIAL?
    ensures o.s.row.status.COMPLETED? <==>
      exit.Passed? && NoneFailed(engines) && endpoints != [] && AllIdsReached(endpoints, rows)
          && !AnyBlocked(rows, RUNTIME)
  {
    PartialFailureExactly(engines);
    exit := o.BeginReports();
    if exit.Passed? {
      var completed, report := Judge(endpoints, records, engines, rows);
      exit := o.Conclude(report.assessment.COMPLETE?);
    }
    Lifecycle.InvHolds(o.c, o.states, o.steps, |o.steps|);
  }
}
