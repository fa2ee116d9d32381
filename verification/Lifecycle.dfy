/** The life of a scan: the worker's steps interleaved with cancel, pause and resume requests. */
module Lifecycle {
  import opened JsonValues

  datatype Status =
    | QUEUED | INITIALIZING | DISCOVERING | SCANNING | CORRELATING | REPORTING | PAUSED
    | COMPLETED | PARTIAL | FAILED | CANCELLED | TIMEOUT

  predicate Terminal(status: Status) {
    status.COMPLETED? || status.PARTIAL? || status.FAILED? || status.CANCELLED? || status.TIMEOUT?
  }

  /** The scan's row, as far as worker and API share it. */
  datatype Row = Row(status: Status, progress: nat, cancelRequested: bool, pauseRequested: bool)

  /** A session writes the attributes it changed, that is those that differ from what it loaded;
      the others keep whatever the row holds by now. */
  function Flush(row: Row, loaded: Row, wanted: Row): Row {
    Row(if wanted.status != loaded.status then wanted.status else row.status,
        if wanted.progress != loaded.progress then wanted.progress else row.progress,
        if wanted.cancelRequested != loaded.cancelRequested then wanted.cancelRequested else row.cancelRequested,
        if wanted.pauseRequested != loaded.pauseRequested then wanted.pauseRequested else row.pauseRequested)
  }

  // ---------- the engine list ----------

  const CUSTOM: string := "custom"

  function Others(names: seq<string>): seq<string> {
    if names == [] then []
    else Others(names[..|names| - 1]) + (if names[|names| - 1] == CUSTOM then [] else [names[|names| - 1]])
  }

  /** `["custom", *(name for name in names if name != "custom")]` */
  function Engines(names: seq<string>): seq<string> {
    [CUSTOM] + Others(names)
  }

  ghost predicate CustomFirst(engines: seq<string>) {
    engines != [] && engines[0] == CUSTOM && forall i | 0 < i < |engines| :: engines[i] != CUSTOM
  }

  lemma {:induction false} OthersAreOthers(names: seq<string>, name: string)
    ensures multiset(Others(names))[name] == if name == CUSTOM then 0 else multiset(names)[name]
  {
    if names != [] {
      OthersAreOthers(names[..|names| - 1], name);
      assert names == names[..|names| - 1] + [names[|names| - 1]];
    }
  }

  /** Whatever the caller asks for, the custom engine runs first and once; the others run as
      often as they were asked for. */
  lemma {:induction false} EnginesStartWithCustom(names: seq<string>)
    ensures CustomFirst(Engines(names))
    ensures forall name | name != CUSTOM :: multiset(Engines(names))[name] == multiset(names)[name]
  {
    forall name ensures multiset(Others(names))[name] == if name == CUSTOM then 0 else multiset(names)[name] {
      OthersAreOthers(names, name);
    }
    forall i | 0 < i < |Engines(names)| ensures Engines(names)[i] != CUSTOM {
      assert Engines(names)[i] == Others(names)[i - 1];
      assert Others(names)[i - 1] in multiset(Others(names));
    }
  }

  // ---------- the system ----------

  datatype Action = CancelScan | PauseScan | ResumeScan

  /** A control request between its read of the row and its commit. */
  datatype Call = Call(action: Action, loaded: Row)

  /** What the worker does next. */
  datatype Point =
    | Initialize | Validate | Discover | Inventory | Scan
    | RunEngine(index: nat) | EngineStage(index: nat)
    | Correlate | Store | Report | Finish

  /** Inside a checkpoint: about to refresh the row, to record that the scan goes on or is
      paused, or asleep. */
  datatype Mode = Read | Resume | Pause | Sleep(until: real)

  datatype Pc =
    | Idle
    | At(point: Point)
    | Checkpoint(next: Point, mode: Mode)
    | Terminating(final: Status)
    | Done

  datatype Config = Config(engines: seq<string>, maxDuration: real)

  datatype State = State(
    row: Row, findings: nat, reports: nat, now: real, calls: map<nat, Call>,
    // the worker's own variables; `loaded` is its session's view of the row
    pc: Pc, loaded: Row, begun: real, deadline: real, started: seq<string>, endpoints: nat, reached: nat,
        failures: bool)

  /** What the world decides in a worker step: inventory size, endpoints reached by the custom
      engine, whether the engine failed or timed out, findings stored, coverage verdict. */
  datatype Outcome = Outcome(endpoints: nat, reached: nat, failed: bool, findings: nat, complete: bool)

  function Commit(s: State, wanted: Row, pc: Pc): State {
    s.(row := Flush(s.row, s.loaded, wanted), loaded := wanted, pc := pc)
  }

  function Stage(s: State, status: Status, progress: nat, pc: Pc): State {
    Commit(s, s.loaded.(status := status, progress := progress), pc)
  }

  /** The whole part of `a / d`, by repeated subtraction. */
  function Quotient(a: nat, d: nat): nat {
    if d == 0 || a < d then 0 else 1 + Quotient(a - d, d)
  }

  /** `30 + int(40 * (done / total))` */
  function EngineProgress(done: nat, total: nat): nat {
    30 + Quotient(40 * done, total)
  }

  predicate InRange(c: Config, point: Point) {
    (point.RunEngine? || point.EngineStage?) ==> point.index < |c.engines|
  }

  /** One step of `run` outside a checkpoint. */
  function Advance(c: Config, s: State, o: Outcome): State
    requires s.pc.At? && InRange(c, s.pc.point)
  {
    match s.pc.point
    case Initialize => Stage(s, INITIALIZING, 5, At(Validate))
    case Validate => s.(pc := Checkpoint(Discover, Read))
    case Discover => Stage(s, DISCOVERING, 15, At(Inventory))
    case Inventory => s.(endpoints := o.endpoints, pc := Checkpoint(Scan, Read))
    case Scan => Stage(s, SCANNING, 30, Checkpoint(RunEngine(0), Read))
    case RunEngine(i) =>
      var t := s.(started := s.started + [c.engines[i]], failures := s.failures || o.failed, pc := At(EngineStage(i)));
      if c.engines[i] != CUSTOM then t
      else if s.endpoints > 0 && o.reached == 0 then t.(reached := 0, pc := Terminating(FAILED))
      else t.(reached := o.reached)
    case EngineStage(i) =>
      Stage(s, SCANNING, EngineProgress(i + 1, |c.engines|),
            if i + 1 < |c.engines| then Checkpoint(RunEngine(i + 1), Read) else At(Correlate))
    case Correlate => Stage(s, CORRELATING, 75, At(Store))
    case Store => s.(findings := o.findings, pc := Checkpoint(Report, Read))
    case Report => Stage(s, REPORTING, 90, At(Finish))
    case Finish =>
      Stage(s, if s.failures || !o.complete then PARTIAL else COMPLETED, 100, Done).(reports := 4)
  }

  /** One step of `_checkpoint`. */
  function Poll(s: State): State
    requires s.pc.Checkpoint?
  {
    var next := s.pc.next;
    match s.pc.mode
    case Read =>
      var t := s.(loaded := s.row);
      if s.row.cancelRequested then t.(pc := Terminating(CANCELLED))
      else if s.now >= s.deadline then t.(pc := Terminating(TIMEOUT))
      else if s.row.pauseRequested then t.(pc := Checkpoint(next, Pause))
      else if s.row.status.PAUSED? then t.(pc := Checkpoint(next, Resume))
      else t.(pc := At(next))
    case Resume => Commit(s, s.loaded.(status := SCANNING), At(next))
    case Pause => Commit(s, s.loaded.(status := PAUSED), Checkpoint(next, Sleep(s.now + 2.0)))
    case Sleep(_) => s.(pc := Checkpoint(next, Read))
  }

  datatype Step =
    | Tick(reading: real)
    | ApiRead(id: nat, action: Action)
    | ApiCommit(id: nat)
    | Start
    | Work(outcome: Outcome)
    | Raise(stored: nat)

  predicate IsWorkerStep(step: Step) {
    step.Start? || step.Work? || step.Raise?
  }

  /** The row once a control request commits. */
  function Controlled(row: Row, call: Call): Row {
    match call.action
    case CancelScan =>
      var wanted := call.loaded.(cancelRequested := true);
      Flush(row, call.loaded, if call.loaded.status.QUEUED? then wanted.(status := CANCELLED) else wanted)
    case PauseScan => Flush(row, call.loaded, call.loaded.(pauseRequested := true))
    case ResumeScan => Flush(row, call.loaded, call.loaded.(pauseRequested := false))
  }

  predicate Next(c: Config, s: State, step: Step, t: State) {
    match step
    case Tick(reading) => reading >= s.now && t == s.(now := reading)
    // A request for a terminal scan is refused.
    case ApiRead(id, action) =>
      id !in s.calls && t == if Terminal(s.row.status) then s else s.(calls := s.calls[id := Call(action, s.row)])
    case ApiCommit(id) =>
      id in s.calls && t == s.(row := Controlled(s.row, s.calls[id]), calls := s.calls - {id})
    case Start =>
      s.pc.Idle?
      && t == if s.row.cancelRequested || s.row.status.CANCELLED? then s.(pc := Done)
              else s.(pc := At(Initialize), loaded := s.row, begun := s.now, deadline := s.now + c.maxDuration)
    case Work(o) =>
      (match s.pc
       case At(point) => InRange(c, point) && o.reached <= s.endpoints && t == Advance(c, s, o)
       case Checkpoint(_, mode) => (mode.Sleep? ==> s.now >= mode.until) && t == Poll(s)
       case Terminating(final) => t == Commit(s, s.loaded.(status := final), Done)
       case _ => false)
    // An exception; findings added before it are committed with the failed status.
    case Raise(stored) =>
      (s.pc.At? || s.pc.Checkpoint?)
      && t == s.(findings := if s.pc == At(Store) then stored else s.findings, pc := Terminating(FAILED))
  }

  predicate Init(c: Config, s: State) {
    && s.row == Row(QUEUED, 0, false, false) && s.findings == 0 && s.reports == 0 && s.calls == map[]
    && s.pc.Idle? && s.started == [] && s.endpoints == 0 && s.reached == 0 && !s.failures
  }

  ghost predicate Run(c: Config, states: seq<State>, steps: seq<Step>) {
    && CustomFirst(c.engines)
    && |states| == |steps| + 1 && Init(c, states[0])
    && forall i | 0 <= i < |steps| :: Next(c, states[i], steps[i], states[i + 1])
  }

  // ---------- what every step keeps ----------

  predicate Active(pc: Pc) {
    pc.At? || pc.Checkpoint? || pc.Terminating?
  }

  /** Control requests only ever add to what the row says about cancellation. */
  ghost predicate CallsSound(s: State) {
    forall id | id in s.calls ::
      !Terminal(s.calls[id].loaded.status) && (s.calls[id].loaded.cancelRequested ==> s.row.cancelRequested)
  }

  /** Before the worker starts, a row is cancelled or still queued. */
  ghost predicate QueueSound(s: State) {
    s.pc.Idle? ==>
      && (s.row.status.CANCELLED? || (s.row.status.QUEUED? && !s.row.cancelRequested))
      && forall id | id in s.calls :: s.calls[id].loaded.status.QUEUED?
  }

  /** The worker's view of the status and the row agree, but for a late cancellation. */
  predicate RowSound(s: State) {
    && (s.row.status.CANCELLED? ==> s.row.cancelRequested)
    && (Active(s.pc) ==> s.row.status == s.loaded.status || s.row.status.CANCELLED?)
    && (s.pc.At? || s.pc.Checkpoint? ==> !Terminal(s.loaded.status))
    && (s.pc.Terminating? ==>
          && (s.pc.final.CANCELLED? || s.pc.final.FAILED? || s.pc.final.TIMEOUT?)
          && (s.pc.final.CANCELLED? ==> s.row.cancelRequested)
          && (Terminal(s.loaded.status) ==> s.loaded.status.CANCELLED?))
    && (s.pc.Done? ==> Terminal(s.row.status))
  }

  /** A worker step touches neither the requests nor what the row says about them. */
  predicate KeepsRequests(s: State, t: State) {
    t.row.cancelRequested == s.row.cancelRequested && t.row.pauseRequested == s.row.pauseRequested && t.calls == s.calls
  }

  lemma {:induction false} AdvanceKeepsRequests(c: Config, s: State, o: Outcome)
    requires s.pc.At? && InRange(c, s.pc.point)
    ensures KeepsRequests(s, Advance(c, s, o)) && !Advance(c, s, o).pc.Idle?
  {
  }

  lemma {:induction false} WorkerKeepsRequests(c: Config, s: State, step: Step, t: State)
    requires Next(c, s, step, t) && IsWorkerStep(step)
    ensures KeepsRequests(s, t) && !t.pc.Idle?
  {
    if step.Work? && s.pc.At? {
      AdvanceKeepsRequests(c, s, step.outcome);
    }
  }

  lemma {:induction false} ControlSound(row: Row, call: Call)
    requires !Terminal(call.loaded.status) && (call.loaded.cancelRequested ==> row.cancelRequested)
    ensures row.cancelRequested ==> Controlled(row, call).cancelRequested
    ensures Controlled(row, call).progress == row.progress
    ensures Controlled(row, call).status
      == if call.action.CancelScan? && call.loaded.status.QUEUED? then CANCELLED else row.status
    ensures call.action.CancelScan? ==> Controlled(row, call).cancelRequested
    ensures Controlled(row, call).pauseRequested
         == if call.action.PauseScan? && !call.loaded.pauseRequested then true
            else if call.action.ResumeScan? && call.loaded.pauseRequested then false
            else row.pauseRequested
  {
  }

  lemma {:induction false} RequestsKept(c: Config, s: State, step: Step, t: State)
    requires Next(c, s, step, t) && CallsSound(s)
    ensures CallsSound(t)
    ensures s.row.cancelRequested ==> t.row.cancelRequested
  {
    if step.ApiCommit? {
      ControlSound(s.row, s.calls[step.id]);
    } else if IsWorkerStep(step) {
      WorkerKeepsRequests(c, s, step, t);
    }
  }

  lemma {:induction false} QueueKept(c: Config, s: State, step: Step, t: State)
    requires Next(c, s, step, t) && CallsSound(s) && QueueSound(s)
    ensures QueueSound(t)
  {
    if step.ApiCommit? {
      ControlSound(s.row, s.calls[step.id]);
    } else if IsWorkerStep(step) {
      WorkerKeepsRequests(c, s, step, t);
    }
  }

  lemma {:induction false} StageRow(s: State, status: Status, progress: nat, pc: Pc)
    requires s.pc.At? && RowSound(s) && !status.CANCELLED?
    requires if pc.Done? then Terminal(status) else (pc.At? || pc.Checkpoint?) && !Terminal(status)
    ensures RowSound(Stage(s, status, progress, pc))
  {
  }

  lemma {:induction false} AdvanceRow(c: Config, s: State, o: Outcome)
    requires s.pc.At? && InRange(c, s.pc.point) && RowSound(s)
    ensures RowSound(Advance(c, s, o))
  {
    match s.pc.point
    case Initialize => StageRow(s, INITIALIZING, 5, At(Validate));
    case Discover => StageRow(s, DISCOVERING, 15, At(Inventory));
    case Scan => StageRow(s, SCANNING, 30, Checkpoint(RunEngine(0), Read));
    case EngineStage(i) =>
      StageRow(s, SCANNING, EngineProgress(i + 1, |c.engines|),
               if i + 1 < |c.engines| then Checkpoint(RunEngine(i + 1), Read) else At(Correlate));
    case Correlate => StageRow(s, CORRELATING, 75, At(Store));
    case Report => StageRow(s, REPORTING, 90, At(Finish));
    case Finish => StageRow(s, if s.failures || !o.complete then PARTIAL else COMPLETED, 100, Done);
    case _ =>
  }

  lemma {:induction false} PollRow(s: State)
    requires s.pc.Checkpoint? && RowSound(s)
    ensures RowSound(Poll(s))
  {
  }

  lemma {:induction false} RowKept(c: Config, s: State, step: Step, t: State)
    requires Next(c, s, step, t) && CallsSound(s) && QueueSound(s) && RowSound(s)
    ensures RowSound(t)
  {
    if step.ApiCommit? {
      ControlSound(s.row, s.calls[step.id]);
    } else if step.Work? && s.pc.At? {
      AdvanceRow(c, s, step.outcome);
    } else if step.Work? && s.pc.Checkpoint? {
      PollRow(s);
    }
  }

  // ---------- progress, reports and findings ----------

  /** The progress shown while the worker is about to execute a point. */
  function ProgressBefore(point: Point, total: nat): nat {
    match point
    case Initialize => 0
    case Validate => 5
    case Discover => 5
    case Inventory => 15
    case Scan => 15
    case RunEngine(i) => EngineProgress(i, total)
    case EngineStage(i) => EngineProgress(i, total)
    case Correlate => 70
    case Store => 75
    case Report => 75
    case Finish => 90
  }

  /** Engines started before a point. */
  function EnginesBefore(point: Point, total: nat): nat {
    match point
    case RunEngine(i) => i
    case EngineStage(i) => i + 1
    case Correlate => total
    case Store => total
    case Report => total
    case Finish => total
    case _ => 0
  }

  lemma {:induction false} QuotientGrows(a: nat, b: nat, d: nat)
    requires a <= b
    ensures Quotient(a, d) <= Quotient(b, d)
  {
    if 0 < d <= a {
      QuotientGrows(a - d, b - d, d);
    }
  }

  /** It is the quotient of exact division. */
  lemma {:induction false} QuotientExact(k: nat, d: nat)
    requires d > 0
    ensures Quotient(k * d, d) == k
  {
    if k > 0 {
      assert k * d == (k - 1) * d + d;
      QuotientExact(k - 1, d);
    }
  }

  lemma {:induction false} EngineProgressGrows(done: nat, total: nat)
    requires done < total
    ensures 30 <= EngineProgress(done, total) <= EngineProgress(done + 1, total) <= 70
    ensures EngineProgress(0, total) == 30 && EngineProgress(total, total) == 70
  {
    QuotientGrows(40 * done, 40 * (done + 1), total);
    QuotientGrows(40 * (done + 1), 40 * total, total);
    QuotientExact(40, total);
  }

  lemma {:induction false} QuotientIs(a: nat, d: nat)
    requires d > 0
    ensures Quotient(a, d) * d <= a < (Quotient(a, d) + 1) * d
  {
    if a >= d {
      QuotientIs(a - d, d);
    }
  }

  /** After `done` of `total` engines the progress is 30 and the whole part of their share of 40. */
  lemma {:induction false} EngineProgressIs(done: nat, total: nat)
    requires total > 0
    ensures (EngineProgress(done, total) - 30) * total <= 40 * done < (EngineProgress(done, total) - 29) * total
  {
    QuotientIs(40 * done, total);
  }

  /** Where the worker is, if inside the script. */
  function PointOf(pc: Pc): Point
    requires pc.At? || pc.Checkpoint?
  {
    if pc.At? then pc.point else pc.next
  }

  predicate Working(pc: Pc) {
    pc.At? || pc.Checkpoint?
  }

  predicate ProgressSound(c: Config, s: State) {
    && (s.pc.Idle? ==> s.row.progress == 0)
    && (Working(s.pc) ==>
          InRange(c, PointOf(s.pc))
          && s.row.progress == s.loaded.progress == ProgressBefore(PointOf(s.pc), |c.engines|))
    && (s.pc.Terminating? ==> s.row.progress == s.loaded.progress)
    && (s.reports == 0 || s.reports == 4)
    && (s.reports == 0 ==> s.row.progress <= 90)
    && (s.reports == 4 ==> s.row.progress == 100 && s.pc.Done?)
  }

  predicate Successful(status: Status) {
    status.COMPLETED? || status.PARTIAL?
  }

  /** Success is claimed only together with reports, and COMPLETED only when no engine failed. */
  predicate ReportsSound(s: State) {
    && (Successful(s.row.status) ==> s.reports == 4)
    && (s.reports == 4 ==> Successful(s.row.status) || s.row.status.CANCELLED?)
    && (s.row.status.COMPLETED? ==> !s.failures)
  }

  lemma {:induction false} PositionProgress(c: Config, point: Point)
    requires InRange(c, point) && c.engines != []
    ensures ProgressBefore(point, |c.engines|) <= 90
  {
    if point.RunEngine? || point.EngineStage? {
      EngineProgressGrows(point.index, |c.engines|);
    }
  }

  lemma {:induction false} StageProgress(c: Config, s: State, status: Status, progress: nat, pc: Pc)
    requires s.pc.At? && ProgressSound(c, s) && s.row.progress <= progress <= 90
    requires Working(pc) && InRange(c, PointOf(pc)) && progress == ProgressBefore(PointOf(pc), |c.engines|)
    ensures var t := Stage(s, status, progress, pc);
            ProgressSound(c, t) && t.row.progress == progress && t.reports == 0
  {
  }

  lemma {:induction false} EngineStageProgress(c: Config, s: State, o: Outcome)
    requires s.pc.At? && s.pc.point.EngineStage? && InRange(c, s.pc.point) && ProgressSound(c, s)
    ensures var t := Advance(c, s, o);
            ProgressSound(c, t) && s.row.progress <= t.row.progress <= 90 && t.reports == 0
  {
    var (i, n) := (s.pc.point.index, |c.engines|);
    EngineProgressGrows(i, n);
    StageProgress(c, s, SCANNING, EngineProgress(i + 1, n),
        if i + 1 < n then Checkpoint(RunEngine(i + 1), Read) else At(Correlate));
  }

  lemma {:induction false} AdvanceProgress(c: Config, s: State, o: Outcome)
    requires s.pc.At? && InRange(c, s.pc.point) && ProgressSound(c, s) && c.engines != []
    ensures var t := Advance(c, s, o);
            && ProgressSound(c, t) && s.row.progress <= t.row.progress
            && (t.row.progress == 100 <==> s.pc.point.Finish?) && (t.reports == 4 <==> s.pc.point.Finish?)
  {
    EngineProgressGrows(0, |c.engines|);
    match s.pc.point
    case Initialize => StageProgress(c, s, INITIALIZING, 5, At(Validate));
    case Discover => StageProgress(c, s, DISCOVERING, 15, At(Inventory));
    case Scan => StageProgress(c, s, SCANNING, 30, Checkpoint(RunEngine(0), Read));
    case RunEngine(i) => EngineProgressGrows(i, |c.engines|);
    case EngineStage(_) => EngineStageProgress(c, s, o);
    case Correlate => StageProgress(c, s, CORRELATING, 75, At(Store));
    case Report => StageProgress(c, s, REPORTING, 90, At(Finish));
    case _ =>
  }

  lemma {:induction false} ProgressKept(c: Config, s: State, step: Step, t: State)
    requires Next(c, s, step, t) && CallsSound(s) && ProgressSound(c, s) && c.engines != []
    ensures ProgressSound(c, t) && s.row.progress <= t.row.progress
    ensures t.row.progress == 100 && s.row.progress != 100 ==> t.reports == 4 && s.pc == At(Finish) && step.Work?
  {
    if step.ApiCommit? {
      ControlSound(s.row, s.calls[step.id]);
    } else if Working(s.pc) {
      PositionProgress(c, PointOf(s.pc));
      if step.Work? && s.pc.At? {
        AdvanceProgress(c, s, step.outcome);
      }
    }
  }

  lemma {:induction false} ReportsKept(c: Config, s: State, step: Step, t: State)
    requires Next(c, s, step, t) && CallsSound(s) && RowSound(s) && ProgressSound(c, s) && ReportsSound(s)
    requires s.pc.Idle? ==> QueueSound(s)
    ensures ReportsSound(t)
    ensures t.reports == 4 && s.reports == 0 ==> Successful(t.row.status) && !t.pc.Idle?
  {
    if step.ApiCommit? {
      ControlSound(s.row, s.calls[step.id]);
    } else if step.Work? && s.pc.At? {
      AdvanceReports(c, s, step.outcome);
    }
  }

  lemma {:induction false} StageReports(s: State, status: Status, progress: nat, pc: Pc)
    requires s.pc.At? && RowSound(s) && s.reports == 0 && !Successful(status)
    ensures ReportsSound(Stage(s, status, progress, pc))
  {
  }

  lemma {:induction false} AdvanceReports(c: Config, s: State, o: Outcome)
    requires s.pc.At? && InRange(c, s.pc.point) && RowSound(s) && s.reports == 0
    ensures var t := Advance(c, s, o);
            ReportsSound(t) && (t.reports == 4 ==> Successful(t.row.status))
  {
    match s.pc.point
    case Initialize => StageReports(s, INITIALIZING, 5, At(Validate));
    case Discover => StageReports(s, DISCOVERING, 15, At(Inventory));
    case Scan => StageReports(s, SCANNING, 30, Checkpoint(RunEngine(0), Read));
    case EngineStage(i) =>
      StageReports(s, SCANNING, EngineProgress(i + 1, |c.engines|),
                   if i + 1 < |c.engines| then Checkpoint(RunEngine(i + 1), Read) else At(Correlate));
    case Correlate => StageReports(s, CORRELATING, 75, At(Store));
    case Report => StageReports(s, REPORTING, 90, At(Finish));
    case _ =>
  }

  // ---------- engines and reachability ----------

  /** The inventory is empty or the custom engine got an answer from it. */
  predicate Reachable(s: State) {
    s.endpoints == 0 || s.reached > 0
  }

  /** Engines start in order; nothing but the custom engine starts, and nothing is stored or
      reported, unless some endpoint answered. */
  predicate EnginesSound(c: Config, s: State) {
    && s.started <= c.engines
    && (s.pc.Idle? ==> s.started == [])
    && (Working(s.pc) ==> InRange(c, PointOf(s.pc)) && |s.started| == EnginesBefore(PointOf(s.pc), |c.engines|))
    && (|s.started| > 1 || s.findings > 0 || s.reports > 0 ==> Reachable(s))
    && (Working(s.pc) && s.started != [] ==> Reachable(s))
    && (s.started == [] ==> s.reached == 0 && s.findings == 0 && s.reports == 0)
  }

  lemma {:induction false} EngineStarts(c: Config, s: State, o: Outcome)
    requires s.pc.At? && s.pc.point.RunEngine? && InRange(c, s.pc.point) && EnginesSound(c, s) && CustomFirst(c.engines)
    ensures EnginesSound(c, Advance(c, s, o))
  {
    assert s.started + [c.engines[s.pc.point.index]] == c.engines[..s.pc.point.index + 1];
  }

  lemma {:induction false} AdvanceEngines(c: Config, s: State, o: Outcome)
    requires s.pc.At? && InRange(c, s.pc.point) && EnginesSound(c, s) && CustomFirst(c.engines)
    ensures EnginesSound(c, Advance(c, s, o))
  {
    if s.pc.point.RunEngine? {
      EngineStarts(c, s, o);
    }
  }

  lemma {:induction false} EnginesKept(c: Config, s: State, step: Step, t: State)
    requires Next(c, s, step, t) && EnginesSound(c, s) && CustomFirst(c.engines)
    ensures EnginesSound(c, t)
  {
    if step.Work? && s.pc.At? {
      AdvanceEngines(c, s, step.outcome);
    }
  }

  // ---------- over whole runs ----------

  /** The deadline was fixed when the worker began. */
  predicate TimeSound(c: Config, s: State) {
    Active(s.pc) ==> s.begun <= s.now && s.deadline == s.begun + c.maxDuration
  }

  ghost predicate Inv(c: Config, s: State) {
    && CustomFirst(c.engines) && CallsSound(s) && QueueSound(s) && RowSound(s)
    && ProgressSound(c, s) && ReportsSound(s) && EnginesSound(c, s) && TimeSound(c, s)
  }

  lemma {:induction false} AdvanceTime(c: Config, s: State, o: Outcome)
    requires s.pc.At? && InRange(c, s.pc.point) && TimeSound(c, s)
    ensures TimeSound(c, Advance(c, s, o))
  {
  }

  lemma {:induction false} TimeKept(c: Config, s: State, step: Step, t: State)
    requires Next(c, s, step, t) && TimeSound(c, s)
    ensures TimeSound(c, t)
  {
    if step.Work? && s.pc.At? {
      AdvanceTime(c, s, step.outcome);
    }
  }

  lemma {:induction false} InvKept(c: Config, s: State, step: Step, t: State)
    requires Inv(c, s) && Next(c, s, step, t)
    ensures Inv(c, t)
    ensures s.row.cancelRequested ==> t.row.cancelRequested
    ensures s.row.progress <= t.row.progress
    ensures s.row.progress < t.row.progress == 100 ==> t.reports == 4 && Successful(t.row.status)
  {
    RequestsKept(c, s, step, t);
    QueueKept(c, s, step, t);
    RowKept(c, s, step, t);
    ProgressKept(c, s, step, t);
    ReportsKept(c, s, step, t);
    EnginesKept(c, s, step, t);
    TimeKept(c, s, step, t);
  }

  lemma {:induction false} InvHolds(c: Config, states: seq<State>, steps: seq<Step>, i: nat)
    requires Run(c, states, steps) && i < |states|
    ensures Inv(c, states[i])
  {
    if i > 0 {
      InvHolds(c, states, steps, i - 1);
      InvKept(c, states[i - 1], steps[i - 1], states[i]);
    }
  }

  /** The worker has yet to read the row in its last checkpoint, or will never report. */
  predicate BeforeLastRead(s: State) {
    match s.pc
    case At(point) => !point.Report? && !point.Finish?
    case Checkpoint(next, mode) => !((next.Report? || next.Finish?) && mode.Resume?)
    case Done => s.reports == 0
    case _ => true
  }

  predicate Doomed(s: State) {
    s.row.cancelRequested && BeforeLastRead(s)
  }

  lemma {:induction false} AdvanceDoomed(c: Config, s: State, o: Outcome)
    requires s.pc.At? && InRange(c, s.pc.point) && Doomed(s) && s.reports == 0
    ensures BeforeLastRead(Advance(c, s, o))
  {
  }

  lemma {:induction false} DoomedKept(c: Config, s: State, step: Step, t: State)
    requires Inv(c, s) && Next(c, s, step, t) && Doomed(s)
    ensures Doomed(t)
  {
    RequestsKept(c, s, step, t);
    if step.Work? && s.pc.At? {
      AdvanceDoomed(c, s, step.outcome);
    }
  }

  lemma {:induction false} StateFacts(c: Config, s: State)
    requires Inv(c, s)
    ensures s.row.progress <= 100 && (s.row.progress == 100 <==> s.reports == 4)
    ensures Doomed(s) ==> s.reports == 0 && !Successful(s.row.status)
  {
  }

  /** What lies between an earlier and a later state of a run. */
  predicate Later(s: State, t: State) {
    && (s.row.cancelRequested ==> t.row.cancelRequested)
    && s.row.progress <= t.row.progress
    && (Doomed(s) ==> Doomed(t))
  }

  ghost predicate Ordered(states: seq<State>) {
    forall i, j | 0 <= i && j == i + 1 && j < |states| :: Later(states[i], states[j])
  }

  lemma {:induction false} StepFacts(c: Config, s: State, step: Step, t: State)
    requires Inv(c, s) && Next(c, s, step, t)
    ensures Later(s, t)
    ensures s.row.progress < t.row.progress == 100 ==> Successful(t.row.status)
  {
    InvKept(c, s, step, t);
    if Doomed(s) {
      DoomedKept(c, s, step, t);
    }
  }

  lemma {:induction false} RunOrdered(c: Config, states: seq<State>, steps: seq<Step>)
    requires Run(c, states, steps)
    ensures Ordered(states)
  {
    forall i, j | 0 <= i && j == i + 1 && j < |states| ensures Later(states[i], states[j]) {
      InvHolds(c, states, steps, i);
      StepFacts(c, states[i], steps[i], states[j]);
    }
  }

  lemma {:induction false} OrderedLater(states: seq<State>, i: nat, j: nat)
    requires Ordered(states) && i <= j < |states|
    ensures Later(states[i], states[j])
    decreases j
  {
    if i < j {
      OrderedLater(states, i, j - 1);
    }
  }

  /** A cancellation, once committed, stands; progress never goes back; and it is 100 exactly
      when the reports are there. */
  lemma {:induction false} RequestsStandProgressGrows(c: Config, states: seq<State>, steps: seq<Step>, i: nat, j: nat)
    requires Run(c, states, steps) && i <= j < |states|
    ensures states[i].row.cancelRequested ==> states[j].row.cancelRequested
    ensures states[i].row.progress <= states[j].row.progress <= 100
    ensures states[j].row.progress == 100 <==> states[j].reports == 4
  {
    InvHolds(c, states, steps, j);
    StateFacts(c, states[j]);
    RunOrdered(c, states, steps);
    OrderedLater(states, i, j);
  }

  /** The step that takes progress to 100 writes COMPLETED or PARTIAL. */
  lemma {:induction false} HundredMeansSuccess(c: Config, states: seq<State>, steps: seq<Step>, i: nat)
    requires Run(c, states, steps) && i < |steps| && states[i].row.progress < states[i + 1].row.progress == 100
    ensures Successful(states[i + 1].row.status)
  {
    InvHolds(c, states, steps, i);
    StepFacts(c, states[i], steps[i], states[i + 1]);
  }

  /** A cancellation committed before the worker's last checkpoint reads the row: no report is
      ever written and the scan ends neither COMPLETED nor PARTIAL. */
  lemma {:induction false} CancelledInTime(c: Config, states: seq<State>, steps: seq<Step>, i: nat, j: nat)
    requires Run(c, states, steps) && i <= j < |states|
    requires states[i].row.cancelRequested && BeforeLastRead(states[i])
    ensures states[j].reports == 0 && !Successful(states[j].row.status)
  {
    RunOrdered(c, states, steps);
    OrderedLater(states, i, j);
    InvHolds(c, states, steps, j);
    StateFacts(c, states[j]);
  }

  /** A scan that is done is in a terminal status. */
  lemma {:induction false} DoneIsTerminal(c: Config, states: seq<State>, steps: seq<Step>, i: nat)
    requires Run(c, states, steps) && i < |states| && states[i].pc.Done?
    ensures Terminal(states[i].row.status)
    ensures states[i].row.status.COMPLETED? ==> !states[i].failures && states[i].reports == 4
  {
    InvHolds(c, states, steps, i);
  }

  /** Engines start in the configured order, custom first; if the inventory is not empty and none
      of it answered, no other engine starts and neither findings nor reports are written. */
  lemma {:induction false} UnreachableStopsScan(c: Config, states: seq<State>, steps: seq<Step>, i: nat)
    requires Run(c, states, steps) && i < |states|
    ensures states[i].started <= c.engines
    ensures states[i].endpoints > 0 && states[i].reached == 0 ==>
              && states[i].started <= [CUSTOM] && states[i].findings == 0 && states[i].reports == 0
              && !Successful(states[i].row.status)
  {
    InvHolds(c, states, steps, i);
  }

  // ---------- every scan ends ----------

  /** How often a paused checkpoint can still wake up before the deadline. */
  function Rounds(now: real, deadline: real): nat {
    if now >= deadline then 0 else ((deadline - now) / 2.0).Floor + 1
  }

  lemma {:induction false} RoundsShrink(now: real, later: real, deadline: real)
    requires now <= later
    ensures Rounds(later, deadline) <= Rounds(now, deadline)
    ensures now < deadline && later == now + 2.0 ==> Rounds(later, deadline) < Rounds(now, deadline)
  {
    if later < deadline {
      assert (deadline - later) / 2.0 <= (deadline - now) / 2.0;
      assert later == now + 2.0 ==> (deadline - later) / 2.0 == (deadline - now) / 2.0 - 1.0;
    }
  }

  /** Steps a checkpoint can still take. */
  function Polls(mode: Mode, now: real, deadline: real): nat {
    match mode
    case Read => 3 * Rounds(now, deadline) + 2
    case Resume => 1
    case Pause => 3 * Rounds(now + 2.0, deadline) + 4
    case Sleep(until) => 3 * Rounds(until, deadline) + 3
  }

  /** Points still ahead. */
  function Ahead(point: Point, total: nat): nat {
    match point
    case Finish => 1
    case Report => 2
    case Store => 3
    case Correlate => 4
    case EngineStage(i) => if i < total then 5 + 2 * (total - 1 - i) else 5
    case RunEngine(i) => if i < total then 6 + 2 * (total - 1 - i) else 6
    case Scan => 5 + 2 * total
    case Inventory => 6 + 2 * total
    case Discover => 7 + 2 * total
    case Validate => 8 + 2 * total
    case Initialize => 9 + 2 * total
  }

  /** More than the steps of any one checkpoint. */
  function Width(c: Config): nat {
    3 * Rounds(0.0, c.maxDuration) + 5
  }

  /** `count * width`, by repeated addition. */
  function Times(count: nat, width: nat): nat {
    if count == 0 then 0 else width + Times(count - 1, width)
  }

  lemma {:induction false} TimesIsProduct(count: nat, width: nat)
    ensures Times(count, width) == count * width
  {
    if count > 0 {
      TimesIsProduct(count - 1, width);
      assert count * width == (count - 1) * width + width;
    }
  }

  lemma {:induction false} TimesGrows(a: nat, b: nat, width: nat)
    requires a < b
    ensures Times(a, width) + width <= Times(b, width)
    decreases b
  {
    if a < b - 1 {
      TimesGrows(a, b - 1, width);
    }
  }

  /** At most this many worker steps remain. */
  function Remaining(c: Config, s: State): nat {
    match s.pc
    case Idle => Times(10 + 2 * |c.engines|, Width(c))
    case At(point) => Times(Ahead(point, |c.engines|), Width(c))
    case Checkpoint(next, mode) => Times(Ahead(next, |c.engines|), Width(c)) + Polls(mode, s.now, s.deadline)
    case Terminating(_) => 1
    case Done => 0
  }

  /** A worker step of any kind leaves fewer steps to take. */
  lemma {:induction false} WorkerProgress(c: Config, s: State, step: Step, t: State)
    requires Inv(c, s) && Next(c, s, step, t) && IsWorkerStep(step)
    ensures Remaining(c, t) < Remaining(c, s)
  {
    if step.Start? {
      TimesGrows(9 + 2 * |c.engines|, 10 + 2 * |c.engines|, Width(c));
    } else if Working(s.pc) {
      TimesGrows(0, Ahead(PointOf(s.pc), |c.engines|), Width(c));
      if step.Work? && s.pc.At? {
        AdvanceShrinks(c, s, step.outcome);
      } else if step.Work? {
        PollShrinks(c, s);
      }
    }
  }

  lemma {:induction false} ReadPolls(c: Config, s: State)
    requires TimeSound(c, s) && Active(s.pc)
    ensures Polls(Read, s.now, s.deadline) < Width(c)
  {
    assert s.deadline - s.begun == c.maxDuration - 0.0;
    assert Rounds(s.begun, s.deadline) == Rounds(0.0, c.maxDuration);
    RoundsShrink(s.begun, s.now, s.deadline);
  }

  lemma {:induction false} EngineAhead(index: nat, total: nat)
    requires index < total
    ensures Ahead(EngineStage(index), total) < Ahead(RunEngine(index), total) < Ahead(Scan, total)
    ensures if index + 1 < total then Ahead(RunEngine(index + 1), total) < Ahead(EngineStage(index), total)
            else Ahead(Correlate, total) < Ahead(EngineStage(index), total)
  {
  }

  lemma {:induction false} EngineAdvances(c: Config, s: State, o: Outcome)
    requires s.pc.At? && (s.pc.point.RunEngine? || s.pc.point.EngineStage?) && InRange(c, s.pc.point)
    ensures var t := Advance(c, s, o);
            Working(t.pc) ==> Ahead(PointOf(t.pc), |c.engines|) < Ahead(s.pc.point, |c.engines|)
  {
    EngineAhead(s.pc.point.index, |c.engines|);
  }

  lemma {:induction false} AdvanceAhead(c: Config, s: State, o: Outcome)
    requires s.pc.At? && InRange(c, s.pc.point) && c.engines != []
    ensures var t := Advance(c, s, o);
            && (Working(t.pc) ==> Ahead(PointOf(t.pc), |c.engines|) < Ahead(s.pc.point, |c.engines|))
            && (t.pc.Checkpoint? ==> t.pc.mode == Read) && !t.pc.Idle?
            && t.now == s.now && t.deadline == s.deadline
  {
    if s.pc.point.RunEngine? || s.pc.point.EngineStage? {
      EngineAdvances(c, s, o);
    } else {
      EngineAhead(0, |c.engines|);
    }
  }

  lemma {:induction false} AdvanceShrinks(c: Config, s: State, o: Outcome)
    requires s.pc.At? && InRange(c, s.pc.point) && TimeSound(c, s) && c.engines != []
    ensures Remaining(c, Advance(c, s, o)) < Remaining(c, s)
  {
    var t := Advance(c, s, o);
    AdvanceAhead(c, s, o);
    ReadPolls(c, s);
    var ahead := Ahead(s.pc.point, |c.engines|);
    TimesGrows(0, ahead, Width(c));
    if Working(t.pc) {
      TimesGrows(Ahead(PointOf(t.pc), |c.engines|), ahead, Width(c));
    }
  }

  lemma {:induction false} PollShrinks(c: Config, s: State)
    requires s.pc.Checkpoint? && (s.pc.mode.Sleep? ==> s.now >= s.pc.mode.until)
    ensures Remaining(c, Poll(s)) < Remaining(c, s)
  {
    TimesGrows(0, Ahead(s.pc.next, |c.engines|), Width(c));
    RoundsShrink(s.now, s.now + 2.0, s.deadline);
    if s.pc.mode.Sleep? {
      RoundsShrink(s.pc.mode.until, s.now, s.deadline);
    }
  }

  /** Time and control requests never give the worker more to do. */
  lemma {:induction false} EnvironmentNeutral(c: Config, s: State, step: Step, t: State)
    requires Next(c, s, step, t) && !IsWorkerStep(step)
    ensures Remaining(c, t) <= Remaining(c, s)
  {
    if step.Tick? {
      RoundsShrink(s.now, t.now, s.deadline);
      RoundsShrink(s.now + 2.0, t.now + 2.0, s.deadline);
    }
  }

  function WorkerSteps(steps: seq<Step>): nat {
    if steps == [] then 0 else WorkerSteps(steps[..|steps| - 1]) + (if IsWorkerStep(steps[|steps| - 1]) then 1 else 0)
  }

  lemma {:induction false} WorkerStepsSpent(c: Config, states: seq<State>, steps: seq<Step>, n: nat)
    requires Run(c, states, steps) && n <= |steps|
    ensures WorkerSteps(steps[..n]) + Remaining(c, states[n]) <= Remaining(c, states[0])
  {
    if n > 0 {
      WorkerStepsSpent(c, states, steps, n - 1);
      InvHolds(c, states, steps, n - 1);
      assert steps[..n][..n - 1] == steps[..n - 1];
      StepSpent(c, states[n - 1], steps[n - 1], states[n]);
    }
  }

  lemma {:induction false} StepSpent(c: Config, s: State, step: Step, t: State)
    requires Inv(c, s) && Next(c, s, step, t)
    ensures (if IsWorkerStep(step) then 1 else 0) + Remaining(c, t) <= Remaining(c, s)
  {
    if IsWorkerStep(step) {
      WorkerProgress(c, s, step, t);
    } else {
      EnvironmentNeutral(c, s, step, t);
    }
  }

  /** Whatever is requested, even a pause that is never resumed, the worker takes at most so many
      steps, a number fixed by the engine list and the time limit. */
  lemma {:induction false} WorkerStepsBounded(c: Config, states: seq<State>, steps: seq<Step>)
    requires Run(c, states, steps)
    ensures WorkerSteps(steps) <= (10 + 2 * |c.engines|) * (3 * Rounds(0.0, c.maxDuration) + 5)
  {
    WorkerStepsSpent(c, states, steps, |steps|);
    assert steps[..|steps|] == steps;
    TimesIsProduct(10 + 2 * |c.engines|, Width(c));
  }

  /** And until it is done it can always take one, once enough time has passed. */
  lemma {:induction false} WorkerCanMove(c: Config, states: seq<State>, steps: seq<Step>, i: nat)
    returns (reading: real, step: Step, t: State)
    requires Run(c, states, steps) && i < |states| && !states[i].pc.Done?
    ensures reading >= states[i].now && IsWorkerStep(step) && Next(c, states[i].(now := reading), step, t)
  {
    InvHolds(c, states, steps, i);
    reading, step, t := NextMove(c, states[i]);
  }

  lemma {:induction false} NextMove(c: Config, s: State) returns (reading: real, step: Step, t: State)
    requires ProgressSound(c, s) && !s.pc.Done?
    ensures reading >= s.now && IsWorkerStep(step) && Next(c, s.(now := reading), step, t)
  {
    reading := if s.pc.Checkpoint? && s.pc.mode.Sleep? && s.pc.mode.until > s.now then s.pc.mode.until else s.now;
    var ready := s.(now := reading);
    var nothing := Outcome(0, 0, false, 0, false);
    step := if s.pc.Idle? then Start else Work(nothing);
    t := if s.pc.Idle? then
           (if s.row.cancelRequested || s.row.status.CANCELLED? then ready.(pc := Done)
            else ready.(pc := At(Initialize), loaded := s.row, begun := reading, deadline := reading + c.maxDuration))
         else if s.pc.At? then Advance(c, ready, nothing)
         else if s.pc.Checkpoint? then Poll(ready)
         else Commit(ready, s.loaded.(status := s.pc.final), Done);
  }

  // ---------- how long a terminal status lasts ----------

  /** The status the worker's next step writes, if it commits one. */
  function NextStatus(c: Config, s: State, step: Step): Option<Status> {
    if !step.Work? then None
    else match s.pc
      case At(point) =>
        (match point
         case Initialize => Some(INITIALIZING)
         case Discover => Some(DISCOVERING)
         case Scan => Some(SCANNING)
         case EngineStage(_) => Some(SCANNING)
         case Correlate => Some(CORRELATING)
         case Report => Some(REPORTING)
         case Finish => Some(if s.failures || !step.outcome.complete then PARTIAL else COMPLETED)
         case _ => None)
      case Checkpoint(_, mode) => (match mode case Resume => Some(SCANNING) case Pause => Some(PAUSED) case _ => None)
      case Terminating(final) => Some(final)
      case _ => None
  }

  /** A cancel request that read the scan as queued. */
  predicate StaleCancel(call: Call) {
    call.action.CancelScan? && call.loaded.status.QUEUED?
  }

  /** The step overwrites a terminal status: a cancel request that read the scan as queued commits
      over another status, or the worker, unaware of a cancellation, writes its own. */
  predicate Overwrites(c: Config, s: State, step: Step) {
    || (step.ApiCommit? && step.id in s.calls && StaleCancel(s.calls[step.id]) && !s.row.status.CANCELLED?)
    || (NextStatus(c, s, step).Some?
        && NextStatus(c, s, step).value != s.loaded.status && !NextStatus(c, s, step).value.CANCELLED?)
  }

  lemma {:induction false} StageStatus(s: State, status: Status, progress: nat, pc: Pc)
    ensures Stage(s, status, progress, pc).row.status == if status != s.loaded.status then status else s.row.status
  {
  }

  lemma {:induction false} AdvanceStatus(c: Config, s: State, o: Outcome)
    requires s.pc.At? && InRange(c, s.pc.point)
    ensures var wanted := NextStatus(c, s, Work(o));
            Advance(c, s, o).row.status
                == if wanted.Some? && wanted.value != s.loaded.status then wanted.value else s.row.status
  {
    match s.pc.point
    case Initialize => StageStatus(s, INITIALIZING, 5, At(Validate));
    case Discover => StageStatus(s, DISCOVERING, 15, At(Inventory));
    case Scan => StageStatus(s, SCANNING, 30, Checkpoint(RunEngine(0), Read));
    case EngineStage(i) =>
      StageStatus(s, SCANNING, EngineProgress(i + 1, |c.engines|),
                  if i + 1 < |c.engines| then Checkpoint(RunEngine(i + 1), Read) else At(Correlate));
    case Correlate => StageStatus(s, CORRELATING, 75, At(Store));
    case Report => StageStatus(s, REPORTING, 90, At(Finish));
    case Finish => StageStatus(s, if s.failures || !o.complete then PARTIAL else COMPLETED, 100, Done);
    case _ =>
  }

  /** A step changes a terminal status exactly if it overwrites it. */
  lemma {:induction false} TerminalChangesExactly(c: Config, s: State, step: Step, t: State)
    requires Inv(c, s) && Next(c, s, step, t) && Terminal(s.row.status)
    ensures t.row.status != s.row.status <==> Overwrites(c, s, step)
  {
    if step.ApiCommit? {
      ControlSound(s.row, s.calls[step.id]);
    } else if step.Work? && s.pc.At? {
      AdvanceStatus(c, s, step.outcome);
    }
  }

  /** In a run, a terminal status lasts for as long as no step overwrites it, and ends with the
      first step that does. */
  lemma {:induction false} TerminalLasts(c: Config, states: seq<State>, steps: seq<Step>, i: nat, j: nat)
    requires Run(c, states, steps) && i <= j < |states| && Terminal(states[i].row.status)
    requires forall k | i <= k < j :: !Overwrites(c, states[k], steps[k])
    ensures states[j].row.status == states[i].row.status
    ensures j < |steps| ==> (states[j + 1].row.status != states[j].row.status <==> Overwrites(c, states[j], steps[j]))
    decreases j
  {
    if i < j {
      TerminalLasts(c, states, steps, i, j - 1);
    }
    if j < |steps| {
      InvHolds(c, states, steps, j);
      TerminalChangesExactly(c, states[j], steps[j], states[j + 1]);
    }
  }

  /** Requests under way that would still cancel a scan they read as queued. */
  ghost predicate NoStaleCancel(s: State) {
    forall id | id in s.calls :: !StaleCancel(s.calls[id])
  }

  lemma {:induction false} SettledStep(c: Config, s: State, step: Step, t: State)
    requires Inv(c, s) && Next(c, s, step, t) && s.pc.Done?
    ensures t.pc.Done? && (t.row.status == s.row.status || t.row.status.CANCELLED?)
    ensures NoStaleCancel(s) || s.row.status.CANCELLED? ==> t.row.status == s.row.status
    ensures NoStaleCancel(s) ==> NoStaleCancel(t)
  {
    TerminalChangesExactly(c, s, step, t);
    if step.ApiCommit? {
      ControlSound(s.row, s.calls[step.id]);
    }
  }

  /** Once the worker is done, the status stays: only a cancel request that read the scan as queued
      and is still under way can turn it into CANCELLED, and that stays for good. */
  lemma {:induction false} DoneSettles(c: Config, states: seq<State>, steps: seq<Step>, i: nat, j: nat)
    requires Run(c, states, steps) && i <= j < |states| && states[i].pc.Done?
    ensures states[j].pc.Done? && (states[j].row.status == states[i].row.status || states[j].row.status.CANCELLED?)
    ensures NoStaleCancel(states[i]) || states[i].row.status.CANCELLED? ==> states[j].row.status == states[i].row.status
    ensures NoStaleCancel(states[i]) ==> NoStaleCancel(states[j])
    decreases j
  {
    if i < j {
      DoneSettles(c, states, steps, i, j - 1);
      InvHolds(c, states, steps, j - 1);
      SettledStep(c, states[j - 1], steps[j - 1], states[j]);
    }
  }

  // ---------- what does not hold ----------

  /** A terminal status need not last: a cancellation that commits between the worker's start and
      its first stage reads CANCELLED, and then INITIALIZING. */
  lemma {:induction false} TerminalOverwritten(c: Config) returns (states: seq<State>, steps: seq<Step>)
    requires CustomFirst(c.engines)
    ensures Run(c, states, steps) && |states| == 5
    ensures states[3].row.status.CANCELLED? && states[4].row.status.INITIALIZING?
  {
    var queued := Row(QUEUED, 0, false, false);
    var s0 := State(queued, 0, 0, 0.0, map[], Idle, queued, 0.0, 0.0, [], 0, 0, false);
    var s1 := s0.(calls := map[0 := Call(CancelScan, queued)]);
    var s2 := s1.(pc := At(Initialize), deadline := c.maxDuration);
    var s3 := s2.(row := Row(CANCELLED, 0, true, false), calls := map[]);
    var s4 := s3.(row := Row(INITIALIZING, 5, true, false), loaded := Row(INITIALIZING, 5, false, false),
        pc := At(Validate));
    states := [s0, s1, s2, s3, s4];
    steps := [ApiRead(0, CancelScan), Start, ApiCommit(0), Work(Outcome(0, 0, false, 0, false))];
    assert s0.calls[0 := Call(CancelScan, queued)] == s1.calls;
    assert s2.calls - {0} == map[];
    assert Next(c, s0, steps[0], s1) && Next(c, s1, steps[1], s2) && Next(c, s2, steps[2], s3)
      && Next(c, s3, steps[3], s4);
  }

  /** Past the last checkpoint's read a cancellation comes too late: the run goes on to write the
      reports and to succeed, whether or not a cancellation stands. */
  lemma {:induction false} LateCancelIgnored(c: Config, states: seq<State>, steps: seq<Step>, o: Outcome)
    returns (more: seq<State>, moreSteps: seq<Step>)
    requires Run(c, states, steps) && states[|states| - 1].pc == At(Report)
      && o.reached <= states[|states| - 1].endpoints
    ensures states <= more && steps <= moreSteps && Run(c, more, moreSteps)
    ensures var (s, t) := (states[|states| - 1], more[|more| - 1]);
            && t.pc.Done? && t.reports == 4 && Successful(t.row.status)
               && t.row.cancelRequested == s.row.cancelRequested
  {
    var s := states[|states| - 1];
    InvHolds(c, states, steps, |states| - 1);
    assert !Terminal(s.loaded.status);
    var reporting := Advance(c, s, o);
    more, moreSteps := states + [reporting, Advance(c, reporting, o)], steps + [Work(o), Work(o)];
    forall i | 0 <= i < |moreSteps| ensures Next(c, more[i], moreSteps[i], more[i + 1]) {
      if i < |steps| {
        assert Next(c, states[i], steps[i], states[i + 1]);
      }
    }
  }
}
