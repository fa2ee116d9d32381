/** What pausing, resuming and the deadline mean for a scan: the outcomes of a checkpoint, and what
    a committed pause request holds back until a resume request commits. */
module Pauses {
  import opened Lifecycle

  // ---------- one checkpoint ----------

  /** A checkpoint that reads the row stops the scan if its cancellation is requested, or else if it
      has lasted as long as it may; otherwise it holds it if a pause is requested, and lets it go
      on if not. */
  lemma {:induction false} CheckpointReads(c: Config, s: State, o: Outcome, t: State)
    requires Inv(c, s) && Next(c, s, Work(o), t) && s.pc.Checkpoint? && s.pc.mode.Read?
    ensures t == s.(pc := t.pc, loaded := s.row)
    ensures t.pc == if s.row.cancelRequested then Terminating(CANCELLED)
                    else if s.now >= s.begun + c.maxDuration then Terminating(TIMEOUT)
                    else if s.row.pauseRequested then Checkpoint(s.pc.next, Pause)
                    else if s.row.status.PAUSED? then Checkpoint(s.pc.next, Resume)
                    else At(s.pc.next)
  {
  }

  lemma {:induction false} StageIs(s: State, status: Status, progress: nat, pc: Pc)
    requires s.row.status == s.loaded.status && s.row.progress == s.loaded.progress
    ensures Stage(s, status, progress, pc).row.status == status
      && Stage(s, status, progress, pc).row.progress == progress
  {
  }

  /** The status and progress each stage writes. */
  predicate Writes(c: Config, s: State, o: Outcome, row: Row) {
    s.pc.At? ==>
      match s.pc.point
      case Initialize => row.status.INITIALIZING? && row.progress == 5
      case Discover => row.status.DISCOVERING? && row.progress == 15
      case Scan => row.status.SCANNING? && row.progress == 30
      case EngineStage(i) => row.status.SCANNING? && row.progress == EngineProgress(i + 1, |c.engines|)
      case Correlate => row.status.CORRELATING? && row.progress == 75
      case Report => row.status.REPORTING? && row.progress == 90
      case Finish => (if s.failures || !o.complete then row.status.PARTIAL? else row.status.COMPLETED?)
                     && row.progress == 100
      case _ => row == s.row
  }

  lemma {:induction false} AdvanceWrites(c: Config, s: State, o: Outcome)
    requires s.pc.At? && InRange(c, s.pc.point)
    requires s.row.status == s.loaded.status && s.row.progress == s.loaded.progress
    ensures Writes(c, s, o, Advance(c, s, o).row)
  {
    match s.pc.point
    case Initialize => StageIs(s, INITIALIZING, 5, At(Validate));
    case Discover => StageIs(s, DISCOVERING, 15, At(Inventory));
    case Scan => StageIs(s, SCANNING, 30, Checkpoint(RunEngine(0), Read));
    case EngineStage(i) =>
      StageIs(s, SCANNING, EngineProgress(i + 1, |c.engines|),
              if i + 1 < |c.engines| then Checkpoint(RunEngine(i + 1), Read) else At(Correlate));
    case Correlate => StageIs(s, CORRELATING, 75, At(Store));
    case Report => StageIs(s, REPORTING, 90, At(Finish));
    case Finish => StageIs(s, if s.failures || !o.complete then PARTIAL else COMPLETED, 100, Done);
    case _ =>
  }

  /** Each stage writes its status and progress, unless the scan was cancelled meanwhile. */
  lemma {:induction false} StageWritten(c: Config, s: State, o: Outcome, t: State)
    requires Inv(c, s) && Next(c, s, Work(o), t) && s.pc.At? && !s.row.status.CANCELLED?
    ensures Writes(c, s, o, t.row)
  {
    AdvanceWrites(c, s, o);
  }

  lemma {:induction false} AdvanceLeaves(c: Config, s: State, o: Outcome)
    requires s.pc.At? && InRange(c, s.pc.point)
    ensures var t := Advance(c, s, o);
            && t.endpoints == (if s.pc.point.Inventory? then o.endpoints else s.endpoints)
            && t.findings == (if s.pc.point.Store? then o.findings else s.findings)
            && t.reports == if s.pc.point.Finish? then 4 else s.reports
  {
  }

  /** What the stages leave of the inventory, the findings and the reports; every other step of the worker
      keeps them. */
  lemma {:induction false} StageLeaves(c: Config, s: State, o: Outcome, t: State)
    requires Next(c, s, Work(o), t)
    ensures t.endpoints == if s.pc == At(Inventory) then o.endpoints else s.endpoints
    ensures t.findings == if s.pc == At(Store) then o.findings else s.findings
    ensures t.reports == if s.pc == At(Finish) then 4 else s.reports
  {
    if s.pc.At? {
      AdvanceLeaves(c, s, o);
    }
  }

  /** An engine's stage begins that engine. The custom engine's stage stops the scan exactly if it reached
      nothing of an inventory that is not empty; no other stage stops it. */
  lemma {:induction false} AdvanceEngages(c: Config, s: State, o: Outcome)
    requires CustomFirst(c.engines) && s.pc.At? && InRange(c, s.pc.point)
    ensures var t := Advance(c, s, o);
            && t.started == (if s.pc.point.RunEngine? then s.started + [c.engines[s.pc.point.index]] else s.started)
            && (s.pc.point == RunEngine(0) ==> t.reached == o.reached)
            && (t.pc.Terminating? <==> s.pc.point == RunEngine(0) && s.endpoints > 0 && o.reached == 0)
            && (t.pc.Terminating? ==> t.pc == Terminating(FAILED))
  {
  }

  /** What an exception leaves: the findings of an interrupted store are those it had added. */
  lemma {:induction false} RaiseLeaves(c: Config, s: State, stored: nat, t: State)
    requires Next(c, s, Raise(stored), t)
    ensures t.pc == Terminating(FAILED) && t.row == s.row && t.reports == s.reports
    ensures t.findings == if s.pc == At(Store) then stored else s.findings
  {
  }

  // ---------- pause ----------

  /** A resume request commits that read the pause. */
  predicate Resumes(s: State, step: Step) {
    && step.ApiCommit? && step.id in s.calls
    && s.calls[step.id].action.ResumeScan? && s.calls[step.id].loaded.pauseRequested
  }

  ghost predicate NoResume(states: seq<State>, steps: seq<Step>, i: nat, j: nat)
    requires |states| > |steps|
  {
    forall k | i <= k < j && k < |steps| :: !Resumes(states[k], steps[k])
  }

  lemma {:induction false} PauseKept(c: Config, s: State, step: Step, t: State)
    requires CallsSound(s) && Next(c, s, step, t) && s.row.pauseRequested && !Resumes(s, step)
    ensures t.row.pauseRequested
  {
    if step.ApiCommit? {
      ControlSound(s.row, s.calls[step.id]);
    } else if IsWorkerStep(step) {
      WorkerKeepsRequests(c, s, step, t);
    }
  }

  lemma {:induction false} CallsSoundAt(c: Config, states: seq<State>, steps: seq<Step>, i: nat)
    requires Run(c, states, steps) && i < |states|
    ensures CallsSound(states[i])
  {
    InvHolds(c, states, steps, i);
  }

  lemma {:induction false} PauseStep(c: Config, states: seq<State>, steps: seq<Step>, k: nat)
    requires Run(c, states, steps) && k < |steps| && states[k].row.pauseRequested && !Resumes(states[k], steps[k])
    ensures states[k + 1].row.pauseRequested
  {
    CallsSoundAt(c, states, steps, k);
    PauseKept(c, states[k], steps[k], states[k + 1]);
  }

  /** A pause stands until a resume request commits that read it. */
  lemma {:induction false} PauseStands(c: Config, states: seq<State>, steps: seq<Step>, i: nat, j: nat)
    requires Run(c, states, steps) && i <= j < |states| && states[i].row.pauseRequested
    requires NoResume(states, steps, i, j)
    ensures states[j].row.pauseRequested
    decreases j
  {
    if i < j {
      PauseStands(c, states, steps, i, j - 1);
      PauseStep(c, states, steps, j - 1);
    }
  }

  /** A pause request that read no pause leaves one when it commits, and a resume request that read
      a pause leaves none. */
  lemma {:induction false} RequestCommits(c: Config, states: seq<State>, steps: seq<Step>, i: nat)
    requires Run(c, states, steps) && i < |steps| && steps[i].ApiCommit? && steps[i].id in states[i].calls
    ensures var call := states[i].calls[steps[i].id];
            && (call.action.PauseScan? && !call.loaded.pauseRequested ==> states[i + 1].row.pauseRequested)
            && (Resumes(states[i], steps[i]) ==> !states[i + 1].row.pauseRequested)
  {
    CallsSoundAt(c, states, steps, i);
    assert Next(c, states[i], steps[i], states[i + 1]);
    ControlSound(states[i].row, states[i].calls[steps[i].id]);
  }

  /** From a committed pause request until a resume request commits, no checkpoint that an uncancelled
      worker reads in time lets it go on: it is about to write PAUSED. */
  lemma {:induction false} PausedReadsHold(c: Config, states: seq<State>, steps: seq<Step>, i: nat, j: nat)
    requires Run(c, states, steps) && i < j < |steps|
    requires steps[i].ApiCommit? && steps[i].id in states[i].calls
    requires states[i].calls[steps[i].id].action.PauseScan? && !states[i].calls[steps[i].id].loaded.pauseRequested
    requires NoResume(states, steps, i + 1, j)
    requires steps[j].Work? && states[j].pc.Checkpoint? && states[j].pc.mode.Read?
    requires !states[j].row.cancelRequested && states[j].now < states[j].begun + c.maxDuration
    ensures states[j + 1].pc == Checkpoint(states[j].pc.next, Pause)
  {
    RequestCommits(c, states, steps, i);
    PauseStands(c, states, steps, i + 1, j);
    InvHolds(c, states, steps, j);
    assert Next(c, states[j], steps[j], states[j + 1]);
    CheckpointReads(c, states[j], steps[j].outcome, states[j + 1]);
  }

  /** At a checkpoint that has not yet decided to go on. */
  predicate Held(pc: Pc) {
    pc.Checkpoint? && !pc.mode.Resume?
  }

  /** The worker is still at that checkpoint or has stopped for good, and has done nothing else. */
  predicate HeldBack(s: State, t: State) {
    && s.pc.Checkpoint?
    && (if Held(t.pc) then t.pc.next == s.pc.next else t.pc.Terminating? || t.pc.Done?)
    && t.started == s.started && t.endpoints == s.endpoints && t.findings == s.findings && t.reports == s.reports
  }

  lemma {:induction false} HeldStep(c: Config, s: State, step: Step, t: State)
    requires Next(c, s, step, t) && s.row.pauseRequested && (Held(s.pc) || s.pc.Terminating? || s.pc.Done?)
    ensures if Held(s.pc) then HeldBack(s, t)
            else t.pc.Terminating? || t.pc.Done?
    ensures t.started == s.started && t.endpoints == s.endpoints && t.findings == s.findings && t.reports == s.reports
  {
  }

  /** From a committed pause until a resume commits, a worker that waits at a checkpoint does not
      get past it: it starts no engine, and stores and reports nothing. */
  lemma {:induction false} PauseHolds(c: Config, states: seq<State>, steps: seq<Step>, i: nat, j: nat)
    requires Run(c, states, steps) && i <= j < |states| && states[i].row.pauseRequested
    requires NoResume(states, steps, i, j) && Held(states[i].pc)
    ensures HeldBack(states[i], states[j])
    decreases j
  {
    if i < j {
      PauseHolds(c, states, steps, i, j - 1);
      PauseStands(c, states, steps, i, j - 1);
      HeldStep(c, states[j - 1], steps[j - 1], states[j]);
    }
  }

  /** An engine that may still start before the next checkpoint. */
  function AboutToStart(pc: Pc): nat {
    match pc
    case At(point) => if point.RunEngine? then 1 else 0
    case Checkpoint(next, mode) => if next.RunEngine? && mode.Resume? then 1 else 0
    case _ => 0
  }

  lemma {:induction false} AdvanceStarts(c: Config, s: State, o: Outcome)
    requires s.pc.At? && InRange(c, s.pc.point)
    ensures var t := Advance(c, s, o);
            |t.started| + AboutToStart(t.pc) <= |s.started| + AboutToStart(s.pc)
  {
  }

  lemma {:induction false} StartedStep(c: Config, s: State, step: Step, t: State)
    requires Next(c, s, step, t) && s.row.pauseRequested
    ensures |t.started| + AboutToStart(t.pc) <= |s.started| + AboutToStart(s.pc)
  {
    if step.Work? && s.pc.At? {
      AdvanceStarts(c, s, step.outcome);
    }
  }

  lemma {:induction false} StartedBound(c: Config, states: seq<State>, steps: seq<Step>, i: nat, j: nat)
    requires Run(c, states, steps) && i <= j < |states| && states[i].row.pauseRequested
    requires NoResume(states, steps, i, j)
    ensures |states[j].started| + AboutToStart(states[j].pc) <= |states[i].started| + AboutToStart(states[i].pc)
    decreases j
  {
    if i < j {
      StartedBound(c, states, steps, i, j - 1);
      PauseStands(c, states, steps, i, j - 1);
      StartedStep(c, states[j - 1], steps[j - 1], states[j]);
    }
  }

  /** Wherever the worker is when a pause commits, until a resume commits it starts at most the
      engine that it had already decided to start. */
  lemma {:induction false} PauseStopsEngines(c: Config, states: seq<State>, steps: seq<Step>, i: nat, j: nat)
    requires Run(c, states, steps) && i <= j < |states| && states[i].row.pauseRequested
    requires NoResume(states, steps, i, j)
    ensures |states[j].started| <= |states[i].started| + 1
    ensures |states[j].started| > |states[i].started| ==>
      states[i].pc.At? || (states[i].pc.Checkpoint? && states[i].pc.mode.Resume?)
  {
    StartedBound(c, states, steps, i, j);
  }

  // ---------- what the row says ----------

  /** Between two steps of the worker only time passes and requests are served. */
  ghost predicate NoWorkerStep(steps: seq<Step>, i: nat, j: nat) {
    forall k | i < k < j && k < |steps| :: !IsWorkerStep(steps[k])
  }

  lemma {:induction false} WorkerWaits(c: Config, states: seq<State>, steps: seq<Step>, i: nat, j: nat)
    requires Run(c, states, steps) && i < j < |states| && NoWorkerStep(steps, i, j)
    ensures states[j].pc == states[i + 1].pc && states[j].loaded == states[i + 1].loaded
    ensures states[j].row.status == states[i + 1].row.status || states[j].row.status.CANCELLED?
    decreases j
  {
    if i + 1 < j {
      WorkerWaits(c, states, steps, i, j - 1);
      InvHolds(c, states, steps, j - 1);
      assert Next(c, states[j - 1], steps[j - 1], states[j]);
      if steps[j - 1].ApiCommit? {
        ControlSound(states[j - 1].row, states[j - 1].calls[steps[j - 1].id]);
      }
    }
  }

  /** A worker that reads a pause, in time and uncancelled, next writes PAUSED and sleeps in front of
      the same point. */
  lemma {:induction false} PauseRecorded(c: Config, states: seq<State>, steps: seq<Step>, i: nat, k: nat)
    requires Run(c, states, steps) && i < k < |steps| && NoWorkerStep(steps, i, k)
    requires states[i].pc.Checkpoint? && states[i].pc.mode.Read? && steps[i].Work? && steps[k].Work?
    requires states[i].row.pauseRequested && !states[i].row.cancelRequested
    requires states[i].now < states[i].begun + c.maxDuration
    ensures states[k + 1].pc == Checkpoint(states[i].pc.next, Sleep(states[k].now + 2.0))
    ensures states[k + 1].row.status.PAUSED?
         || (states[i].row.status.PAUSED? && states[k + 1].row.status.CANCELLED?)
  {
    InvHolds(c, states, steps, i);
    CheckpointReads(c, states[i], steps[i].outcome, states[i + 1]);
    WorkerWaits(c, states, steps, i, k);
    assert Next(c, states[k], steps[k], states[k + 1]);
  }

  /** A worker that reads that a paused scan is resumed next writes SCANNING and goes on. */
  lemma {:induction false} ResumeGoesOn(c: Config, states: seq<State>, steps: seq<Step>, i: nat, k: nat)
    requires Run(c, states, steps) && i < k < |steps| && NoWorkerStep(steps, i, k)
    requires states[i].pc.Checkpoint? && states[i].pc.mode.Read? && steps[i].Work? && steps[k].Work?
    requires !states[i].row.pauseRequested && !states[i].row.cancelRequested && states[i].row.status.PAUSED?
    requires states[i].now < states[i].begun + c.maxDuration
    ensures states[k + 1].pc == At(states[i].pc.next) && states[k + 1].row.status.SCANNING?
  {
    InvHolds(c, states, steps, i);
    CheckpointReads(c, states[i], steps[i].outcome, states[i + 1]);
    WorkerWaits(c, states, steps, i, k);
    assert Next(c, states[k], steps[k], states[k + 1]);
  }

  // ---------- start and failures ----------

  /** A scan that is cancelled before its worker begins is not begun. */
  lemma {:induction false} StartExactly(c: Config, s: State, t: State)
    requires Next(c, s, Start, t)
    ensures if s.row.cancelRequested || s.row.status.CANCELLED? then t == s.(pc := Done)
            else t.pc == At(Initialize) && t.begun == s.now && t.row == s.row && t.started == s.started
  {
  }

  /** The step runs an engine that fails or times out. */
  predicate EngineFails(s: State, step: Step) {
    s.pc.At? && s.pc.point.RunEngine? && step.Work? && step.outcome.failed
  }

  lemma {:induction false} FailuresStep(c: Config, s: State, step: Step, t: State)
    requires Next(c, s, step, t)
    ensures t.failures <==> s.failures || EngineFails(s, step)
  {
  }

  /** The scan remembers exactly whether some engine has failed, and is then never COMPLETED. */
  lemma {:induction false} FailuresExactly(c: Config, states: seq<State>, steps: seq<Step>, j: nat)
    requires Run(c, states, steps) && j < |states|
    ensures states[j].failures <==> exists i :: 0 <= i < j && EngineFails(states[i], steps[i])
    ensures states[j].failures ==> !states[j].row.status.COMPLETED?
  {
    InvHolds(c, states, steps, j);
    if j > 0 {
      FailuresExactly(c, states, steps, j - 1);
      FailuresStep(c, states[j - 1], steps[j - 1], states[j]);
    }
  }

  // ---------- the deadline ----------

  /** The scan has timed out, or is about to. */
  predicate TimedOut(s: State) {
    s.pc == Terminating(TIMEOUT) || s.row.status.TIMEOUT?
  }

  predicate TimedOutLate(c: Config, s: State) {
    TimedOut(s) ==> !s.pc.Idle? && s.begun + c.maxDuration <= s.now
  }

  lemma {:induction false} AdvanceTimeout(c: Config, s: State, o: Outcome)
    requires s.pc.At? && InRange(c, s.pc.point) && !TimedOut(s)
    ensures !TimedOut(Advance(c, s, o))
  {
    AdvanceStatus(c, s, o);
  }

  lemma {:induction false} PollTimeout(s: State)
    requires s.pc.Checkpoint? && !TimedOut(s)
    ensures TimedOut(Poll(s)) ==> s.now >= s.deadline
  {
  }

  lemma {:induction false} TimeoutKept(c: Config, s: State, step: Step, t: State)
    requires CallsSound(s) && RowSound(s) && TimeSound(c, s) && Next(c, s, step, t) && TimedOutLate(c, s)
    ensures TimedOutLate(c, t)
  {
    if step.ApiCommit? {
      ControlSound(s.row, s.calls[step.id]);
    } else if step.Work? && s.pc.At? && !TimedOut(s) {
      AdvanceTimeout(c, s, step.outcome);
    } else if step.Work? && s.pc.Checkpoint? && !TimedOut(s) {
      PollTimeout(s);
    }
  }

  /** A scan ends with TIMEOUT only after it has lasted as long as it may. */
  lemma {:induction false} TimeoutIsLate(c: Config, states: seq<State>, steps: seq<Step>, i: nat)
    requires Run(c, states, steps) && i < |states|
    ensures TimedOutLate(c, states[i])
    ensures states[i].row.status.TIMEOUT? ==> states[i].now >= states[i].begun + c.maxDuration
  {
    if i > 0 {
      TimeoutIsLate(c, states, steps, i - 1);
      InvHolds(c, states, steps, i - 1);
      TimeoutKept(c, states[i - 1], steps[i - 1], states[i]);
    }
  }
}
