/** `Orchestrator.run` as a program: stages, checkpoints, the engine loop and the exceptions that
    end it, with time and control requests acting before every step. Its runs are runs of the
    scan's life cycle. */
module Orchestration {
  import opened Lifecycle

  lemma {:induction false} RunExtends(c: Config, states: seq<State>, steps: seq<Step>, step: Step, t: State)
    requires Run(c, states, steps) && Next(c, states[|states| - 1], step, t)
    ensures Run(c, states + [t], steps + [step])
  {
    forall i | 0 <= i < |steps| + 1 ensures Next(c, (states + [t])[i], (steps + [step])[i], (states + [t])[i + 1]) {
      if i < |steps| {
        assert Next(c, states[i], steps[i], states[i + 1]);
      }
    }
  }

  /** How a part of the run ends: it goes on, or an exception leads to a final status. */
  datatype Exit = Passed | Stopped(final: Status) {
    predicate IsFailure() {
      Stopped?
    }

    function PropagateFailure(): Exit {
      this
    }
  }

  const NOTHING: Outcome := Outcome(0, 0, false, 0, false)

  class Orchestrator {
    const c: Config
    /** The database, the clock and the worker's session. */
    var s: State
    ghost var states: seq<State>
    ghost var steps: seq<Step>

    ghost predicate Valid()
      reads this
    {
      Run(c, states, steps) && s == states[|states| - 1]
    }

    /** The scan so far is the beginning of the scan as it is now. */
    twostate predicate Continues()
      reads this
    {
      old(states) <= states && old(steps) <= steps
    }

    constructor (names: seq<string>, maxDuration: real, now: real)
      ensures Valid() && c == Config(Engines(names), maxDuration) && s.pc.Idle? && |states| == 1
    {
      var queued := Row(QUEUED, 0, false, false);
      c := Config(Engines(names), maxDuration);
      s := State(queued, 0, 0, now, map[], Idle, queued, 0.0, 0.0, [], 0, 0, false);
      states, steps := [State(queued, 0, 0, now, map[], Idle, queued, 0.0, 0.0, [], 0, 0, false)], [];
      EnginesStartWithCustom(names);
    }

    method Perform(step: Step, t: State)
      requires Valid() && Next(c, s, step, t)
      modifies this
      ensures Valid() && s == t && states == old(states) + [t] && steps == old(steps) + [step]
      ensures (if IsWorkerStep(step) then 1 else 0) + Remaining(c, t) <= old(Remaining(c, s))
    {
      InvHolds(c, states, steps, |steps|);
      StepSpent(c, s, step, t);
      RunExtends(c, states, steps, step, t);
      s, states, steps := t, states + [t], steps + [step];
    }

    /** Time passes and control requests are served. */
    method Environment()
      requires Valid()
      modifies this
      ensures Valid() && Continues() && s.now >= old(s.now)
      ensures s == old(s).(row := s.row, now := s.now, calls := s.calls)
      ensures Remaining(c, s) <= old(Remaining(c, s))
    {
      var more: nat := *;
      while more > 0
        invariant Valid() && Continues() && s.now >= old(s.now)
        invariant s == old(s).(row := s.row, now := s.now, calls := s.calls)
        invariant Remaining(c, s) <= old(Remaining(c, s))
      {
        more := more - 1;
        var step: Step := *;
        match step {
          case Tick(reading) =>
            if reading >= s.now {
              Perform(step, s.(now := reading));
            }
          case ApiRead(id, action) =>
            if id !in s.calls {
              Perform(step, if Terminal(s.row.status) then s else s.(calls := s.calls[id := Call(action, s.row)]));
            }
          case ApiCommit(id) =>
            if id in s.calls {
              Perform(step, s.(row := Controlled(s.row, s.calls[id]), calls := s.calls - {id}));
            }
          case _ =>
        }
      }
    }

    /** An exception in the script; `stored` findings were added before it. */
    method Throw(stored: nat) returns (exit: Exit)
      requires Valid() && Working(s.pc)
      modifies this
      ensures Valid() && Continues() && exit == Stopped(FAILED) && s.pc == Terminating(FAILED)
      ensures s.failures == old(s.failures)
    {
      Perform(Raise(stored), s.(findings := if s.pc == At(Store) then stored else s.findings,
          pc := Terminating(FAILED)));
      exit := Stopped(FAILED);
    }

    /** Where an exit leaves the worker. */
    predicate Left(exit: Exit, pc: Pc)
      reads this
    {
      match exit
      case Passed => s.pc == pc
      case Stopped(final) => s.pc == Terminating(final)
    }

    /** `_stage`. */
    method WriteStage(status: Status, progress: nat, pc: Pc, o: Outcome) returns (exit: Exit)
      requires Valid() && s.pc.At? && InRange(c, s.pc.point) && o.reached <= s.endpoints
      requires forall r: State | r.pc == s.pc :: Advance(c, r, o) == Stage(r, status, progress, pc)
      modifies this
      ensures Valid() && Continues() && Left(exit, pc) && s.failures == old(s.failures)
    {
      Environment();
      if * {
        exit := Throw(0);
        return;
      }
      Perform(Work(o), Stage(s, status, progress, pc));
      exit := Passed;
    }

    /** `asyncio.sleep`: at least as long as asked. */
    method Doze(next: Point, until: real)
      requires Valid() && s.pc == Checkpoint(next, Sleep(until))
      modifies this
      ensures Valid() && Continues() && s.pc == Checkpoint(next, Read) && Remaining(c, s) < old(Remaining(c, s))
    {
      Environment();
      if s.now < until {
        Perform(Tick(until), s.(now := until));
      }
      Perform(Work(NOTHING), s.(pc := Checkpoint(next, Read)));
    }

    /** Goes on, first taking back a recorded pause. */
    method Proceed(next: Point)
      requires Valid() && s.pc == Checkpoint(next, Read)
      requires !s.row.cancelRequested && s.now < s.deadline && !s.row.pauseRequested
      modifies this
      ensures Valid() && Continues() && s.pc == At(next)
    {
      if s.row.status.PAUSED? {
        Perform(Work(NOTHING), s.(loaded := s.row, pc := Checkpoint(next, Resume)));
        Environment();
        Perform(Work(NOTHING), Commit(s, s.loaded.(status := SCANNING), At(next)));
      } else {
        Perform(Work(NOTHING), s.(loaded := s.row, pc := At(next)));
      }
    }

    /** Records the pause and sleeps. */
    method HoldOn(next: Point)
      requires Valid() && s.pc == Checkpoint(next, Read)
      requires !s.row.cancelRequested && s.now < s.deadline && s.row.pauseRequested
      modifies this
      ensures Valid() && Continues() && s.pc == Checkpoint(next, Read) && Remaining(c, s) < old(Remaining(c, s))
    {
      Perform(Work(NOTHING), s.(loaded := s.row, pc := Checkpoint(next, Pause)));
      Environment();
      Perform(Work(NOTHING), Commit(s, s.loaded.(status := PAUSED), Checkpoint(next, Sleep(s.now + 2.0))));
      Doze(next, s.pc.mode.until);
    }

    /** `_checkpoint`, in front of the point `next`; it returns even if never resumed. */
    method SafePoint(next: Point) returns (exit: Exit)
      requires Valid() && s.pc == Checkpoint(next, Read)
      modifies this
      ensures Valid() && Continues() && Left(exit, At(next))
    {
      while true
        invariant Valid() && Continues() && s.pc == Checkpoint(next, Read)
        decreases Remaining(c, s)
      {
        Environment();
        if * {
          exit := Throw(0);
          return;
        }
        if s.row.cancelRequested {
          Perform(Work(NOTHING), s.(loaded := s.row, pc := Terminating(CANCELLED)));
          return Stopped(CANCELLED);
        }
        if s.now >= s.deadline {
          Perform(Work(NOTHING), s.(loaded := s.row, pc := Terminating(TIMEOUT)));
          return Stopped(TIMEOUT);
        }
        if !s.row.pauseRequested {
          Proceed(next);
          return Passed;
        }
        HoldOn(next);
      }
    }

    /** A part of the script that leaves the row alone and may raise. */
    method Execute(o: Outcome, stored: nat, pc: Pc) returns (exit: Exit)
      requires Valid() && s.pc.At? && InRange(c, s.pc.point) && o.reached <= s.endpoints
      requires forall r: State | r.pc == s.pc :: Advance(c, r, o).pc == pc
      modifies this
      ensures Valid() && Continues() && Left(exit, pc)
      ensures exit.Passed? && !old(s.pc.point).Inventory? ==> s.endpoints == old(s.endpoints)
    {
      Environment();
      if * {
        exit := Throw(stored);
        return;
      }
      Perform(Work(o), Advance(c, s, o));
      exit := Passed;
    }

    /** One engine runs; when it is the custom engine and no endpoint answered, the scan fails. */
    method Engage(i: nat) returns (exit: Exit)
      requires Valid() && i < |c.engines| && s.pc == At(RunEngine(i))
      modifies this
      ensures Valid() && Continues() && Left(exit, At(EngineStage(i)))
    {
      Environment();
      if * {
        exit := Throw(0);
        return;
      }
      var reached: nat :| reached <= s.endpoints;
      var failed: bool := *;
      var unreachable := c.engines[i] == CUSTOM && s.endpoints > 0 && reached == 0;
      var o := Outcome(0, reached, failed, 0, false);
      Perform(Work(o), Advance(c, s, o));
      exit := if unreachable then Stopped(FAILED) else Passed;
    }

    /** The progress after an engine. */
    method FinishEngine(i: nat) returns (exit: Exit)
      requires Valid() && i < |c.engines| && s.pc == At(EngineStage(i))
      modifies this
      ensures Valid() && Continues() && Left(exit, AfterEngine(i))
    {
      exit := WriteStage(SCANNING, EngineProgress(i + 1, |c.engines|), AfterEngine(i), NOTHING);
    }

    /** One pass of the engine loop. */
    method RunOneEngine(i: nat) returns (exit: Exit)
      requires Valid() && i < |c.engines| && s.pc == Checkpoint(RunEngine(i), Read)
      modifies this
      ensures Valid() && Continues() && Left(exit, AfterEngine(i))
    {
      exit := Passed;
      :- SafePoint(RunEngine(i));
      :- Engage(i);
      exit := FinishEngine(i);
    }

    function AfterEngine(i: nat): Pc {
      if i + 1 < |c.engines| then Checkpoint(RunEngine(i + 1), Read) else At(Correlate)
    }

    /** The loop over the engines. */
    method EngineLoop() returns (exit: Exit)
      requires Valid() && s.pc == Checkpoint(RunEngine(0), Read) && c.engines != []
      modifies this
      ensures Valid() && Continues() && Left(exit, At(Correlate))
    {
      for i := 0 to |c.engines|
        invariant Valid() && Continues()
        invariant s.pc == if i < |c.engines| then Checkpoint(RunEngine(i), Read) else At(Correlate)
      {
        :- RunOneEngine(i);
      }
      exit := Passed;
    }

    /** The last commit: verdict, progress and reports together. */
    method Conclude(complete: bool) returns (exit: Exit)
      requires Valid() && s.pc == At(Finish)
      modifies this
      ensures Valid() && Continues() && Left(exit, Done) && s.failures == old(s.failures)
      ensures exit.Passed? ==> s.reports == 4 && s.row.progress == 100
                               && s.row.status == if s.failures || !complete then PARTIAL else COMPLETED
    {
      Environment();
      InvHolds(c, states, steps, |steps|);
      if * {
        exit := Throw(0);
        return;
      }
      var o := Outcome(0, 0, false, 0, complete);
      Perform(Work(o), Advance(c, s, o));
      exit := Passed;
    }

    /** Validates the target. */
    method CheckTarget() returns (exit: Exit)
      requires Valid() && s.pc == At(Initialize)
      modifies this
      ensures Valid() && Continues() && Left(exit, At(Discover))
    {
      exit := Passed;
      :- WriteStage(INITIALIZING, 5, At(Validate), NOTHING);
      :- Execute(NOTHING, 0, Checkpoint(Discover, Read));
      exit := SafePoint(Discover);
    }

    /** Builds the inventory. */
    method TakeInventory() returns (exit: Exit)
      requires Valid() && s.pc == At(Discover)
      modifies this
      ensures Valid() && Continues() && Left(exit, At(Scan))
    {
      exit := Passed;
      :- WriteStage(DISCOVERING, 15, At(Inventory), NOTHING);
      var endpoints: nat :| true;
      :- Execute(NOTHING.(endpoints := endpoints), 0, Checkpoint(Scan, Read));
      exit := SafePoint(Scan);
    }

    method BeginCorrelation() returns (exit: Exit)
      requires Valid() && s.pc == At(Correlate)
      modifies this
      ensures Valid() && Continues() && Left(exit, At(Store))
    {
      exit := WriteStage(CORRELATING, 75, At(Store), NOTHING);
    }

    /** Stores the findings. */
    method Collect() returns (exit: Exit)
      requires Valid() && s.pc == At(Correlate)
      modifies this
      ensures Valid() && Continues() && Left(exit, At(Report))
    {
      exit := Passed;
      :- BeginCorrelation();
      var findings: nat, stored: nat :| true;
      :- Execute(NOTHING.(findings := findings), stored, Checkpoint(Report, Read));
      exit := SafePoint(Report);
    }

    method BeginReports() returns (exit: Exit)
      requires Valid() && s.pc == At(Report)
      modifies this
      ensures Valid() && Continues() && Left(exit, At(Finish)) && s.failures == old(s.failures)
    {
      exit := WriteStage(REPORTING, 90, At(Finish), NOTHING);
    }

    /** Writes the reports. */
    method Publish() returns (exit: Exit)
      requires Valid() && s.pc == At(Report)
      modifies this
      ensures Valid() && Continues() && Left(exit, Done)
    {
      exit := Passed;
      :- BeginReports();
      var complete: bool := *;
      exit := Conclude(complete);
    }

    /** The body of the `try` statement. */
    method Script() returns (exit: Exit)
      requires Valid() && s.pc == At(Initialize) && c.engines != []
      modifies this
      ensures Valid() && Continues() && Left(exit, Done)
    {
      exit := Passed;
      :- CheckTarget();
      :- TakeInventory();
      :- WriteStage(SCANNING, 30, Checkpoint(RunEngine(0), Read), NOTHING);
      :- EngineLoop();
      :- Collect();
      exit := Publish();
    }

    /** `run`: every scan ends, in a terminal status, whatever is requested meanwhile. */
    method RunScan()
      requires Valid() && s.pc.Idle?
      modifies this
      ensures Valid() && Continues() && s.pc.Done? && Terminal(s.row.status)
    {
      Environment();
      if s.row.cancelRequested || s.row.status.CANCELLED? {
        Perform(Start, s.(pc := Done));
      } else {
        Perform(Start, s.(pc := At(Initialize), loaded := s.row, begun := s.now, deadline := s.now + c.maxDuration));
        var exit := Script();
        if exit.Stopped? {
          Environment();
          Perform(Work(NOTHING), Commit(s, s.loaded.(status := exit.final), Done));
        }
      }
      DoneIsTerminal(c, states, steps, |steps|);
    }
  }
}
