/** The request budget shared by all scanning tasks: a lock, a counter and a minimum spacing. */
module Budgets {

  type Task = nat

  /** Grants given to one task. */
  function Mine(log: seq<Task>, task: Task): nat {
    if log == [] then 0 else Mine(log[..|log| - 1], task) + (if log[|log| - 1] == task then 1 else 0)
  }

  lemma {:induction false} MineOneMore(log: seq<Task>, last: Task, task: Task)
    ensures Mine(log + [last], task) == Mine(log, task) + (if last == task then 1 else 0)
  {
    assert (log + [last])[..|log|] == log;
  }

  /** How long to sleep at clock reading `reading` so that grants are `1/rate` apart. */
  function DelayAfter(rate: real, lastRequest: real, reading: real): real
    requires rate > 0.0
  {
    var wait := 1.0 / rate - (reading - lastRequest);
    if wait > 0.0 then wait else 0.0
  }

  /** The sleep is as short as it can be: with it the grants are `1/rate` apart, and exactly that far
      if there is a sleep at all. */
  lemma {:induction false} DelayIsLeast(rate: real, lastRequest: real, reading: real)
    requires rate > 0.0
    ensures var delay := DelayAfter(rate, lastRequest, reading);
            && delay >= 0.0 && reading + delay >= lastRequest + 1.0 / rate
            && (delay > 0.0 ==> reading + delay == lastRequest + 1.0 / rate)
  {
  }

  /** `RequestBudget`, and `ProxyJob` with the same `take`. The log records who was granted, and
      `raises` whose probes raised an exception; `foreign` counts the grants of others. */
  class RequestBudget {
    const maximum: nat
    const rate: real
    var count: nat
    var lastRequest: real
    ghost var log: seq<Task>
    ghost var raises: seq<Task>
    ghost var foreign: nat

    ghost predicate Valid()
      reads this
    {
      rate > 0.0 && count == |log| && count <= maximum
    }

    /** What has happened meanwhile, from `task`'s point of view: grants and exceptions are only
        added, and every grant added is the task's own or foreign. */
    twostate predicate Proceeds(task: Task)
      reads this
    {
      && old(log) <= log && old(raises) <= raises && count >= old(count) && foreign >= old(foreign)
      && Mine(log, task) >= Mine(old(log), task) && Mine(raises, task) >= Mine(old(raises), task)
      && |log| - |old(log)| == Mine(log, task) - Mine(old(log), task) + foreign - old(foreign)
    }

    /** No probe of the task has raised meanwhile. */
    twostate predicate Quiet(task: Task)
      reads this
    {
      Mine(raises, task) == Mine(old(raises), task)
    }

    constructor (maximum: nat, rate: real)
      requires rate > 0.0
      ensures Valid() && this.maximum == maximum && this.rate == rate && count == 0 && lastRequest == 0.0
      ensures log == [] && raises == [] && foreign == 0
    {
      this.maximum, this.rate, count, lastRequest, log, raises, foreign := maximum, rate, 0, 0.0, [], [], 0;
    }

    function Delay(reading: real): real
      requires rate > 0.0
      reads this
    {
      DelayAfter(rate, lastRequest, reading)
    }

    /** One `take` by `task`: `before` and `after` are the clock readings around the sleep. */
    method Take(task: Task, before: real, after: real) returns (granted: bool)
      requires Valid() && after >= before + Delay(before)
      modifies this
      ensures Valid() && granted == (old(count) < maximum) && raises == old(raises) && foreign == old(foreign)
      ensures granted ==> count == old(count) + 1 && lastRequest == after && log == old(log) + [task]
      ensures granted ==> after - old(lastRequest) >= 1.0 / rate
      ensures !granted ==> count == old(count) && lastRequest == old(lastRequest) && log == old(log)
    {
      if count >= maximum {
        return false;
      }
      count := count + 1;
      lastRequest := after;
      log := log + [task];
      granted := true;
    }

    /** A probe of `task` raised an exception. */
    ghost method Note(task: Task)
      requires Valid()
      modifies this`raises
      ensures Valid() && raises == old(raises) + [task]
    {
      raises := raises + [task];
    }

    /** Anything the other tasks may do while `task` does not hold the lock. */
    method Interference(task: Task)
      requires Valid()
      modifies this
      ensures Valid() && Proceeds(task) && Quiet(task) && Mine(log, task) == Mine(old(log), task)
    {
      var others: nat := *;
      while others > 0
        invariant Valid() && Proceeds(task) && Quiet(task) && Mine(log, task) == Mine(old(log), task)
      {
        others := others - 1;
        var other: Task := *;
        var reading: real := *;
        if other != task {
          MineOneMore(log, other, task);
          MineOneMore(raises, other, task);
          var granted := Take(other, reading, reading + Delay(reading));
          if granted {
            foreign := foreign + 1;
          }
          var fails: bool := *;
          if fails || !granted {
            Note(other);
          }
        }
      }
    }
  }

  // ---------- any number of tasks contending for the lock ----------

  /** Who holds the lock: nobody, a task about to check the counter, or a task that may be
      granted once the clock has reached `until`. */
  datatype Holder = Free | Checking(task: Task) | Waiting(task: Task, until: real)

  datatype Limiter = Limiter(
    maximum: nat, rate: real, now: real, holder: Holder, count: nat, lastRequest: real,
    grants: seq<real>, log: seq<Task>)

  datatype Step =
    | Tick(reading: real)
    | Acquire(contender: Task)
    | Refuse
    | Pace
    | Grant
    | Cancel

  predicate Init(s: Limiter) {
    s.rate > 0.0 && s.holder.Free? && s.count == 0 && s.lastRequest == 0.0 && s.grants == [] && s.log == []
  }

  predicate Next(s: Limiter, step: Step, t: Limiter) {
    s.rate > 0.0 &&
    match step
    // The clock is monotone; it advances at any moment.
    case Tick(reading) => reading >= s.now && t == s.(now := reading)
    case Acquire(task) => s.holder.Free? && t == s.(holder := Checking(task))
    case Refuse => s.holder.Checking? && s.count >= s.maximum && t == s.(holder := Free)
    // It sleeps for the delay, zero included, keeping the lock.
    case Pace => s.holder.Checking? && s.count < s.maximum
                 && t == s.(holder := Waiting(s.holder.task, s.now + DelayAfter(s.rate, s.lastRequest, s.now)))
    case Grant => s.holder.Waiting? && s.now >= s.holder.until
                  && t == s.(holder := Free, count := s.count + 1, lastRequest := s.now,
                             grants := s.grants + [s.now], log := s.log + [s.holder.task])
    // Cancelled while waiting: the lock is released and nothing was counted.
    case Cancel => !s.holder.Free? && t == s.(holder := Free)
  }

  ghost predicate Run(states: seq<Limiter>, steps: seq<Step>) {
    && |states| == |steps| + 1 && Init(states[0])
    && forall i | 0 <= i < |steps| :: Next(states[i], steps[i], states[i + 1])
  }

  ghost predicate Spaced(grants: seq<real>, gap: real) {
    forall i | 0 <= i < |grants| - 1 :: grants[i + 1] - grants[i] >= gap
  }

  ghost predicate Inv(s: Limiter) {
    && s.rate > 0.0
    && s.count == |s.grants| == |s.log| && s.count <= s.maximum
    && Spaced(s.grants, 1.0 / s.rate)
    && (s.grants != [] ==> s.lastRequest == s.grants[|s.grants| - 1] <= s.now)
    && (s.holder.Waiting? ==> s.count < s.maximum && s.holder.until >= s.lastRequest + 1.0 / s.rate)
  }

  lemma {:induction false} InvKept(s: Limiter, step: Step, t: Limiter)
    requires Inv(s) && Next(s, step, t)
    ensures Inv(t)
    ensures t.maximum == s.maximum && t.rate == s.rate
    ensures !step.Grant? ==> (t.count, t.lastRequest, t.grants, t.log) == (s.count, s.lastRequest, s.grants, s.log)
  {
    if step.Grant? {
      forall i | 0 <= i < |t.grants| - 1 ensures t.grants[i + 1] - t.grants[i] >= 1.0 / s.rate {
        if i + 1 < |s.grants| {
          assert t.grants[i] == s.grants[i] && t.grants[i + 1] == s.grants[i + 1];
        }
      }
    }
  }

  lemma {:induction false} InvHolds(states: seq<Limiter>, steps: seq<Step>, i: nat)
    requires Run(states, steps) && i < |states|
    ensures Inv(states[i]) && states[i].maximum == states[0].maximum && states[i].rate == states[0].rate
  {
    if i > 0 {
      InvHolds(states, steps, i - 1);
      InvKept(states[i - 1], steps[i - 1], states[i]);
    }
  }

  /** Grants inside the closed window from `from` to `to`. */
  function CountWithin(grants: seq<real>, from: real, to: real): nat {
    if grants == [] then 0
    else CountWithin(grants[..|grants| - 1], from, to) + (if from <= grants[|grants| - 1] <= to then 1 else 0)
  }

  lemma {:induction false} WithinSpread(grants: seq<real>, from: real, to: real) returns (first: nat, last: nat)
    requires CountWithin(grants, from, to) > 0
    ensures first <= last < |grants| && from <= grants[first] && grants[last] <= to
    ensures last - first + 1 >= CountWithin(grants, from, to)
  {
    var init := grants[..|grants| - 1];
    if CountWithin(init, from, to) > 0 {
      first, last := WithinSpread(init, from, to);
      if from <= grants[|grants| - 1] <= to {
        last := |grants| - 1;
      }
    } else {
      first, last := |grants| - 1, |grants| - 1;
    }
  }

  lemma {:induction false} GapsAddUp(grants: seq<real>, gap: real, i: nat, j: nat)
    requires Spaced(grants, gap) && i <= j < |grants|
    ensures grants[j] - grants[i] >= (j - i) as real * gap
    decreases j - i
  {
    if i < j {
      GapsAddUp(grants, gap, i, j - 1);
      assert grants[j - 1 + 1] - grants[j - 1] >= gap;
      assert (j - i) as real == (j - 1 - i) as real + 1.0;
    }
  }

  lemma {:induction false} WindowBound(k: nat, gap: real, rate: real, length: real)
    requires rate > 0.0 && gap == 1.0 / rate && length >= k as real * gap
    ensures k <= (length * rate).Floor
  {
    assert gap * rate == 1.0;
    assert length * rate >= k as real * gap * rate by {
      assert (length - k as real * gap) * rate >= 0.0;
    }
    assert k as real * gap * rate == k as real * (gap * rate);
  }

  /** In every run, at every moment: the counter is the number of grants and stays within the
      budget; consecutive grants are at least `1/rate` apart; and no window of length `length`
      holds more than `floor(length * rate) + 1` of them. */
  lemma {:induction false} RateAndBudgetKept(states: seq<Limiter>, steps: seq<Step>, i: nat, from: real, length: real)
    requires Run(states, steps) && i < |states| && length >= 0.0
    ensures states[i].count == |states[i].grants| <= states[0].maximum
    ensures Spaced(states[i].grants, 1.0 / states[0].rate)
    ensures CountWithin(states[i].grants, from, from + length) <= (length * states[0].rate).Floor + 1
  {
    InvHolds(states, steps, i);
    WindowCount(states[i].grants, states[0].rate, from, length);
  }

  lemma {:induction false} WindowCount(grants: seq<real>, rate: real, from: real, length: real)
    requires rate > 0.0 && length >= 0.0 && Spaced(grants, 1.0 / rate)
    ensures CountWithin(grants, from, from + length) <= (length * rate).Floor + 1
  {
    if CountWithin(grants, from, from + length) > 0 {
      var gap := 1.0 / rate;
      var first, last := WithinSpread(grants, from, from + length);
      var k: nat := last - first;
      GapsAddUp(grants, gap, first, last);
      assert k as real * gap <= grants[last] - grants[first] <= length;
      WindowBound(k, gap, rate, length);
    } else {
      WindowBound(0, 1.0 / rate, rate, length);
    }
  }

  /** A task that finds the lock free and some budget left can be granted its request, and as early as the
      spacing allows: at once, or `1/rate` after the last grant. */
  lemma {:induction false} GrantedAtOnce(s: Limiter, task: Task) returns (states: seq<Limiter>, steps: seq<Step>)
    requires s.rate > 0.0 && s.holder.Free? && s.count < s.maximum
    ensures |states| == |steps| + 1 && states[0] == s
    ensures forall i | 0 <= i < |steps| :: Next(states[i], steps[i], states[i + 1])
    ensures var t := states[|steps|];
            && t.holder.Free? && t.log == s.log + [task] && t.count == s.count + 1
            && t.now == if s.now >= s.lastRequest + 1.0 / s.rate then s.now else s.lastRequest + 1.0 / s.rate
  {
    var until := s.now + DelayAfter(s.rate, s.lastRequest, s.now);
    DelayIsLeast(s.rate, s.lastRequest, s.now);
    var checking := s.(holder := Checking(task));
    var waiting := s.(holder := Waiting(task, until));
    var ready := waiting.(now := until);
    var granted := ready.(holder := Free, count := s.count + 1, lastRequest := until, grants := s.grants + [until],
                          log := s.log + [task]);
    states, steps := [s, checking, waiting, ready, granted], [Acquire(task), Pace, Tick(until), Grant];
  }

  /** Once the budget is used up no further grant is ever given. */
  lemma {:induction false} ExhaustedStaysExhausted(states: seq<Limiter>, steps: seq<Step>, i: nat, j: nat)
    requires Run(states, steps) && i <= j < |states| && states[i].count == states[0].maximum
    ensures states[j].grants == states[i].grants && states[j].log == states[i].log
    decreases j - i
  {
    if i < j {
      ExhaustedStaysExhausted(states, steps, i, j - 1);
      InvHolds(states, steps, i);
      InvHolds(states, steps, j - 1);
      InvKept(states[j - 1], steps[j - 1], states[j]);
    }
  }

  /** The sum of the grants of the first `tasks` tasks. */
  function MineTotal(log: seq<Task>, tasks: nat): nat {
    if tasks == 0 then 0 else MineTotal(log, tasks - 1) + Mine(log, tasks - 1)
  }

  lemma {:induction false} MineTotalOneMore(log: seq<Task>, last: Task, tasks: nat)
    ensures MineTotal(log + [last], tasks) == MineTotal(log, tasks) + (if last < tasks then 1 else 0)
  {
    if tasks > 0 {
      MineTotalOneMore(log, last, tasks - 1);
      MineOneMore(log, last, tasks - 1);
    }
  }

  lemma {:induction false} MineTotalEmpty(tasks: nat)
    ensures MineTotal([], tasks) == 0
  {
    if tasks > 0 {
      MineTotalEmpty(tasks - 1);
    }
  }

  /** The tasks' shares never exceed the grants, and make them up when no one else was granted. */
  lemma {:induction false} SharesAddUp(log: seq<Task>, tasks: nat)
    ensures MineTotal(log, tasks) <= |log|
    ensures (forall i | 0 <= i < |log| :: log[i] < tasks) ==> MineTotal(log, tasks) == |log|
  {
    if log == [] {
      MineTotalEmpty(tasks);
    } else {
      var init := log[..|log| - 1];
      SharesAddUp(init, tasks);
      MineTotalOneMore(init, log[|log| - 1], tasks);
      assert init + [log[|log| - 1]] == log;
    }
  }
}
