/** The out-of-band callback collector: registrations, callbacks and polls over a shared store
    with expiring keys. Callbacks and polls touch the store twice, and others act in between. */
module Oast {

  type Token = string

  predicate TokenCharacter(c: char) {
    'A' <= c <= 'Z' || 'a' <= c <= 'z' || '0' <= c <= '9' || c == '_' || c == '-'
  }

  /** Other paths are answered with 404. */
  predicate ValidToken(token: Token) {
    16 <= |token| <= 128 && forall i | 0 <= i < |token| :: TokenCharacter(token[i])
  }

  const LIFETIME := 600.0

  datatype Entry = Entry(hit: bool, expires: real)

  /** A request between its two accesses to the store. */
  datatype Handler = KeySeen(token: Token) | HitSeen(token: Token)

  datatype Event =
    | Registered(token: Token)
    | CallbackBegan(token: Token)
    | CallbackWritten(token: Token)
    | Answered(token: Token, hit: bool)

  datatype Service = Service(store: map<Token, Entry>, now: real, handlers: map<nat, Handler>, log: seq<Event>)

  predicate Live(s: Service, token: Token) {
    token in s.store && s.now < s.store[token].expires
  }

  datatype Step =
    | Tick(reading: real)
    | Register(token: Token)
    | BeginCallback(id: nat, token: Token)
    | FinishCallback(id: nat)
    | BeginPoll(id: nat, token: Token)
    | FinishPoll(id: nat)

  predicate Init(s: Service) {
    s.store == map[] && s.handlers == map[] && s.log == []
  }

  predicate Next(s: Service, step: Step, t: Service) {
    match step
    case Tick(reading) => reading >= s.now && t == s.(now := reading)
    case Register(token) =>
      ValidToken(token) && t == s.(store := s.store[token := Entry(false, s.now + LIFETIME)],
          log := s.log + [Registered(token)])
    case BeginCallback(id, token) =>
      ValidToken(token) && id !in s.handlers
      && t == s.(log := s.log + [CallbackBegan(token)],
                 handlers := if Live(s, token) then s.handlers[id := KeySeen(token)] else s.handlers)
    // The key is set even if it was deleted or expired since it was seen.
    case FinishCallback(id) =>
      id in s.handlers && s.handlers[id].KeySeen?
      && (var token := s.handlers[id].token;
          t == s.(store := s.store[token := Entry(true, s.now + LIFETIME)], handlers := s.handlers - {id},
                  log := s.log + [CallbackWritten(token)]))
    case BeginPoll(id, token) =>
      ValidToken(token) && id !in s.handlers
      && t == if Live(s, token) && s.store[token].hit then s.(handlers := s.handlers[id := HitSeen(token)])
              else s.(log := s.log + [Answered(token, false)])
    case FinishPoll(id) =>
      id in s.handlers && s.handlers[id].HitSeen?
      && (var token := s.handlers[id].token;
          t == s.(store := s.store - {token}, handlers := s.handlers - {id}, log := s.log + [Answered(token, true)]))
  }

  ghost predicate Run(states: seq<Service>, steps: seq<Step>) {
    && |states| == |steps| + 1 && Init(states[0])
    && forall i | 0 <= i < |steps| :: Next(states[i], steps[i], states[i + 1])
  }

  // ---------- attribution ----------

  /** A callback for the token began after the token was registered. */
  ghost predicate CalledBack(log: seq<Event>, token: Token) {
    exists i, j :: 0 <= i < j < |log| && log[i] == Registered(token) && log[j] == CallbackBegan(token)
  }

  ghost predicate Known(log: seq<Event>, token: Token) {
    exists i :: 0 <= i < |log| && log[i] == Registered(token)
  }

  /** Every hit that was answered goes back to a callback for that very token. */
  ghost predicate Attributed(log: seq<Event>) {
    forall k | 0 <= k < |log| && log[k].Answered? && log[k].hit :: CalledBack(log[..k], log[k].token)
  }

  ghost predicate Inv(s: Service) {
    && Attributed(s.log)
    && (forall token | token in s.store :: Known(s.log, token) && (s.store[token].hit ==> CalledBack(s.log, token)))
    && (forall id | id in s.handlers :: CalledBack(s.log, s.handlers[id].token))
  }

  lemma {:induction false} LogGrows(log: seq<Event>, event: Event, token: Token)
    ensures Known(log, token) ==> Known(log + [event], token)
    ensures CalledBack(log, token) ==> CalledBack(log + [event], token)
    ensures event == Registered(token) ==> Known(log + [event], token)
    ensures event == CallbackBegan(token) && Known(log, token) ==> CalledBack(log + [event], token)
  {
    var more := log + [event];
    if Known(log, token) {
      var i :| 0 <= i < |log| && log[i] == Registered(token);
      assert more[i] == Registered(token) && more[|log|] == event;
    }
    if CalledBack(log, token) {
      var i, j :| 0 <= i < j < |log| && log[i] == Registered(token) && log[j] == CallbackBegan(token);
      assert more[i] == Registered(token) && more[j] == CallbackBegan(token);
    }
    assert more[|log|] == event;
  }

  lemma {:induction false} AttributedGrows(log: seq<Event>, event: Event)
    requires Attributed(log) && (event.Answered? && event.hit ==> CalledBack(log, event.token))
    ensures Attributed(log + [event])
  {
    var more := log + [event];
    forall k | 0 <= k < |more| && more[k].Answered? && more[k].hit ensures CalledBack(more[..k], more[k].token) {
      assert more[..k] == log[..k];
      if k == |log| {
        assert log[..k] == log;
      }
    }
  }

  lemma {:induction false} InvGrows(s: Service, event: Event)
    requires Inv(s) && (event.Answered? && event.hit ==> CalledBack(s.log, event.token))
    ensures Inv(s.(log := s.log + [event]))
  {
    AttributedGrows(s.log, event);
    forall token ensures Known(s.log, token) ==> Known(s.log + [event], token)
      ensures CalledBack(s.log, token) ==> CalledBack(s.log + [event], token) {
      LogGrows(s.log, event, token);
    }
  }

  lemma {:induction false} InvKept(s: Service, step: Step, t: Service)
    requires Inv(s) && Next(s, step, t)
    ensures Inv(t)
  {
    if t.log != s.log {
      var event := t.log[|s.log|];
      assert t.log == s.log + [event];
      InvGrows(s, event);
      LogGrows(s.log, event, event.token);
      EventKept(s, step, t);
    }
  }

  lemma {:induction false} EventKept(s: Service, step: Step, t: Service)
    requires Next(s, step, t) && Inv(s.(log := t.log))
    requires step.Register? ==> Known(t.log, step.token)
    requires step.BeginCallback? && Live(s, step.token) ==> CalledBack(t.log, step.token)
    ensures Inv(t)
  {
  }

  lemma {:induction false} InvHolds(states: seq<Service>, steps: seq<Step>, i: nat)
    requires Run(states, steps) && i < |states|
    ensures Inv(states[i])
  {
    if i > 0 {
      InvHolds(states, steps, i - 1);
      InvKept(states[i - 1], steps[i - 1], states[i]);
    }
  }

  /** Over every interleaving: a poll answers hit only if a callback for that same token began
      after the token was registered, and before the answer. */
  lemma {:induction false} HitsAreAttributed(states: seq<Service>, steps: seq<Step>, i: nat, k: nat)
    requires Run(states, steps) && i < |states| && k < |states[i].log|
    requires states[i].log[k].Answered? && states[i].log[k].hit
    ensures CalledBack(states[i].log[..k], states[i].log[k].token)
  {
    InvHolds(states, steps, i);
  }

  ghost predicate OnlyValid(s: Service) {
    && (forall k | 0 <= k < |s.log| :: ValidToken(s.log[k].token))
    && (forall id | id in s.handlers :: ValidToken(s.handlers[id].token))
  }

  lemma {:induction false} OnlyValidKept(s: Service, step: Step, t: Service)
    requires OnlyValid(s) && Next(s, step, t)
    ensures OnlyValid(t)
  {
  }

  /** Over every interleaving: what is registered, called back or polled has 16 to 128 characters, none of
      which separates paths or keys. */
  lemma {:induction false} TokensAreValid(states: seq<Service>, steps: seq<Step>, i: nat)
    requires Run(states, steps) && i < |states|
    ensures OnlyValid(states[i])
    ensures forall k | 0 <= k < |states[i].log| ::
      var token := states[i].log[k].token;
      16 <= |token| <= 128 && '/' !in token && ':' !in token && '.' !in token && ' ' !in token
  {
    if i > 0 {
      TokensAreValid(states, steps, i - 1);
      OnlyValidKept(states[i - 1], steps[i - 1], states[i]);
    }
  }

  // ---------- how often a hit is answered ----------

  /** Two overlapping polls report the same callback twice. */
  lemma {:induction false} OneCallbackTwoHits(token: Token) returns (states: seq<Service>, steps: seq<Step>)
    requires ValidToken(token)
    ensures Run(states, steps) && |states| == 8
    ensures Occurrences(states[7].log, CallbackWritten(token)) == 1
      && Occurrences(states[7].log, Answered(token, true)) == 2
  {
    var logs := [Registered(token), CallbackBegan(token), CallbackWritten(token), Answered(token, true),
        Answered(token, true)];
    var (idle, hit) := (map[token := Entry(false, LIFETIME)], map[token := Entry(true, LIFETIME)]);
    var s0 := Service(map[], 0.0, map[], []);
    var s1 := Service(idle, 0.0, map[], logs[..1]);
    var s2 := Service(idle, 0.0, map[0 := KeySeen(token)], logs[..2]);
    var s3 := Service(hit, 0.0, map[], logs[..3]);
    var s4 := Service(hit, 0.0, map[1 := HitSeen(token)], logs[..3]);
    var s5 := Service(hit, 0.0, map[1 := HitSeen(token), 2 := HitSeen(token)], logs[..3]);
    var s6 := Service(map[], 0.0, map[2 := HitSeen(token)], logs[..4]);
    var s7 := Service(map[], 0.0, map[], logs);
    states := [s0, s1, s2, s3, s4, s5, s6, s7];
    steps := [Register(token), BeginCallback(0, token), FinishCallback(0), BeginPoll(1, token), BeginPoll(2, token),
        FinishPoll(1), FinishPoll(2)];
    assert Next(s0, steps[0], s1) && Next(s1, steps[1], s2);
    assert s2.handlers - {0} == map[] && idle[token := Entry(true, LIFETIME)] == hit;
    assert Next(s2, steps[2], s3) && Next(s3, steps[3], s4) && Next(s4, steps[4], s5);
    PollFinishes(s5, 1, s6);
    PollFinishes(s6, 2, s7);
    TwoHits(token);
  }

  lemma {:induction false} PollFinishes(s: Service, id: nat, t: Service)
    requires id in s.handlers && s.handlers[id].HitSeen?
    requires t.store == s.store - {s.handlers[id].token} && t.handlers == s.handlers - {id} && t.now == s.now
    requires t.log == s.log + [Answered(s.handlers[id].token, true)]
    ensures Next(s, FinishPoll(id), t)
  {
  }

  lemma {:induction false} TwoHits(token: Token)
    ensures var log := [Registered(token), CallbackBegan(token), CallbackWritten(token), Answered(token, true),
      Answered(token, true)];
            Occurrences(log, CallbackWritten(token)) == 1 && Occurrences(log, Answered(token, true)) == 2
  {
    var one := [Registered(token)];
    var two := one + [CallbackBegan(token)];
    var three := two + [CallbackWritten(token)];
    var four := three + [Answered(token, true)];
    assert [] + [Registered(token)] == one;
    OneMore([], Registered(token));
    OneMore(one, CallbackBegan(token));
    OneMore(two, CallbackWritten(token));
    OneMore(three, Answered(token, true));
    OneMore(four, Answered(token, true));
    assert four + [Answered(token, true)]
        == [Registered(token), CallbackBegan(token), CallbackWritten(token), Answered(token, true),
           Answered(token, true)];
  }

  function Occurrences(log: seq<Event>, event: Event): nat {
    if log == [] then 0 else Occurrences(log[..|log| - 1], event) + (if log[|log| - 1] == event then 1 else 0)
  }

  lemma {:induction false} OneMore(log: seq<Event>, last: Event)
    ensures forall event ::
              Occurrences(log + [last], event) == Occurrences(log, event) + (if last == event then 1 else 0)
  {
    assert (log + [last])[..|log|] == log;
  }

  /** The polls of the token that have seen a hit and not answered yet. */
  function Polling(s: Service, token: Token): set<nat> {
    set id | id in s.handlers && s.handlers[id] == HitSeen(token)
  }

  /** The hits still to be answered: one for each such poll, and at least one if a hit is stored. */
  function Owed(s: Service, token: Token): nat {
    if Polling(s, token) == {} && token in s.store && s.store[token].hit then 1 else |Polling(s, token)|
  }

  /** A poll of the token begins and sees a hit that another poll has seen and not answered. */
  predicate Overlaps(s: Service, step: Step, token: Token) {
    step.BeginPoll? && step.token == token && Live(s, token) && s.store[token].hit && Polling(s, token) != {}
  }

  predicate Answers(s: Service, step: Step, token: Token) {
    step.FinishPoll? && step.id in s.handlers && s.handlers[step.id] == HitSeen(token)
  }

  predicate Writes(s: Service, step: Step, token: Token) {
    step.FinishCallback? && step.id in s.handlers && s.handlers[step.id] == KeySeen(token)
  }

  function Overlapping(states: seq<Service>, steps: seq<Step>, token: Token): nat
    requires |states| > |steps|
  {
    if steps == [] then 0
    else
      var last := |steps| - 1;
      Overlapping(states[..last + 1], steps[..last], token)
          + (if Overlaps(states[last], steps[last], token) then 1 else 0)
  }

  /** What is answered or owed is covered by what was written and the overlapping polls. */
  ghost predicate Ledger(s: Service, token: Token, overlapping: nat) {
    Occurrences(s.log, Answered(token, true)) + Owed(s, token)
    <= Occurrences(s.log, CallbackWritten(token)) + overlapping
  }

  lemma {:induction false} PollBegins(s: Service, t: Service, id: nat, handler: Handler, token: Token)
    requires id !in s.handlers && t.handlers == s.handlers[id := handler]
    ensures Polling(t, token) == Polling(s, token) + (if handler == HitSeen(token) then {id} else {})
  {
  }

  lemma {:induction false} PollEnds(s: Service, t: Service, id: nat, token: Token)
    requires id in s.handlers && t.handlers == s.handlers - {id}
    ensures Polling(t, token) == Polling(s, token) - (if s.handlers[id] == HitSeen(token) then {id} else {})
  {
  }

  /** One more is owed only when a callback is written or polls overlap, and an answer is owed. */
  lemma {:induction false} OwedStep(s: Service, step: Step, t: Service, token: Token)
    requires Next(s, step, t)
    ensures Owed(t, token) + (if Answers(s, step, token) then 1 else 0)
         <= Owed(s, token) + (if Writes(s, step, token) then 1 else 0) + (if Overlaps(s, step, token) then 1 else 0)
  {
    match step
    case BeginCallback(id, other) =>
      if Live(s, other) {
        PollBegins(s, t, id, KeySeen(other), token);
      }
    case FinishCallback(id) => PollEnds(s, t, id, token);
    case BeginPoll(id, other) =>
      if Live(s, other) && s.store[other].hit {
        PollBegins(s, t, id, HitSeen(other), token);
      }
    case FinishPoll(id) => PollEnds(s, t, id, token);
    case _ =>
      assert Polling(t, token) == Polling(s, token);
  }

  /** What the step adds to the log is counted. */
  lemma {:induction false} CountsStep(s: Service, step: Step, t: Service, token: Token)
    requires Next(s, step, t)
    ensures Occurrences(t.log, Answered(token, true))
         == Occurrences(s.log, Answered(token, true)) + (if Answers(s, step, token) then 1 else 0)
    ensures Occurrences(t.log, CallbackWritten(token))
         == Occurrences(s.log, CallbackWritten(token)) + (if Writes(s, step, token) then 1 else 0)
  {
    match step
    case Tick(_) =>
    case Register(other) => OneMore(s.log, Registered(other));
    case BeginCallback(_, other) => OneMore(s.log, CallbackBegan(other));
    case FinishCallback(id) => OneMore(s.log, CallbackWritten(s.handlers[id].token));
    case BeginPoll(_, other) => OneMore(s.log, Answered(other, false));
    case FinishPoll(id) => OneMore(s.log, Answered(s.handlers[id].token, true));
  }

  lemma {:induction false} LedgerKept(s: Service, step: Step, t: Service, token: Token, overlapping: nat)
    requires Ledger(s, token, overlapping) && Next(s, step, t)
    ensures Ledger(t, token, overlapping + (if Overlaps(s, step, token) then 1 else 0))
  {
    OwedStep(s, step, t, token);
    CountsStep(s, step, t, token);
  }

  lemma {:induction false} LedgerHolds(states: seq<Service>, steps: seq<Step>, token: Token)
    requires Run(states, steps)
    ensures Ledger(states[|steps|], token, Overlapping(states, steps, token))
  {
    if steps == [] {
      assert Polling(states[0], token) == {};
    } else {
      var last := |steps| - 1;
      RunCut(states, steps, last);
      LedgerHolds(states[..last + 1], steps[..last], token);
      LedgerKept(states[last], steps[last], states[last + 1], token,
          Overlapping(states[..last + 1], steps[..last], token));
    }
  }

  lemma {:induction false} RunCut(states: seq<Service>, steps: seq<Step>, n: nat)
    requires Run(states, steps) && n <= |steps|
    ensures Run(states[..n + 1], steps[..n])
  {
    forall i | 0 <= i < n ensures Next(states[..n + 1][i], steps[..n][i], states[..n + 1][i + 1]) {
      assert Next(states[i], steps[i], states[i + 1]);
    }
  }

  /** Over every run a token is answered hit at most once per callback written, and once more for
      each poll that saw the hit while another poll was about to answer it. */
  lemma {:induction false} HitsAtMostCallbacks(states: seq<Service>, steps: seq<Step>, token: Token)
    requires Run(states, steps)
    ensures Occurrences(states[|steps|].log, Answered(token, true))
         <= Occurrences(states[|steps|].log, CallbackWritten(token)) + Overlapping(states, steps, token)
  {
    LedgerHolds(states, steps, token);
  }

  // ---------- when a hit is answered again ----------

  /** The token was answered hit, and no callback has been written since. */
  ghost predicate Spent(log: seq<Event>, token: Token) {
    SpentSince(log, token, 0)
  }

  /** The same, with an answer after the first `from` events. */
  ghost predicate SpentSince(log: seq<Event>, token: Token, from: nat) {
    exists a :: from <= a < |log| && log[a] == Answered(token, true) && CallbackWritten(token) !in log[a + 1..]
  }

  lemma {:induction false} SpentStep(log: seq<Event>, event: Event, token: Token, from: nat)
    ensures event == Answered(token, true) && from <= |log| ==> SpentSince(log + [event], token, from)
    ensures event == CallbackWritten(token) ==> !SpentSince(log + [event], token, from)
    ensures event != CallbackWritten(token) && event != Answered(token, true)
            ==> (SpentSince(log + [event], token, from) <==> SpentSince(log, token, from))
  {
    var more := log + [event];
    if event == Answered(token, true) && from <= |log| {
      assert more[|log|] == Answered(token, true) && more[|log| + 1..] == [];
    } else if event == CallbackWritten(token) {
      forall a | from <= a < |more| && more[a] == Answered(token, true)
        ensures CallbackWritten(token) in more[a + 1..]
      {
        assert more[a + 1..][|log| - a - 1] == event;
      }
    } else if event != Answered(token, true) {
      SpentSame(log, event, token, from);
    }
  }

  lemma {:induction false} SpentSame(log: seq<Event>, event: Event, token: Token, from: nat)
    requires event != CallbackWritten(token) && event != Answered(token, true)
    ensures SpentSince(log + [event], token, from) <==> SpentSince(log, token, from)
  {
    var more := log + [event];
    if a :| from <= a < |log| && log[a] == Answered(token, true) && CallbackWritten(token) !in log[a + 1..] {
      assert more[a] == log[a] && more[a + 1..] == log[a + 1..] + [event];
    }
    if a :| from <= a < |log| && more[a] == Answered(token, true) && CallbackWritten(token) !in more[a + 1..] {
      assert more[a] == log[a] && more[a + 1..] == log[a + 1..] + [event];
    }
  }

  /** A hit that is stored has not been answered since it was written. */
  ghost predicate StoreUnspent(s: Service, token: Token) {
    token in s.store && s.store[token].hit ==> !Spent(s.log, token)
  }

  lemma {:induction false} StoreUnspentKept(s: Service, step: Step, t: Service, token: Token)
    requires StoreUnspent(s, token) && Next(s, step, t)
    ensures StoreUnspent(t, token)
  {
    if t.log != s.log {
      assert t.log == s.log + [t.log[|s.log|]];
      SpentStep(s.log, t.log[|s.log|], token, 0);
    }
  }

  lemma {:induction false} StoreUnspentHolds(states: seq<Service>, steps: seq<Step>, token: Token, i: nat)
    requires Run(states, steps) && i < |states|
    ensures StoreUnspent(states[i], token)
  {
    if i > 0 {
      StoreUnspentHolds(states, steps, token, i - 1);
      StoreUnspentKept(states[i - 1], steps[i - 1], states[i], token);
    }
  }

  /** The poll `id` began with step `i`, saw a hit, and has not answered before state `j`. */
  ghost predicate Began(states: seq<Service>, steps: seq<Step>, i: nat, j: nat, id: nat, token: Token) {
    && i < j < |states| && i < |steps| && steps[i] == BeginPoll(id, token)
    && Live(states[i], token) && states[i].store[token].hit
    && forall m | i < m <= j :: id in states[m].handlers && states[m].handlers[id] == HitSeen(token)
  }

  lemma {:induction false} PollBegan(states: seq<Service>, steps: seq<Step>, j: nat, id: nat, token: Token)
    returns (i: nat)
    requires Run(states, steps) && j < |states| && id in states[j].handlers && states[j].handlers[id] == HitSeen(token)
    ensures Began(states, steps, i, j, id, token)
  {
    assert j > 0;
    assert Next(states[j - 1], steps[j - 1], states[j]);
    if id in states[j - 1].handlers && states[j - 1].handlers[id] == HitSeen(token) {
      i := PollBegan(states, steps, j - 1, id, token);
    } else {
      i := j - 1;
    }
  }

  lemma {:induction false} LogsGrow(states: seq<Service>, steps: seq<Step>, i: nat, j: nat)
    requires Run(states, steps) && i <= j < |states|
    ensures states[i].log <= states[j].log
  {
    if i < j {
      LogsGrow(states, steps, i, j - 1);
      assert Next(states[j - 1], steps[j - 1], states[j]);
    }
  }

  lemma {:induction false} SpentEarlier(early: seq<Event>, late: seq<Event>, token: Token, a: nat)
    requires early <= late && a < |early|
    requires late[a] == Answered(token, true) && CallbackWritten(token) !in late[a + 1..]
    ensures Spent(early, token)
  {
    assert early[a] == late[a];
    assert early[a + 1..] <= late[a + 1..];
  }

  /** A poll answers what is already answered exactly if, after it began, another poll answered
      and deleted the key, and no callback has been written since. */
  lemma {:induction false} RepeatsExactly(states: seq<Service>, steps: seq<Step>, i: nat, j: nat, id: nat, token: Token)
    requires Run(states, steps) && Began(states, steps, i, j, id, token)
    ensures Spent(states[j].log, token) <==> SpentSince(states[j].log, token, |states[i].log|)
  {
    StoreUnspentHolds(states, steps, token, i);
    LogsGrow(states, steps, i, j);
    var (early, late) := (states[i].log, states[j].log);
    if a :| 0 <= a < |late| && late[a] == Answered(token, true) && CallbackWritten(token) !in late[a + 1..] {
      if a < |early| {
        SpentEarlier(early, late, token, a);
        assert false;
      }
    }
  }

  /** Between two answers of a hit a callback is written. */
  ghost predicate AnsweredOnce(log: seq<Event>, token: Token) {
    forall k | 0 <= k < |log| && log[k] == Answered(token, true) :: !Spent(log[..k], token)
  }

  /** A poll that answers after step `j`, and that another one overtook since it began. */
  ghost predicate Overtaken(states: seq<Service>, steps: seq<Step>, i: nat, j: nat, id: nat, token: Token) {
    && j < |steps| && steps[j] == FinishPoll(id) && Began(states, steps, i, j, id, token)
    && i < |states| && SpentSince(states[j].log, token, |states[i].log|)
  }

  lemma {:induction false} AnsweredOnceStep(log: seq<Event>, event: Event, token: Token)
    ensures AnsweredOnce(log + [event], token)
       <==> AnsweredOnce(log, token) && (event == Answered(token, true) ==> !Spent(log, token))
  {
    var more := log + [event];
    assert more[|log|] == event && more[..|log|] == log;
    forall k | 0 <= k < |log| ensures more[k] == log[k] && more[..k] == log[..k] {
    }
    if AnsweredOnce(more, token) {
      forall k | 0 <= k < |log| && log[k] == Answered(token, true) ensures !Spent(log[..k], token) {
        assert more[k] == log[k] && more[..k] == log[..k];
      }
    }
  }

  /** Over every run: each hit is answered at most once until the next callback is written, if and
      only if no poll is overtaken by another one. */
  lemma {:induction false} AnsweredOnceExactly(states: seq<Service>, steps: seq<Step>, token: Token, n: nat)
    requires Run(states, steps) && n < |states|
    ensures AnsweredOnce(states[n].log, token)
       <==> forall i: nat, j: nat, id: nat | j < n :: !Overtaken(states, steps, i, j, id, token)
  {
    if n > 0 {
      AnsweredOnceExactly(states, steps, token, n - 1);
      LastStep(states, steps, token, n - 1);
    }
  }

  /** The step `j` adds an answer that repeats another exactly if its poll was overtaken. */
  lemma {:induction false} LastStep(states: seq<Service>, steps: seq<Step>, token: Token, j: nat)
    requires Run(states, steps) && j < |steps|
    ensures AnsweredOnce(states[j + 1].log, token)
       <==> AnsweredOnce(states[j].log, token) && forall i: nat, id: nat :: !Overtaken(states, steps, i, j, id, token)
  {
    var (s, t) := (states[j], states[j + 1]);
    assert Next(s, steps[j], t);
    if t.log != s.log {
      AnsweredOnceStep(s.log, t.log[|s.log|], token);
      assert t.log == s.log + [t.log[|s.log|]];
    }
    if steps[j].FinishPoll? && s.handlers[steps[j].id].token == token {
      var i := PollBegan(states, steps, j, steps[j].id, token);
      RepeatsExactly(states, steps, i, j, steps[j].id, token);
      assert Overtaken(states, steps, i, j, steps[j].id, token) <==> Spent(s.log, token);
      forall other: nat, id: nat | Overtaken(states, steps, other, j, id, token) ensures Spent(s.log, token) {
        RepeatsExactly(states, steps, other, j, id, token);
      }
    } else {
      assert forall i: nat, id: nat :: !Overtaken(states, steps, i, j, id, token);
    }
  }

  // ---------- what the collector does not miss ----------

  /** The tokens the scanner draws, 24 random bytes in URL-safe base 64, are tokens of the collector. */
  lemma {:induction false} DrawnTokensValid(token: Token)
    requires |token| == 32
    requires forall c | c in token ::
      'A' <= c <= 'Z' || 'a' <= c <= 'z' || '0' <= c <= '9' || c == '-' || c == '_'
    ensures ValidToken(token)
  {
    forall i | 0 <= i < |token| ensures TokenCharacter(token[i]) {
      assert token[i] in token;
    }
  }

  /** The token is stored until 600 seconds after `since` at least. */
  predicate Stored(s: Service, token: Token, since: real) {
    s.now >= since && token in s.store && s.store[token].expires >= since + 600.0
  }

  lemma {:induction false} StoredStep(s: Service, step: Step, t: Service, token: Token, since: real)
    requires Next(s, step, t) && Stored(s, token, since) && !Answers(s, step, token)
    ensures Stored(t, token, since)
    ensures s.store[token].hit && step != Register(token) ==> t.store[token].hit
  {
  }

  /** Nothing deletes the token's key in steps `i` to `j`, and nothing registers it anew. */
  ghost predicate LeftAlone(states: seq<Service>, steps: seq<Step>, i: nat, j: nat, token: Token)
    requires |states| > |steps|
  {
    forall k | i <= k < j && k < |steps| :: !Answers(states[k], steps[k], token) && steps[k] != Register(token)
  }

  lemma {:induction false} StaysStored(states: seq<Service>, steps: seq<Step>, i: nat, j: nat, token: Token,
        since: real)
    requires Run(states, steps) && i <= j < |states| && LeftAlone(states, steps, i, j, token)
    requires Stored(states[i], token, since)
    ensures Stored(states[j], token, since) && (states[i].store[token].hit ==> states[j].store[token].hit)
    decreases j
  {
    if i < j {
      StaysStored(states, steps, i, j - 1, token, since);
      StoredStep(states[j - 1], steps[j - 1], states[j], token, since);
    }
  }

  /** A callback that begins within 600 seconds of the token's registration sees the key. */
  lemma {:induction false} RegisteredIsSeen(states: seq<Service>, steps: seq<Step>, i: nat, j: nat, id: nat,
        token: Token)
    requires Run(states, steps) && i < j < |steps| && steps[i] == Register(token)
      && steps[j] == BeginCallback(id, token)
    requires LeftAlone(states, steps, i + 1, j, token) && states[j].now < states[i].now + 600.0
    ensures id in states[j + 1].handlers && states[j + 1].handlers[id] == KeySeen(token)
  {
    assert Next(states[i], steps[i], states[i + 1]);
    StaysStored(states, steps, i + 1, j, token, states[i].now);
    assert Next(states[j], steps[j], states[j + 1]);
  }

  /** A poll that begins within 600 seconds of a written callback sees the hit, unless another poll has
      answered it or the token was registered anew in between; and then it answers hit. */
  lemma {:induction false} CallbackIsSeen(states: seq<Service>, steps: seq<Step>, i: nat, j: nat, id: nat, token: Token)
    requires Run(states, steps) && i < j < |steps| && Writes(states[i], steps[i], token)
    requires steps[j] == BeginPoll(id, token)
    requires LeftAlone(states, steps, i + 1, j, token) && states[j].now < states[i].now + 600.0
    ensures id in states[j + 1].handlers && states[j + 1].handlers[id] == HitSeen(token)
  {
    assert Next(states[i], steps[i], states[i + 1]);
    StaysStored(states, steps, i + 1, j, token, states[i].now);
    assert Next(states[j], steps[j], states[j + 1]);
  }

  /** What a poll answers: hit if it saw one, and at once no hit otherwise. */
  lemma {:induction false} PollAnswers(s: Service, id: nat, token: Token, t: Service)
    ensures Next(s, BeginPoll(id, token), t) ==>
      if token in s.store && s.now < s.store[token].expires && s.store[token].hit
      then t.log == s.log && id in t.handlers && t.handlers[id] == HitSeen(token)
      else t.log == s.log + [Answered(token, false)]
    ensures id in s.handlers && s.handlers[id] == HitSeen(token) && Next(s, FinishPoll(id), t) ==>
      t.log == s.log + [Answered(token, true)]
  {
  }
}
