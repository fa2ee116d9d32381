/** The custom engine's side of the callback protocol: one fresh token per URL-like point,
    registered, sent as the payload and polled, while anyone may act on the collector. */
module SsrfProbes {
  import opened JsonValues
  import opened Oast

  lemma {:induction false} RunExtends(states: seq<Service>, steps: seq<Step>, step: Step, t: Service)
    requires Run(states, steps) && Next(states[|states| - 1], step, t)
    ensures Run(states + [t], steps + [step])
  {
    forall i | 0 <= i < |steps| + 1 ensures Next((states + [t])[i], (steps + [step])[i], (states + [t])[i + 1]) {
      if i < |steps| {
        assert Next(states[i], steps[i], states[i + 1]);
      }
    }
  }

  lemma {:induction false} LogExtends(s: Service, step: Step, t: Service)
    requires Next(s, step, t)
    ensures s.log <= t.log
  {
  }

  /** A later log still knows what an earlier one did. */
  lemma {:induction false} CalledBackLater(log: seq<Event>, later: seq<Event>, token: Token)
    requires CalledBack(log, token) && log <= later
    ensures CalledBack(later, token)
  {
    var i, j :| 0 <= i < j < |log| && log[i] == Registered(token) && log[j] == CallbackBegan(token);
    assert later[i] == Registered(token) && later[j] == CallbackBegan(token);
  }

  lemma {:induction false} KnownLater(log: seq<Event>, later: seq<Event>, token: Token)
    requires Known(log, token) && log <= later
    ensures Known(later, token)
  {
    var i :| 0 <= i < |log| && log[i] == Registered(token);
    assert later[i] == Registered(token);
  }

  /** Nothing about the token has happened yet. */
  predicate Fresh(log: seq<Event>, token: Token) {
    forall i | 0 <= i < |log| :: log[i].token != token
  }

  /** The token's registration and callback both lie after the first `from` events. */
  ghost predicate CalledBackSince(log: seq<Event>, token: Token, from: nat) {
    exists i, j :: from <= i < j < |log| && log[i] == Registered(token) && log[j] == CallbackBegan(token)
  }

  lemma {:induction false} FreshCalledBack(log: seq<Event>, later: seq<Event>, token: Token)
    requires Fresh(log, token) && log <= later && CalledBack(later, token)
    ensures CalledBackSince(later, token, |log|)
  {
    var i, j :| 0 <= i < j < |later| && later[i] == Registered(token) && later[j] == CallbackBegan(token);
    assert forall k | 0 <= k < |log| :: later[k].token != token;
  }

  lemma {:induction false} CalledBackSinceLater(log: seq<Event>, later: seq<Event>, token: Token, from: nat)
    requires CalledBackSince(log, token, from) && log <= later
    ensures CalledBackSince(later, token, from)
  {
    var i, j :| from <= i < j < |log| && log[i] == Registered(token) && log[j] == CallbackBegan(token);
    assert later[i] == Registered(token) && later[j] == CallbackBegan(token);
  }

  /** When a point's token was drawn: the events before it, and whether it was new to them. */
  datatype Draw = Draw(since: nat, unseen: bool)

  /** The point's own token was called back; when it was new, after it was drawn for this point. */
  ghost predicate Confirmed(log: seq<Event>, token: Token, draw: Draw) {
    CalledBack(log, token) && (draw.unseen ==> CalledBackSince(log, token, draw.since))
  }

  lemma {:induction false} ConfirmedLater(log: seq<Event>, later: seq<Event>, token: Token, draw: Draw)
    requires Confirmed(log, token, draw) && log <= later
    ensures Confirmed(later, token, draw)
  {
    CalledBackLater(log, later, token);
    if draw.unseen {
      CalledBackSinceLater(log, later, token, draw.since);
    }
  }

  /** The findings are those of some points, in order, each confirmed by its own token. */
  ghost predicate Sound(findings: seq<nat>, tokens: seq<Token>, draws: seq<Draw>, log: seq<Event>) {
    && |draws| <= |tokens|
    && (forall k | 0 <= k < |findings| ::
       findings[k] < |draws| && Confirmed(log, tokens[findings[k]], draws[findings[k]]))
    && (forall k, m | 0 <= k < m < |findings| :: findings[k] < findings[m])
  }

  lemma {:induction false} SoundLater(findings: seq<nat>, tokens: seq<Token>, draws: seq<Draw>, log: seq<Event>,
        draw: Draw, later: seq<Event>)
    requires Sound(findings, tokens, draws, log) && log <= later && |draws| < |tokens|
    ensures Sound(findings, tokens, draws + [draw], later)
  {
    forall k | 0 <= k < |findings| ensures Confirmed(later, tokens[findings[k]], draws[findings[k]]) {
      ConfirmedLater(log, later, tokens[findings[k]], draws[findings[k]]);
    }
  }

  lemma {:induction false} SoundMore(findings: seq<nat>, tokens: seq<Token>, draws: seq<Draw>, log: seq<Event>)
    requires Sound(findings, tokens, draws, log) && draws != [] && |draws| <= |tokens|
    requires forall k | 0 <= k < |findings| :: findings[k] < |draws| - 1
    requires Confirmed(log, tokens[|draws| - 1], draws[|draws| - 1])
    ensures Sound(findings + [|draws| - 1], tokens, draws, log)
  {
  }

  /** At some moment since the given state the collector had no hit to show for the token. */
  ghost predicate NothingShown(states: seq<Service>, token: Token, from: nat) {
    exists k :: from <= k < |states|
      && !(token in states[k].store && states[k].now < states[k].store[token].expires && states[k].store[token].hit)
  }

  lemma {:induction false} NothingShownLater(states: seq<Service>, later: seq<Service>, token: Token, from: nat)
    requires NothingShown(states, token, from) && states <= later
    ensures NothingShown(later, token, from)
  {
    var k :| from <= k < |states|
      && !(token in states[k].store && states[k].now < states[k].store[token].expires && states[k].store[token].hit);
    assert later[k] == states[k];
  }

  /** Every point that is no finding was registered before its payload was sent, at the given states, and
      was not called back for all the collector showed after that. */
  ghost predicate Missed(findings: seq<nat>, tokens: seq<Token>, sends: seq<nat>, states: seq<Service>) {
    && |sends| <= |tokens|
    && forall i | 0 <= i < |sends| && i !in findings ::
         && sends[i] < |states| && Known(states[sends[i]].log, tokens[i])
         && NothingShown(states, tokens[i], sends[i])
  }

  lemma {:induction false} MissedMore(findings: seq<nat>, tokens: seq<Token>, sends: seq<nat>, states: seq<Service>,
        later: seq<Service>, sent: nat, more: seq<nat>)
    requires Missed(findings, tokens, sends, states) && states <= later && |sends| < |tokens|
    requires forall i | i in findings :: i in more
    requires |sends| !in more ==>
      && sent < |later| && Known(later[sent].log, tokens[|sends|]) && NothingShown(later, tokens[|sends|], sent)
    ensures Missed(more, tokens, sends + [sent], later)
  {
    forall i | 0 <= i < |sends| && i !in more
      ensures sends[i] < |later| && Known(later[sends[i]].log, tokens[i]) && NothingShown(later, tokens[i], sends[i])
    {
      NothingShownLater(states, later, tokens[i], sends[i]);
      assert later[sends[i]] == states[sends[i]];
    }
  }

  class Prober {
    var s: Service
    ghost var states: seq<Service>
    ghost var steps: seq<Step>

    ghost predicate Valid()
      reads this
    {
      Run(states, steps) && s == states[|states| - 1]
    }

    constructor (now: real)
      ensures Valid() && s.log == []
    {
      s := Service(map[], now, map[], []);
      states, steps := [Service(map[], now, map[], [])], [];
    }

    method Perform(step: Step, t: Service)
      requires Valid() && Next(s, step, t)
      modifies this
      ensures Valid() && s == t && old(s.log) <= s.log && states == old(states) + [t]
    {
      RunExtends(states, steps, step, t);
      LogExtends(s, step, t);
      s, states, steps := t, states + [t], steps + [step];
    }

    /** Callbacks, other clients and the clock. */
    method Environment()
      requires Valid()
      modifies this
      ensures Valid() && old(s.log) <= s.log && old(states) <= states
    {
      var more: nat := *;
      while more > 0
        invariant Valid() && old(s.log) <= s.log && old(states) <= states
      {
        more := more - 1;
        var step: Step := *;
        Attempt(step);
      }
    }

    /** Takes a step of anyone's, if it is possible. */
    method Attempt(step: Step)
      requires Valid()
      modifies this
      ensures Valid() && old(s.log) <= s.log && old(states) <= states
      ensures step.Register? && ValidToken(step.token) ==> Known(s.log, step.token)
    {
      match step {
        case Tick(reading) =>
          if reading >= s.now {
            Perform(step, s.(now := reading));
          }
        case Register(token) =>
          if ValidToken(token) {
            Perform(step, s.(store := s.store[token := Entry(false, s.now + LIFETIME)],
                log := s.log + [Registered(token)]));
            assert s.log[|s.log| - 1] == Registered(token);
          }
        case BeginCallback(id, token) =>
          if ValidToken(token) && id !in s.handlers {
            Perform(step, s.(log := s.log + [CallbackBegan(token)],
                             handlers := if Live(s, token) then s.handlers[id := KeySeen(token)] else s.handlers));
          }
        case FinishCallback(id) =>
          if id in s.handlers && s.handlers[id].KeySeen? {
            var token := s.handlers[id].token;
            Perform(step, s.(store := s.store[token := Entry(true, s.now + LIFETIME)], handlers := s.handlers - {id},
                             log := s.log + [CallbackWritten(token)]));
          }
        case BeginPoll(id, token) =>
          if ValidToken(token) && id !in s.handlers {
            Perform(step, if Live(s, token) && s.store[token].hit then s.(handlers := s.handlers[id := HitSeen(token)])
                          else s.(log := s.log + [Answered(token, false)]));
          }
        case FinishPoll(id) =>
          if id in s.handlers && s.handlers[id].HitSeen? {
            var token := s.handlers[id].token;
            Perform(step, s.(store := s.store - {token}, handlers := s.handlers - {id},
                log := s.log + [Answered(token, true)]));
          }
      }
    }

    /** One poll of the collector. */
    method Poll(token: Token) returns (hit: bool)
      requires Valid() && ValidToken(token)
      modifies this
      ensures Valid() && old(s.log) <= s.log && old(states) <= states && (hit ==> CalledBack(s.log, token))
      ensures !hit ==> NothingShown(states, token, |old(states)| - 1)
    {
      Environment();
      var id: nat := FreeId();
      InvHolds(states, steps, |steps|);
      hit := Live(s, token) && s.store[token].hit;
      Attempt(BeginPoll(id, token));
      if hit {
        Finish(id, token);
      }
    }

    /** The answer of a poll that saw a hit; by then another poll may have taken its place. */
    method Finish(id: nat, token: Token)
      requires Valid() && exists log :: log <= s.log && CalledBack(log, token)
      modifies this
      ensures Valid() && old(s.log) <= s.log && old(states) <= states && CalledBack(s.log, token)
    {
      ghost var log :| log <= s.log && CalledBack(log, token);
      Environment();
      Attempt(FinishPoll(id));
      CalledBackLater(log, s.log, token);
    }

    method FreeId() returns (id: nat)
      ensures id !in s.handlers
    {
      id := 0;
      var seen := s.handlers.Keys;
      while id in s.handlers
        invariant forall other | other in s.handlers && other < id :: other !in seen
        invariant seen <= s.handlers.Keys && forall other | other in s.handlers && other >= id :: other in seen
        decreases |seen|
      {
        seen := seen - {id};
        id := id + 1;
      }
    }

    /** `_oast_hit`: up to three polls; None when the collector cannot be queried. */
    method OastHit(token: Token) returns (hit: Option<bool>, ghost polls: nat)
      requires Valid() && ValidToken(token)
      modifies this
      ensures Valid() && old(s.log) <= s.log && old(states) <= states
        && (hit == Some(true) ==> CalledBack(s.log, token))
      ensures hit == Some(false) ==> NothingShown(states, token, |old(states)| - 1)
      ensures polls <= 3 && (hit == Some(false) ==> polls == 3) && (hit == Some(true) ==> polls > 0)
    {
      polls := 0;
      for attempt := 0 to 3
        invariant Valid() && old(s.log) <= s.log && old(states) <= states && polls == attempt
        invariant attempt > 0 ==> NothingShown(states, token, |old(states)| - 1)
      {
        if * {
          return None, polls;
        }
        var seen := Poll(token);
        polls := polls + 1;
        if * {
          return None, polls;
        }
        if seen {
          return Some(true), polls;
        }
        ghost var before := states;
        Environment();
        NothingShownLater(before, states, token, |old(states)| - 1);
      }
      hit := Some(false);
    }

    /** `_register_oast`: may fail before or after the collector has the token. */
    method RegisterToken(token: Token) returns (registered: bool)
      requires Valid() && ValidToken(token)
      modifies this
      ensures Valid() && old(s.log) <= s.log && old(states) <= states
      ensures registered ==> Known(s.log, token)
    {
      Environment();
      if * {
        return false;
      }
      Attempt(Register(token));
      registered := *;
    }

    /** One point: its token is registered, the request carrying it is sent, and it is polled.
        None when the collector failed. */
    method ProbePoint(token: Token) returns (hit: Option<bool>, sent: bool, raised: bool, ghost at: nat)
      requires Valid() && ValidToken(token)
      modifies this
      ensures Valid() && old(s.log) <= s.log && old(states) <= states
        && (hit == Some(true) ==> CalledBack(s.log, token))
      ensures hit.Some? ==> sent && !raised
      ensures hit == Some(false) ==>
        |old(states)| - 1 <= at < |states| && Known(states[at].log, token) && NothingShown(states, token, at)
    {
      hit, sent, raised, at := None, false, false, 0;
      var registered := RegisterToken(token);
      if registered {
        ghost var known := s.log;
        Environment();
        KnownLater(known, s.log, token);
        at := |states| - 1;
        if * {
          raised := true;
          return;
        }
        sent := true;
        ghost var polls;
        hit, polls := OastHit(token);
      }
    }

    /** The `ssrf` check over the URL-like points, with the tokens drawn for them. */
    method ProbePoints(configured: bool, tokens: seq<Token>)
      returns (findings: seq<nat>, ghost draws: seq<Draw>, ghost sends: seq<nat>, requests: nat, collectorError: bool,
          raised: bool)
      requires Valid() && forall i | 0 <= i < |tokens| :: ValidToken(tokens[i])
      modifies this
      ensures Valid() && old(s.log) <= s.log
      ensures Sound(findings, tokens, draws, s.log) && |findings| <= requests <= |draws|
      ensures !raised ==> |draws| == if configured then |tokens| else 0
      ensures !collectorError && !raised ==> requests == |draws|
      ensures !collectorError && !raised ==> |sends| == |draws| && Missed(findings, tokens, sends, states)
    {
      sends := [];
      findings, draws, requests, collectorError, raised := [], [], 0, false, false;
      if !configured {
        return;
      }
      for i := 0 to |tokens|
        invariant Valid() && old(s.log) <= s.log && |draws| == i && !raised
        invariant Sound(findings, tokens, draws, s.log) && |findings| <= requests <= i
        invariant !collectorError ==> requests == i && |sends| == i && Missed(findings, tokens, sends, states)
        invariant forall k | 0 <= k < |findings| :: findings[k] < i
      {
        ghost var (earlier, found) := (states, findings);
        ghost var before := s.log;
        ghost var draw := Draw(|before|, Fresh(before, tokens[i]));
        var hit, sent, threw;
        ghost var at;
        hit, sent, threw, at := ProbePoint(tokens[i]);
        SoundLater(findings, tokens, draws, before, draw, s.log);
        draws := draws + [draw];
        if threw {
          raised := true;
          return;
        }
        requests := if sent then requests + 1 else requests;
        collectorError := collectorError || hit.None?;
        if hit == Some(true) {
          if draw.unseen {
            FreshCalledBack(before, s.log, tokens[i]);
          }
          SoundMore(findings, tokens, draws, s.log);
          findings := findings + [i];
        }
        if !collectorError {
          match hit {
            case Some(seen) =>
              assert hit == Some(seen) && (seen ==> findings[|found|] == i);
          }
          MissedMore(found, tokens, sends, earlier, states, at, findings);
          sends := sends + [at];
        }
      }
    }
  }
}
