/** The custom engine's check matrix: which rows one endpoint, and the authorization pass, produce. */
module CheckMatrix {
  import opened JsonValues
  import opened MutationPoints
  import opened Budgets

  datatype CheckStatus = TESTED | DETECTED | SKIPPED | ERROR | NOT_APPLICABLE

  datatype CheckName =
    | InsecureTransport | Baseline
    | SecurityHeaders | ExcessiveDataExposure | CorsMisconfiguration | MissingAuthentication
    | SqlInjection | NosqlInjection | PathTraversal | ReflectedXss | OpenRedirect | CommandInjection | Ssrf
    | Bola | Bfla

  datatype Check = Check(endpointId: string, name: CheckName, status: CheckStatus, requests: nat,
      reason: Option<Reason>)

  /** Exceptions by how the engine treats them: the first three kinds are caught around each probe. */
  datatype Exception = HttpError(detail: string) | ValueError(detail: string) | RuntimeError(detail: string) | Other

  function TypeName(e: Exception): string {
    match e
    case HttpError(_) => "HTTPError"
    case ValueError(_) => "ValueError"
    case RuntimeError(_) => "RuntimeError"
    case Other => "Exception"
  }

  /** A sent probe answers or raises. */
  datatype Outcome = Response | Raised(error: Exception)

  datatype Profile = QUICK | SAFE | STANDARD | DEEP | AGGRESSIVE

  function ProfileName(profile: Profile): string {
    match profile
    case QUICK => "QUICK"
    case SAFE => "SAFE"
    case STANDARD => "STANDARD"
    case DEEP => "DEEP"
    case AGGRESSIVE => "AGGRESSIVE"
  }

  predicate IsActive(profile: Profile) {
    profile.STANDARD? || profile.DEEP? || profile.AGGRESSIVE?
  }

  function PointLimit(profile: Profile): nat {
    match profile
    case STANDARD => 10
    case DEEP => 25
    case AGGRESSIVE => 50
    case _ => 0
  }

  function LimitedPoints(points: seq<MutationPoint>, profile: Profile): seq<MutationPoint> {
    if |points| <= PointLimit(profile) then points else points[..PointLimit(profile)]
  }

  /** The thirteen checks of an endpoint, in the order of its rows. */
  const ENDPOINT_CHECKS: seq<CheckName> := PASSIVE_CHECKS + ACTIVE_CHECKS

  const PASSIVE_CHECKS: seq<CheckName> := [
    InsecureTransport, Baseline, SecurityHeaders, ExcessiveDataExposure, CorsMisconfiguration, MissingAuthentication]

  const ACTIVE_CHECKS: seq<CheckName> := [
    SqlInjection, NosqlInjection, PathTraversal, ReflectedXss, OpenRedirect, CommandInjection, Ssrf]

  // ---------- reasons ----------

  /** Why a check was not attempted. */
  datatype Reason =
    | BaselineFailed(error: Exception)
    | BaselineNotCompleted
    | NotApplicable(check: CheckName)
    | NotProtected
    | ProfileInactive(profile: Profile)
    | ProbeFailed(check: CheckName, error: Exception)
    | CallbackNotConfigured
    | CollectorUnavailable
    | IdentitiesRequired
    | AdministratorRequired

  const BASELINE_FAILED: string := "baseline request failed"

  function RequestFailure(prefix: string, e: Exception): string {
    var detail := if e.Other? then "" else e.detail;
    prefix + ": " + TypeName(e) + (if detail == "" then "" else ": " + detail)
  }

  /** The reason as it is reported. */
  function ReasonText(reason: Reason): string {
    match reason
    case BaselineFailed(error) => RequestFailure(BASELINE_FAILED, error)
    case BaselineNotCompleted => "custom baseline " + "request was not completed"
    case NotApplicable(check) =>
      (match check
       case MissingAuthentication => "operation is not " + "documented as requiring authentication"
       case SqlInjection => "no scalar " + "input was documented"
       case NosqlInjection => "no query or body " + "scalar input was documented"
       case PathTraversal => "no file or path-like " + "input was documented"
       case ReflectedXss => "no scalar " + "input was documented"
       case OpenRedirect => "no redirect or " + "URL-like input was documented"
       case CommandInjection => "no command-like " + "input was documented"
       case Ssrf => "no URL-like " + "input was documented"
       case Bola => "a GET operation " + "with an object path parameter is required"
       case Bfla => "operation is not " + "identified as administrative"
       case _ => "check is limited " + "to retrieval operations")
    case NotProtected => "operation is not " + "documented as requiring authorization"
    case ProfileInactive(profile) => ProfileName(profile) + " profile does not execute active input mutation"
    case ProbeFailed(check, error) =>
      (match check
       case MissingAuthentication => "unauthenticated probe " + "failed: "
       case CorsMisconfiguration => "CORS probe " + "failed: "
       case Bola => "authorization comparison " + "failed: "
       case Bfla => "role comparison " + "failed: "
       case _ => "active testing " + "stopped: ") + TypeName(error)
    case CallbackNotConfigured => "out-of-band callback " + "service is not configured"
    case CollectorUnavailable => "out-of-band callback " + "collector could not be queried"
    case IdentitiesRequired => "two identities with " + "distinct resource identifiers are required"
    case AdministratorRequired => "administrator and " + "regular-user identities are required"
  }

  lemma {:induction false} NotApplicableText(check: CheckName)
    ensures ReasonText(NotApplicable(check)) != "" && ReasonText(NotApplicable(check))[0] != 'b'
  {
  }

  lemma {:induction false} ProbeFailedText(check: CheckName, error: Exception)
    ensures ReasonText(ProbeFailed(check, error)) != "" && ReasonText(ProbeFailed(check, error))[0] != 'b'
  {
  }

  /** Testing the reported text for the prefix `baseline request failed` singles out exactly
      the failed baselines. */
  lemma {:induction false} PrefixSinglesOutBaseline(reason: Reason)
    ensures BASELINE_FAILED <= ReasonText(reason) <==> reason.BaselineFailed?
    ensures ReasonText(reason) != ""
  {
    assert BASELINE_FAILED[0] == 'b';
    match reason
    case BaselineFailed(_) =>
    case NotApplicable(check) => NotApplicableText(check);
    case ProbeFailed(check, error) => ProbeFailedText(check, error);
    case _ => assert ReasonText(reason)[0] != 'b';
  }

  /** The text of a failed baseline ends with the exception's detail. */
  lemma {:induction false} BaselineFailureText(error: Exception)
    requires !error.Other?
    ensures var text := ReasonText(BaselineFailed(error));
            |text| > |BASELINE_FAILED| + |error.detail| && text[|text| - |error.detail|..] == error.detail
  {
  }

  /** A check that the profile leaves out is reported with that profile. */
  lemma {:induction false} ProfileText(profile: Profile)
    ensures (match profile
             case QUICK => "QUICK"
             case SAFE => "SAFE"
             case STANDARD => "STANDARD"
             case DEEP => "DEEP"
             case AGGRESSIVE => "AGGRESSIVE") <= ReasonText(ProfileInactive(profile))
  {
  }

  // ---------- candidates ----------

  datatype Hint = PathHint | UrlHint | CommandHint

  /** Whether a hint pattern matches a point's name or the endpoint's path. */
  type Matcher = (Hint, MutationPoint) -> bool

  /** What becomes of the callback token of one point. */
  datatype Callback = NotRegistered | NotAnswered | NoHit | Hit

  /** The engine's settings, and what the detectors will say in one run: whether the answer to a payload
      (by task, check, position of the point and of the payload) is evidence, what becomes of a
      callback, what a passive check observes, and whether a comparison of identities succeeds. */
  datatype Engine = Engine(
    profile: Profile, oastConfigured: bool, matches: Matcher,
    evidence: (Task, CheckName, nat, nat) -> bool, callback: (Task, nat) -> Callback,
    observes: (Task, CheckName) -> bool, exposes: (nat, CheckName) -> bool)

  /** The point is one the check is about. */
  predicate Applies(check: CheckName, point: MutationPoint, matches: Matcher) {
    match check
    case SqlInjection => true
    case ReflectedXss => true
    case NosqlInjection => point.location.InQuery? || point.location.InBody?
    case PathTraversal => matches(PathHint, point)
    case OpenRedirect => matches(UrlHint, point)
    case Ssrf => matches(UrlHint, point)
    case CommandInjection => matches(CommandHint, point)
    case _ => true
  }

  ghost predicate SomePoint(check: CheckName, points: seq<MutationPoint>, matches: Matcher) {
    exists p :: p in points && Applies(check, p, matches)
  }

  function Filter(points: seq<MutationPoint>, keep: MutationPoint -> bool): seq<MutationPoint> {
    if points == [] then []
    else if keep(points[0]) then [points[0]] + Filter(points[1..], keep)
    else Filter(points[1..], keep)
  }

  function ScalarPoints(eligible: seq<MutationPoint>): seq<MutationPoint> {
    Filter(eligible, (p: MutationPoint) => p.schemaType !in {"boolean", "object", "array"})
  }

  /** The points an active check applies to, out of `points`. */
  function ActivePoints(check: CheckName, points: seq<MutationPoint>, matches: Matcher): seq<MutationPoint> {
    match check
    case NosqlInjection => Filter(points, (p: MutationPoint) => p.location.InQuery? || p.location.InBody?)
    case PathTraversal => Filter(points, (p: MutationPoint) => matches(PathHint, p))
    case OpenRedirect => Filter(points, (p: MutationPoint) => matches(UrlHint, p))
    case CommandInjection => Filter(points, (p: MutationPoint) => matches(CommandHint, p))
    case Ssrf => Filter(points, (p: MutationPoint) => matches(UrlHint, p))
    case _ => points
  }

  lemma {:induction false} FilterAppend(points: seq<MutationPoint>, more: seq<MutationPoint>,
        keep: MutationPoint -> bool)
    ensures Filter(points + more, keep) == Filter(points, keep) + Filter(more, keep)
  {
    if points == [] {
      assert points + more == more;
    } else {
      assert (points + more)[1..] == points[1..] + more;
      FilterAppend(points[1..], more, keep);
    }
  }

  lemma {:induction false} FilterMembers(points: seq<MutationPoint>, keep: MutationPoint -> bool)
    ensures forall p :: p in Filter(points, keep) <==> p in points && keep(p)
  {
    if points != [] {
      FilterMembers(points[1..], keep);
    }
  }

  /** Mutation skips booleans, objects and arrays, and keeps the other points in order. */
  lemma {:induction false} ScalarPointsExactly(points: seq<MutationPoint>, last: MutationPoint)
    ensures ScalarPoints([]) == []
    ensures ScalarPoints(points + [last])
         == ScalarPoints(points)
            + (if last.schemaType == "boolean" || last.schemaType == "object" || last.schemaType == "array"
               then [] else [last])
  {
    FilterAppend(points, [last], (p: MutationPoint) => p.schemaType !in {"boolean", "object", "array"});
    assert [last][1..] == [];
  }

  /** STANDARD mutates the first ten points, DEEP 25 and AGGRESSIVE 50; the other profiles none. */
  lemma {:induction false} LimitedPointsExactly(points: seq<MutationPoint>, profile: Profile)
    ensures LimitedPoints(points, profile) <= points
    ensures |LimitedPoints(points, profile)| == Least(|points|, match profile
                                                              case STANDARD => 10
                                                              case DEEP => 25
                                                              case AGGRESSIVE => 50
                                                              case _ => 0)
  {
  }

  function Least(a: nat, b: nat): nat {
    if a < b then a else b
  }

  /** The candidates of a check are the points it is about. */
  lemma {:induction false} ActivePointsExactly(check: CheckName, points: seq<MutationPoint>, matches: Matcher)
    ensures forall p :: p in ActivePoints(check, points, matches) <==> p in points && Applies(check, p, matches)
    ensures ActivePoints(check, points, matches) != [] <==> SomePoint(check, points, matches)
  {
    var chosen := ActivePoints(check, points, matches);
    match check {
      case NosqlInjection => FilterMembers(points, (p: MutationPoint) => p.location.InQuery? || p.location.InBody?);
      case PathTraversal => FilterMembers(points, (p: MutationPoint) => matches(PathHint, p));
      case OpenRedirect => FilterMembers(points, (p: MutationPoint) => matches(UrlHint, p));
      case CommandInjection => FilterMembers(points, (p: MutationPoint) => matches(CommandHint, p));
      case Ssrf => FilterMembers(points, (p: MutationPoint) => matches(UrlHint, p));
      case _ =>
    }
    if chosen != [] {
      assert chosen[0] in chosen;
    }
  }

  // ---------- what every produced row satisfies ----------

  predicate Blocked(status: CheckStatus) {
    status.SKIPPED? || status.ERROR?
  }

  /** A blocked row says why. */
  predicate Explained(check: Check) {
    Blocked(check.status) ==> check.reason.Some?
  }

  predicate BlamesBaseline(check: Check) {
    check.reason.Some? && check.reason.value.BaselineFailed?
  }

  /** The rows of one endpoint: each check exactly once; blocked rows are explained; rows blame
      the baseline only if the baseline row is an error that does so too. */
  predicate EndpointRows(rows: seq<Check>, endpointId: string) {
    && |rows| == |ENDPOINT_CHECKS|
    && (forall i | 0 <= i < |rows| ::
          rows[i].name == ENDPOINT_CHECKS[i] && rows[i].endpointId == endpointId && Explained(rows[i]))
    && (rows[1].status.TESTED? || (rows[1].status.ERROR? && BlamesBaseline(rows[1])))
    && (rows[1].status.TESTED? ==> forall i | 0 <= i < |rows| :: !BlamesBaseline(rows[i]))
  }

  function TotalRequests(rows: seq<Check>): nat {
    if rows == [] then 0 else TotalRequests(rows[..|rows| - 1]) + rows[|rows| - 1].requests
  }

  lemma {:induction false} TotalAppend(rows: seq<Check>, more: seq<Check>)
    ensures TotalRequests(rows + more) == TotalRequests(rows) + TotalRequests(more)
    decreases |more|
  {
    if more == [] {
      assert rows + more == rows;
    } else {
      assert (rows + more)[..|rows + more| - 1] == rows + more[..|more| - 1];
      TotalAppend(rows, more[..|more| - 1]);
    }
  }

  /** Explained rows for the first checks of `names`, in order. */
  predicate Rows(rows: seq<Check>, endpointId: string, names: seq<CheckName>) {
    && |rows| <= |names|
    && forall i | 0 <= i < |rows| :: rows[i].name == names[i] && rows[i].endpointId == endpointId && Explained(rows[i])
  }

  lemma {:induction false} OneMoreTotal(rows: seq<Check>, row: Check)
    ensures TotalRequests(rows + [row]) == TotalRequests(rows) + row.requests
  {
    assert (rows + [row])[..|rows|] == rows;
  }

  // ---------- probing ----------

  /** One probe: a grant from the budget, then the exchange. It answers or raises; an exhausted
      budget raises as well. */
  method Send(budget: RequestBudget, task: Task) returns (outcome: Outcome)
    requires budget.Valid()
    modifies budget
    ensures budget.Valid() && budget.Proceeds(task) && (outcome.Response? <==> budget.Quiet(task))
    ensures outcome.Response? ==> Mine(budget.log, task) == Mine(old(budget.log), task) + 1
  {
    budget.Interference(task);
    label Contended:
    var before: real := *;
    var late: real := *;
    var after := before + budget.Delay(before) + (if late > 0.0 then late else 0.0);
    MineOneMore(budget.log, task, task);
    var granted := budget.Take(task, before, after);
    outcome := *;
    if !granted {
      outcome := Raised(RuntimeError("scan request budget exhausted"));
    }
    match outcome {
      case Response =>
      case Raised(_) =>
        MineOneMore(budget.raises, task, task);
        budget.Note(task);
    }
  }

  /** Rows for the first checks of `names`, none blaming the baseline, reporting `total` requests. */
  predicate Produced(rows: seq<Check>, endpointId: string, names: seq<CheckName>, total: nat) {
    && Rows(rows, endpointId, names)
    && (forall i | 0 <= i < |rows| :: !BlamesBaseline(rows[i]))
    && TotalRequests(rows) == total
  }

  lemma {:induction false} AppendRow(rows: seq<Check>, row: Check, endpointId: string, names: seq<CheckName>,
        total: nat)
    requires Produced(rows, endpointId, names, total) && |rows| < |names|
    requires row.name == names[|rows|] && row.endpointId == endpointId && Explained(row) && !BlamesBaseline(row)
    ensures Produced(rows + [row], endpointId, names, total + row.requests)
  {
    OneMoreTotal(rows, row);
  }

  // ---------- active input mutation ----------

  /** Some of the first payloads shows evidence at some of the first points. */
  ghost predicate Evidence(engine: Engine, task: Task, check: CheckName, points: nat, payloads: nat) {
    exists p, k :: 0 <= p < points && 0 <= k < payloads && engine.evidence(task, check, p, k)
  }

  /** The same at one point. */
  ghost predicate EvidenceAt(engine: Engine, task: Task, check: CheckName, p: nat, payloads: nat) {
    exists k :: 0 <= k < payloads && engine.evidence(task, check, p, k)
  }

  lemma {:induction false} PayloadNext(engine: Engine, task: Task, check: CheckName, p: nat, k: nat)
    ensures EvidenceAt(engine, task, check, p, k + 1)
       <==> EvidenceAt(engine, task, check, p, k) || engine.evidence(task, check, p, k)
    ensures !EvidenceAt(engine, task, check, p, 0)
  {
  }

  lemma {:induction false} MorePayloads(engine: Engine, task: Task, check: CheckName, p: nat, k: nat, payloads: nat)
    requires EvidenceAt(engine, task, check, p, k) && k <= payloads
    ensures EvidenceAt(engine, task, check, p, payloads)
  {
  }

  lemma {:induction false} EvidenceNext(engine: Engine, task: Task, check: CheckName, p: nat, payloads: nat)
    ensures Evidence(engine, task, check, p + 1, payloads)
       <==> Evidence(engine, task, check, p, payloads) || EvidenceAt(engine, task, check, p, payloads)
  {
  }

  /** Sends the payloads to one point until one yields evidence. */
  method ProbePoint(budget: RequestBudget, task: Task, engine: Engine, check: CheckName, p: nat, payloads: nat)
    returns (raised: Option<Exception>, requests: nat, detected: bool)
    requires budget.Valid()
    modifies budget
    ensures budget.Valid() && budget.Proceeds(task) && (raised.None? <==> budget.Quiet(task))
    ensures Mine(budget.log, task) >= Mine(old(budget.log), task) + requests
    ensures raised.None? ==>
      && Mine(budget.log, task) == Mine(old(budget.log), task) + requests
      && (detected <==> EvidenceAt(engine, task, check, p, payloads))
      && requests <= payloads && (!detected ==> requests == payloads)
  {
    raised, requests, detected := None, 0, false;
    PayloadNext(engine, task, check, p, 0);
    while requests < payloads && !detected
      invariant budget.Valid() && budget.Proceeds(task) && budget.Quiet(task)
      invariant Mine(budget.log, task) == Mine(old(budget.log), task) + requests
      invariant requests <= payloads && (detected <==> EvidenceAt(engine, task, check, p, requests))
      decreases payloads - requests
    {
      var outcome := Send(budget, task);
      if outcome.Raised? {
        return Some(outcome.error), requests, detected;
      }
      PayloadNext(engine, task, check, p, requests);
      detected := engine.evidence(task, check, p, requests);
      requests := requests + 1;
    }
    if detected {
      MorePayloads(engine, task, check, p, requests, payloads);
    }
  }

  /** Sends payloads to each point until one yields evidence; stops at the first exception. */
  method ProbePoints(budget: RequestBudget, task: Task, engine: Engine, check: CheckName, points: seq<MutationPoint>,
        payloads: nat)
    returns (raised: Option<Exception>, requests: nat, detected: bool)
    requires budget.Valid()
    modifies budget
    ensures budget.Valid() && budget.Proceeds(task) && (raised.None? <==> budget.Quiet(task))
    ensures Mine(budget.log, task) >= Mine(old(budget.log), task) + requests
    ensures raised.None? ==>
      && Mine(budget.log, task) == Mine(old(budget.log), task) + requests
      && (detected <==> Evidence(engine, task, check, |points|, payloads))
      && requests <= |points| * payloads && (!detected ==> requests == |points| * payloads)
  {
    raised, requests, detected := None, 0, false;
    for p := 0 to |points|
      invariant budget.Valid() && budget.Proceeds(task) && budget.Quiet(task)
      invariant Mine(budget.log, task) == Mine(old(budget.log), task) + requests
      invariant raised.None? && (detected <==> Evidence(engine, task, check, p, payloads))
      invariant requests <= p * payloads && (!detected ==> requests == p * payloads)
    {
      var sent, evident;
      raised, sent, evident := ProbePoint(budget, task, engine, check, p, payloads);
      EvidenceNext(engine, task, check, p, payloads);
      assert (p + 1) * payloads == p * payloads + payloads;
      requests := requests + sent;
      if raised.Some? {
        return;
      }
      detected := detected || evident;
    }
  }

  /** Two probes whose answers are compared; counted only when both were answered. */
  method SendPair(budget: RequestBudget, task: Task) returns (raised: Option<Exception>)
    requires budget.Valid()
    modifies budget
    ensures budget.Valid() && budget.Proceeds(task) && (raised.None? <==> budget.Quiet(task))
    ensures raised.None? ==> Mine(budget.log, task) == Mine(old(budget.log), task) + 2
  {
    var first := Send(budget, task);
    if first.Raised? {
      return Some(first.error);
    }
    var second := Send(budget, task);
    if second.Raised? {
      return Some(second.error);
    }
    raised := None;
  }

  /** Three error payloads at one point; without evidence from them, a true/false pair. */
  method ProbeSqlPoint(budget: RequestBudget, task: Task, engine: Engine, p: nat)
    returns (raised: Option<Exception>, requests: nat, detected: bool)
    requires budget.Valid()
    modifies budget
    ensures budget.Valid() && budget.Proceeds(task) && (raised.None? <==> budget.Quiet(task))
    ensures Mine(budget.log, task) >= Mine(old(budget.log), task) + requests
    ensures raised.None? ==>
      && Mine(budget.log, task) == Mine(old(budget.log), task) + requests
      && (detected <==> EvidenceAt(engine, task, SqlInjection, p, 4)) && (!detected ==> requests == 5)
  {
    raised, requests, detected := ProbePoint(budget, task, engine, SqlInjection, p, 3);
    if raised.None? && !detected {
      label Errors:
      raised := SendPair(budget, task);
      if raised.None? {
        requests := requests + 2;
        detected := engine.evidence(task, SqlInjection, p, 3);
      }
    }
  }

  /** The SQL payloads at each point. */
  method ProbeSql(budget: RequestBudget, task: Task, engine: Engine, points: seq<MutationPoint>)
    returns (raised: Option<Exception>, requests: nat, detected: bool)
    requires budget.Valid()
    modifies budget
    ensures budget.Valid() && budget.Proceeds(task) && (raised.None? <==> budget.Quiet(task))
    ensures Mine(budget.log, task) >= Mine(old(budget.log), task) + requests
    ensures raised.None? ==>
      && Mine(budget.log, task) == Mine(old(budget.log), task) + requests
      && (detected <==> Evidence(engine, task, SqlInjection, |points|, 4)) && (!detected ==> requests == 5 * |points|)
  {
    raised, requests, detected := None, 0, false;
    for p := 0 to |points|
      invariant budget.Valid() && budget.Proceeds(task) && budget.Quiet(task)
      invariant Mine(budget.log, task) == Mine(old(budget.log), task) + requests
      invariant raised.None? && (detected <==> Evidence(engine, task, SqlInjection, p, 4))
      invariant !detected ==> requests == 5 * p
    {
      var sent, evident;
      raised, sent, evident := ProbeSqlPoint(budget, task, engine, p);
      EvidenceNext(engine, task, SqlInjection, p, 4);
      requests := requests + sent;
      if raised.Some? {
        return;
      }
      detected := detected || evident;
    }
  }

  /** An operator at some of the first points, in a query or body, shows evidence. */
  ghost predicate OperatorEvidence(engine: Engine, task: Task, points: seq<MutationPoint>, n: nat)
    requires n <= |points|
  {
    exists p :: 0 <= p < n && (points[p].location.InQuery? || points[p].location.InBody?)
                && engine.evidence(task, NosqlInjection, p, 0)
  }

  /** An operator and a control probe for every query or body point. */
  method ProbeNosql(budget: RequestBudget, task: Task, engine: Engine, points: seq<MutationPoint>)
    returns (raised: Option<Exception>, requests: nat, detected: bool)
    requires budget.Valid()
    modifies budget
    ensures budget.Valid() && budget.Proceeds(task) && (raised.None? <==> budget.Quiet(task))
    ensures Mine(budget.log, task) >= Mine(old(budget.log), task) + requests
    ensures raised.None? ==>
      && Mine(budget.log, task) == Mine(old(budget.log), task) + requests
      && (detected <==> OperatorEvidence(engine, task, points, |points|))
  {
    raised, requests, detected := None, 0, false;
    for p := 0 to |points|
      invariant budget.Valid() && budget.Proceeds(task) && budget.Quiet(task)
      invariant Mine(budget.log, task) == Mine(old(budget.log), task) + requests
      invariant detected <==> OperatorEvidence(engine, task, points, p)
    {
      if !points[p].location.InQuery? && !points[p].location.InBody? {
        continue;
      }
      var failed := SendPair(budget, task);
      if failed.Some? {
        return failed, requests, detected;
      }
      requests := requests + 2;
      if engine.evidence(task, NosqlInjection, p, 0) {
        detected := true;
      }
    }
  }

  /** Some of the first callbacks failed, or hit. */
  ghost predicate CallbackFailed(engine: Engine, task: Task, n: nat) {
    exists p :: 0 <= p < n && (engine.callback(task, p).NotRegistered? || engine.callback(task, p).NotAnswered?)
  }

  ghost predicate CallbackHit(engine: Engine, task: Task, n: nat) {
    exists p :: 0 <= p < n && engine.callback(task, p).Hit?
  }

  /** One callback per point: register, probe, poll. */
  method ProbeSsrf(budget: RequestBudget, task: Task, engine: Engine, points: seq<MutationPoint>)
    returns (raised: Option<Exception>, requests: nat, detected: bool, collectorError: bool)
    requires budget.Valid()
    modifies budget
    ensures budget.Valid() && budget.Proceeds(task) && (raised.None? <==> budget.Quiet(task))
    ensures Mine(budget.log, task) >= Mine(old(budget.log), task) + requests
    ensures raised.None? ==>
      && Mine(budget.log, task) == Mine(old(budget.log), task) + requests
      && (detected <==> CallbackHit(engine, task, |points|))
      && (collectorError <==> CallbackFailed(engine, task, |points|))
  {
    raised, requests, detected, collectorError := None, 0, false, false;
    for p := 0 to |points|
      invariant budget.Valid() && budget.Proceeds(task) && budget.Quiet(task)
      invariant Mine(budget.log, task) == Mine(old(budget.log), task) + requests
      invariant detected <==> CallbackHit(engine, task, p)
      invariant collectorError <==> CallbackFailed(engine, task, p)
    {
      var callback := engine.callback(task, p);
      if callback.NotRegistered? {
        collectorError := true;
        continue;
      }
      var outcome := Send(budget, task);
      if outcome.Raised? {
        return Some(outcome.error), requests, detected, collectorError;
      }
      requests := requests + 1;
      if callback.NotAnswered? {
        collectorError := true;
        continue;
      }
      if callback.Hit? {
        detected := true;
      }
    }
  }

  /** The row of an active check that ran over `points`. */
  function ActiveRow(endpointId: string, name: CheckName, points: seq<MutationPoint>, requests: nat,
        detected: bool): Check
  {
    Check(endpointId, name, if detected then DETECTED else if points != [] then TESTED else NOT_APPLICABLE, requests,
          if points != [] then None else Some(NotApplicable(name)))
  }

  /** The row of an active check that was not run. */
  function UnrunRow(endpointId: string, name: CheckName, points: seq<MutationPoint>, reason: Reason): Check {
    Check(endpointId, name, if points != [] then SKIPPED else NOT_APPLICABLE, 0,
          Some(if points != [] then reason else NotApplicable(name)))
  }

  function SsrfRow(endpointId: string, points: seq<MutationPoint>, configured: bool, collectorError: bool,
        detected: bool, requests: nat): Check
  {
    if points == [] then Check(endpointId, Ssrf, NOT_APPLICABLE, requests, Some(NotApplicable(Ssrf)))
    else if !configured then Check(endpointId, Ssrf, SKIPPED, requests, Some(CallbackNotConfigured))
    else if collectorError then Check(endpointId, Ssrf, ERROR, requests, Some(CollectorUnavailable))
    else Check(endpointId, Ssrf, if detected then DETECTED else TESTED, requests, None)
  }

  /** One row per check in `names` from the candidates, with the same reason for all that apply. */
  function UnrunRows(endpointId: string, names: seq<CheckName>, scalar: seq<MutationPoint>, matches: Matcher,
        reason: Reason): seq<Check>
  {
    if names == [] then []
    else
      var last := names[|names| - 1];
      UnrunRows(endpointId, names[..|names| - 1], scalar, matches, reason)
      + [UnrunRow(endpointId, last, ActivePoints(last, scalar, matches), reason)]
  }

  lemma {:induction false} UnrunRowSound(endpointId: string, name: CheckName, points: seq<MutationPoint>,
        reason: Reason)
    ensures var row := UnrunRow(endpointId, name, points, reason);
            && row.name == name && row.endpointId == endpointId && Explained(row) && row.requests == 0
            && (!reason.BaselineFailed? ==> !BlamesBaseline(row))
  {
  }

  lemma {:induction false} UnrunRowsProduced(endpointId: string, names: seq<CheckName>, scalar: seq<MutationPoint>,
        matches: Matcher, reason: Reason)
    ensures var rows := UnrunRows(endpointId, names, scalar, matches, reason);
            && |rows| == |names| && Rows(rows, endpointId, names) && TotalRequests(rows) == 0
            && (!reason.BaselineFailed? ==> forall i | 0 <= i < |rows| :: !BlamesBaseline(rows[i]))
  {
    if names != [] {
      var (init, last) := (names[..|names| - 1], names[|names| - 1]);
      UnrunRowsProduced(endpointId, init, scalar, matches, reason);
      var points := ActivePoints(last, scalar, matches);
      UnrunRowSound(endpointId, last, points, reason);
      OneMoreTotal(UnrunRows(endpointId, init, scalar, matches, reason), UnrunRow(endpointId, last, points, reason));
    }
  }

  /** The payloads of an active check, other than `ssrf`, show evidence at the points it is about. */
  ghost predicate Evident(check: CheckName, engine: Engine, task: Task, points: seq<MutationPoint>) {
    match check
    case SqlInjection => Evidence(engine, task, check, |points|, 4)
    case NosqlInjection => OperatorEvidence(engine, task, points, |points|)
    case PathTraversal =>
      Evidence(engine, task, check, |ActivePoints(check, points, engine.matches)|,
               if engine.profile.DEEP? || engine.profile.AGGRESSIVE? then 6 else 4)
    case ReflectedXss => Evidence(engine, task, check, |points|, 3)
    case OpenRedirect => Evidence(engine, task, check, |ActivePoints(check, points, engine.matches)|, 2)
    case CommandInjection => Evidence(engine, task, check, |ActivePoints(check, points, engine.matches)|, 2)
    case _ => false
  }

  /** What an active check that ran over `points` says: nothing applies, or what was observed. */
  ghost predicate RanOver(row: Check, check: CheckName, engine: Engine, task: Task, points: seq<MutationPoint>) {
    if !SomePoint(check, points, engine.matches) then
      row.status == NOT_APPLICABLE && row.reason == Some(NotApplicable(check))
    else if !check.Ssrf? then
      row.status == (if Evident(check, engine, task, points) then DETECTED else TESTED) && row.reason == None
    else if !engine.oastConfigured then
      row.status == SKIPPED && row.reason == Some(CallbackNotConfigured) && row.requests == 0
    else
      var candidates := |ActivePoints(Ssrf, points, engine.matches)|;
      if CallbackFailed(engine, task, candidates) then
        row.status == ERROR && row.reason == Some(CollectorUnavailable)
      else
        row.status == (if CallbackHit(engine, task, candidates) then DETECTED else TESTED) && row.reason == None
  }

  lemma {:induction false} NothingEvident(check: CheckName, engine: Engine, task: Task, points: seq<MutationPoint>)
    requires check in ACTIVE_CHECKS && !SomePoint(check, points, engine.matches)
    ensures !Evident(check, engine, task, points)
  {
    ActivePointsExactly(check, points, engine.matches);
    if points != [] {
      assert points[0] in points;
    }
    if check.NosqlInjection? {
      forall p | 0 <= p < |points| ensures !points[p].location.InQuery? && !points[p].location.InBody? {
        assert points[p] in points;
      }
    }
  }

  /** One active check over the limited points: its row, or the exception that stopped it. */
  method ActiveCheck(name: CheckName, budget: RequestBudget, task: Task, engine: Engine, endpointId: string,
        points: seq<MutationPoint>)
    returns (raised: Option<Exception>, row: Check)
    requires budget.Valid() && name in ACTIVE_CHECKS && IsActive(engine.profile)
    modifies budget
    ensures budget.Valid() && budget.Proceeds(task) && (raised.None? <==> budget.Quiet(task))
    ensures raised.None? ==>
      && row.name == name && row.endpointId == endpointId && Explained(row) && !BlamesBaseline(row)
      && RanOver(row, name, engine, task, points)
      && Mine(budget.log, task) == Mine(old(budget.log), task) + row.requests
  {
    var chosen := ActivePoints(name, points, engine.matches);
    var requests, detected, collectorError;
    if name.Ssrf? {
      raised, requests, detected, collectorError := CallbackProbes(budget, task, engine, chosen);
      row := SsrfRow(endpointId, chosen, engine.oastConfigured, collectorError, detected, requests);
    } else {
      raised, requests, detected := PayloadProbes(name, budget, task, engine, points);
      row := ActiveRow(endpointId, name, chosen, requests, detected);
    }
    ActivePointsExactly(name, points, engine.matches);
    if chosen == [] {
      NothingEvident(name, engine, task, points);
    }
  }

  /** The callbacks, if the collector is configured. */
  method CallbackProbes(budget: RequestBudget, task: Task, engine: Engine, chosen: seq<MutationPoint>)
    returns (raised: Option<Exception>, requests: nat, detected: bool, collectorError: bool)
    requires budget.Valid()
    modifies budget
    ensures budget.Valid() && budget.Proceeds(task) && (raised.None? <==> budget.Quiet(task))
    ensures raised.None? ==> Mine(budget.log, task) == Mine(old(budget.log), task) + requests
    ensures raised.None? && engine.oastConfigured ==>
      && (detected <==> CallbackHit(engine, task, |chosen|))
      && (collectorError <==> CallbackFailed(engine, task, |chosen|))
    ensures !engine.oastConfigured ==> requests == 0 && !detected && !collectorError
  {
    raised, requests, detected, collectorError := None, 0, false, false;
    if engine.oastConfigured {
      raised, requests, detected, collectorError := ProbeSsrf(budget, task, engine, chosen);
    }
  }

  /** The payloads of the other checks. */
  method PayloadProbes(name: CheckName, budget: RequestBudget, task: Task, engine: Engine, points: seq<MutationPoint>)
    returns (raised: Option<Exception>, requests: nat, detected: bool)
    requires budget.Valid() && name in ACTIVE_CHECKS && !name.Ssrf? && IsActive(engine.profile)
    modifies budget
    ensures budget.Valid() && budget.Proceeds(task) && (raised.None? <==> budget.Quiet(task))
    ensures raised.None? ==>
      && Mine(budget.log, task) == Mine(old(budget.log), task) + requests
      && (detected <==> Evident(name, engine, task, points))
  {
    var chosen := ActivePoints(name, points, engine.matches);
    if name.SqlInjection? {
      raised, requests, detected := ProbeSql(budget, task, engine, points);
    } else if name.NosqlInjection? {
      raised, requests, detected := ProbeNosql(budget, task, engine, points);
    } else if name.PathTraversal? {
      raised, requests, detected :=
        ProbePoints(budget, task, engine, name, chosen, if engine.profile.STANDARD? then 4 else 6);
    } else if name.ReflectedXss? {
      raised, requests, detected := ProbePoints(budget, task, engine, name, points, 3);
    } else {
      raised, requests, detected := ProbePoints(budget, task, engine, name, chosen, 2);
    }
  }

  /** The row of an active check under a profile that does not mutate input. */
  ghost predicate Inactive(row: Check, check: CheckName, engine: Engine, scalar: seq<MutationPoint>) {
    if SomePoint(check, scalar, engine.matches)
    then row.status == SKIPPED && row.reason == Some(ProfileInactive(engine.profile))
    else row.status == NOT_APPLICABLE && row.reason == Some(NotApplicable(check))
  }

  /** The rows of the active checks: under QUICK and SAFE none is run; under STANDARD, DEEP and AGGRESSIVE
      each says what it observed at the limited points. */
  ghost predicate ActiveSays(rows: seq<Check>, engine: Engine, task: Task, eligible: seq<MutationPoint>) {
    var scalar := ScalarPoints(eligible);
    && |rows| <= |ACTIVE_CHECKS|
    && match engine.profile
       case QUICK => forall i | 0 <= i < |rows| :: Inactive(rows[i], ACTIVE_CHECKS[i], engine, scalar)
       case SAFE => forall i | 0 <= i < |rows| :: Inactive(rows[i], ACTIVE_CHECKS[i], engine, scalar)
       case _ => forall i | 0 <= i < |rows| ::
           RanOver(rows[i], ACTIVE_CHECKS[i], engine, task, LimitedPoints(scalar, engine.profile))
  }

  lemma {:induction false} UnrunInactive(endpointId: string, engine: Engine, scalar: seq<MutationPoint>, i: nat)
    requires i < |ACTIVE_CHECKS|
    ensures var rows := UnrunRows(endpointId, ACTIVE_CHECKS, scalar, engine.matches, ProfileInactive(engine.profile));
            |rows| == |ACTIVE_CHECKS| && Inactive(rows[i], ACTIVE_CHECKS[i], engine, scalar)
  {
    UnrunAt(endpointId, ACTIVE_CHECKS, scalar, engine.matches, ProfileInactive(engine.profile), i);
    ActivePointsExactly(ACTIVE_CHECKS[i], scalar, engine.matches);
  }

  lemma {:induction false} UnrunAt(endpointId: string, names: seq<CheckName>, scalar: seq<MutationPoint>,
        matches: Matcher, reason: Reason, i: nat)
    requires i < |names|
    ensures |UnrunRows(endpointId, names, scalar, matches, reason)| == |names|
    ensures UnrunRows(endpointId, names, scalar, matches, reason)[i]
         == UnrunRow(endpointId, names[i], ActivePoints(names[i], scalar, matches), reason)
  {
    UnrunRowsProduced(endpointId, names, scalar, matches, reason);
    UnrunRowsProduced(endpointId, names[..|names| - 1], scalar, matches, reason);
    if i < |names| - 1 {
      UnrunAt(endpointId, names[..|names| - 1], scalar, matches, reason, i);
    }
  }

  /** The active checks one after the other: every one of the seven gets a row, or the whole pass raises. */
  method InputValidationTests(budget: RequestBudget, task: Task, engine: Engine, endpointId: string,
        eligible: seq<MutationPoint>)
    returns (raised: Option<Exception>, rows: seq<Check>)
    requires budget.Valid()
    modifies budget
    ensures budget.Valid() && budget.Proceeds(task) && (raised.None? <==> budget.Quiet(task))
    ensures raised.None? ==>
      && |rows| == |ACTIVE_CHECKS| && ActiveSays(rows, engine, task, eligible)
      && Produced(rows, endpointId, ACTIVE_CHECKS, Mine(budget.log, task) - Mine(old(budget.log), task))
    ensures engine.profile.QUICK? || engine.profile.SAFE? ==> raised.None? && budget.log == old(budget.log)
  {
    var scalar := ScalarPoints(eligible);
    raised, rows := None, [];
    if !IsActive(engine.profile) {
      rows := UnrunRows(endpointId, ACTIVE_CHECKS, scalar, engine.matches, ProfileInactive(engine.profile));
      UnrunRowsProduced(endpointId, ACTIVE_CHECKS, scalar, engine.matches, ProfileInactive(engine.profile));
      forall i | 0 <= i < |ACTIVE_CHECKS| ensures Inactive(rows[i], ACTIVE_CHECKS[i], engine, scalar) {
        UnrunInactive(endpointId, engine, scalar, i);
      }
      return;
    }
    raised, rows := RunActiveChecks(budget, task, engine, endpointId, LimitedPoints(scalar, engine.profile));
  }

  method RunActiveChecks(budget: RequestBudget, task: Task, engine: Engine, endpointId: string,
        points: seq<MutationPoint>)
    returns (raised: Option<Exception>, rows: seq<Check>)
    requires budget.Valid() && IsActive(engine.profile)
    modifies budget
    ensures budget.Valid() && budget.Proceeds(task) && (raised.None? <==> budget.Quiet(task))
    ensures raised.None? ==>
      && |rows| == |ACTIVE_CHECKS|
      && (forall i | 0 <= i < |rows| :: RanOver(rows[i], ACTIVE_CHECKS[i], engine, task, points))
      && Produced(rows, endpointId, ACTIVE_CHECKS, Mine(budget.log, task) - Mine(old(budget.log), task))
  {
    raised, rows := None, [];
    for i := 0 to |ACTIVE_CHECKS|
      invariant budget.Valid() && budget.Proceeds(task) && budget.Quiet(task)
      invariant raised.None? && |rows| == i
      invariant forall j | 0 <= j < i :: RanOver(rows[j], ACTIVE_CHECKS[j], engine, task, points)
      invariant Produced(rows, endpointId, ACTIVE_CHECKS, Mine(budget.log, task) - Mine(old(budget.log), task))
    {
      label Before:
      var row;
      raised, row := ActiveCheck(ACTIVE_CHECKS[i], budget, task, engine, endpointId, points);
      if raised.Some? {
        return;
      }
      AppendRow(rows, row, endpointId, ACTIVE_CHECKS, Mine(old@Before(budget.log), task) - Mine(old(budget.log), task));
      rows := rows + [row];
    }
  }

  // ---------- one endpoint ----------

  /** The endpoint's task either returns its rows or lets an exception escape. */
  datatype Tested = Returned(rows: seq<Check>) | Escaped

  predicate Retrieval(method_: string) {
    method_ == "GET" || method_ == "HEAD" || method_ == "OPTIONS"
  }

  /** A passive row: what was observed. */
  function PassiveRow(endpointId: string, name: CheckName, observed: bool, requests: nat): Check {
    Check(endpointId, name, if observed then DETECTED else TESTED, requests, None)
  }

  /** A passive check that did not run: skipped for `reason` where it applies. */
  function SkippedRow(endpointId: string, name: CheckName, applicable: bool, reason: Reason): Check {
    Check(endpointId, name, if applicable then SKIPPED else NOT_APPLICABLE, 0,
        Some(if applicable then reason else NotApplicable(name)))
  }

  function PassiveApplies(endpoint: Endpoint, name: CheckName): bool {
    if name.MissingAuthentication? then endpoint.authRequired else Retrieval(endpoint.method_)
  }

  /** The rows that follow a failed baseline. */
  function FailedRows(endpoint: Endpoint, eligible: seq<MutationPoint>, matches: Matcher, transport: Check,
        error: Exception): seq<Check>
  {
    var id := endpoint.endpointId;
    var reason := BaselineFailed(error);
    [transport, Check(id, Baseline, ERROR, 0, Some(reason)),
     SkippedRow(id, SecurityHeaders, PassiveApplies(endpoint, SecurityHeaders), reason),
     SkippedRow(id, ExcessiveDataExposure, PassiveApplies(endpoint, ExcessiveDataExposure), reason),
     SkippedRow(id, CorsMisconfiguration, PassiveApplies(endpoint, CorsMisconfiguration), reason),
     SkippedRow(id, MissingAuthentication, PassiveApplies(endpoint, MissingAuthentication), reason)]
    + UnrunRows(id, ACTIVE_CHECKS, ScalarPoints(eligible), matches, reason)
  }

  lemma {:induction false} JoinRows(first: seq<Check>, second: seq<Check>, endpointId: string)
    requires |first| == |PASSIVE_CHECKS| && |second| == |ACTIVE_CHECKS|
    requires Rows(first, endpointId, PASSIVE_CHECKS) && Rows(second, endpointId, ACTIVE_CHECKS)
    ensures |first + second| == |ENDPOINT_CHECKS|
    ensures forall i | 0 <= i < |ENDPOINT_CHECKS| ::
              (first + second)[i].name == ENDPOINT_CHECKS[i] && (first + second)[i].endpointId == endpointId
                  && Explained((first + second)[i])
    ensures TotalRequests(first + second) == TotalRequests(first) + TotalRequests(second)
  {
    TotalAppend(first, second);
  }

  lemma {:induction false} JoinProduced(first: seq<Check>, second: seq<Check>, endpointId: string, total: nat,
        more: nat)
    requires |first| == |PASSIVE_CHECKS| && |second| == |ACTIVE_CHECKS| && first[1].status.TESTED?
    requires Produced(first, endpointId, PASSIVE_CHECKS, total) && Produced(second, endpointId, ACTIVE_CHECKS, more)
    ensures EndpointRows(first + second, endpointId) && TotalRequests(first + second) == total + more
  {
    JoinRows(first, second, endpointId);
    var rows := first + second;
    forall i | 0 <= i < |rows| ensures !BlamesBaseline(rows[i]) {
      assert rows[i] == if i < |first| then first[i] else second[i - |first|];
    }
  }

  lemma {:induction false} FailedRowsProduced(endpoint: Endpoint, eligible: seq<MutationPoint>, matches: Matcher,
        transport: Check, error: Exception)
    requires transport.name == InsecureTransport && transport.endpointId == endpoint.endpointId
    requires !Blocked(transport.status) && transport.requests == 0
    ensures EndpointRows(FailedRows(endpoint, eligible, matches, transport, error), endpoint.endpointId)
    ensures TotalRequests(FailedRows(endpoint, eligible, matches, transport, error)) == 0
  {
    var all := FailedRows(endpoint, eligible, matches, transport, error);
    var (first, second) := (all[..|PASSIVE_CHECKS|], all[|PASSIVE_CHECKS|..]);
    UnrunRowsProduced(endpoint.endpointId, ACTIVE_CHECKS, ScalarPoints(eligible), matches, BaselineFailed(error));
    assert second == UnrunRows(endpoint.endpointId, ACTIVE_CHECKS, ScalarPoints(eligible), matches,
      BaselineFailed(error));
    assert all == first + second;
    SixFree(first);
    JoinRows(first, second, endpoint.endpointId);
  }

  /** GET, HEAD and OPTIONS operations are inspected for headers, exposure and CORS. */
  predicate Inspected(endpoint: Endpoint) {
    endpoint.method_ in {"GET", "HEAD", "OPTIONS"}
  }

  /** A passive check says what it observed where it applies. */
  predicate Ran(row: Check, applies: bool, observed: bool) {
    if !applies then row.status == NOT_APPLICABLE && row.reason == Some(NotApplicable(row.name))
    else row.status == (if observed then DETECTED else TESTED) && row.reason == None
  }

  /** The same for a check with a probe of its own, which may raise. */
  predicate RanOrFailed(row: Check, applies: bool, observed: bool) {
    || Ran(row, applies, observed)
    || (applies && row.status == ERROR && row.reason.Some? && row.reason.value.ProbeFailed?
        && row.reason.value.check == row.name)
  }

  /** The first six rows of an endpoint that answered its baseline request. */
  predicate PassiveSays(rows: seq<Check>, endpoint: Endpoint, engine: Engine, task: Task) {
    && |rows| == 6
    && rows[1].status == TESTED
    && Ran(rows[2], Inspected(endpoint), engine.observes(task, SecurityHeaders))
    && Ran(rows[3], Inspected(endpoint), engine.observes(task, ExcessiveDataExposure))
    && RanOrFailed(rows[4], Inspected(endpoint), engine.observes(task, CorsMisconfiguration))
    && RanOrFailed(rows[5], endpoint.authRequired, engine.observes(task, MissingAuthentication))
  }

  /** The active pass was stopped by an exception. */
  predicate Stopped(rows: seq<Check>) {
    forall i | 0 <= i < |rows| ::
      rows[i].status == ERROR && rows[i].reason.Some? && rows[i].reason.value.ProbeFailed?
  }

  /** All rows of such an endpoint; if no probe raised, each says what was observed. */
  ghost predicate AnsweredSays(rows: seq<Check>, endpoint: Endpoint, engine: Engine, task: Task,
        eligible: seq<MutationPoint>, quiet: bool)
  {
    && |rows| == 13
    && PassiveSays(rows[..6], endpoint, engine, task)
    && (ActiveSays(rows[6..], engine, task, eligible) || (!quiet && Stopped(rows[6..])))
    && (quiet ==>
          && Ran(rows[4], Inspected(endpoint), engine.observes(task, CorsMisconfiguration))
          && Ran(rows[5], endpoint.authRequired, engine.observes(task, MissingAuthentication)))
  }

  /** Whether the check at a position of the endpoint's rows applies to it. */
  ghost predicate AppliesAt(i: nat, endpoint: Endpoint, engine: Engine, eligible: seq<MutationPoint>)
    requires 2 <= i < 13
  {
    if i < 5 then Inspected(endpoint)
    else if i == 5 then endpoint.authRequired
    else SomePoint(ACTIVE_CHECKS[i - 6], ScalarPoints(eligible), engine.matches)
  }

  /** All rows of an endpoint whose baseline request failed: what applies is skipped for that reason. */
  ghost predicate FailedSays(rows: seq<Check>, endpoint: Endpoint, engine: Engine, eligible: seq<MutationPoint>) {
    && |rows| == 13 && rows[1].status == ERROR && BlamesBaseline(rows[1])
    && forall i | 2 <= i < 13 ::
         SaysFailed(rows[i], AppliesAt(i, endpoint, engine, eligible), ENDPOINT_CHECKS[i], rows[1].reason.value)
  }

  lemma {:induction false} FailedRowsSay(endpoint: Endpoint, eligible: seq<MutationPoint>, engine: Engine,
        transport: Check, error: Exception)
    ensures FailedSays(FailedRows(endpoint, eligible, engine.matches, transport, error), endpoint, engine, eligible)
  {
    var rows := FailedRows(endpoint, eligible, engine.matches, transport, error);
    var active := UnrunRows(endpoint.endpointId, ACTIVE_CHECKS, ScalarPoints(eligible), engine.matches,
      BaselineFailed(error));
    UnrunRowsProduced(endpoint.endpointId, ACTIVE_CHECKS, ScalarPoints(eligible), engine.matches,
        BaselineFailed(error));
    assert |rows| == 13 && forall i | 6 <= i < 13 :: rows[i] == active[i - 6];
    forall i | 2 <= i < 13
      ensures SaysFailed(rows[i], AppliesAt(i, endpoint, engine, eligible), ENDPOINT_CHECKS[i], BaselineFailed(error))
    {
      if i < 6 {
        PassiveFails(endpoint, eligible, engine, transport, error, i);
      } else {
        ActiveFails(endpoint, eligible, engine, error, i - 6);
      }
    }
  }

  /** The row after a failed baseline. */
  predicate SaysFailed(row: Check, applies: bool, check: CheckName, reason: Reason) {
    if applies then row.status == SKIPPED && row.reason == Some(reason)
    else row.status == NOT_APPLICABLE && row.reason == Some(NotApplicable(check))
  }

  lemma {:induction false} PassiveFails(endpoint: Endpoint, eligible: seq<MutationPoint>, engine: Engine,
        transport: Check, error: Exception, i: nat)
    requires 2 <= i < 6 && i < |FailedRows(endpoint, eligible, engine.matches, transport, error)|
    ensures SaysFailed(FailedRows(endpoint, eligible, engine.matches, transport, error)[i],
      AppliesAt(i, endpoint, engine, eligible), ENDPOINT_CHECKS[i], BaselineFailed(error))
  {
    assert ENDPOINT_CHECKS[i] == PASSIVE_CHECKS[i];
  }

  lemma {:induction false} ActiveFails(endpoint: Endpoint, eligible: seq<MutationPoint>, engine: Engine,
        error: Exception, k: nat)
    requires k < |ACTIVE_CHECKS|
    ensures var rows := UnrunRows(endpoint.endpointId, ACTIVE_CHECKS, ScalarPoints(eligible), engine.matches,
              BaselineFailed(error));
            && k < |rows| && ENDPOINT_CHECKS[k + 6] == ACTIVE_CHECKS[k]
            && SaysFailed(rows[k], AppliesAt(k + 6, endpoint, engine, eligible), ACTIVE_CHECKS[k],
               BaselineFailed(error))
  {
    UnrunAt(endpoint.endpointId, ACTIVE_CHECKS, ScalarPoints(eligible), engine.matches, BaselineFailed(error), k);
    ActivePointsExactly(ACTIVE_CHECKS[k], ScalarPoints(eligible), engine.matches);
  }

  lemma {:induction false} PassiveJoins(transport: Check, headers: Check, exposure: Check, cors: Check,
        authentication: Check, endpoint: Endpoint, engine: Engine, task: Task)
    requires Ran(headers, Inspected(endpoint), engine.observes(task, SecurityHeaders))
    requires Ran(exposure, Inspected(endpoint), engine.observes(task, ExcessiveDataExposure))
    requires RanOrFailed(cors, Inspected(endpoint), engine.observes(task, CorsMisconfiguration))
    requires RanOrFailed(authentication, endpoint.authRequired, engine.observes(task, MissingAuthentication))
    ensures var rows := PassiveRows(transport, headers, exposure, cors, authentication);
            && PassiveSays(rows, endpoint, engine, task)
            && rows[0] == transport && rows[4] == cors && rows[5] == authentication
  {
  }

  lemma {:induction false} AnsweredJoins(passive: seq<Check>, active: seq<Check>, endpoint: Endpoint, engine: Engine,
        task: Task, eligible: seq<MutationPoint>, quiet: bool)
    requires PassiveSays(passive, endpoint, engine, task) && |active| == 7
    requires ActiveSays(active, engine, task, eligible) || (!quiet && Stopped(active))
    requires quiet ==>
      && Ran(passive[4], Inspected(endpoint), engine.observes(task, CorsMisconfiguration))
      && Ran(passive[5], endpoint.authRequired, engine.observes(task, MissingAuthentication))
    ensures AnsweredSays(passive + active, endpoint, engine, task, eligible, quiet)
  {
    assert (passive + active)[..6] == passive && (passive + active)[6..] == active;
  }

  lemma {:induction false} SixFree(rows: seq<Check>)
    requires |rows| == 6 && forall i | 0 <= i < 6 :: rows[i].requests == 0
    ensures TotalRequests(rows) == 0
  {
    assert rows == [rows[0]] + [rows[1]] + [rows[2]] + [rows[3]] + [rows[4]] + [rows[5]];
    OneMoreTotal([], rows[0]);
    OneMoreTotal([rows[0]], rows[1]);
    OneMoreTotal([rows[0]] + [rows[1]], rows[2]);
    OneMoreTotal([rows[0]] + [rows[1]] + [rows[2]], rows[3]);
    OneMoreTotal([rows[0]] + [rows[1]] + [rows[2]] + [rows[3]], rows[4]);
    OneMoreTotal([rows[0]] + [rows[1]] + [rows[2]] + [rows[3]] + [rows[4]], rows[5]);
    assert [] + [rows[0]] == [rows[0]];
  }

  /** A row that is explained and does not blame the baseline. */
  predicate SoundRow(row: Check, endpointId: string, name: CheckName) {
    row.name == name && row.endpointId == endpointId && Explained(row) && !BlamesBaseline(row)
  }

  /** Header, body and CORS inspection; limited to retrieval operations. */
  method RetrievalChecks(budget: RequestBudget, task: Task, engine: Engine, endpoint: Endpoint)
    returns (headers: Check, exposure: Check, cors: Check, escaped: bool)
    requires budget.Valid()
    modifies budget
    ensures budget.Valid() && budget.Proceeds(task)
    ensures SoundRow(headers, endpoint.endpointId, SecurityHeaders) && headers.requests == 0
    ensures SoundRow(exposure, endpoint.endpointId, ExcessiveDataExposure) && exposure.requests == 0
    ensures SoundRow(cors, endpoint.endpointId, CorsMisconfiguration)
    ensures Ran(headers, Inspected(endpoint), engine.observes(task, SecurityHeaders))
    ensures Ran(exposure, Inspected(endpoint), engine.observes(task, ExcessiveDataExposure))
    ensures RanOrFailed(cors, Inspected(endpoint), engine.observes(task, CorsMisconfiguration))
    ensures budget.Quiet(task) ==> Ran(cors, Inspected(endpoint), engine.observes(task, CorsMisconfiguration))
    ensures Mine(budget.log, task) >= Mine(old(budget.log), task) + cors.requests
    ensures budget.Quiet(task) ==> !escaped && Mine(budget.log, task) == Mine(old(budget.log), task) + cors.requests
  {
    var id := endpoint.endpointId;
    escaped := false;
    headers := SkippedRow(id, SecurityHeaders, false, BaselineNotCompleted);
    exposure := SkippedRow(id, ExcessiveDataExposure, false, BaselineNotCompleted);
    cors := SkippedRow(id, CorsMisconfiguration, false, BaselineNotCompleted);
    if Retrieval(endpoint.method_) {
      headers := PassiveRow(id, SecurityHeaders, engine.observes(task, SecurityHeaders), 0);
      exposure := PassiveRow(id, ExcessiveDataExposure, engine.observes(task, ExcessiveDataExposure), 0);
      var outcome := Send(budget, task);
      if outcome.Raised? {
        escaped := outcome.error.Other?;
        cors := Check(id, CorsMisconfiguration, ERROR, 0, Some(ProbeFailed(CorsMisconfiguration, outcome.error)));
      } else {
        cors := PassiveRow(id, CorsMisconfiguration, engine.observes(task, CorsMisconfiguration), 1);
      }
    }
  }

  /** The unauthenticated probe of a protected operation. */
  method AuthenticationCheck(budget: RequestBudget, task: Task, engine: Engine, endpoint: Endpoint)
    returns (row: Check, escaped: bool)
    requires budget.Valid()
    modifies budget
    ensures budget.Valid() && budget.Proceeds(task)
    ensures SoundRow(row, endpoint.endpointId, MissingAuthentication)
    ensures RanOrFailed(row, endpoint.authRequired, engine.observes(task, MissingAuthentication))
    ensures budget.Quiet(task) ==> Ran(row, endpoint.authRequired, engine.observes(task, MissingAuthentication))
    ensures Mine(budget.log, task) >= Mine(old(budget.log), task) + row.requests
    ensures budget.Quiet(task) ==> !escaped && Mine(budget.log, task) == Mine(old(budget.log), task) + row.requests
  {
    var id := endpoint.endpointId;
    escaped := false;
    row := SkippedRow(id, MissingAuthentication, false, BaselineNotCompleted);
    if endpoint.authRequired {
      var outcome := Send(budget, task);
      if outcome.Raised? {
        escaped := outcome.error.Other?;
        row := Check(id, MissingAuthentication, ERROR, 0, Some(ProbeFailed(MissingAuthentication, outcome.error)));
      } else {
        row := PassiveRow(id, MissingAuthentication, engine.observes(task, MissingAuthentication), 1);
      }
    }
  }

  /** The first six rows of an endpoint whose baseline answered. */
  function PassiveRows(transport: Check, headers: Check, exposure: Check, cors: Check,
        authentication: Check): seq<Check>
  {
    [transport] + [PassiveRow(transport.endpointId, Baseline, false, 1)] + [headers] + [exposure] + [cors]
        + [authentication]
  }

  lemma {:induction false} SixProduced(a: Check, b: Check, c: Check, d: Check, e: Check, f: Check, id: string,
        names: seq<CheckName>)
    requires |names| == 6
    requires SoundRow(a, id, names[0]) && SoundRow(b, id, names[1]) && SoundRow(c, id, names[2])
    requires SoundRow(d, id, names[3]) && SoundRow(e, id, names[4]) && SoundRow(f, id, names[5])
    ensures Produced([a] + [b] + [c] + [d] + [e] + [f], id, names,
                     a.requests + b.requests + c.requests + d.requests + e.requests + f.requests)
  {
    assert [] + [a] == [a];
    AppendRow([], a, id, names, 0);
    AppendRow([a], b, id, names, a.requests);
    AppendRow([a] + [b], c, id, names, a.requests + b.requests);
    AppendRow([a] + [b] + [c], d, id, names, a.requests + b.requests + c.requests);
    AppendRow([a] + [b] + [c] + [d], e, id, names, a.requests + b.requests + c.requests + d.requests);
    AppendRow([a] + [b] + [c] + [d] + [e], f, id, names,
        a.requests + b.requests + c.requests + d.requests + e.requests);
  }

  lemma {:induction false} PassiveRowsProduced(transport: Check, headers: Check, exposure: Check, cors: Check,
        authentication: Check, id: string)
    requires SoundRow(transport, id, InsecureTransport) && transport.requests == 0
    requires SoundRow(headers, id, SecurityHeaders) && headers.requests == 0
    requires SoundRow(exposure, id, ExcessiveDataExposure) && exposure.requests == 0
    requires SoundRow(cors, id, CorsMisconfiguration) && SoundRow(authentication, id, MissingAuthentication)
    ensures var rows := PassiveRows(transport, headers, exposure, cors, authentication);
            && |rows| == |PASSIVE_CHECKS| && rows[1].status.TESTED?
            && Produced(rows, id, PASSIVE_CHECKS, 1 + cors.requests + authentication.requests)
  {
    SixProduced(transport, PassiveRow(id, Baseline, false, 1), headers, exposure, cors, authentication, id,
        PASSIVE_CHECKS);
  }

  /** The seven active rows: the pass's own, or one error row each when the pass was stopped. */
  method ActiveChecks(budget: RequestBudget, task: Task, engine: Engine, endpointId: string,
        eligible: seq<MutationPoint>)
    returns (rows: seq<Check>, escaped: bool)
    requires budget.Valid()
    modifies budget
    ensures budget.Valid() && budget.Proceeds(task)
    ensures !escaped ==>
      && |rows| == |ACTIVE_CHECKS| && Produced(rows, endpointId, ACTIVE_CHECKS, TotalRequests(rows))
      && TotalRequests(rows) <= Mine(budget.log, task) - Mine(old(budget.log), task)
      && (budget.Quiet(task) ==> TotalRequests(rows) == Mine(budget.log, task) - Mine(old(budget.log), task))
      && (ActiveSays(rows, engine, task, eligible) || Stopped(rows))
    ensures budget.Quiet(task) ==> !escaped && ActiveSays(rows, engine, task, eligible)
  {
    escaped := false;
    var stopped;
    stopped, rows := InputValidationTests(budget, task, engine, endpointId, eligible);
    if stopped.Some? {
      if stopped.value.Other? {
        escaped := true;
        return;
      }
      rows := StoppedRows(endpointId, stopped.value);
    }
  }

  /** An error row for every active check. */
  method StoppedRows(endpointId: string, error: Exception) returns (rows: seq<Check>)
    ensures |rows| == |ACTIVE_CHECKS| && Produced(rows, endpointId, ACTIVE_CHECKS, 0)
    ensures Stopped(rows)
  {
    rows := [];
    for i := 0 to |ACTIVE_CHECKS|
      invariant |rows| == i && Produced(rows, endpointId, ACTIVE_CHECKS, 0)
      invariant Stopped(rows)
    {
      var row := Check(endpointId, ACTIVE_CHECKS[i], ERROR, 0, Some(ProbeFailed(ACTIVE_CHECKS[i], error)));
      AppendRow(rows, row, endpointId, ACTIVE_CHECKS, 0);
      rows := rows + [row];
    }
  }

  /** The six passive rows of an endpoint that answered its baseline request. */
  method PassiveChecks(budget: RequestBudget, task: Task, engine: Engine, endpoint: Endpoint, transport: Check)
    returns (rows: seq<Check>, escaped: bool)
    requires budget.Valid()
    requires SoundRow(transport, endpoint.endpointId, InsecureTransport) && transport.requests == 0
    modifies budget
    ensures budget.Valid() && budget.Proceeds(task)
    ensures !escaped ==>
      && PassiveSays(rows, endpoint, engine, task) && rows[0] == transport
      && Produced(rows, endpoint.endpointId, PASSIVE_CHECKS, TotalRequests(rows))
      && TotalRequests(rows) <= 1 + Mine(budget.log, task) - Mine(old(budget.log), task)
    ensures budget.Quiet(task) ==>
      && !escaped && TotalRequests(rows) == 1 + Mine(budget.log, task) - Mine(old(budget.log), task)
      && Ran(rows[4], Inspected(endpoint), engine.observes(task, CorsMisconfiguration))
      && Ran(rows[5], endpoint.authRequired, engine.observes(task, MissingAuthentication))
  {
    rows := [];
    var headers, exposure, cors, authentication;
    headers, exposure, cors, escaped := RetrievalChecks(budget, task, engine, endpoint);
    if escaped {
      return;
    }
    authentication, escaped := AuthenticationCheck(budget, task, engine, endpoint);
    if escaped {
      return;
    }
    rows := PassiveRows(transport, headers, exposure, cors, authentication);
    PassiveJoins(transport, headers, exposure, cors, authentication, endpoint, engine, task);
    PassiveRowsProduced(transport, headers, exposure, cors, authentication, endpoint.endpointId);
  }

  /** The checks of an endpoint that answered its baseline request. */
  method TestAnswering(budget: RequestBudget, task: Task, engine: Engine, endpoint: Endpoint,
        eligible: seq<MutationPoint>, transport: Check)
    returns (tested: Tested)
    requires budget.Valid()
    requires SoundRow(transport, endpoint.endpointId, InsecureTransport) && transport.requests == 0
    modifies budget
    ensures budget.Valid() && budget.Proceeds(task)
    ensures tested.Returned? ==>
      && EndpointRows(tested.rows, endpoint.endpointId)
      && TotalRequests(tested.rows) <= 1 + Mine(budget.log, task) - Mine(old(budget.log), task)
      && tested.rows[0] == transport && AnsweredSays(tested.rows, endpoint, engine, task, eligible, budget.Quiet(task))
    ensures budget.Quiet(task) ==>
      && tested.Returned? && |tested.rows| > 1 && tested.rows[1].status.TESTED?
      && TotalRequests(tested.rows) == 1 + Mine(budget.log, task) - Mine(old(budget.log), task)
  {
    var passive, active, escaped;
    passive, escaped := PassiveChecks(budget, task, engine, endpoint, transport);
    if escaped {
      return Escaped;
    }
    active, escaped := ActiveChecks(budget, task, engine, endpoint.endpointId, eligible);
    if escaped {
      return Escaped;
    }
    AnsweredJoins(passive, active, endpoint, engine, task, eligible, budget.Quiet(task));
    JoinProduced(passive, active, endpoint.endpointId, TotalRequests(passive), TotalRequests(active));
    assert (passive + active)[0] == passive[0] && (passive + active)[1] == passive[1];
    tested := Returned(passive + active);
  }

  /** One endpoint's task. On every path that returns, each of the thirteen checks has exactly
      one row, which says what became of it, and the rows report no more requests than it was granted:
      exactly as many when no probe raised. */
  method TestEndpoint(budget: RequestBudget, task: Task, engine: Engine, endpoint: Endpoint,
        eligible: seq<MutationPoint>, insecure: bool)
    returns (tested: Tested)
    requires budget.Valid()
    modifies budget
    ensures budget.Valid() && budget.Proceeds(task)
    ensures tested.Returned? ==>
      && EndpointRows(tested.rows, endpoint.endpointId)
      && TotalRequests(tested.rows) <= Mine(budget.log, task) - Mine(old(budget.log), task)
      && tested.rows[0].status == (if insecure then DETECTED else TESTED)
      && (if tested.rows[1].status.TESTED?
          then AnsweredSays(tested.rows, endpoint, engine, task, eligible, budget.Quiet(task))
          else FailedSays(tested.rows, endpoint, engine, eligible))
    ensures budget.Quiet(task) ==>
      && tested.Returned? && |tested.rows| > 1 && tested.rows[1].status.TESTED?
      && TotalRequests(tested.rows) == Mine(budget.log, task) - Mine(old(budget.log), task)
  {
    var transport := PassiveRow(endpoint.endpointId, InsecureTransport, insecure, 0);
    var outcome := Send(budget, task);
    if outcome.Raised? {
      if outcome.error.Other? {
        return Escaped;
      }
      FailedRowsProduced(endpoint, eligible, engine.matches, transport, outcome.error);
      FailedRowsSay(endpoint, eligible, engine, transport, outcome.error);
      return Returned(FailedRows(endpoint, eligible, engine.matches, transport, outcome.error));
    }
    tested := TestAnswering(budget, task, engine, endpoint, eligible, transport);
  }
}
