# Proved model of the API scanner's core

This project models the deterministic core of the scanner backend in Dafny and proves what that core is
for: that references are inlined without ever leaving one behind, that a mutated request differs from the
plain one in one place, that the check matrix accounts for every check exactly once, that the verdict on a
scan follows from it, that scans end and keep their promises under concurrent control requests, that rate
limits and callback attribution hold over all interleavings, and that grouping and redaction lose nothing.

Everything the code takes from outside (HTTP responses, detector verdicts, clock readings, DNS, randomness,
the database's other writers) is an arbitrary input, a nondeterministic choice or a function parameter, so
every statement holds for every environment. Automatic induction is switched off throughout: each proof is
the one written down.

## Parts

| files | source | subject |
|---|---|---|
| `Pointers`, `Resolver`, `Inlining` | `app/ingestion/openapi.py` | JSON Pointers (RFC 6901) and the resolver for local references |
| `Bodies`, `BodyStores`, `InPlaceBodies`, `MutationPoints`, `PathTemplates`, `Requests`, `Carried` | `app/security_tests/input_validation.py` | bodies as trees and as mutable containers, mutation points, path templates, the request builder and what its requests carry |
| `Budgets`, `CheckMatrix`, `EngineRuns` | `app/engines/custom.py` | the rate limiter and budget, the rows one endpoint produces, the whole engine run |
| `Coverage`, `Assessments`, `Verdicts` | `app/coverage/service.py`, `app/services/orchestrator.py` | coverage accounting and the verdict, end to end |
| `Lifecycle`, `Pauses`, `Orchestration`, `Scans` | `app/services/orchestrator.py`, `app/api/routes.py` | the scan as a state machine over worker and API steps, what a pause holds back, `run` as a program that refines it, and the verdict as its row's status |
| `Oast`, `SsrfProbes` | `app/oast.py`, `app/engines/custom.py` | the callback collector under interleaving, and the engine's probes on top of it |
| `Correlation`, `Compaction`, `PentestReport`, `Sorting` | `app/correlation/service.py`, `app/reporting/generator.py` | merging findings and grouping them into issues |
| `Redaction` | `app/core/logging.py` | removing credentials |
| `ScopedRequests` | `app/security/scope.py`, `engine_runner/main.py` | the redirect loop and the proxy's exchanges |
| `JsonValues`, `Strings` | | JSON values and the string operations used |

JSON values are a datatype with string keys whose mappings have no member order. Loops that fill lists and
dictionaries are methods with loops; records updated in place (`EndpointRecord`, `RequestBudget`,
`Orchestrator`, `Prober`, `ProxyJob`) are classes. Concurrent protocols are relations over steps, with runs
as sequences of states, and the programs that take part in them are methods that record such a run.

## Where the code does not do what one might expect

* Without a reference cycle the resolver is still not plain inlining: the members beside a `$ref` are
  resolved with that reference already marked as seen, so a member that repeats it becomes `{}`
  (`Inlining.RepeatedBesideItself`); `Inlining.SeenCutExactly` says exactly when the two agree.
* An assessment can be PARTIAL without any blocking reason, for example when two endpoints share an id
  (`Assessments.SharedIdHidesReason`). `Assessments.ReasonsAgreeExactly` says for every inventory when a verdict
  other than COMPLETE has no reason (when it is silent): exactly if all ids are reached and all blocked runtime
  checks blame a failed baseline, while there is such a check or no endpoint at all. With unique ids and some
  endpoint that cannot be (`Assessments.NeverSilent`).
* A terminal status need not last: the worker may overwrite a cancellation that commits between its start and
  its first stage (`Lifecycle.TerminalOverwritten`). `Lifecycle.TerminalChangesExactly` says which steps change
  one: exactly a cancel request that read QUEUED and commits over another status, and a worker's write of a
  status that is neither the one it loaded nor CANCELLED.
* Overlapping polls can report one callback twice (`Oast.OneCallbackTwoHits`), and need not.
  `Oast.AnsweredOnceExactly` says when they do: exactly if a poll is overtaken, that is, another poll answered
  and deleted the key after it began and no callback was written since. `Oast.HitsAtMostCallbacks` bounds the
  number of hits in every run.
* With one engine, the confidence of a merged finding can be below that of its group
  (`Correlation.ConfidenceLost`); `Correlation.ConfidenceExactly` says when it is not.
* An allowlist rule of nothing but dots allows the empty host (`ScopedRequests.EmptyHostAllowed`), which the
  client takes for "no host yet": after a hostname such as U+2024, which IDNA encodes as a dot, a redirect to
  another allowed host is followed (`ScopedRequests.LeavesHost`). `ScopedRequests.SameHostExactly` says which
  settings allow that: exactly those that follow at least one redirect and have, beside such a rule, one that
  is not made of dots only (`ScopedRequests.EmptyAndNamedExactly`). Whether the name service and the HTTP
  library accept such a name is up to the environment.

## Model

| member | source | states |
|---|---|---|
| Pointers.FindLocalRef | app/ingestion/openapi.py:51-60 | the walk with a current value finds, for every document and reference string, the mapping the unescaped parts lead to; nothing if they lead to anything else or nowhere, or if the reference is not local |
| Pointers.LocalRefStandsFor | app/ingestion/openapi.py:51-60 | the same of the specification function: what a reference stands for is stated by following keys through the document, without the walk |
| Pointers.PointerRoundTrip | app/ingestion/openapi.py:51-60 | for every list of keys leading through nested objects, escaping the keys, joining with `/` and evaluating the pointer gives the object at that place (sections 3 and 4 of RFC 6901) |
| Pointers.PointerInjective | app/ingestion/openapi.py:54-55 | different key lists have different pointers |
| Pointers.UnescapeEscape | app/ingestion/openapi.py:55 | replacing `~1` and then `~0` undoes escaping for every key |
| Resolver.ResolvedIsReferenceFree | app/ingestion/openapi.py:72-98 | for every document, cyclic ones included, no mapping at any depth of the result has a `$ref` that is a local reference |
| Resolver.ResolvedIsTrimmed | app/ingestion/openapi.py:76-77 | whatever the result has at depth 31 is the empty mapping |
| Resolver.ResolveIdempotent | app/ingestion/openapi.py:72-98 | resolving a resolved value again, even against another document, changes nothing |
| Resolver.DepthLimitExactly | app/ingestion/openapi.py:72-98 | the depth limit agrees with the recursion that keeps only the `seen` cut if and only if everything it cuts would have resolved to the empty mapping |
| Resolver.ResolveMeansMeaning | app/ingestion/openapi.py:72-98 | when the depth-30 cut is never reached, the resolver computes its limit-free meaning |
| Resolver.DepthLimitIsTight | app/ingestion/openapi.py:76-77 | a schema without references survives nesting up to the limit and no more |
| Inlining.SeenCutExactly | app/ingestion/openapi.py:80-91 | on acyclic references the limit-free resolver is plain inlining if and only if the `seen` cut removes only what inlines to nothing |
| Inlining.InlineMerge | app/ingestion/openapi.py:84-91 | merging target and siblings before resolving is inlining the target and overriding it with the inlined siblings |
| Inlining.ResolveIsInlining | app/ingestion/openapi.py:72-98 | acyclic references without further references beside them, within the depth limit: the resolver is plain inlining |
| Inlining.RepeatedBesideItself | app/ingestion/openapi.py:80-91 | acyclic references do not suffice: a sibling that repeats its mapping's own reference resolves to the empty mapping |
| Bodies.PutGet | app/security_tests/input_validation.py:273-280 | what is written at a path is read back there |
| Bodies.PutPut | app/security_tests/input_validation.py:273-280 | the last write at a path wins |
| Bodies.PutElsewhere | app/security_tests/input_validation.py:273-280 | a write leaves every path apart from it unchanged |
| Bodies.PutsCommute | app/security_tests/input_validation.py:273-280 | writes at paths that do not extend each other commute |
| Bodies.LeavesApart | app/security_tests/input_validation.py:193-238 | no enumerated leaf path extends another |
| Bodies.PutIsEdit | app/security_tests/input_validation.py:306-311 | writing leaves one after another, in any order, is one simultaneous edit |
| BodyStores.ReplaceBodyValue | app/security_tests/input_validation.py:273-280 | walking to the last container and rebinding one member in place yields exactly the body with that leaf replaced, and touches no container outside the body |
| BodyStores.OthersKept | app/security_tests/input_validation.py:306-311 | values kept apart from the body, such as the endpoint definition, are not altered |
| BodyStores.SharedContainerChangesTwice | app/security_tests/input_validation.py:306-311 | why the deep copy is needed: written through one of two members that share a container, the body is not the one asked for |
| InPlaceBodies.ApplyInPlace | app/security_tests/input_validation.py:305-311 | the loop over the overrides on the copied containers, in any order: the store ends up holding exactly the edited body, and nothing outside the copy and the override values is altered |
| MutationPoints.BodyPoints | app/security_tests/input_validation.py:193-238 | lists every scalar leaf of the body exactly once, with its path, baseline, name and schema type; lists are sampled |
| MutationPoints.LeafPathsExactly | app/security_tests/input_validation.py:193-238 | a place of the body is a leaf exactly if it holds a scalar and is reached through the first three entries of each list on its way |
| MutationPoints.LeafPointExactly | app/security_tests/input_validation.py:193-238 | a leaf's point has the body's value there as its baseline, is keyed `body:` and its name, and has the type the schema gives at its path |
| MutationPoints.NamesAndSchemas | app/security_tests/input_validation.py:193-238 | names join keys and positions with dots, `$body` for the whole; schemas are followed through `properties` and `items`, an absent or malformed one being empty |
| MutationPoints.SchemaTypeExactly | app/security_tests/input_validation.py:109-120 | the declared type if it is a text; without one `object`, `array` or `string` by what the schema describes |
| PathTemplates.ReplaceAllFills | app/security_tests/input_validation.py:292-298 | replacing placeholders one by one is substituting them simultaneously, for templates without nested braces and values without braces |
| PathTemplates.ReplaceAllAnyOrder | app/security_tests/input_validation.py:292-298 | the order of the path parameters does not matter |
| PathTemplates.NoPlaceholderSurvives | app/security_tests/input_validation.py:292-298 | no placeholder of a path point is left in the path |
| PathTemplates.QuotedIsSafe | app/security_tests/input_validation.py:292-298 | a percent-encoded value (sections 2.1 and 2.3 of RFC 3986) holds no brace, slash, question mark or hash |
| PathTemplates.QuoteKeepsUnreserved | app/security_tests/input_validation.py:292-298 | letters, digits and `-._~` stay as they are; slash, blank and percent sign become their upper-case octets |
| PathTemplates.UnquoteQuote | app/security_tests/input_validation.py:292-298 | percent-decoding gives back the encoded octets |
| PathTemplates.QuoteInjective | app/security_tests/input_validation.py:292-298 | different values have different percent-encodings, through UTF-8 (section 3 of RFC 3629) |
| Requests.WireSafeIsSafe | app/security_tests/input_validation.py:57-69 | a header value holds no control characters and no surrounding space, and is left alone by a second pass |
| Requests.WireSafeKeeps | app/security_tests/input_validation.py:57-69 | it is the value from its first to its last character that is neither white space nor a control character, control characters becoming blanks |
| Requests.EligiblePoints | app/security_tests/input_validation.py:241-270 | the points are those of the parameters in order and, exactly if a body with a media type is documented, each leaf of it once, each keyed by its place |
| Requests.ParameterPointExactly | app/security_tests/input_validation.py:241-270 | a parameter is a point exactly if it is in one of the four places, has a name, is no header the client sets itself, and has a scalar sample; its key, baseline and type |
| Requests.KeyedHoldsLast | app/security_tests/input_validation.py:287 | the dictionary of points has one point per key, the last listed |
| Requests.KeyedInOrder | app/security_tests/input_validation.py:287 | its keys come in the order in which they first occur among the points |
| Requests.KeyedPointsFit | app/security_tests/input_validation.py:287 | the builder's points always fit the isolation theorem |
| Requests.SerializePoints | app/security_tests/input_validation.py:288-304 | the loop leaves path, query, headers and cookies as specified, of which the statements of `Carried` say what they hold |
| Requests.ApplyOverrides | app/security_tests/input_validation.py:305-311 | the body is edited at exactly the overridden leaves |
| Requests.BuildPreparedRequest | app/security_tests/input_validation.py:283-321 | the built request is the specified one, of which the statements of `Carried` say what it holds and `SinglePointIsolation` what it changes |
| Carried.QueryCarries | app/security_tests/input_validation.py:291-304 | each query point contributes its name and text at its own place in the order of the points: the text of its baseline, or of its override if it has one |
| Carried.HeadersCarry | app/security_tests/input_validation.py:291-304 | the headers are those of the header points and no others, each with that text made safe for the wire |
| Carried.CookiesCarry | app/security_tests/input_validation.py:291-304 | the cookies are those of the cookie points and no others, each with that text |
| Carried.PathCarries | app/security_tests/input_validation.py:291-304 | the URL is the base URL joined with the template in which each path point's placeholder is filled with that text, percent-encoded |
| Carried.BodyCarries | app/security_tests/input_validation.py:305-311 | at each body point the body holds the override, or else what is documented there |
| Carried.BodyUntouched | app/security_tests/input_validation.py:305-311 | without an override at a body point the body is the documented one |
| Carried.BodySent | app/security_tests/input_validation.py:305-321 | JSON media types send the body as JSON, form types as form data, others as one field, no media type nothing |
| Carried.NothingSent | app/security_tests/input_validation.py:305-321 | without a documented body none is sent |
| Requests.SinglePointIsolation | app/security_tests/input_validation.py:283-321 | overriding one point changes that one placeholder, query entry, header, cookie or body leaf of the request and nothing else; only for a path point is the path's template assumed to have no nested braces |
| Requests.UnknownKeyIgnored | app/security_tests/input_validation.py:283-321 | an override that names no point changes nothing |
| Budgets.RequestBudget.Take | app/engines/custom.py:58-74 | a granted take counts once and comes at least 1/rate after the last; a refused one changes nothing |
| Budgets.DelayIsLeast | app/engines/custom.py:58-74 | the sleep is the least one that keeps grants 1/rate apart |
| Budgets.GrantedAtOnce | app/engines/custom.py:58-74 | a task that finds the lock free and budget left can be granted its request at once or 1/rate after the last grant |
| Budgets.RateAndBudgetKept | app/engines/custom.py:58-74 | over every interleaving of contending tasks: grants are counted exactly and within the budget, at least 1/rate apart, and no window of length T holds more than floor(T·rate)+1 |
| Budgets.ExhaustedStaysExhausted | engine_runner/main.py:69-88 | once the budget is used up nothing is granted any more |
| Budgets.SharesAddUp | app/engines/custom.py:98-161 | the grants of the tasks add up to the count |
| CheckMatrix.PrefixSinglesOutBaseline | app/coverage/service.py:95-101 | testing a reason's text for its prefix singles out exactly the failed baselines |
| CheckMatrix.ProbePoints | app/engines/custom.py:706-1113 | a probe loop with its early exits reports exactly the requests it was granted, and detects exactly if some payload at some point is evidence |
| CheckMatrix.InputValidationTests | app/engines/custom.py:672-1114 | the seven active checks have one row each. With QUICK and SAFE nothing is granted, and each row is SKIPPED for the profile exactly if the check has a point, else NOT_APPLICABLE. With STANDARD, DEEP and AGGRESSIVE each check with a point among the limited ones is TESTED or DETECTED, as its evidence says, the others NOT_APPLICABLE; `ssrf` is SKIPPED exactly if it has a point and no callback service, and ERROR exactly if the service fails |
| CheckMatrix.ActivePointsExactly | app/engines/custom.py:559-583 | the candidates of a check are the points it is about, by their place or the hints they match |
| CheckMatrix.ScalarPointsExactly | app/engines/custom.py:559-565 | points typed as booleans, objects and arrays are left out, the others kept in order |
| CheckMatrix.LimitedPointsExactly | app/engines/custom.py:667-670 | STANDARD mutates the first ten points, DEEP 25, AGGRESSIVE 50 |
| CheckMatrix.FailedRowsProduced | app/engines/custom.py:235-283 | after a failed baseline there is still one row per check, all without requests |
| CheckMatrix.FailedRowsSay | app/engines/custom.py:235-283 | after a failed baseline a check is SKIPPED for that reason exactly if it applies, else NOT_APPLICABLE |
| CheckMatrix.TestEndpoint | app/engines/custom.py:195-488 | on every path that returns, each of the thirteen checks has exactly one row: DETECTED for insecure transport exactly if it is; after an answer each passive check as it applies and observed, and the active ones as above unless a probe raised; after a failed baseline as `FailedRowsSay` says. The rows report no more requests than were granted, and exactly as many when none of the task's probes raised; then the baseline is TESTED |
| EngineRuns.AuthorizationTests | app/engines/custom.py:1116-1304 | one `bola` and one `bfla` row per endpoint, NOT_APPLICABLE, SKIPPED or run exactly as the operation and the identities say; requests within the grants, exactly the granted ones when none of its probes raised, and then no ERROR |
| EngineRuns.Execute | app/engines/custom.py:98-161 | a whole run on one budget, for every environment: a result that is given holds a produced matrix within the grants and the budget; with unique ids and no escaped exception each endpoint has each of the fifteen checks exactly once; if no probe of the run raised, there is a result, all baselines are tested, the engine is COMPLETED, and the matrix reports exactly the requests granted to the run's own tasks |
| EngineRuns.ExactlyOnce | app/engines/custom.py:98-161 | in a produced matrix without an escaped exception, every endpoint has exactly one row of each of the fifteen checks and the matrix has 15·n rows |
| EngineRuns.RequestsConserved | app/engines/custom.py:98-161 | such a matrix reports at most the granted requests, exactly as many when every task reported its own |
| EngineRuns.OverlappingConserved | app/engines/custom.py:98-161 | however the tasks overlap, each with the guarantee of `TestEndpoint` over its own span: the same bound, and equality when all was reported |
| EngineRuns.Gather | app/engines/custom.py:119-140 | the engine fails exactly when no baseline was tested although there are some, or when a task died and nothing was found |
| EngineRuns.UnansweredExactly | app/engines/custom.py:119-140 | of which the former means: there is a baseline row, and each of them has a status other than TESTED |
| Coverage.ApplyEndpointBaselines | app/services/orchestrator.py:480-506 | every record says what its last baseline row says; the count is that of the reached ones and the reasons are those of the others, in the order in which they first occur |
| Coverage.FirstReasonsAre | app/services/orchestrator.py:480-506 | those reasons are the unreached records' reasons, all of them and once each |
| Coverage.FirstReasonsGrow | app/services/orchestrator.py:480-506 | the reasons of the first records come first, so the first three shown are those of the earliest unreached ones |
| Coverage.SummarizeCheck | app/coverage/service.py:45-73 | a check's summary counts its rows by kind, its requests and its reasons |
| Coverage.SummarizeAll | app/coverage/service.py:7-15 | the totals of a group of checks are the numbers of its eligible and attempted rows, and what was blocked is exactly the difference |
| Coverage.BlockingReasons | app/coverage/service.py:91-101 | the reasons are those of the endpoints and of the blocked runtime rows, a failed baseline not counted again for its checks |
| Coverage.CalculateCoverage | app/coverage/service.py:18-164 | endpoint counts, one summary per check that occurs, totals over runtime, offline and all checks, reasons and verdict |
| Coverage.EligibleSplits | app/coverage/service.py:7-15 | what is eligible was attempted or is blocked |
| Verdicts.ReachedExactly | app/services/orchestrator.py:480-506 | an endpoint is reached exactly if its last baseline row is TESTED; else the reason is that row's, or that no baseline was completed |
| Verdicts.KindsExactly | app/coverage/service.py:45-73 | which statuses are eligible, attempted, detected, skipped, failed and blocked, and which checks are offline and runtime |
| Verdicts.AssessmentExactly | app/coverage/service.py:102-107 | for every inventory: INCOMPLETE exactly if no endpoint is reached; else PARTIAL exactly if some endpoint is not, or some runtime check was skipped or failed |
| Assessments.CustomMatrix | app/coverage/service.py:33-40 | the matrix is that of the custom engine without its baseline rows |
| Assessments.CompleteExactly | app/coverage/service.py:91-107 | for every inventory: COMPLETE if and only if there are endpoints, every id is reached and no runtime check is blocked |
| Assessments.ReasonsAgreeExactly | app/coverage/service.py:91-107 | for every inventory: COMPLETE agrees with the absence of blocking reasons if and only if the assessment is not silent, as said above |
| Assessments.CompleteIffNothingBlocks | app/coverage/service.py:91-107 | for a non-empty inventory with unique ids and the produced matrix: COMPLETE if and only if there are no blocking reasons |
| Assessments.CompletedExactly | app/services/orchestrator.py:279-285 | with unique ids, a scan ends COMPLETED if and only if no engine failed or timed out, there are endpoints, every one's baseline was tested and no applicable runtime check was skipped or failed |
| Assessments.Judge | app/services/orchestrator.py:251-285 | marking the inventory, accounting and deciding, for every inventory: COMPLETE and COMPLETED exactly under the conditions above, and COMPLETE exactly without reasons unless silent |
| Assessments.Assess | app/services/orchestrator.py:143-285 | the custom engine's run, the other engines' results and the verdict together: COMPLETED only with a produced matrix in which every id is reached and nothing is blocked, with unique ids exactly when everything was tested; the request totals of the report stay within the budget |
| Assessments.CoverageRequestsBounded | app/coverage/service.py:62 | the per-check request totals of the report of a matrix within the grants stay within the grants |
| Assessments.SharedIdHidesReason | app/services/orchestrator.py:484-488 | with a shared id the assessment is PARTIAL and no reason is given |
| Lifecycle.EnginesStartWithCustom | app/services/orchestrator.py:420-425 | the custom engine comes first and once; the others as often as asked for |
| Lifecycle.RequestsStandProgressGrows | app/services/orchestrator.py:449-517 | over every interleaving: a committed cancellation stands, progress never goes back and is 100 exactly when the reports are there |
| Lifecycle.HundredMeansSuccess | app/services/orchestrator.py:279-301 | the step that takes progress to 100 writes COMPLETED or PARTIAL |
| Lifecycle.CancelledInTime | app/services/orchestrator.py:264-301 | a cancellation committed before the last checkpoint reads the row: no report, and neither COMPLETED nor PARTIAL |
| Lifecycle.LateCancelIgnored | app/services/orchestrator.py:266-301 | past that read a cancellation comes too late: every such run can go on to write its reports and succeed |
| Lifecycle.DoneIsTerminal | app/services/orchestrator.py:302-310 | when the worker is done the scan is in a terminal status; COMPLETED only with reports and without engine failures |
| Lifecycle.UnreachableStopsScan | app/services/orchestrator.py:163-200 | engines start in order; if nothing of a non-empty inventory answered, no other engine starts, nothing is stored and the scan does not succeed |
| Lifecycle.WorkerStepsBounded | app/services/orchestrator.py:449-464 | the worker takes a bounded number of steps, even when paused and never resumed |
| Lifecycle.WorkerCanMove | app/services/orchestrator.py:449-464 | until it is done the worker can take a step once enough time has passed |
| Lifecycle.ControlSound | app/api/routes.py:258-293 | a control request never withdraws a cancellation, never moves progress, and writes CANCELLED only if it read QUEUED; a pause that read none sets the pause, a resume that read one clears it, everything else leaves it |
| Pauses.CheckpointReads | app/services/orchestrator.py:449-464 | what a checkpoint does with the row it reads: cancellation before timeout before pause before going on |
| Pauses.PausedReadsHold | app/services/orchestrator.py:449-464 | over every interleaving: from a committed pause until a resume request commits, no checkpoint that an uncancelled worker reads in time goes on to its point |
| Pauses.PauseStands | app/services/orchestrator.py:449-464 | over every interleaving: a pause stands until a resume request commits that read it |
| Pauses.PauseHolds | app/services/orchestrator.py:449-464 | until then a worker at a checkpoint starts no engine, finds, stores and reports nothing; it stays or stops for good |
| Pauses.PauseStopsEngines | app/services/orchestrator.py:449-464 | wherever the worker is when the pause commits, it starts at most the engine it had already decided to start |
| Pauses.PauseRecorded | app/services/orchestrator.py:449-464 | a worker that reads the pause next writes PAUSED, unless cancelled meanwhile, and sleeps two seconds in front of the same point |
| Pauses.ResumeGoesOn | app/services/orchestrator.py:449-464 | a worker that reads that a paused scan is resumed next writes SCANNING and goes on to its point |
| Pauses.StageWritten | app/services/orchestrator.py:78-310 | the status and progress every stage writes |
| Pauses.StageLeaves | app/services/orchestrator.py:78-310 | the inventory, the findings and the reports change in their own stages only |
| Pauses.AdvanceEngages | app/services/orchestrator.py:143-200 | an engine's stage begins that engine; a stage stops the scan exactly if the custom engine reached nothing of a non-empty inventory |
| Pauses.StartExactly | app/services/orchestrator.py:82-88 | a scan that is cancelled before its worker begins is not begun |
| Pauses.FailuresExactly | app/services/orchestrator.py:143-200 | over every interleaving: the scan has failures exactly if some engine failed, and then it is not COMPLETED |
| Pauses.TimeoutIsLate | app/services/orchestrator.py:449-464 | over every interleaving: TIMEOUT is written only once the scan has lasted as long as it may |
| Lifecycle.EngineProgressIs | app/services/orchestrator.py:143-200 | the progress after each engine is 30 and the whole part of its share of 40 |
| Lifecycle.TerminalChangesExactly | app/services/orchestrator.py:449-517 | in every reachable state with a terminal status: a step changes the status if and only if it overwrites it, as said above |
| Lifecycle.TerminalLasts | app/services/orchestrator.py:449-517 | in every run a terminal status lasts until the first step that overwrites it |
| Lifecycle.DoneSettles | app/api/routes.py:258-293 | once the worker is done the status stays, but for a cancel request that read QUEUED and has not committed yet, which can make it CANCELLED for good |
| Lifecycle.TerminalOverwritten | app/services/orchestrator.py:82-88 | a run in which CANCELLED is followed by INITIALIZING |
| Orchestration.Orchestrator.SafePoint | app/services/orchestrator.py:449-464 | the checkpoint loop ends, and either goes on or stops with CANCELLED, TIMEOUT or FAILED, in a run of the life cycle |
| Orchestration.Orchestrator.EngineLoop | app/services/orchestrator.py:143-200 | the engine loop with its checkpoints runs the life cycle's engine steps |
| Orchestration.Orchestrator.Conclude | app/services/orchestrator.py:279-301 | verdict, progress 100 and reports are committed together |
| Orchestration.Orchestrator.RunScan | app/services/orchestrator.py:78-310 | the whole program ends in a terminal status, whatever is requested meanwhile, and its history is a run of the life cycle |
| Scans.Publish | app/services/orchestrator.py:266-301 | after the reporting stage the scan's row says COMPLETED if and only if the stage was not interrupted, no engine failed or timed out, there are endpoints, every id is reached and no runtime check is blocked |
| Oast.HitsAreAttributed | app/oast.py:39-71 | over every interleaving of the halves of callbacks and polls: a hit is answered only if a callback for that token began after the token was registered |
| Oast.HitsAtMostCallbacks | app/oast.py:39-71 | over every interleaving: a token is answered hit at most once per written callback, and once more for each poll that saw the hit while another one was about to answer it |
| Oast.RepeatsExactly | app/oast.py:62-71 | a poll answers a hit that is already answered if and only if another poll answered after it began and no callback was written since |
| Oast.AnsweredOnceExactly | app/oast.py:62-71 | over every interleaving: between two answers of a hit a callback is written, if and only if no poll is overtaken |
| Oast.OneCallbackTwoHits | app/oast.py:62-71 | a run in which two overlapping polls answer one callback twice |
| Oast.TokensAreValid | app/oast.py:18-71 | over every interleaving: every token registered, called back or polled has 16 to 128 characters, without separators |
| Oast.RegisteredIsSeen | app/oast.py:39-60 | over every interleaving: a callback within 600 seconds of its token's registration is not lost, unless a poll answers the token first |
| Oast.CallbackIsSeen | app/oast.py:39-71 | over every interleaving: a poll within 600 seconds of a written callback sees the hit, unless another poll answered it or the token was registered anew |
| Oast.PollAnswers | app/oast.py:62-71 | a poll answers hit if it saw one, and otherwise at once no hit |
| Oast.DrawnTokensValid | app/engines/custom.py:1054 | the tokens the scanner draws are tokens of the collector |
| SsrfProbes.Prober.OastHit | app/engines/custom.py:634-651 | up to three polls, and all three without a hit; a hit goes back to a callback for the token |
| SsrfProbes.Prober.ProbePoints | app/engines/custom.py:1048-1092 | every `ssrf` finding is that of a point whose own token was called back, after it was drawn for that point when it was new; at most one finding and one request per point; a point without a finding had no live hit in the collector at some moment after its probe was sent |
| Correlation.CorrelateFindings | app/correlation/service.py:16-32 | the output holds, for every fingerprint that occurs, the merge of its findings and nothing else, the most severe first |
| Correlation.OneFindingPerFingerprint | app/correlation/service.py:16-32 | the merged findings have distinct fingerprints and cover those that occur |
| Correlation.MostSevereFirst | app/correlation/service.py:32 | the output is a permutation, most severe first, in first-reported order within a severity |
| Correlation.SeverityFalls | app/correlation/service.py:32 | no merged finding comes after one that is less severe, CRITICAL being worse than HIGH, MEDIUM, LOW and INFO in this order |
| Correlation.MergedSeverity | app/correlation/service.py:22-30 | no finding of the group is worse than the merged one, some finding is as bad, and two engines give HIGH confidence; worse is said severity by severity |
| Correlation.MergedCarries | app/correlation/service.py:22-30 | references and sources are those of the whole group, sorted and once each; everything else is one finding's |
| Correlation.ConfidenceExactly | app/correlation/service.py:22-30 | the confidence reaches the group's maximum if and only if two engines agree or one finding has both maxima |
| Correlation.ConfidenceLost | app/correlation/service.py:22-30 | a severe but uncertain finding hides a mild and certain one |
| Correlation.EvidenceConserved | app/correlation/service.py:27 | the output holds the input's evidence as a multiset |
| Correlation.CorrelationAnyOrder | app/correlation/service.py:16-32 | permuting the input keeps each fingerprint's severity, confidence, sources, references and evidence up to order |
| Compaction.CompactIsCompact | app/reporting/generator.py:30-37 | no empty member is left at any depth |
| Compaction.CompactKeepsCompact | app/reporting/generator.py:30-37 | compact values, and only those, are left alone |
| Compaction.CompactIdempotent | app/reporting/generator.py:30-37 | compacting twice is compacting once |
| Compaction.LeavesKept | app/reporting/generator.py:30-37 | at any depth, compacting loses no boolean, number or non-empty text and invents none, and each stays below the same keys |
| Compaction.CompactItemsAppend | app/reporting/generator.py:30-37 | in lists the items kept stay in order, each as often as it occurs |
| PentestReport.UniqueEvidence | app/reporting/generator.py:252-262 | the evidence kept for a location is compact, not empty, one per marker, and misses no marker |
| PentestReport.UniqueGrows | app/reporting/generator.py:252-262 | of equal pieces the first is kept, and later evidence comes later |
| PentestReport.AddEvidence | app/reporting/generator.py:252-262 | a location shows the first three different pieces of its evidence |
| PentestReport.Visit | app/reporting/generator.py:232-262 | a finding's evidence goes to its own location only |
| PentestReport.PentestPayload | app/reporting/generator.py:180-310 | the issues are the numbered, sorted groups, and the summary counts them |
| PentestReport.SeverityCounted | app/reporting/generator.py:284 | the summary's count of a severity is the number of its issues |
| PentestReport.IssuesPartitionFindings | app/reporting/generator.py:186-231 | every finding is in exactly one issue, that of its seven text fields |
| PentestReport.IssueReports | app/reporting/generator.py:186-282 | an issue has the highest severity and confidence, named in order, and the highest risk of its findings, their engines and locations once each, the first three pieces of evidence per location, the first finding's status and references, and its number |
| PentestReport.LocationsInOrder | app/reporting/generator.py:274-276 | an issue's locations come by path, and those of one path by method |
| PentestReport.LocationsCounted | app/reporting/generator.py:285 | the affected locations are as many as there are pairs of group and location |
| PentestReport.MaximumRiskOfFindings | app/reporting/generator.py:307-309 | the summary's maximum risk is that of all findings |
| PentestReport.IssuesSorted | app/reporting/generator.py:264-271 | most severe first, then by falling risk, then by title, with the severities named |
| PentestReport.IssueIdDistinct | app/reporting/generator.py:272-273 | the number can be read back from an issue id, which is `PT-` and at least three digits |
| Redaction.ScrubMatchless | app/core/logging.py:7-16 | scrubbed text contains no further credential |
| Redaction.ScrubIsSubstitution | app/core/logging.py:7-16 | scrubbing takes the leftmost credentials in turn, replaces each behind its scheme and keeps every other character in order |
| Redaction.TokenScrubbed | app/core/logging.py:7-16 | behind `Bearer` and `Basic` a token of the characters of section 2.1 of RFC 6750 is removed whole, up to the comma, semicolon, quote or blank that ends it |
| Redaction.RedactedIsSafe | app/core/logging.py:13-22 | at every depth, secret keys hold the replacement and other strings hold no credential |
| Redaction.SafeExactlyKept | app/core/logging.py:13-22 | safe values, and only those, are left as they are |
| Redaction.RedactIdempotent | app/core/logging.py:13-22 | redacting twice is redacting once |
| Redaction.RedactKeepsPlaces | app/core/logging.py:13-22 | outside secret keys every place of the data is kept, texts are scrubbed and all other values stay |
| Redaction.SecretKeyExactly | app/core/logging.py:7-12 | a key is secret exactly if it mentions one of ten words anywhere, in either case |
| ScopedRequests.EmptyHostAllowed | app/security/scope.py:16-22 | the empty host is allowed exactly by a rule of nothing but dots |
| ScopedRequests.WildcardExactly | app/security/scope.py:16-22 | a wildcard rule allows exactly the names made of something, a dot and its domain |
| ScopedRequests.HostMatchesExactly | app/security/scope.py:16-22 | so for every rule and host: a rule without a wildcard allows exactly the host it names |
| ScopedRequests.ReadBody | app/security/scope.py:114-121 | the body is read whole if and only if it is within the limit |
| ScopedRequests.EmptyAndNamedExactly | app/security/scope.py:16-22 | the empty host and another one are both allowed exactly if one rule is made of dots only and another is not |
| ScopedRequests.ValidatedInScope | app/security/scope.py:42-67 | what the guard accepts is named by a rule, as a wildcard or literally, has no trailing dot, and has resolved to some address, all of them global unless private ones are allowed |
| ScopedRequests.ValidateExactly | app/security/scope.py:42-67 | and exactly such targets are accepted |
| ScopedRequests.RedirectsExactly | app/security/scope.py:101-139 | a redirect is followed exactly for the five statuses, with a location, within the size limit, before the last hop and if redirects are to be followed |
| ScopedRequests.HopExactly | app/security/scope.py:101-139 | a hop sends its request exactly if the guard accepts the URL and its host is the first one, or there is none yet |
| ScopedRequests.Request | app/security/scope.py:101-139 | the loop with its early exits performs the run that the recursion over hops describes |
| ScopedRequests.RunSafe | app/security/scope.py:101-139 | for every world: each request is validated right before it is sent and is in scope, at most `max_redirects`+1 are sent, one without redirects; an answer is within the size limit; the final raise is reached only for negative `max_redirects` |
| ScopedRequests.FirstHostKept | app/security/scope.py:101-139 | all requests go to the host of the first one unless that host is empty |
| ScopedRequests.SameHostExactly | app/security/scope.py:101-139 | over all worlds and URLs: a client stays on its first host if and only if it follows no redirect or its rules do not allow both the empty host and another one |
| ScopedRequests.LeavesHost | app/security/scope.py:101-139 | a world in which a client that allows both leaves its first host |
| ScopedRequests.ExchangesBounded | engine_runner/main.py:417-457 | one grant per forwarded request bounds all exchanges by (`max_redirects`+1)·`max_requests` |
| ScopedRequests.ProxyJob.Forward | engine_runner/main.py:417-457 | a forwarded request takes one grant first and is exchanged after it, with the halves of other requests at any place between, and the bound on exchanges is kept |

## Left out

- HTTP transport, DNS, subprocesses, Redis, SQLAlchemy and Celery themselves, and the ZAP, Nuclei, Wfuzz and WuppieFuzz adapters: commits are atomic steps that write the changed attributes, and a scan is delivered once.
- Detector internals and evidence texts: what a payload shows at a point, what a passive check observes, whether a resource is exposed and what the callback service says are arbitrary functions of task, check and position (`CheckMatrix.Engine`), and a row's TESTED or DETECTED follows them.
- Findings produced inside the custom engine's checks, other than those of the `ssrf` check in `SsrfProbes`.
- CheckMatrix.ProbePoints: the probe loops of five active checks have the same shape and share one method; each check's own payloads and detectors are not modelled.
- CheckMatrix.ActiveCheck: the seven active checks are run by one loop over their names instead of seven consecutive blocks.
- EngineRuns.Execute: tasks run one after the other, each under the interference of arbitrary others on the same budget (`RequestBudget.Interference`), whose grants count as foreign; what carries over to tasks that overlap is `OverlappingConserved`.
- Reasons are values with their text (`CheckMatrix.ReasonText`); the counters of reasons are keyed by the value, and redaction of stored reasons is not applied.
- Coverage percentages, the authentication and authorization figures and the interpretation text: they only add divisions and lookups.
- PathTemplates.ReplaceAllFills: templates with nested braces are excluded, as sequential replacement then differs from simultaneous substitution.
- Requests.SinglePointIsolation: stated for string-keyed bodies; YAML documents with other key types, and list entries beyond the sampled ones, are not points.
- MutationPoints.BodyPoints: baselines of missing values (`_sample`) are part of the body it is given; lower-casing of schema types and `str` of values are parameters.
- Member order of mappings: bodies, points and dictionaries keyed by name have none, except the list of points.
- BodyStores.ReplaceBodyValue: the deep copy itself is the assumption that the body shares no container with itself or anything else.
- `urljoin`, `urlsplit` and IDNA encoding: parameters of the request builder and the client.
- `_parameters`, `_servers`, `load_document` and the inventory: only the resolver and the request side of the ingestion are modelled.
- Lifecycle.RequestsStandProgressGrows: engine progress uses exact division instead of floating point, which may differ by one; failures of the database itself and signals that interrupt a commit are not modelled.
- Orchestration.Orchestrator.RunScan: the state of database, clock and session is one field holding a value that the methods reassign; `_context`, secrets and the contents of findings, inventory and reports are left out.
- Oast.HitsAreAttributed: expiry makes a key invisible from its deadline on; a token is known to the collector only through its three routes, and the service credential check is left out.
- SsrfProbes.Prober.ProbePoints: the randomness of tokens is a parameter; that a token is new when drawn is a case of the statement, not an assumption.
- Correlation.CorrelateFindings: the fingerprint is any function of endpoint, method, parameter and category; text fields are carried as one value.
- PentestReport.PentestPayload: groups, location maps and marker sets are values that the loops reassign; that a location is one object reachable from two containers is not modelled. `test_coverage`, `_assessment_status`, scan metadata and limitations are copied fields and left out.
- PentestReport.UniqueEvidence: how evidence is shortened and serialised to a marker are parameters.
- Redaction.RedactedIsSafe: tuples, sets and non-string keys, which become lists and strings, are left out; Unicode's word and space classes are parameters constrained by the facts used. `redact_known` is not modelled.
- ScopedRequests.Request: URL splitting, IDNA with lower-casing, the resolver, `is_global` and the servers are any functions; the response object is its status, body and location.
- ScopedRequests.ProxyJob.Forward: the refusals before the grant (unknown job, body too large) and the answer's headers.
- InPlaceBodies.ApplyInPlace: override values are stored apart from the body and from each other.
- Scans.Publish: that the row's failures are those of the engines judged is its precondition, as the engine loop records them.
- `_rewrite_wuppie_specification`, `_contains_external_reference`, `_authentication_headers`, `calculate_risk`, `_limits`: they would only add easy members.
- Rendering of reports, the dashboard, routes other than `_control`, settings, migrations and fixtures.
