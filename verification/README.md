# Aero Arc test harness: verified model

This project models the parts of the Aero Arc federation test harness whose behaviour depends on
state, concurrency or arithmetic, and proves what they promise:

- **The fixture DSS** (`internal/fixture/server.go`): a reference store with optimistic concurrency, a table
  of bounded faults, an event journal and a sequence counter, served by any number of concurrent HTTP
  handlers. `HandlerProgram` writes each handler as a program whose steps are the sections the code executes
  atomically; `Schedule` interleaves any number of them in any order. `Linearizability` and its converse
  `Realization`, `WrittenReferences`, `Replies`, `FaultErasure`, `CasChain`, `RetrySafety`,
  `JournalNumbering`, `NumberReuse`, `JournalBalance` and `FaultBudget` state what holds of every schedule.
  `FixtureServer` is the server as an object with fields updated in place; its methods keep its invariant
  and are proved to do what the handler programs do when they run alone (`SoloRun`), and `LogReplay` is
  about such runs. Where the code needs a proviso, its exact form is proved for all schedules, and
  `Provisos` holds a run that violates it: numbers repeat or restart after a reset, a reset overtakes a
  commit, an OVN is accepted in a later incarnation.
- **The scenario runner** (`scenarios/runner.go`): `ScenarioRunner`, `ScenarioGuarantees`, `ScenarioTrace`.
- **The report of a `go test -json` stream** (`reports/report.go`): `TestReport`, `ReportGuarantees`, `ReportContents`.
- **Invariant checks, the observer and the polling loop** (`assertions/invariants.go`): `Convergence`, and
  `StableViolation`, which composes them with the fixture.
- **The repeatability aggregate** (`cmd/e2e-repeat-report/main.go`): `RepeatReport`, `RepeatContents`,
  `RepeatGuarantees`.

`Wrappers`, `Ovn` and `Sorting` are shared. What operations write, answer, record and report is stated
twice: by the functions the operations are proved to compute, and in plain terms that do not mention those
functions. A schedule is any sequence of labels: a label that is not possible where it stands changes
nothing, so a statement about `Run(c, ls)` is about every interleaving. Clock readings, cancellation,
decoded bodies, map iteration orders and the order a library sort leaves ties in are inputs or left open.

`dafny verify dfyconfig.toml` checks everything.

Where the code and its documentation differ, the code is followed. The README calls a lost create
response and a rotated OVN recoverable by retrying; the model shows exactly when: presenting an OVN commits
if and only if the identifier's current incarnation is at the version it was printed from
(`CasChain.CommitsIffPresentsLastOvn`), which after a delete may be a later incarnation than the one the
client knows (`Provisos.OvnsRepeatAcrossIncarnations`). Sequence numbers stay distinct if and only if every
reset zeroes the counter while no number is in use (`NumberReuse.DistinctIffTimely`).

## Model

| member | source | states |
|---|---|---|
| Ovn.PrintInjective | internal/fixture/server.go:187-195 | no two different (id, version) pairs print the same OVN, for ids with any hyphens and digits |
| Ovn.PrintReadsBack | internal/fixture/server.go:187-195 | the tag starts with `ovn-`, and its last hyphen separates the identifier from a numeral whose value is the version |
| Linearizability.EveryScheduleLinearizes | internal/fixture/server.go:280-331 | after every schedule the reference map is the atomic store's after the store sections in their order, each request is in that order at most once, and every handler that settled on a status and reply through the store has those of the atomic store at its own section |
| Linearizability.SectionRefinesAtomic | internal/fixture/server.go:280-331 | the store section shared by create and update, the delete section and the reads each do to the map, and decide, what the separately defined atomic operation does |
| Linearizability.DecideDeleteRefinesAtomic | internal/fixture/server.go:353-369 | deciding a delete again outside the lock, from the copy taken inside, gives the outcome the locked part had |
| Linearizability.FinishedRequestIsSettled | internal/fixture/server.go:256-332 | a finished request's reply and journal entry are the atomic store's outcome seen through its fault, or it was answered before the store for one of the listed reasons |
| Linearizability.RealTimeOrder | internal/fixture/server.go:256-370 | a request answered before another arrives precedes it in the linearization |
| Realization.EveryOrderIsServed | internal/fixture/server.go:256-370 | conversely, every order of atomic accesses by different requests is that of a schedule in which each request gets the atomic store's answer |
| Realization.SchedulesHaveOrderlyAccesses | internal/fixture/server.go:256-370 | the orders of accesses of schedules are exactly those of different requests that reach the store |
| Linearizability.StoredReferencesAreCoherent | internal/fixture/server.go:299-313 | in every reachable state a stored reference names its key, has version at least 1 and the OVN printed from both |
| WrittenReferences.CommitWritesBody | internal/fixture/server.go:299-314 | a committed create or update writes exactly one entry: the body's state, extents and URL (the configured one if empty), the configured manager, the fixed subscription and availability, an hour from a minute ago, and the next version |
| WrittenReferences.CommittedReference | internal/fixture/server.go:299-331 | the same at any store section of a schedule: what was written is what the store holds right after it and what the outcome tells |
| WrittenReferences.StoredEntryIsLatestPut | internal/fixture/server.go:187-314 | after every schedule a stored entry has, field by field, what the latest committed create or update of its incarnation asked for; only rotations have changed it since |
| WrittenReferences.RotationKeepsFields | internal/fixture/server.go:187-196 | a rotation changes version and OVN of one entry and nothing else |
| Replies.RequestsInPlainTerms | internal/fixture/server.go:226-370 | in every schedule, a finished request that no fault stopped changed the store, answered and journaled what its operation, the store before its section and its fault call for |
| Replies.BypassesInPlainTerms | internal/fixture/server.go:218-278 | the same for requests that do not reach the store: undecodable bodies, subscriptions and notifications |
| Replies.InjectedStatusIsAnswered | internal/fixture/server.go:264-274 | a finished request whose fault has a status answered and journaled exactly it, with the message or truncated, or was cancelled in a positive delay, journaled 499 and sent nothing |
| Replies.DelayDecides | internal/fixture/server.go:400-413 | which of the two it is depends on whether the context was cancelled when the delay ended |
| Replies.SnapshotIsJournaled | internal/fixture/server.go:426-453 | the fault in a request's event is, field by field, the plan armed for its operation when it came to the fault table, and none if none was |
| Replies.EventsIdentifyRequests | internal/fixture/server.go:445-453 | an event carries its request's method, path, operation name and intent id |
| Replies.EventIsStamped | internal/fixture/server.go:445-453 | and the number and time of the moment the request drew its number |
| Replies.ControlInPlainTerms | internal/fixture/server.go:137-202 | a control request answers and changes, at its section, exactly what its operation is for; exactly the acceptable plans are armed |
| FaultErasure.FaultsOnlyStopRequests | internal/fixture/server.go:264-346 | erase from a schedule all arming and every request a fault stopped: the fault-free rest performs the same store sections and has the same reference map after every prefix |
| FaultErasure.ErasedIffInjectedOrCancelled | internal/fixture/server.go:264-274 | a finished request was stopped, hence erased, exactly if its fault has a status or its event shows it cancelled |
| FaultErasure.LateFaultsStopNothing | internal/fixture/server.go:264-330 | a fault without a status whose delay is not cancelled, be it delayed, closed after commit or truncated, never stops its request |
| FaultErasure.VerdictPersists | internal/fixture/server.go:264-274 | once a fault has stopped a request or let it through, no later step of any handler changes that |
| CasChain.CommittedVersionsFormAChain | internal/fixture/server.go:299-313 | at every point the current incarnation's writes have versions 1, 2, ..., k in order without gap, the first and only the first is a create, every update presented its predecessor's OVN, and the store holds the last |
| CasChain.CommitsIffPresentsLastOvn | internal/fixture/server.go:293-352 | an update or delete commits if and only if it presents the OVN of the write immediately before it in the current incarnation, so an OVN of an earlier incarnation commits exactly when the current one has got to its version |
| CasChain.SingleWinner | internal/fixture/server.go:287-352 | two commits presenting the same OVN of an identifier have a delete of it or a reset between them |
| RetrySafety.CreateRetriesCommitOnce | internal/fixture/server.go:281-286 | of any number of creates of an absent identifier, without delete or reset among them, exactly the first commits and every other is refused as existing |
| RetrySafety.PresentingRevealedOvn | internal/fixture/server.go:287-360 | presenting an OVN that a read, commit or refusal revealed commits if and only if the incarnation is as long as it was then; within one incarnation it commits if no write came in between and is refused as stale if one did |
| RetrySafety.ToldOvnSucceeds | internal/fixture/server.go:204-360 | the same for two clients in any schedule, read off the first one's reply (single read, listing, commit or refusal) and the second one's event, whatever faults they met; unfaulted, committing and being answered 200 are the same |
| RetrySafety.CreatingHandlersCommitOnce | internal/fixture/server.go:281-330 | of any number of handlers creating one identifier, without delete or reset, exactly one commits; no other event shows a commit, but 409, a stopping fault or an undecodable body |
| JournalNumbering.CompletedMeansJournaledOnce | internal/fixture/server.go:400-424 | a DSS or peer request has completed exactly when it has appended an event, and it never appends two |
| JournalNumbering.NumbersAreExact | internal/fixture/server.go:445-453 | if resets zero the counter only while no number is journaled or held, no sequence number repeats, and when nothing is under way the numbers are exactly 1..n |
| NumberReuse.DistinctIffTimely | internal/fixture/server.go:137-145 | that condition is exact: numbers stay distinct from every point of a schedule on, however it goes on without a reset, if and only if the schedule meets it |
| NumberReuse.DistinctIffCollisionless | internal/fixture/server.go:445-453 | at any point of any schedule, all reset-free continuations keep the numbers distinct if and only if no number is then in use twice or still to be drawn |
| NumberReuse.DistinctAfterZeroingIff | internal/fixture/server.go:138-143 | right after a reset zeroed the counter: if and only if the journal is empty and no handler holds a number |
| NumberReuse.LaterNumbersAreGreaterIff | internal/fixture/server.go:445-453 | requests yet to arrive get numbers greater than n, however the run goes on without a reset, if and only if the counter has reached n |
| JournalNumbering.NonOverlappingRequestsAreOrdered | internal/fixture/server.go:445-453 | without a reset between them, a request journaled before another arrives precedes it by position, and by number if earlier resets were timely |
| JournalBalance.EventDenotesCommit | internal/fixture/server.go:326-370 | a request's event has a success code or 0 and no injected status if and only if the request committed in its store section |
| JournalBalance.SingleWinnerAmongHandlers | internal/fixture/server.go:256-370 | in any schedule, if the events of two handlers presenting one OVN denote commits, replies lost after the commit included, the incarnation ended between their store sections |
| JournalBalance.JournalBalances | internal/fixture/server.go:256-370 | at every moment of every schedule, committed creates minus committed deletes of an identifier, journaled or on their way, are 1 if it is stored and 0 if not, if and only if the latest reset overtook as many committed creates of it as deletes |
| JournalBalance.QuiescentResetOvertakesNothing | internal/fixture/server.go:137-145 | a reset with nothing else under way overtakes none, so the balance holds after it |
| JournalBalance.QuiescentJournalBalances | internal/fixture/server.go:445-453 | when nothing is under way the journal alone decides which identifiers are stored, up to what the latest reset overtook |
| FaultBudget.BudgetIsConserved | internal/fixture/server.go:147-168 | for every operation and schedule, Times accepted equal snapshots handed out plus Times stored plus Times discarded by re-arm, clear and reset; stored plans are never spent |
| FaultBudget.SnapshotsFollowTheArmInForce | internal/fixture/server.go:426-443 | a snapshot has the behaviour of the latest arm not wiped since and is within its Times; nothing is found only when there is none left |
| FaultBudget.ArmHitsExactlyTheNextRequests | internal/fixture/server.go:426-443 | an arm with Times n hits exactly the next n requests of its operation, as long as it is not replaced or wiped |
| Provisos.UntimelyResetRepeatsNumbers | internal/fixture/server.go:137-145 | a reset while a request holds a drawn number makes the journal repeat it |
| Provisos.ResetRestartsNumbers | internal/fixture/server.go:137-145 | a reset between two requests that do not overlap, at quiescence even, lets the later have the same number |
| Provisos.OvertakenCreateUnbalances | internal/fixture/server.go:137-145 | a reset overtaking a committed create leaves a journal with a create of an identifier that is not stored |
| Provisos.OvnsRepeatAcrossIncarnations | internal/fixture/server.go:281-313 | a schedule of four handlers: after delete and create, an update presenting the OVN told in the earlier incarnation is answered 200 |
| SoloRun.SoloScheduleServes | internal/fixture/server.go:256-332 | a request that arrives and is not interleaved leaves the machine as `Serve` says, which is what the server object's methods compute |
| LogReplay.JournalReplaysToStore | internal/fixture/server.go:299-369 | for any requests served one at a time, replaying the committed events since the last reset gives the stored identifiers, and their versions less the rotations of the incarnation |
| LogReplay.JournalReplaysInMachine | internal/fixture/server.go:299-369 | the same of the concurrent machine, in any schedule whose handlers arrive and run one after the other |
| FixtureState.TrimSlashes | internal/fixture/server.go:106-107 | exactly the trailing slashes of an advertised URL are dropped |
| FixtureServer.Server.constructor | internal/fixture/server.go:94-112 | a new server is empty and advertises the defaulted manager and trimmed URLs |
| FixtureServer.Server.TakeFault | internal/fixture/server.go:426-443 | one request's section on the fault table, as in the concurrent machine, with the armed plan's fields in the snapshot, and nothing else changes |
| FixtureServer.Server.Record | internal/fixture/server.go:445-453 | the counter advances by one and an event with that number, the given time and status, and the request's method, path, operation and intent is appended |
| FixtureServer.Server.Respond | internal/fixture/server.go:415-424 | journals first, then answers, truncated when the fault says so |
| FixtureServer.Server.PreCommitFault | internal/fixture/server.go:400-413 | ends the request if and only if it was cancelled in the delay (499 journaled, nothing sent) or a status is injected (exactly that status answered and journaled), and otherwise changes nothing |
| FixtureServer.Server.ListReferences | internal/fixture/server.go:177-183 | lists every stored reference exactly once, in some map order |
| FixtureServer.Server.HandleQueryReferences | internal/fixture/server.go:204-216 | state and reply are those of the uninterrupted handler program, and a full reply lists the store at its section |
| FixtureServer.Server.HandleSubscriptions | internal/fixture/server.go:218-224 | state and reply are those of the uninterrupted handler program |
| FixtureServer.Server.HandleGetReference | internal/fixture/server.go:226-240 | state and reply are those of the uninterrupted handler program |
| FixtureServer.Server.RefusePut | internal/fixture/server.go:281-298 | refuses exactly a create of a stored entry and an update of an absent one or with another OVN, as the handler program does |
| FixtureServer.Server.StoreReference | internal/fixture/server.go:299-314 | writes the entry the body asks for, field by field, with the next version and its OVN, and nothing else |
| FixtureServer.Server.PutReference | internal/fixture/server.go:280-332 | from the lock on, create and update do what the handler program does, and if the store changed it holds what the body asked for |
| FixtureServer.Server.HandlePutReference | internal/fixture/server.go:256-332 | state and reply are those of the uninterrupted handler program, on every path; if the store changed it holds what the body asked for |
| FixtureServer.Server.DeleteReference | internal/fixture/server.go:347-370 | from the lock on, delete does what the handler program does, with the reply decided after the entry is gone |
| FixtureServer.Server.HandleDeleteReference | internal/fixture/server.go:334-370 | state and reply are those of the uninterrupted handler program |
| FixtureServer.Server.HandlePeerDetails | internal/fixture/server.go:372-389 | state and reply are those of the uninterrupted handler program |
| FixtureServer.Server.HandlePeerNotification | internal/fixture/server.go:391-398 | state and reply are those of the uninterrupted handler program; truncation does not apply |
| FixtureServer.Server.HandleRotateOvn | internal/fixture/server.go:187-202 | bumps version and OVN without journaling, or answers 404 |
| FixtureServer.Server.HandleReset | internal/fixture/server.go:137-145 | alone, leaves an empty server |
| FixtureServer.Server.HandleFault | internal/fixture/server.go:147-161 | rejects exactly the plans without operation or positive times, with a negative delay or a status outside 0..599, and stores the others |
| FixtureServer.Server.HandleClearFaults | internal/fixture/server.go:163-168 | removes every plan and nothing else |
| FixtureServer.Server.HandleEvents | internal/fixture/server.go:170-175 | answers the journal and changes nothing |
| FixtureServer.Server.HandleState | internal/fixture/server.go:177-185 | answers an enumeration of the store and changes nothing |
| Convergence.ActiveRequiresDssActivated | assertions/invariants.go:43-64 | fails exactly for an active intent not backed by the same published version confirmed and visible as Activated |
| Convergence.BlockedVersionHasNoDssReference | assertions/invariants.go:66-81 | fails exactly when a blocked publication's desired or a newer version is visible |
| Convergence.ObserveDssReference | assertions/invariants.go:207-216 | present if and only if an entry has the id; then version, state, OVN, manager and URL are those of the first such entry, otherwise nothing |
| Convergence.Eventually | assertions/invariants.go:219-257 | on success the last sample passes all checks and every earlier one fails some; on expiry every sample failed and the results are the last sample's; the waits follow the backoff |
| Convergence.SamplesAreTheSnapshots | assertions/invariants.go:226-231 | every snapshot that succeeded is a sample, in its place, and no other |
| Convergence.WaitClosedForm | assertions/invariants.go:249-254 | the k-th wait is min(interval * 2^k, 1s) below a second and the interval itself otherwise |
| Convergence.WaitsFollowInterval | assertions/invariants.go:221-254 | the k-th wait of a polling run in terms of its interval: min(interval * 2^k, 1s), the interval itself from a second on, and 100 ms as the interval if none is given |
| Convergence.DoublingsReachASecond | assertions/invariants.go:249-254 | the doublings counted are the least number that reaches a second, that is ceil(log2(1s / interval)) |
| Convergence.WaitsAreBounded | assertions/invariants.go:243-255 | completed waits within a budget number at most the doublings plus floor(budget / 1s), or floor(budget / interval) |
| StableViolation.ScanIsLookup | assertions/invariants.go:207-216 | for every map order the scan of a listing finds, field by field, the entry a lookup of the id finds, or nothing |
| StableViolation.ObserveServer | assertions/invariants.go:181-217 | state handler and observer together return the stored entry field by field, or absence |
| StableViolation.TakeSnapshot | assertions/invariants.go:165-173 | a snapshot's DSS existence, version, state and OVN are the stored entry's own, and the rest is the publication row's |
| StableViolation.ChecksReadTheStore | assertions/invariants.go:43-81 | the two checks on such a snapshot, in terms of the row and the stored entry |
| StableViolation.ViolationIsStable | assertions/invariants.go:68-81 | a failed blocked-version check fails at every later point of the incarnation while the row stays blocked at no newer version |
| StableViolation.PollingCannotSucceed | assertions/invariants.go:221-257 | in any schedule, polling that includes the failed check and samples only such points cannot converge |
| ScenarioRunner.RunSteps | scenarios/runner.go:96-115 | attempts the steps in order up to the first failure, recording each and keeping every cleanup, a failing step's included |
| ScenarioRunner.RunChecks | scenarios/runner.go:76-92 | evaluates the checks in order up to the first error or failed result |
| ScenarioRunner.RunCleanups | scenarios/runner.go:61-69 | runs all cleanups from the last to the first and joins their errors behind the run's own |
| ScenarioRunner.Run | scenarios/runner.go:50-94 | a scenario without name or timeline does nothing but fail; any other ends as `Outcome` says |
| ScenarioGuarantees.RunRestoresEnvironment | scenarios/runner.go:48-94 | if cleanups undo their steps, cleanup-less steps change nothing and checks only read, every run ends where it began, wherever it failed |
| ScenarioGuarantees.CleanupsRunOnceInReverse | scenarios/runner.go:61-69 | any cleanups are executed exactly once, last first, each in the environment the one before left, whichever fail; the errors joined are exactly the causes they returned, in that order; a log that does not disturb them sees the same |
| ScenarioGuarantees.RunExecutesItsCleanupsOnce | scenarios/runner.go:48-94 | the same of the cleanups a run registered, wherever it stopped, joined behind the run's own error |
| ScenarioGuarantees.TimelineFollowsPlan | scenarios/runner.go:70-115 | the records are a prefix of Given, When, Then in order, all "pass" except the last of a stopped run |
| ScenarioGuarantees.NoErrorIffAllPassed | scenarios/runner.go:50-94 | no error exactly when everything planned was attempted and passed and no executed cleanup returned an error |
| ScenarioTrace.RunIsTraced | scenarios/runner.go:70-115 | a run's body is a chain of attempts of its actions and checks, each in the environment the one before left, up to the first that failed: the records show what each returned, the cleanups are those they returned, failing steps included, and the error is that of the failed one, with phase, name and cause |
| ScenarioTrace.RunSucceedsIff | scenarios/runner.go:50-94 | a run reports no error if and only if every planned action and check was attempted and succeeded and every executed cleanup did |
| ScenarioGuarantees.ChecksOnlyAfterPassedSteps | scenarios/runner.go:70-92 | a Then check is attempted only after every Given and When step passed |
| TestReport.ReadEvents | reports/report.go:50-78 | fails exactly on an undecodable line; otherwise the table and duration of the whole stream |
| TestReport.FindParents | reports/report.go:84-92 | exactly the entries with a slash-descendant in their package, for every map order |
| TestReport.CollectLeaves | reports/report.go:93-110 | every leaf's final result once, with counts by status that add up |
| TestReport.Parse | reports/report.go:47-118 | succeeds exactly on a readable stream, with the sorted leaf results and their counts |
| ReportContents.ReportedTestsTellTheirEvents | reports/report.go:64-101 | every reported test was seen; its status and elapsed time are those of its last pass, fail or skip event and its output is all of its events', or it never ended and is failed with 0 s and the closing line |
| ReportContents.ListedIffLeaf | reports/report.go:84-101 | a test is listed if and only if it was seen and no subtest of it was |
| ReportContents.CountsAreOfTheListed | reports/report.go:102-109 | passed, failed and skipped are the numbers of listed tests with that status, and there is no other status |
| ReportContents.ListingIsOrdered | reports/report.go:111-116 | listed tests are strictly ascending by package, then by name, in lexicographic order |
| TestReport.ToJunit | reports/report.go:243-263 | one case per test in order with its name, package, time and output; failed ones carry the output as failure, skipped ones are marked |
| ReportGuarantees.ReportIsUnique | reports/report.go:93-117 | all map orders and all correct sorts give one report |
| ReportGuarantees.ParseIgnoresInterleaving | reports/report.go:47-118 | streams that differ only in interleaving parse to the same summary apart from the timestamp, if no two tests share a key |
| ReportGuarantees.TableIgnoresInterleavingIff | reports/report.go:64-77 | the table of results is independent of interleaving if and only if no two tests share a composite key |
| ReportGuarantees.PackagesWithoutNul | reports/report.go:64 | package names without NUL are enough for that |
| ReportGuarantees.EveryTestIsCovered | reports/report.go:84-101 | every test seen is reported itself or through a slash-descendant of its package |
| ReportGuarantees.ReportIsAntichain | reports/report.go:84-101 | no reported test is a slash-ancestor of another |
| ReportGuarantees.JunitAgreesWithItself | reports/report.go:243-263 | the suite's totals equal the marks on its cases and the summary's counts |
| RepeatReport.ReadRuns | cmd/e2e-repeat-report/main.go:75-109 | stops at the first corrupt summary, skips entries without one, otherwise tallies all runs and tests |
| RepeatReport.Rank | cmd/e2e-repeat-report/main.go:114-117 | sorts a scenario's durations and picks maximum and percentile within bounds |
| RepeatReport.Aggregate | cmd/e2e-repeat-report/main.go:68-123 | the aggregate of the readable runs, the first corrupt entry, or no runs, each exactly when due |
| RepeatGuarantees.PercentileIsNearestRank | cmd/e2e-repeat-report/main.go:114-117 | p95 is the least recorded duration with at least 95% at or below it; the maximum is the greatest |
| RepeatGuarantees.FewExecutions | cmd/e2e-repeat-report/main.go:115-117 | with fewer than 20 executions p95 is the maximum |
| RepeatContents.RunsAreTheSummaries | cmd/e2e-repeat-report/main.go:75-87 | the runs aggregated are the readable summaries of the directory, each in its place, and no others |
| RepeatContents.RunsAreCounted | cmd/e2e-repeat-report/main.go:87-93 | failing runs are exactly those that count a failed test; they are counted and their ids listed in ascending order, as often as they occur |
| RepeatContents.AllTestsAreThoseOfTheRuns | cmd/e2e-repeat-report/main.go:94-95 | the tests aggregated are those of every run, none left out |
| RepeatContents.ScenarioIsCounted | cmd/e2e-repeat-report/main.go:96-107 | a scenario's executions, passes, failures and durations are those of the tests of its name |
| RepeatContents.ScenariosAreOrdered | cmd/e2e-repeat-report/main.go:120 | scenarios are listed strictly ascending by name |
| RepeatGuarantees.NothingIsLost | cmd/e2e-repeat-report/main.go:87-108 | passing plus failing runs are the runs, executions sum to the tests, failed ids are as many as failing runs |
| RepeatGuarantees.AggregateIgnoresOrder | cmd/e2e-repeat-report/main.go:75-122 | permuting runs, or tests within runs, changes nothing but the timestamp |

## Left out

- Integer widths: sequence numbers, versions and counts are unbounded; wrap-around after 2^63 or 2^64 requests is not modelled.
- HTTP itself: headers, hijacking, content of error texts, and what net/http does with injected statuses below 200 or with bodies of 204 replies. A dropped or abandoned connection is `NoReply`.
- Reference fields are scalars: time objects are their seconds, extents are opaque strings; JSON, XML and Markdown encoding are not modelled.
- The listing in a query or state reply is the map; its order in the array is the second result of `HandleQueryReferences` and `HandleState`.
- `GET /healthz`, `DecodeEvents` and `ParseRetryAfter`: single-branch helpers.
- The mutex is modelled by its sections being single steps; the methods of the server object run without interference, and interference is modelled on values by `Schedule`.
- Convergence.Eventually: requires that the context expires at some point of the presented rounds, because the loop need not end otherwise; rounds are an input, not a clock.
- The SQL of `Probe.Snapshot` and the observer's HTTP client: a snapshot, or its failure, is an input.
- The evidence maps attached to check results and timeline events.
- ScenarioRunner.Run: the environment is a value passed along, not mutated in place, and contexts, timeouts and panics are part of what actions may depend on, not modelled separately; a timeline write never fails the run, as in the code.
- RepeatReport.Rank: durations are real numbers and the rank is the exact ceil(19n/20); floating-point rounding and NaN are not modelled.
- Reading files and directories, and the writers of report bundles.
- Parent tests: a failure recorded only on a parent test is dropped by design of the report, so no claim that zero failures means no fail event.
- Stack, container, Toxiproxy and real-DSS code: plumbing with little logic of its own.
