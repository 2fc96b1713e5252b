# Classroom Token Hub: a Dafny model of its hard invariants

This project models the parts of the classroom economy server whose promises are
about whole runs, not single calls, and proves those promises for every input,
every run and every interleaving.

| file | what it models |
|---|---|
| `Measurements.dfy`, `Vocabulary.dfy` | the schema of a status snapshot, the request classification and the re-validation of stored activity |
| `SnapshotStore.dfy` | the telemetry transaction: source minutes, day counters, failure attempts, current pointer |
| `SnapshotRuns.dfy` | what every run of that transaction keeps |
| `LogSampler.dfy` | how the sampler turns log-query replies into a snapshot |
| `SchedulerOwnership.dfy` | the scheduler's lock protocol as a transition system of any number of processes |
| `OwnershipLoop.dfy` | the procedures of that protocol on one process's globals, shown to be paths of the transition system |
| `Attendance.dfy` | active seconds of a range from an append-only log |
| `MigrationGraph.dfy` | the migration graph checker |
| `GuardAnalysis.dfy` | the static check that migration calls are guarded, against a semantics of runs |
| `LookupFraming.dfy` | the JSON framing under the lookup digests, with a decoder, and the labelled callers |
| `NotFoundCache.dfy` | the capped cache that rate-limits 404 logging |
| `LedgerGuards.dfy` | currency rounding and the immutability guard of ledger rows |
| `LineageSession.dfy` | the session hooks that force audit lineage before a commit |
| `AssessObligation.dfy` | the savepoint race on a partial unique index |
| `IntervalInvalidation.dfy` | the preview-then-apply command with replay |

Conventions. Times are integers in microseconds. Strings that the telemetry code
spells out are constructors of `Vocabulary.Word`; a timestamp text stands for the
UTC instant it denotes. Digests and signatures stand for the values they are
taken of, so they are free of collisions. A method that changes state is proved
against a function of the old state, and the promises are lemmas about that
function over runs. A lemma whose name ends in `Exactly` tells an operation by what
goes in and comes out, without the functions that define it. Percentages are exact
numbers.

Where the code keeps less than a reader would expect:

- `app/scheduled_tasks.py:974-976` says that a stray direct call cannot start a
  second scheduler. The gate reads the recorded connection, which a release
  clears last, so a call between the wait for jobs and that point starts the
  scheduler again and its jobs can overlap a successor's.
  `SchedulerOwnership.NoOverlapExactly` says when overlap is impossible.
- Attendance in whole seconds need not be additive over adjacent ranges: the code
  truncates once per range, as its comment says, and two truncated remainders can
  make a second. `Attendance.AlternatingRangesAddUp` gives the condition in terms
  of the marks and bounds, `Attendance.WholeSecondsAddUp` a check that a caller can
  make, and `Attendance.SecondsNeedNotAddUp` the example.

## Model

| member | source | states |
|---|---|---|
| Measurements.ValidateSnapshot | status/measurements.py:65-111 | the validator's loop over `seen` accepts a payload exactly when the declarative schema holds of it |
| Measurements.ValidateFreshSnapshot | status/measurements.py:114-121 | accepted exactly when valid and between zero and five minutes old at receipt |
| Measurements.EachKeyExactlyOnce | status/measurements.py:75-84 | a valid snapshot names every component of its schema version exactly once: the length test and the duplicate test together leave no gap |
| Measurements.SoloValidity | status_service/log_sampler.py:146-149 | a snapshot with one reporting component and the rest unavailable is valid exactly when that component is valid and stands under its own key |
| Measurements.ClassifyComponent | status/measurements.py:124-163 | the state by precedence, the one reason of each state without a judgement, and otherwise reasons and percentages that are those of the counts; comparing a percentage is comparing counts |
| Measurements.MeasuredExactly | status/measurements.py:88-111 | the limits and relations of a reporting component's counts and latencies, one by one |
| Measurements.SchemasExactly | status/measurements.py:68-87 | the two schema versions by their keys, fields and what an unavailable component holds |
| Measurements.SnapshotExactly | status/measurements.py:65-87 | which version, window, times and number of components a valid snapshot has |
| Measurements.StateExactly | status/measurements.py:124-163 | each state by times, counts and percentages, in the order in which they decide |
| Measurements.PercentsExactly | status/measurements.py:143-147 | each shown percentage times the requests is a hundred times its own count; failed requests show for hall passes only |
| Measurements.KeepsExactly | status/measurements.py:166-193 | which stored entry is kept, without the snapshot it is validated in: its own component, valid, used, in time and on fresh evidence |
| Measurements.RetainedActivity | status/measurements.py:166-193 | keeps, of whatever was stored, exactly the entries that pass re-validation on their own and are at most seven days old |
| Measurements.WrittenActivityIsKept | status/measurements.py:166-193 | writer and reader agree: what was written with requests and fresh evidence is read back at any later time exactly until it is seven days old |
| SnapshotStore.TelemetryStore.AppendSnapshot | status_service/store.py:97-168 | a refused delivery changes nothing; an accepted one takes one step of the documents, and the day counters stay an exact index of the stored minutes |
| SnapshotStore.CountComponents | status_service/store.py:131-140 | one pass over the components bumps each component's counters once, by its classification at sampling time |
| SnapshotStore.StoredCountersPartition | status_service/store.py:133-140 | every counter record of every stored day document has sampled = measured + other and measured = normal + elevated_errors + high_latency |
| SnapshotStore.DaysAreDetermined | status_service/store.py:128-144 | the day documents are exactly those that the stored minutes call for, so the minutes determine them |
| SnapshotRuns.AdmittedExactly | status_service/store.py:97-114 | which deliveries are admitted, as a failure or as a sample of the last five minutes, and why the others are refused |
| SnapshotRuns.StoredMinutesExactly | status_service/store.py:115-143 | after any run a minute is stored exactly when some delivery brought a sample of it |
| SnapshotRuns.FirstSampleIsStored | status_service/store.py:128-142 | what is stored for a minute, after any continuation, is its first sample, to be kept seven days |
| SnapshotRuns.AttemptsExactly | status_service/store.py:143-144 | every admitted failure is kept, in order of arrival, and nothing else is |
| SnapshotRuns.PublishedExactly | status_service/store.py:145-155 | after any run, told by deliveries alone: which delivery becomes current next |
| SnapshotRuns.CountersExactly | status_service/store.py:128-142 | after any run, told by stored samples alone: which days have a document, until when, and each of its counters |
| SnapshotRuns.PublicationMovesOn | status_service/store.py:149-155 | freshness, minute de-duplication and the floor-to-minute rule together exclude going back over any earlier publication |
| SnapshotRuns.CurrentMinutesStrictlyIncrease | status_service/store.py:112-168 | in every run the snapshots published as current have strictly increasing sampled minutes, with failures published in between |
| SnapshotRuns.FailurePublishes | status_service/store.py:147-150 | a failed attempt becomes current exactly when it was received after the last publication |
| SnapshotRuns.LaterMinutePublishes | status_service/store.py:147-155 | a sample from a minute after the current receipt is never held back |
| SnapshotRuns.FailureDoesNotPoisonItsMinute | status_service/store.py:154-155 | after a published failure, a sample becomes current exactly when its minute is not before the failure's |
| SnapshotRuns.StoredMinuteIsIdempotent | status_service/store.py:128-153 | delivering any snapshot for a stored minute changes nothing at all, the day documents included |
| SnapshotRuns.FirstEvidenceStays | status_service/store.py:128-143 | every accepted minute is stored for good, with the evidence that came first |
| SnapshotRuns.LastActivityExactly | status_service/store.py:156-167 | the same told by components and times alone: requests, a source event within three minutes of receipt, seven days |
| SnapshotRuns.LastActivityIsNewestShown | status_service/store.py:156-167 | after any run, last activity is exactly the newest published snapshot that had requests and fresh evidence, until it is seven days old at a later publication |
| LogSampler.MetricExactly | status_service/log_sampler.py:49-68 | which replies an aggregate is read from, and which value |
| LogSampler.ReadExactly | status_service/log_sampler.py:106-119 | which series is read as a count of which status |
| LogSampler.RecordCounts | status_service/log_sampler.py:120-145 | how one more status changes each field of the record |
| LogSampler.EvidenceExactly | status_service/log_sampler.py:102-149 | complete evidence reply by reply: regular counts, failures among the 404s, latencies measured of every request |
| LogSampler.LatestEventExactly | status_service/log_sampler.py:71-92 | the newest source event is told by one event of the ten minutes before sampling, and none by empty streams |
| LogSampler.FoldCounts | status_service/log_sampler.py:104-125 | the fold counts each status once, so that the tallies are the sums of their codes, and refuses the whole reply on any irregular series |
| LogSampler.CompleteRecordAddsUp | status_service/log_sampler.py:104-125 | however the requests are spread over codes, the five classes of a complete record partition its requests, and 404 and 500 are within their classes |
| LogSampler.RecordIsMeasuredExactly | status_service/log_sampler.py:125-149 | the validator refuses a complete record only for too many requests, for more failed requests than 404s, or for latencies that do not fit |
| LogSampler.CollectComponent | status_service/log_sampler.py:95-152 | the record of the replies is reported exactly when they are complete evidence, and what is reported is valid either way |
| LogSampler.SampleSnapshot | status_service/log_sampler.py:155-166 | whatever is answered, the assembled snapshot is valid, current and fresh, and holds for each key in order the record of its replies or an unavailable component |
| SchedulerOwnership.OneHolder | app/scheduler_ownership.py:56-82 | in every run, whatever sessions are lost and calls are made in it, at most one process holds the lock |
| SchedulerOwnership.RunKeepsGuarded | app/scheduler_ownership.py:106-184 | while no session is lost and no gate call falls in a release, every process with jobs in flight holds the lock, over every run |
| SchedulerOwnership.NoOverlapExactly | app/scheduled_tasks.py:974-985 | for two or more processes, job executions of different processes never overlap exactly when sessions are not lost and the gate is not called during a release; each exception has a run that shows it |
| SchedulerOwnership.LossesAreContained | app/scheduler_ownership.py:84-131 | under any losses, at most one process runs under the lock and whoever runs without it has not finished a heartbeat since its loss: in every run, exactly when nothing calls the gate during a release |
| SchedulerOwnership.HeartbeatAfterLossStops | app/scheduler_ownership.py:169-184 | the last event of a heartbeat, or of a stop, after a loss leaves no running scheduler, no job and no recorded connection: in every run, exactly when losses do not come together with calls of the gate during a release |
| OwnershipLoop.OwnerProcess.ReleaseOwnership | app/scheduler_ownership.py:106-131 | waits for jobs, then ends the lock's session, then forgets it: a path of the protocol from the start of a release |
| OwnershipLoop.OwnerProcess.LoopTurn | app/scheduler_ownership.py:139-184 | one turn acquires and starts, carries on, or gives everything up, according to who holds the lock, and is a path of the protocol |
| OwnershipLoop.OwnerProcess.StopSchedulerOwnership | app/scheduler_ownership.py:210-218 | ends with no loop, scheduler, job or connection, by a path of the protocol |
| OwnershipLoop.PathIsRun | app/scheduler_ownership.py:106-218 | every procedure's path continues every run it starts in, so the procedures refine the transition system |
| OwnershipLoop.ProceduresNeverOverlap | app/scheduler_ownership.py:106-131 | undisturbed procedures of any processes, interleaved call by call, never make jobs overlap |
| Attendance.ActiveIntervals | app/attendance.py:64-95 | the loop derives the clipped intervals; for any log they are in order, disjoint, inside the range, and cover exactly the closed instants and the open rest |
| Attendance.CalculateActiveSeconds | app/attendance.py:47-109 | the result is the counted time truncated once, and never exceeds the range |
| Attendance.TotalCountsInstants | app/utils/canonical_temporal_resolver.py:389-392 | for orderly intervals the sum of lengths is the number of instants they cover |
| Attendance.ElapsedExactly | app/utils/canonical_temporal_resolver.py:370-392 | for any list of intervals: empty and backwards ones are refused, one is accepted exactly when it lies in order once sorted, and then counts each of its instants once |
| Attendance.CountedExactly | app/attendance.py:50-95 | which instants are counted, by pairs of rows: from an active row to an inactive one that is the next to say anything, or from a last active row to now |
| Attendance.ActiveExactly | app/attendance.py:66-79 | an instant is active when the latest row that says anything by then says so |
| Attendance.ActiveDecomposes | app/attendance.py:66-79 | an instant at which the latest row is active is closed, overwritten or still open, and only one of the three |
| Attendance.CountedIsActiveLessOverwritten | app/attendance.py:64-95 | counted time is active time less what repeated active rows overwrite, so it is exact precisely when nothing is overwritten |
| Attendance.AlternatingLogIsExact | app/attendance.py:47-109 | without consecutive active rows and rows after now, the seconds are those at which the latest row is active |
| Attendance.RangesAddUp | app/attendance.py:50-95 | adjacent ranges add up exactly unless an active row open at the boundary is overwritten after it |
| Attendance.AlternatingRangesAddUp | app/attendance.py:50-109 | without consecutive active rows counted time is additive; the seconds are exactly when the sub-second parts of the clipped marks and bounds leave less than a second over, and otherwise one second is missing |
| Attendance.RemainderIsOfPhases | app/attendance.py:64-109 | what truncation drops from a range depends on marks and bounds only through their sub-second parts |
| Attendance.WholeSecondsAddUp | app/attendance.py:47-109 | where rows and bounds share one sub-second part, and the clock is past the last bound or shares it too, the seconds of adjacent ranges add up |
| Attendance.SecondsNeedNotAddUp | app/utils/canonical_temporal_resolver.py:389-392 | half a second on each side of a boundary is a second that neither range reports |
| MigrationGraph.HeadsAndMissingExactly | scripts/analyze_migrations.py:121-155 | heads are declared by a file and named by none, missing revisions named and declared by none |
| MigrationGraph.LastFileCounts | scripts/analyze_migrations.py:121-122 | below a revision stands exactly what its last file names |
| MigrationGraph.MigrationsExactly | scripts/analyze_migrations.py:108-116 | exactly the readable files become migrations, in their order |
| MigrationGraph.LinearHistoryIsClean | scripts/analyze_migrations.py:121-235 | a linear history of any length is clean |
| MigrationGraph.FindCycleExact | scripts/analyze_migrations.py:207-225 | the search from a revision terminates and succeeds exactly when the revision lies on a simple cycle of two or more |
| MigrationGraph.SearchFindsLongCycles | scripts/analyze_migrations.py:227-233 | some revision's search succeeds exactly when some cycle has two or more revisions |
| MigrationGraph.OrphansNeedACycle | scripts/analyze_migrations.py:178-205 | with distinct ids an orphan can exist only if some cycle, possibly a self-loop, does |
| MigrationGraph.NothingFoundMeansClean | scripts/analyze_migrations.py:139-205 | the passes find nothing exactly for one head above every revision, no missing parent and no long cycle |
| MigrationGraph.AnalyzeMigrations | scripts/analyze_migrations.py:103-235 | no issue is reported exactly when every file parses and the graph is clean; every other heading with its count, and every missing, orphaned, corrupted or circular line, is reported exactly when it holds of what the files declare |
| GuardAnalysis.IdempotencyVisitor.VisitStmt | scripts/validate-migrations.py:147-217 | visiting adds exactly the findings of the calls met, with the knowledge each was met under, and leaves the stacks as they were |
| GuardAnalysis.IdempotencyVisitor.VisitFunction | scripts/validate-migrations.py:219-222 | a whole function's findings and created tables |
| GuardAnalysis.StmtExplained | scripts/validate-migrations.py:204-222 | whatever a statement calls when it runs, in whatever order its expressions make, skip or repeat their calls, was met by the visitor, knowing only tests already made, each gone that way when last made |
| GuardAnalysis.FindingsExactly | scripts/validate-migrations.py:127-227 | which calls of a function are reported, by where they stand: those that need a guard, outside every branch of an if and after no guard clause, on no table created before; and every execute |
| GuardAnalysis.AcceptedCallsAreGuarded | scripts/validate-migrations.py:127-227 | soundness: over nested ifs, for and while loops, with, match, try with any number of except clauses, and early exits, an accepted call that needs a guard, on no table that an earlier call creates, runs only while certain `if` tests, at least one, have each gone one and the same way the last time they were made |
| LookupFraming.EscapedExactly | app/hash_utils.py:43-44 | what is written for each character, by the escapes of RFC 8259, section 7 |
| LookupFraming.ArrayExactly | app/hash_utils.py:43-44 | brackets, quotes and commas of the array, and no white space |
| LookupFraming.Utf8Exactly | app/hash_utils.py:44 | the bytes of each code point, by the bits they carry |
| LookupFraming.FramedByUsername | app/hash_utils.py:48-71 | label and parts of the callers that name a user |
| LookupFraming.FramedByClass | app/hash_utils.py:74-88 | label and parts of the callers that name a class |
| LookupFraming.PayloadRoundTrip | app/hash_utils.py:41-45 | the decoder recovers version, label and every part from the UTF-8 payload |
| LookupFraming.PayloadInjective | app/hash_utils.py:41-45 | two different label and part lists of any length never give the same payload bytes |
| LookupFraming.SamePayloadExactly | app/hash_utils.py:48-88 | digests of two accepted requests are taken of the same bytes exactly when caller, class and normalised fields agree |
| NotFoundCache.TrimKeepsNewest | wsgi.py:256-269 | an entry younger than an hour is dropped only by a trim of more than ten thousand, which leaves nine thousand and keeps nothing older |
| NotFoundCache.NotFoundHandler.NotFoundError | wsgi.py:281-318 | one request's effect on the cache and whether it is logged |
| NotFoundCache.BoundedAndPresent | wsgi.py:290-318 | after every 404 the cache holds at most ten thousand entries and the requested path |
| NotFoundCache.LoggedAgainInTime | wsgi.py:297-314 | a request 3,660 seconds less one microsecond, or more, after the last log of its path is logged again |
| NotFoundCache.BoundIsSharp | wsgi.py:297-314 | one microsecond less and a path can still stay unlogged, so the bound is exact |
| NotFoundCache.LoggedTwiceMeansEvicted | wsgi.py:256-318 | a path is logged twice within an hour only if logging another path in between trimmed it out |
| LedgerGuards.QuantizeIsHalfEven | app/models.py:34-61 | an amount the column can hold is rounded half to even with an error of at most half a cent |
| LedgerGuards.QuantizeIsIdempotent | app/models.py:34-61 | a quantized value quantizes to itself |
| LedgerGuards.QuantizeIsMonotone | app/models.py:34-61 | order is kept by amounts that fit the precision |
| LedgerGuards.ReversalCancels | app/models.py:657-659 | the negated amount carries exactly the negated cents |
| LedgerGuards.BeforeUpdate | app/models.py:836-877 | the two hooks write an update only if it breaks no guarded fact, and then with the cents of its amount |
| LedgerGuards.UpdateAcceptedExactly | app/models.py:806-877 | column by column: settled ones as stored, write-once ones as stored or empty there, stored cents those of the amount |
| LedgerGuards.InsertAcceptedExactly | app/models.py:648-659 | what a new row must carry, and that its cents are derived |
| LedgerGuards.NothingToRound | app/models.py:34-61 | what cannot be rounded counts as zero |
| LedgerGuards.SettledFactsStay | app/models.py:806-877 | over any run of attempted updates a settled guarded field keeps its value |
| LedgerGuards.ChangesAtMostOnce | app/models.py:821-824 | no guarded field changes twice |
| LedgerGuards.FillsOnce | app/models.py:821-824 | an empty write-once column takes the first value that is tried |
| LedgerGuards.CentsFollowAmount | app/models.py:657-659 | whatever updates are tried, amount and cents stay those of the insert and never part |
| LedgerGuards.UpdatableExactly | app/models.py:657-659 | a stored row accepts some update exactly when its cents are those of its amount |
| LedgerGuards.TamperedCentsAreOverwritten | app/models.py:657-659 | a wrong value in the cents attribute decides nothing and is never written |
| LineageSession.LineageHooks.InsertRow | app/models.py:1081-1091 | a row enters without lineage and is tracked with its creating transaction |
| LineageSession.LineageHooks.UpdateRow | app/models.py:1094-1119 | an update passes exactly when it sets complete, matching lineage once, in the creating transaction, with unchanged business fields |
| LineageSession.LineageHooks.RequireLineage | app/models.py:1122-1137 | the check passes exactly when every created row that still exists has matching lineage |
| LineageSession.LineageExactly | app/models.py:1048-1078 | the validators accept exactly rows that are proven column by column: event, operation, class, chain, signature, version, digest of the very values, permitted feature |
| LineageSession.UpdateExactly | app/models.py:1094-1119 | an update passes exactly when it proves, once and in the creating transaction, a row whose facts stay |
| LineageSession.FlushInitializesOnce | app/models.py:1094-1119 | a flush changes an existing row only from no lineage to the attested one and never its facts |
| LineageSession.FlushOrderIsFree | app/models.py:1094-1119 | the updates of one flush, written one by one in any order, come to the same: none decides another |
| LineageSession.CommittedRowsHaveLineage | app/models.py:1048-1143 | in every run of adds, changes, flushes, savepoints, deletes, rollbacks and commits, a row that became durable is proven column by column by an audit event of its creation with its very values |
| LineageSession.CommittedRowsNeverChange | app/models.py:1170-1231 | once committed, a payroll event or invalidation keeps every field until something deletes it |
| LineageSession.CreationSucceeds | app/models.py:1081-1137 | insert, audit, lineage, commit goes through for every row and matching event |
| LineageSession.RemovedRowsPass | app/models.py:1131-1137 | a row added and deleted in one transaction leaves nothing behind and needs no lineage |
| AssessObligation.ObligationSession.Assess | app/feats/assess_obligation_feat.py:39-142 | which row is returned, when the call fails, and what it leaves in the session, whatever commits between its statements |
| AssessObligation.AssessesExactly | app/feats/assess_obligation_feat.py:72-142 | the same in the order of the statements: the replayed row, else the new one, else the one that the recovery sees, else the error |
| AssessObligation.CallStepsAreAssess | app/feats/assess_obligation_feat.py:72-136 | the steps of a call in the race, whatever other sessions do between them, return the row or error and leave the rows that the function does in the weather they met |
| AssessObligation.AssessedExactly | app/services/obligations_service.py:330-341 | what the check, the index and the recovery look for: an ASSESSMENT row with both ids; the replay's query looks for the correlation id alone |
| AssessObligation.AtMostOneAssessment | app/feats/assess_obligation_feat.py:78-118 | with any number of racing sessions at most one ASSESSMENT row exists per internal_ref and correlation id |
| AssessObligation.EveryCallGetsTheRow | app/feats/assess_obligation_feat.py:78-142 | with one internal_ref per correlation id, every call that returns gets the one row for its key |
| AssessObligation.LoserGetsTheWinnersRow | app/feats/assess_obligation_feat.py:98-133 | the race takes place: two sessions pass the check, the second meets the index, writes nothing and returns the first one's row |
| AssessObligation.WritesAreKept | app/feats/assess_obligation_feat.py:112-118 | over any run a row that a session wrote is committed or still counts for it, lost races included, until its whole transaction is aborted |
| AssessObligation.LosersRecover | app/feats/assess_obligation_feat.py:117-136 | a session that met the index never re-raises |
| AssessObligation.OthersAreRaised | app/feats/assess_obligation_feat.py:117-136 | a call that breaks another constraint rolls back to its savepoint, finds no row for its key and re-raises |
| AssessObligation.ReplayIsRightExactly | app/services/obligations_service.py:330-341 | the replay's row is right, whichever row the query yields, exactly when no other internal_ref shares the correlation id |
| AssessObligation.SharedCorrelationMisleads | app/services/obligations_service.py:330-341 | a replay that hands back another obligation's row when two share a correlation id |
| IntervalInvalidation.CorrectionDesk.InvalidateAttendanceInterval | app/feats/attendance_interval_invalidation_feat.py:288-357 | the command with its two checks equals the command run alone, however stale the first check was |
| IntervalInvalidation.AcceptableExactly | app/feats/attendance_interval_invalidation_feat.py:223-339 | which commands can be accepted, that one preview identity alone makes them so, and everything that it commits to |
| IntervalInvalidation.AcceptedTakesItsShare | app/feats/attendance_interval_invalidation_feat.py:248-339 | an accepted command records what was agreed and recovers exactly the interval's recorded share, or nothing where nothing is paid, left or allotted |
| IntervalInvalidation.StalePreviewIsRefused | app/feats/attendance_interval_invalidation_feat.py:309-315 | a preview is refused once the settlement, a recovery of the credit or, where it pays, a balance or the directive has changed |
| IntervalInvalidation.RefusedExactly | app/feats/attendance_interval_invalidation_feat.py:223-262 | why a preview is refused, by what has been recorded of the interval and its credit |
| IntervalInvalidation.AtMostOneInvalidation | app/feats/attendance_interval_invalidation_feat.py:300-309 | under any interleaving each key and each interval has at most one accepted invalidation, by the class lock and the checks under it |
| IntervalInvalidation.EffectsExactlyOnce | app/feats/attendance_interval_invalidation_feat.py:309-339 | the ledger holds for an invalidated interval only the recovery its preview identity committed to, with its funding transfer, once |
| IntervalInvalidation.AcceptedAppliesItsPreview | app/feats/attendance_interval_invalidation_feat.py:309-315 | an accepted command did exactly the recovery in the preview identity its caller sent, or none if none was in it |
| IntervalInvalidation.RunIsSerializable | app/feats/attendance_interval_invalidation_feat.py:296-357 | after any interleaving the ledger and the decisions are those of the accepted commands run alone one after the other, in commit order, with the other ledger writers in between |
| IntervalInvalidation.RetryReplays | app/feats/attendance_interval_invalidation_feat.py:270-303 | under a recorded key the same intent gets the record, another intent is refused, and nothing is written |
| IntervalInvalidation.SameKeySameRecord | app/feats/attendance_interval_invalidation_feat.py:270-303 | commands under one key that report a record report the same one and had one intent |
| IntervalInvalidation.RecoveryIsConservative | app/services/ledger_recovery_service.py:538-576 | an accepted recovery takes its cents from one credit and never more than is left of it |
| IntervalInvalidation.OneSeatPays | app/services/ledger_resolution_service.py:145-198 | only the seat of the interval pays, exactly the agreed cents; savings cover a shortfall in full under protection or stay untouched |

## Left out

- SchedulerOwnership.RunKeepsGuarded: waits for the loop thread without the five-second limit of the join, and leaves out two threads of one process starting and stopping at once and the pooled connection left behind when acquiring raises.
- Attendance.CalculateActiveSeconds: the day boundaries and the class clock of its callers become the parameters `start`, `end` and `now`.
- Measurements.ClassifyComponent: percentages are exact numbers instead of rounded floats, which decides the same for counts up to a thousand million.
- LogSampler.CollectComponent: a reply that cannot be fetched or decoded is the reply `QueryFails`; the deadline and the executor are not modelled, and milliseconds are exact products instead of rounded floats.
- LogSampler.SampleSnapshot: the timestamps of replies are read already; an exception other than those that the code catches is not modelled.
- SnapshotStore.TelemetryStore.AppendSnapshot: attempts are a list in order of arrival instead of documents under random ids, expired documents are not deleted, and the transaction is atomic.
- MigrationGraph.AnalyzeMigrations: starts from parsed revisions, assumes string ids, and does not model the order or the shortened text of the issue lines, nor the unused `get_descendants`.
- GuardAnalysis.AcceptedCallsAreGuarded: the tree has no nested function definitions, a lambda's calls count as made where it is written, and each call and each `if` has its own position.
- LookupFraming.SamePayloadExactly: NFKC, case folding and trimming are unknown functions of the text; the HMAC itself is not modelled.
- LedgerGuards.BeforeInsert: the checks that need the FEAT context, the class scope and the correlation id are not modelled; they only refuse more.
- LedgerGuards.BeforeUpdate: the refusals for the FEAT context, the actor seat and the correlation id, which also run on updates, are not modelled; they only refuse more, so what is kept over runs is kept with them. Every number is one exact number, so setting a stored 0.10 to the float 0.1 is no change here and is accepted; the code compares the float with a Decimal and refuses.
- LedgerGuards.CentsFollowAmount: the database's own rounding of an amount with more than two decimals is not modelled.
- LineageSession.CommittedRowsHaveLineage: one session and one of the two tables at a time; bulk SQL and database triggers bypass the hooks; releasing a savepoint runs no check here, which only allows more runs.
- AssessObligation.AtMostOneAssessment: deadlocks between sessions end in an abort, which the system allows at any time.
- IntervalInvalidation.RetryReplays: authorization, the lineage proof of the replayed record and intervals that need historical reconstruction are not modelled; such intervals are refused here.
- IntervalInvalidation.RunIsSerializable: other ledger writers are taken to hold the class lock while they commit, as the ledger posting service does.
- IntervalInvalidation.AtMostOneInvalidation: the two unique indexes behind the lock are not modelled; by this result they never refuse a row.
- IntervalInvalidation.EffectsExactlyOnce: a recovery with its pair of funding rows is one effect; the credit is one that was paid into checking.
- The second recovery command, `recover_payroll_payment`, follows the same steps and would add the same lemmas.
- Flask routes, templates, cookies, forms and the service worker; Firestore, PostgreSQL, APScheduler and Loki themselves; platform attempts and notices of the status store.
- The remaining checks of the migration validation script, and every script that only wraps files or git.
