# A verified model of the coding-tutor backend

The tutor watches a student solve a programming problem. The browser records every edit, run and
hint request and delivers the events to a server, which keeps them in an append-only trace, derives
process features from it, and decides when to speak to the student. This project models that path in
Dafny and proves what it guarantees over whole runs: over every interleaving of the browser, a faulty
network and the server, over every sequence of requests of a session, over every sequence of ledger
requests, and over every interleaving of threads that ask for the LLM event loop.

`dafny verify dfyconfig.toml` checks all of it.

## What is modelled

* **Delivery** (`CodingTrace`, `IngestLaws`, `Delivery`, `DeliveryProgress`, `TypedEdits`,
  `DeliveredSessions`). The browser hook keeps a
  queue and one sender that splices batches of at most 50 events, retries three times and puts a batch
  back at the front when it gives up. `CodingTrace.TraceQueue` has the hook's mutable references;
  `Delivery.System` puts the queue, a network that may lose, duplicate, delay and reorder requests and
  replies, and the server's store into one step system. Any other session traffic (runs, heartbeats,
  interventions) may happen in between. `DeliveredSessions` shows that the server of every such
  execution went through an ordinary session, and carries the monitor's bounds over to faulty networks;
  `TypedEdits` tells from the student's actions alone what must be queued and what the newest snapshot is.
* **The trace store** (`TraceTypes`, `TraceStore`, `TraceSessions`, `ChainDiffs`). Rows with gap-free
  numbers, the versioned snapshot chain, batch ingestion in one transaction. `TraceStore` states each
  request on a value; the class `TraceSessions.TraceSession` performs it by updating its fields, loop
  by loop and with rollback, and is proved equal to the value form.
* **Features and monitor** (`FeatureExtraction`, `FeatureLaws`, `FeatureMeanings`, `Monitor`, `TriggerBounds`,
  `MonitorRuns`, `StreakSoundness`, `StreakRequests`, `StreakFailure`, `WindowFailure`). The extractor's scans,
  the ordered rule chain, and the trigger rows that are the only memory of the monitor. Timestamps are
  whole seconds of the server clock, which does not run backwards.
* **Acorns and progress** (`AcornLedger`, `ProgressRewards`, `RewardRuns`, `PostingLaws`). Ledger rows, cached
  balances, idempotency keys as the strings they are, progress rows, and a database session with a
  running transaction, a last commit, and the statuses the request has assigned itself: the code tests a
  status by identity with an enum member, which a status read back from its text column never passes.
  Every request has a session of its own; requests are serial.
* **The persistent LLM loop** (`LlmLoop`). Double-checked creation under a lock, one shared access per
  step, any number of threads; loops may also be closed at any time.
* **Diff and timeline** (`Diff`, `Timeline`). `difflib` is any opcode list whose blocks tile both texts
  and whose `equal` blocks match; the line tagger is any total function.
* **Nicknames and the dashboard** (`Nickname`, `Dashboard`). A search loop that needs a pigeonhole
  argument to end, and two roundings of one ratio.

## Where the code and its description part ways

* The dashboard says that average progress and completion rate coincide when every student has the same
  problems. They can differ by one point, never by more; they coincide for all classes exactly when the
  number of problems divides 100 (`Dashboard.CoincideIffDivides`; two students, three problems and one
  solution give 16 and 17).
* Recording a judged run is described as updating the own row and the rows of all courses and as paying
  nothing for a problem solved before. The first-solve test compares the status by identity, so every
  accepted submit of a new request asks for the reward, and the taken key of a solved problem rolls the
  whole request back: no row is updated and the attempt is not counted, whether or not all course rows
  are solved. A run takes effect if and only if it is not an accepted submit of a problem whose own row is
  solved (`RewardRuns.RunTakesEffectIff`; runs that show it are `RewardRuns.ResubmissionIsLost` and, with a
  course joined later, `RewardRuns.CourseRowLost`). Rewards and solved rows still agree in every state.
* "Repeating the same result without touching the code" need not mean that the same code was run. A run
  may ask for an older version by number. With the shipped thresholds three runs are enough: run an
  edit, then version 1 twice; the monitor records a repeated failure for unedited code although two
  different codes were graded (`StreakFailure.OldVersionDefeatsTheRule`,
  `StreakFailure.ThreeRunsDefeatTheShippedRule`). A request keeps the rule right, whatever the judge says,
  exactly when it is refused, grades the newest version, or no unedited streak is running
  (`StreakRequests.RequestIsSafeIff`); for the code instead of the version, exactly when it is refused,
  grades the newest code, or no unedited streak is running (`StreakRequests.CodeIsSafeIff`).
* The edit windows are described as starting, after a correct activity, at the newest result up to that
  moment. They start at the newest result of all, so a later result that is no record moves them, while
  the stall clock stays, if it graded another version than the result before it
  (`FeatureLaws.LaterResultMovesTheWindow`; `FeatureLaws.RecoveryIsNotProgress` says exactly when a result
  leaves both alone). Run the template, answer an activity, run an edit: the edit was made after the
  progress and is in no window (`WindowFailure.EditAfterProgressIsNotCounted`).

## Model

| member | source | states |
|---|---|---|
| Delivery.LogIsAlwaysPrefix | frontend/src/useCodingTrace.ts:257-302 | whatever the network does, the client rows of the server log are a duplicate-free prefix of the queued events, and every request ever made is a segment of the history starting inside the log |
| Delivery.NothingIsLost | frontend/src/useCodingTrace.ts:178-302 | confirmed, in-flight and queued events always make up the history, confirmed ones are in the log, and an empty client means the log holds the whole history |
| Delivery.RetriesInvisibleToSnapshots | backend/app/trace/service.py:95-142 | through any losses and retries the snapshot chain has versions 1, 2, ..., different neighbours, and equals saving the template and each arrived edit once |
| Delivery.ServedSegment | backend/app/trace/service.py:161-231 | serving any request ever sent stores exactly the events the log still misses, or nothing at all if one of them is unacceptable; a reply follows only a commit |
| Delivery.ServeKeeps | backend/app/trace/service.py:161-231 | serving a late, repeated or reordered request keeps the whole delivery invariant |
| Delivery.ClientStepKeeps | frontend/src/useCodingTrace.ts:178-302 | every browser step keeps the delivery invariant |
| Delivery.NetworkStepKeeps | backend/app/trace/service.py:161-231 | every network and server step keeps the delivery invariant |
| Delivery.ExecutionKeepsInv | frontend/src/useCodingTrace.ts:257-302 | the delivery invariant holds after any sequence of steps |
| DeliveryProgress.CompletableIffAcceptable | frontend/src/useCodingTrace.ts:257-302 | from a state of the invariant some continuation stores everything queued so far if and only if every queued event is one the server accepts |
| DeliveryProgress.ReachableCompletable | frontend/src/useCodingTrace.ts:257-302 | the same for every reachable state: losses and retries never wedge the sender, one unacceptable event does |
| DeliveryProgress.ReachableDeliveredWithin | frontend/src/useCodingTrace.ts:257-302 | from every reachable state with acceptable events only, giving up what is under way and one undisturbed round for each 50 undelivered events store everything |
| DeliveryProgress.AcceptableCompletable | frontend/src/useCodingTrace.ts:257-302 | the same for any plan whose rounds each deliver a batch |
| DeliveryProgress.Round | frontend/src/useCodingTrace.ts:257-302 | one undisturbed round delivers exactly the first batch of the queue |
| DeliveryProgress.LogNeverPassesUnacceptable | backend/app/trace/service.py:196-221 | in no continuation of a reachable state does the log get past an event the server refuses |
| DeliveryProgress.ReachableQueueBlocked | frontend/src/useCodingTrace.ts:263-299 | an idle sender with a refused event among its next 50 never has another event confirmed, not even the ones in front of it |
| DeliveredSessions.ExecutionIsSession | backend/app/trace/service.py:161-231 | in every execution of the delivery system the server's store is that of a session which served the arrived requests |
| DeliveredSessions.DeliveredTriggersReplay | backend/app/trace/monitor.py:453-484 | under every faulty network each recorded trigger is what the monitor computes from the log before it |
| DeliveredSessions.HelpNeverOutnumbersRequests | backend/app/trace/monitor.py:375-389 | under every faulty network help is answered at most once per hint the student asked for, however often the request was sent |
| DeliveredSessions.TriggersNeverOutnumberActivity | backend/app/trace/features.py:359-385 | under every faulty network, without results, the monitor speaks at most once per thing the student did |
| DeliveredSessions.DeliveredRateBound | backend/app/trace/monitor.py:86-107 | the rate bound under every faulty network, on a server clock that does not run backwards |
| TypedEdits.QueuedIsWork | frontend/src/useCodingTrace.ts:178-197 | in every execution the browser has queued exactly what the student did, told by the actions alone: each settled edit with the code typed last before it settled; the pending code is what was typed since |
| TypedEdits.StepIsWork | frontend/src/useCodingTrace.ts:382-402 | one action moves queue history and pending code as it moves the student's work |
| TypedEdits.PauseQueuesLastCode | frontend/src/useCodingTrace.ts:382-393 | of the codes of a stretch of keystrokes the last one is queued when the student pauses, once |
| TypedEdits.NewestSnapshotIsNewestEdit | backend/app/trace/service.py:95-142 | once the browser has nothing left to send, the newest snapshot on the server holds the newest settled edit |
| CodingTrace.PostsFrom | frontend/src/useCodingTrace.ts:267-279 | a batch is posted up to four times: again after each retriable failure, never after another outcome |
| CodingTrace.FourthPostIff | frontend/src/useCodingTrace.ts:267-279 | at most four posts, the fourth exactly after three retriable failures |
| CodingTrace.TraceQueue.constructor | frontend/src/useCodingTrace.ts:135-143 | a new hook has an empty queue and no pending edit |
| CodingTrace.TraceQueue.Push | frontend/src/useCodingTrace.ts:178-185 | queueing appends one event and changes nothing else |
| CodingTrace.TraceQueue.Edit | frontend/src/useCodingTrace.ts:382-393 | while the hook is active the pending code is the code just typed, whatever was pending before |
| CodingTrace.TraceQueue.Drain | frontend/src/useCodingTrace.ts:188-197 | the pending edit becomes one snapshot event at the end of the queue |
| CodingTrace.TraceQueue.PostWithRetries | frontend/src/useCodingTrace.ts:266-280 | the retry loop makes exactly the promised posts, returns how the last one ended and keeps what was queued meanwhile |
| CodingTrace.TraceQueue.Send | frontend/src/useCodingTrace.ts:257-302 | one call ends where the sender's single steps end, after the promised number of posts, whatever the user queues and edits meanwhile; it does nothing while another call is active |
| CodingTrace.SendStepsEnd | frontend/src/useCodingTrace.ts:257-302 | the steps of one call end idle, with the batch gone if it was delivered or the login expired and in front of everything newer otherwise |
| CodingTrace.FailedCallKeepsQueue | frontend/src/useCodingTrace.ts:284-299 | a failed call leaves the queue as it was, with newer events behind it |
| CodingTrace.SenderConserves | frontend/src/useCodingTrace.ts:257-302 | no sender step loses or reorders an event |
| IngestLaws.RetryIsInvisible | backend/app/trace/service.py:161-231 | an accepted batch that arrives again changes nothing |
| IngestLaws.FreshOfSegment | backend/app/trace/service.py:176-191 | deduplicating a segment of the history leaves exactly the part the log does not have |
| IngestLaws.FreshKeepsNew | backend/app/trace/service.py:180-191 | items with new ids and items without ids are all kept |
| IngestLaws.KnownIdsAreRowIds | backend/app/trace/service.py:148-158 | the known ids are the ids of the client rows |
| IngestLaws.IngestAllRows | backend/app/trace/service.py:196-220 | an accepted batch adds the rows of its items in order |
| IngestLaws.IngestAllCodes | backend/app/trace/service.py:234-267 | an accepted batch extends the code chain by its edits, each saved once |
| IngestLaws.SnapshotRowsReferToTheirCode | backend/app/trace/service.py:234-267 | every accepted snapshot event names the version of a snapshot that holds exactly the code it sent |
| IngestLaws.IngestAllOkIff | backend/app/trace/service.py:196-221 | a batch is stored if and only if every item is of a client kind and every snapshot item has its code |
| IngestLaws.SegmentOutcome | backend/app/trace/service.py:161-231 | what becomes of a batch that is a segment of the history: the missing part is stored, or the store is left alone |
| IngestLaws.ServerRowsCarryNoIds | backend/app/judge/router.py:42-160 | runs, heartbeats, interventions and closing write no client rows |
| IngestLaws.SnapshotCodes | backend/app/trace/service.py:95-117 | saving code appends it to the chain unless it equals the newest code |
| TraceStore.SnapshotKeeps | backend/app/trace/service.py:95-142 | a snapshot row continues the chain: next version, child of the newest one, different code |
| TraceStore.IngestAllKeeps | backend/app/trace/service.py:183-220 | a stored batch only appends, one row per item with its kind, id and time |
| TraceStore.SnapshotAtFinds | backend/app/sessions/store.py:91-96 | asking for a version finds exactly that snapshot if the chain has it and nothing otherwise |
| TraceStore.GradeKeeps | backend/app/judge/router.py:56-73 | the graded snapshot is on the chain, is the newest unless a version was named, and holds the code that was sent |
| TraceStore.ExecuteKeeps | backend/app/judge/router.py:42-118 | a run keeps the numbering and the chain and only appends |
| TraceStore.ResultRow | backend/app/trace/service.py:294-322 | a result row names the given version, which must exist, else the newest one, and says who judged |
| TraceStore.OpenValid | backend/app/sessions/service.py:16-62 | a new session starts with a numbered start row and the template as version 1 |
| TraceStore.Duplicates | backend/app/trace/service.py:180-191 | as many ids are reported as items are dropped |
| TraceStore.DuplicateIsKnownOrRepeated | backend/app/trace/service.py:180-191 | the reported ids are exactly those of items whose id the log has or the batch repeats |
| TraceSessions.TraceSession.constructor | backend/app/sessions/service.py:16-62 | opening a session writes the start row and version 1 |
| TraceSessions.TraceSession.AllocateCodeVersion | backend/app/sessions/store.py:35-58 | the next version is one more than the counter and stored in it |
| TraceSessions.TraceSession.AllocateEventSeqs | backend/app/sessions/store.py:61-79 | reserving n numbers yields the n numbers after the counter, in order; none for n below 1 |
| TraceSessions.TraceSession.Append | backend/app/trace/service.py:61-92 | appends one row with the next number |
| TraceSessions.TraceSession.AddSnapshot | backend/app/trace/service.py:95-142 | returns the newest row for identical code, else appends the next version with its diff columns |
| TraceSessions.TraceSession.Deduplicate | backend/app/trace/service.py:175-191 | the loop splits a batch into the items new to log and batch and the ids of the others |
| TraceSessions.TraceSession.IngestOne | backend/app/trace/service.py:197-267 | one item becomes one row, a server-only kind or a snapshot without code is an error |
| TraceSessions.TraceSession.IngestEvents | backend/app/trace/service.py:161-231 | the batch is stored whole or rolled back whole, with the accepted rows and the duplicate ids returned |
| TraceSessions.TraceSession.RecordJudgeResult | backend/app/trace/service.py:273-330 | a result row on a version that exists, or an error and no change |
| TraceSessions.TraceSession.Assess | backend/app/trace/monitor.py:415-450 | evaluating writes nothing and returns the verdict on the rows as they are |
| TraceSessions.TraceSession.AssessAndRecord | backend/app/trace/monitor.py:453-484 | a verdict with a trigger becomes one trigger row, one without changes nothing |
| TraceSessions.TraceSession.ChooseSnapshot | backend/app/judge/router.py:56-73 | sent code is saved first; an unknown version or an empty chain is an error |
| TraceSessions.TraceSession.Run | backend/app/judge/router.py:42-118 | choose, record, evaluate, in that order |
| TraceSessions.TraceSession.RecordIntervention | backend/app/trace/service.py:336-376 | an intervention is one server row |
| TraceSessions.TraceSession.Close | backend/app/sessions/service.py:65-92 | closing writes one end row, and nothing the second time |
| ChainDiffs.LineCountsBalance | backend/app/trace/service.py:119-140 | in every run the added minus deleted lines of all snapshot rows add up to the length of the newest code |
| ChainDiffs.RunKeepsDiffed | backend/app/trace/service.py:119-139 | in every run each row holds the diff against its predecessor and the seconds since it was made |
| ChainDiffs.RowMeasuresItsChange | backend/app/trace/service.py:119-139 | in every run each row has the line counts, the size, the rounded share and the most edited region of the change from the row before it, and the time between the two |
| ChainDiffs.EditRow | backend/app/trace/service.py:234-267 | a saved edit is dated by its request, and its event shows the snapshot's region, changed lines, version, and whether the code was the newest already |
| FeatureExtraction.TrailingRunIs | backend/app/trace/features.py:195-205 | the streak length is the longest constant stretch at the end |
| FeatureExtraction.FirstBestIs | backend/app/trace/features.py:289-294 | the record is the first result attaining the maximum |
| FeatureExtraction.ComputeTrailingRun | backend/app/trace/features.py:195-205 | the reversed loop computes that streak length |
| FeatureExtraction.ScanProgressAt | backend/app/trace/features.py:289-298 | the loop finds the time of the record, or of a later correct activity |
| FeatureExtraction.ScanProgressVersion | backend/app/trace/features.py:169-192 | the loop finds the code version of that progress |
| FeatureExtraction.ScanEvents | backend/app/trace/features.py:235-259 | one pass over the rows yields results, counters, last hint, last trigger and last correct activity |
| FeatureExtraction.ScanScores | backend/app/trace/features.py:276-347 | the score features and the edit windows they cut |
| FeatureExtraction.ScanErrors | backend/app/trace/features.py:262-270 | error types and the error streak, judge failures left out |
| FeatureExtraction.ExtractFeatures | backend/app/trace/features.py:208-449 | the extractor computes exactly the specified features |
| FeatureExtraction.CountKindAfterRow | backend/app/trace/features.py:359-364 | a positive edit count since the last trigger means such a row exists |
| FeatureExtraction.CountActivityAfterRow | backend/app/trace/features.py:380-385 | a positive activity count since the last trigger means such a row exists |
| FeatureMeanings.StallClock | backend/app/trace/features.py:288-302 | the stall clock counts from the personal best or from a later correct answer |
| FeatureMeanings.StallClockWithoutScores | backend/app/trace/features.py:288-302 | without a score it counts from the last correct answer, else from the start |
| FeatureMeanings.OtherClocks | backend/app/trace/features.py:354-378 | the edit clock counts from the newest snapshot, the idle clock from the latest activity row or newest snapshot, both else from the start |
| FeatureMeanings.FeaturesMean | backend/app/trace/features.py:261-445 | every feature in terms of rows, results in row order and versions: streaks, trend, windows of edits and their region, large changes, attempts by mode, errors, counters since the last trigger |
| FeatureMeanings.ResultsAreReadings | backend/app/trace/features.py:151-166 | the results are exactly the readings of the log's result rows |
| FeatureMeanings.ResultsInRowOrder | backend/app/trace/features.py:245-248 | each result once, in row order |
| FeatureMeanings.CoolingDownMeans | backend/app/trace/monitor.py:86-107 | the monitor cools down exactly while its last trigger is recent and no result was recorded behind it |
| FeatureMeanings.HintAfterMeans | backend/app/trace/monitor.py:439-441 | a hint is fresh exactly if a hint request has no trigger behind it |
| FeatureMeanings.LastCorrectAnswer | backend/app/trace/features.py:257-259 | the last correct answer, if any, and its time |
| FeatureMeanings.RegionStreakIs | backend/app/trace/features.py:316-322 | the repeated region is that of the last recognised edit, and the count is how many recognised edits in a row were in it |
| FeatureMeanings.SameResultStreakIs | backend/app/trace/features.py:277 | the same-result count is the longest stretch of equal signatures at the end |
| FeatureMeanings.ErrorStreakIs | backend/app/trace/features.py:432-438 | the error streak is the longest stretch of errors at the end |
| FeatureMeanings.ImprovementIs | backend/app/trace/features.py:280-283 | among the last three scores one is higher than the one before it |
| FeatureLaws.OutageIsTransparent | backend/app/trace/features.py:261-270 | erasing all judge failures from any log changes no score feature, no progress clock and no error streak |
| FeatureLaws.StudentErrorsAreNotScores | backend/app/trace/features.py:261-283 | erasing all student errors changes no score feature and no progress clock |
| FeatureLaws.ErasingUnscoredResults | backend/app/trace/features.py:261-347 | the same for any set of statuses without a score |
| FeatureLaws.RecordScansAgree | backend/app/trace/features.py:169-192 | without a correct activity the stall clock and the edit windows start at the same result, the first best one |
| FeatureLaws.AnchorsOf | backend/app/trace/features.py:169-192 | for any activity, where the clock and the windows start |
| FeatureLaws.RecoveryIsNotProgress | backend/app/trace/features.py:169-192 | for any activity, a result that does not beat the record never moves the clock, and leaves the windows alone if and only if no activity is the anchor or it graded the version of the result before |
| FeatureLaws.LaterResultMovesTheWindow | backend/app/trace/features.py:185-191 | with an activity as the anchor a later result on another version moves the windows and not the clock |
| WindowFailure.EditAfterProgressIsNotCounted | backend/app/trace/features.py:169-192 | for every monitor, any two codes and any two scores of which the second is no record: a session in which an edit made after the last progress is in no edit window |
| FeatureLaws.NewRecordMovesBoth | backend/app/trace/features.py:289-294 | a strictly better result moves the windows to itself for any activity, and the clock exactly if no later activity holds it |
| FeatureLaws.CountersCountTheRest | backend/app/trace/features.py:359-385 | in a numbered log the counters since the last trigger count the rows behind it |
| FeatureLaws.CountersCountAll | backend/app/trace/features.py:359-385 | without a trigger they count all rows |
| FeatureLaws.OnlyExactly | backend/app/trace/features.py:261-270 | the status filters keep exactly the results of their statuses |
| FeatureLaws.RisingIff | backend/app/trace/features.py:280-283 | the improvement flag holds exactly when some score exceeds the one right before it |
| FeatureLaws.LastActivityIsLatest | backend/app/trace/features.py:370-378 | the idle clock starts at the latest activity row, if there is one |
| FeatureLaws.WindowIsSuffix | backend/app/trace/features.py:276 | a positive window is the end of the list, in order |
| Monitor.VerdictTable | backend/app/trace/monitor.py:159-383 | which status and trigger the rule chain gives, as conditions that do not depend on the order of the rules |
| Monitor.EvaluationTable | backend/app/trace/monitor.py:362-450 | the whole evaluation as a table over the log: a fresh hint is answered, else the status is the rule chain's, and so is the trigger unless the monitor cools down |
| Monitor.StoredFeaturesExplain | backend/app/trace/monitor.py:487-524 | the features stored with a trigger give the same verdict as the full ones |
| Monitor.LateHeartbeatStillTriggers | backend/app/trace/monitor.py:159-409 | if an evaluation of a log triggers, every later evaluation of that log triggers |
| Monitor.ClocksAdvance | backend/app/trace/features.py:302-378 | on a fixed log only clocks change with time, and none runs backwards |
| Monitor.CooldownFromLog | backend/app/trace/monitor.py:86-107 | the cooldown is active exactly when the last trigger is recent and no result came after it, and the remaining and the elapsed time make up the whole cooldown |
| Monitor.OnlyHelpGetsThrough | backend/app/trace/monitor.py:375-405 | during a cooldown or a judge outage a fresh call for help is answered and nothing else fires |
| Monitor.TriggerHasReason | backend/app/trace/monitor.py:362-450 | every trigger follows a fresh hint, or is the first, or follows a result or a full cooldown |
| Monitor.HelpNeedsFreshHint | backend/app/trace/monitor.py:375-441 | a help trigger fires exactly when a hint request is newer than the last trigger |
| Monitor.QuietLogNeedsActivity | backend/app/trace/monitor.py:275-340 | with nothing graded, a trigger needs student activity newer than the last trigger |
| MonitorRuns.EveryTriggerReplays | backend/app/trace/monitor.py:453-484 | in every run, from the final state alone each trigger row is what the monitor computes from the rows before it, the snapshots up to its version and its own timestamp |
| MonitorRuns.TriggerRateBound | backend/app/trace/monitor.py:86-107 | in every run the triggers number at most 1 + results + hints + full cooldowns between the first and the last |
| MonitorRuns.EveryTriggerExplainsItself | backend/app/trace/monitor.py:465-484 | in every run each recorded trigger and status follow from the features stored in its row |
| MonitorRuns.EndsOnce | backend/app/sessions/service.py:65-91 | in every run the server writes one end row if the session was closed, however often, and none otherwise |
| MonitorRuns.QuietRunAntiSpam | backend/app/trace/features.py:359-385 | in every run without results each trigger has student activity of its own |
| MonitorRuns.HelpTriggersBounded | backend/app/trace/monitor.py:375-389 | in every run help is answered at most once per hint request |
| MonitorRuns.ExecutionRecordsThenEvaluates | backend/app/judge/router.py:80-118 | a run writes one verdict row on the graded version and then at most one trigger, computed with that row in view |
| MonitorRuns.StepShape | backend/app/trace/monitor.py:453-484 | every request extends the log without a trigger and then evaluates it at most once, at its own time |
| MonitorRuns.StepReplays | backend/app/trace/monitor.py:453-484 | every request keeps replay, numbering and the chain and only appends |
| MonitorRuns.RunTimed | backend/app/trace/monitor.py:453-484 | on a clock that does not run backwards the triggers of a run are ordered by time |
| MonitorRuns.IngestedKinds | backend/app/trace/service.py:197-202 | an accepted batch holds client kinds only, so no client can write results or triggers |
| TriggerBounds.RateBound | backend/app/trace/monitor.py:86-107 | the counting law behind the rate bound, for any log whose trigger gaps are justified |
| TriggerBounds.SparksNeedFuel | backend/app/trace/monitor.py:375-389 | if every spark has fuel of its own since the last spark, sparks never outnumber fuel |
| StreakSoundness.SameResultWithoutEditsIsSameCode | backend/app/trace/monitor.py:233-238 | in every run that grades newest snapshots, no edits in the streak means that every result since its start graded the newest, byte-identical code |
| StreakSoundness.NoEditsIffNewestFirst | backend/app/trace/features.py:328-333 | the extractor sees no edits in the streak exactly when the streak's first result graded the newest snapshot |
| StreakRequests.ContinuingVerdict | backend/app/trace/features.py:328-333 | a verdict that continues the streak, error or score, leaves "no edits" as it was and keeps one version exactly if the newest was graded, one code exactly if the graded code is the newest |
| StreakRequests.OpeningVerdict | backend/app/trace/features.py:328-333 | a verdict that opens a streak makes it unedited exactly if it graded the newest version, and then rightly so |
| StreakRequests.VersionKeepsRuleIff | backend/app/judge/router.py:62-68 | a version may be graded with every verdict without deceiving the rule if and only if it is the newest or no unedited streak is running |
| StreakRequests.CodeKeepsRuleIff | backend/app/judge/router.py:62-68 | the same for byte-identical code: if and only if the version holds the newest code or no unedited streak is running |
| StreakRequests.SafeRunKeepsRule | backend/app/trace/monitor.py:233-238 | in every run of such requests the rule is right at the end |
| StreakRequests.RequestIsSafeIff | backend/app/judge/router.py:62-68 | after every such run, a further request for any version number keeps the rule right for all verdicts if and only if it is such a request |
| StreakRequests.SafeRunForCodeKeepsRule | backend/app/trace/monitor.py:233-238 | in every run of requests that are safe for code, the rule is right about the code at the end |
| StreakRequests.CodeIsSafeIff | backend/app/judge/router.py:62-68 | after every run of requests that are safe for code, a further request for any version number keeps the rule right about the code for all verdicts if and only if it is safe for code |
| StreakRequests.RequestKeepsRule | backend/app/judge/router.py:42-118 | each kind of request, safe for versions or for code, keeps the rule right in that sense |
| StreakFailure.OldVersionDefeatsTheRule | backend/app/judge/router.py:62-68 | for all thresholds that ask for a repetition and for time to pass, any two codes and any wrong verdict: a run of the real monitor that ends in a repeated-failure trigger for unedited code although two codes were graded |
| StreakFailure.ThreeRunsDefeatTheShippedRule | backend/app/config.py:19-62 | with the shipped thresholds three runs do it |
| StreakSoundness.RunKeepsOrder | backend/app/judge/router.py:56-94 | in runs that grade newest snapshots the graded versions never decrease |
| AcornLedger.SolvedKeyInjective | backend/app/acorns/service.py:28-30 | one idempotency key per user and problem, as strings |
| AcornLedger.KeyFamiliesDiffer | backend/app/acorns/service.py:28-34 | the two kinds of keys never coincide |
| AcornLedger.AcornsFor | backend/app/problems/rewards.py:20-25 | a reward is the tenth of the points, rounded half to even, and one acorn exactly below 15 points |
| AcornLedger.RowKeepsBalance | backend/app/acorns/service.py:74-90 | a row and the moved balance keep every balance equal to the sum of its rows |
| AcornLedger.RowKeepsTrace | backend/app/acorns/service.py:74-90 | each row states the balance it leaves |
| AcornLedger.BalanceIsNewestRow | backend/app/acorns/service.py:44-100 | in good books the cached balance is what the user's newest row states |
| ProgressRewards.Database.PostRow | backend/app/acorns/service.py:44-100 | a posting adds one row and moves the balance, fails on missing user or acorns, and on a taken key falls back to the last commit |
| ProgressRewards.Database.EnsureRow | backend/app/progress/service.py:57-86 | a missing progress row is created, an existing one is returned unchanged |
| ProgressRewards.Database.SaveCheckpoint | backend/app/progress/service.py:89-100 | saving code touches the code and the time, and the status only if this very session had set it to not started |
| ProgressRewards.CountRun | backend/app/progress/service.py:142-155 | the columns a judged run updates whether it solves or not |
| ProgressRewards.Database.TouchRow | backend/app/progress/service.py:141-166 | one target row of the loop; its status counts as unsolved unless this very session has set it to solved |
| ProgressRewards.Database.Record | backend/app/progress/service.py:103-189 | the loop over the target rows, after which every accepted submit of a new session posts the reward, the first one or not |
| ProgressRewards.Database.Commit | backend/app/judge/router.py:113 | the running transaction becomes the committed state |
| ProgressRewards.Database.Rollback | backend/app/acorns/service.py:94-98 | the running transaction falls back to the committed state |
| ProgressRewards.Touched | backend/app/progress/service.py:137-163 | one judged run: one more attempt, solved only by an accepted submit, best score and totals from graded tests only, submitted code only from submits, first solve time kept |
| RewardRuns.HandleRequest | backend/app/progress/service.py:103-189 | each request leaves the committed state its specification says and nothing pending |
| RewardRuns.SaveCheckpoints | backend/app/users/router.py:143-158 | the student's own row and every course row receive the code |
| RewardRuns.BooksAlwaysBalance | backend/app/acorns/service.py:44-100 | in every committed state of every run each balance is the nonnegative sum of the user's rows and equals the newest row's balance, and earned is the sum of the positive rows |
| RewardRuns.RewardIffSolved | backend/app/progress/service.py:156-186 | in every committed state the reward row of a user and problem exists exactly when the own progress row is solved, and only once |
| RewardRuns.RewardTotalIsSolvedRewards | backend/app/progress/service.py:171-186 | in every committed state the rewards paid are the rewards of the solved problems |
| RewardRuns.AcceptedSubmitSolvesAllIff | backend/app/progress/service.py:128-189 | after an accepted submit all target rows are solved exactly when the own row was unsolved before or all were solved already |
| RewardRuns.RewardPaidOnce | backend/app/progress/service.py:170-186 | a judged run pays the reward at the first solve and nothing otherwise |
| RewardRuns.CourseRowLost | backend/app/acorns/service.py:92-98 | a run of requests after which a solved problem has no row in a course joined later |
| RewardRuns.RunTakesEffectIff | backend/app/progress/service.py:140-189 | a judged run changes the tables if and only if it is no accepted submit of a problem solved before; then every target row shows the run and counts it once per target, and otherwise nothing at all changes |
| RewardRuns.ResubmissionIsLost | backend/app/acorns/service.py:92-98 | a run of requests with all rows solved after which a second accepted submit has left no trace |
| RewardRuns.AttemptsAreRunsTakenIn | backend/app/progress/service.py:142 | in every committed state the attempt count of the own row is the number of judged runs without the accepted submits made after the problem was solved |
| RewardRuns.FirstSolvePays | backend/app/progress/service.py:170-189 | the first solve stores the reward row, the balance and the target rows together |
| RewardRuns.OnlyAcceptedSubmitSolves | backend/app/progress/service.py:157-162 | after a judged run the own row is solved exactly if it was before or the run is an accepted submit |
| RewardRuns.TargetsAre | backend/app/progress/service.py:135 | a judged run updates the own row once and every course row as often as the course is named |
| RewardRuns.CheckpointSavesCode | backend/app/progress/service.py:89-100 | after saving, the own row and every course row hold the code; a new row is in progress; nothing else changes |
| PostingLaws.PostOutcome | backend/app/acorns/service.py:64-100 | for a known user and an amount: refused exactly if it would overdraw; else a taken key rolls back and a free one adds one row, moves this balance by the amount and touches nothing else |
| PostingLaws.RenamePaysIff | backend/app/acorns/service.py:69-90 | after every run of requests a rename pays its price exactly if the balance covers it, and changes nothing otherwise |
| PostingLaws.TraceRewardIff | backend/app/progress/service.py:192-204 | after every run of requests the reward for a trace is booked unless it was booked before, and then nothing changes |
| RewardRuns.TargetStatus | backend/app/progress/service.py:134-163 | which course rows are solved after the loop |
| RewardRuns.HandleKeeps | backend/app/progress/service.py:103-204 | every request keeps the books and the link between rewards and solved rows |
| LlmLoop.OneLoopForEveryone | agent/src/tutor_agent/llm_runtime.py:128-151 | for any number of threads and any interleaving at most one loop is made while none closes, and every call that returned got that loop with its thread started |
| LlmLoop.AtMostOneOpenLoop | agent/src/tutor_agent/llm_runtime.py:128-151 | even when loops close, at most one is open at any time and each new one needs a closed predecessor |
| LlmLoop.NeverDeadlocked | agent/src/tutor_agent/llm_runtime.py:128-151 | while a call is in progress some thread can take a step |
| LlmLoop.ReturnedWasOpen | agent/src/tutor_agent/llm_runtime.py:128-151 | the loop a call returns was open at some moment of that call, however threads interleave and loops close |
| LlmLoop.ClosedIsReplaced | agent/src/tutor_agent/llm_runtime.py:128-151 | a call that began after a loop was closed returns another one |
| LlmLoop.ApplyKeeps | agent/src/tutor_agent/llm_runtime.py:128-151 | every step keeps mutual exclusion and the accounting of loops |
| Diff.Collect | backend/app/trace/diff.py:164-184 | the loop gathers line numbers, counters and tags block by block |
| Diff.ComputeDiff | backend/app/trace/diff.py:147-216 | the diff is assembled from them |
| Diff.DiffReports | backend/app/trace/diff.py:162-190 | a line is reported exactly if it lies in a block that is not equal; counts, size, regions and the rounded ratio follow from these lines |
| Diff.TagsCount | backend/app/trace/diff.py:172-178 | the collected tags are those of the reported lines of both texts, each line counted once |
| Diff.LinesReportedOnce | backend/app/trace/diff.py:164-178 | the reported numbers rise, so no line is reported twice |
| Diff.DiffConserves | backend/app/trace/diff.py:164-186 | for every matcher meeting the contract, dropping the deleted lines from the old and the changed lines from the new text leaves the same lines, and the counts balance |
| Diff.RatioBounded | backend/app/trace/diff.py:186-190 | the change ratio lies between 0 and 2 |
| Diff.ZeroChangeIsEqual | backend/app/trace/diff.py:186 | no change means equal texts |
| Diff.PrimaryIsMode | backend/app/trace/diff.py:192-195 | the primary region is the most frequent recognised one, ties going to the higher priority |
| Diff.PrimaryIsMostEdited | backend/app/trace/diff.py:192-195 | the primary region is the recognised one with the most reported lines, ties going to the higher priority, and the catch-all if there is none |
| Diff.OnlyOtherIsOther | backend/app/trace/diff.py:120-128 | it is the catch-all only if nothing was recognised |
| Diff.ModeWins | backend/app/trace/diff.py:120-128 | the tag picked by the priority scan beats every other tag in count or rank |
| Timeline.Collapse | backend/app/trace/timeline.py:124-152 | the loop that edits the end of its output computes the specified collapse |
| Timeline.CollapsedHasNoAdjacentEdits | backend/app/trace/timeline.py:124-152 | no two edits remain side by side |
| Timeline.CollapseConserves | backend/app/trace/timeline.py:124-152 | edit counts, other entries with their order, and regions are all preserved |
| Timeline.RunBecomesOne | backend/app/trace/timeline.py:127-149 | a stretch of edits becomes one entry with the first one's place, the last one's version and headline, the span and the count |
| Timeline.CutsAtOtherEntries | backend/app/trace/timeline.py:150-151 | other entries cut the timeline, and both sides collapse on their own |
| Timeline.CollapseTwice | backend/app/trace/timeline.py:124-152 | collapsing again changes nothing |
| Timeline.BuildTimeline | backend/app/trace/timeline.py:155-198 | entries, summary counters and duration of a log |
| Timeline.EntriesStandForRows | backend/app/trace/timeline.py:91-121 | each entry has the place, time, type and version of its row, and an edit its region |
| Timeline.ShownResults | backend/app/trace/timeline.py:51-61 | as runs and submits the timeline shows exactly the results the monitor scores, and all other results as errors |
| Timeline.ShownSubmits | backend/app/trace/timeline.py:60-61 | and as submits those of them that were submitted |
| Timeline.OtherEntries | backend/app/trace/timeline.py:21-36 | which entries the other rows become |
| Timeline.SubmitRowsAre | backend/app/trace/timeline.py:169-175 | the summary's submits are the result rows of that mode |
| Timeline.EditCountShown | backend/app/trace/timeline.py:163-165 | collapsed or not, the entries stand for exactly the edits counted |
| Timeline.BestIsTheRecord | backend/app/trace/timeline.py:176-178 | the best score shown is the record the monitor measures progress against |
| Nickname.UniqueNickname | backend/app/auth/service.py:68-82 | for every finite set of users the search ends with the first free candidate, of legal characters and length at least 2, and at most 16 while there are fewer than 9 * 10^15 users |
| Nickname.FirstFreeCandidate | backend/app/auth/service.py:76-82 | the loop stops at the first candidate nobody has |
| Nickname.FreeNumber | backend/app/auth/service.py:76-82 | fewer users than numbers of one length leave a free number of that length |
| Nickname.CandidatesDiffer | backend/app/auth/service.py:79-80 | different numbers of one length give different names, compared without case |
| Nickname.DifferentLengthsCollide | backend/app/auth/service.py:79-80 | candidates of different lengths can be the same name |
| Nickname.Base | backend/app/auth/service.py:71-74 | the base has only legal characters and a length from 2 to 16 |
| Nickname.BaseIs | backend/app/auth/service.py:71-74 | the base is the first 16 allowed characters of the name, filled up from the fallback if there are fewer than two |
| Nickname.CleanedDropsOthers | backend/app/auth/service.py:71 | exactly the allowed characters survive, each as often as the name has it |
| Nickname.CleanedPieces | backend/app/auth/service.py:71 | and in the name's order |
| Nickname.SameNameIff | backend/app/auth/service.py:36-42 | two spellings are the same name exactly if they differ in the case of letters only |
| Nickname.CandidateIs | backend/app/auth/service.py:79-80 | a numbered candidate is as much of the base as fits, then the number |
| Nickname.DigitsReadBack | backend/app/auth/service.py:79 | the digits of a number read back as the number |
| Nickname.LegalNameIsItsBase | backend/app/auth/service.py:71-74 | a name that is a legal nickname is kept as it is |
| Dashboard.RecalculateStats | backend/app/educator/service.py:240-250 | the counting loop of the statistics refresh |
| Dashboard.SolvedCountIs | backend/app/educator/service.py:247 | the count is the number of rows marked solved whose problem is due |
| Dashboard.SolvedSetIs | backend/app/educator/service.py:247 | the problems counted are those due with a solved row |
| Dashboard.AttemptsAddUp | backend/app/educator/service.py:248 | attempts add up over all rows |
| Dashboard.SolvedAtMostAssigned | backend/app/educator/service.py:247-250 | with one row per problem nobody solves more than is due, and the rate is a percentage |
| Dashboard.DueOnce | backend/app/educator/service.py:113-136 | which problems are due, each once |
| Dashboard.DashboardAveragesAgree | backend/app/educator/router.py:358-366 | for every class both averages are percentages and at most one point apart |
| Dashboard.AveragesWithinOne | backend/app/educator/router.py:358-366 | three half-point errors add up to at most one point |
| Dashboard.CoincideIffDivides | backend/app/educator/router.py:346-366 | the averages agree for all classes if and only if the number of problems divides 100 |
| Dashboard.SixteenAgainstSeventeen | backend/app/educator/router.py:346-366 | a class of two in which they differ |

## Left out

- The login that expires while a batch is posted: the browser then drops the batch. `CodingTrace.TraceQueue.Send` covers it; the delivery steps do not, because conservation fails with it by design.
- Switching problems and logging out, which discard the queue, and the request sent when the tab is hidden, which truncates to 50 events and clears the queue.
- Creating and resuming the session in the browser: it either yields a session or fails.
- TraceSessions.TraceSession.IngestEvents: the integrity-error path is not modelled; it assumes a concurrent retry of the very same batch, while ingestion is one atomic step here. Client ids that are empty strings are left out too.
- Requests of one session that overlap in time; each request is one step. The ledger's requests are serial for the same reason.
- What the `code_version` column of other client rows means to its readers: the model stores the version loaded at the start of the request, as the code does, and proves nothing about how far it lags.
- Which large change R2 is about: the edit window of the large-change feature has no upper end at the last result, so no claim is made that the accepted code came from that edit.
- Diff.ComputeDiff: does not produce the summary line and the unified diff, which no modelled code reads.
- Evidence and reason strings and other payload fields that no modelled code reads.
- The regular expressions of the line tagger and the text normalization before a diff; lines and tags are given.
- Floating point: ratios are rounded half to even from exact fractions, and times are whole seconds.
- Sorting by sequence number in the timeline; rows arrive ordered.
- Features are grouped into five sub-records instead of one flat record.
- LlmLoop: a step system on values, because interleaving is the point; running coroutines and their timeouts are not part of it.
- Concept tallies, risk scores and learning status of the student statistics, and the other dashboard metrics.
- Signup beyond the nickname and the empty account, badges, avatars, and the text of nickname validation.
- Prompts, HTTP, SQL, tokens and password hashing, containers, and the user interface.
